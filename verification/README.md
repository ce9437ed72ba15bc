# Rayforce core, verified

Rayforce is a columnar database with a Lisp-like query language, Rayfall. This project
models the parts of it whose correctness depends on more than one function, and proves
what they promise.

- **Rayfall compiler and machine** (`Rayfall*.dfy`). `RayfallCompile` is the compiler as a
  function of the source tree, `RayfallCompiler` the compiler as it is written: a byte
  buffer that is appended to and patched, a pool, a table of locals, an error flag.
  `RayfallMachine` is the bytecode loop, `RayfallEval` direct evaluation with one mutable
  frame for each call. Compiled code is shown to mean what its source means, to be well
  formed, and to keep its operand stack and its traps in order on every path
  (`RayfallStack`) and over whole runs (`RayfallRuns`). `RayfallForms` and `RayfallBytes` say
  of each form, as the list it is written as, what it means and which bytes it compiles to,
  and `RayfallPlain` which lambdas are checked. `RayfallWalker` is the tree walker, and
  `RayfallWalked` says when it can stand in for compiled code. Built-in functions, name
  resolution and the special forms are arbitrary functions of the world.
- **Thread pool** (`PoolRange.dfy`, `Pool.dfy`). The dispatch protocol as a state machine
  over single memory accesses of one dispatcher and any number of workers.
- **Wire layer** (`Codec`, `Wire`, `Session`, `Connection`, `Credentials`, `Sync`). The
  compression codec, frames, the two servers' read loops over arbitrary chunks, the
  password check, and the full-duplex request and reply.
- **Timers** (`TimerHeap`, `TimerQueue`, `TimerRuns`). The array heap, the timer set as an
  object, and whole runs of it.
- **Dotted environment** (`PathTree`, `EnvStore`). Nested dictionaries under dotted names,
  in frames and in the global table.
- **Numbers and dates** (`Swar`, `Numparse`, `NumText`, `Calendar`). Word-at-a-time digit
  tests and folds, the integer parser, the decimal part of the float parser, what both make
  of a written number, the civil calendar.

`Wrappers` and `Arithmetic` hold an option type and facts about products and remainders.

## Where the code falls short of its promise

Each of these is a lemma, with the exact condition or a concrete input.

- A dispatch over rows covers them exactly if the number of tasks fits 32 bits or, cut to
  32 bits, still exceeds the ring: `Pool.DispatchProcessesEachRowOnceIff`. With 2^45 rows
  the count is cut to 0 and nothing runs: `Pool.HugeDispatchRunsNothing`.
- A client whose user name and password have more than 253 bytes together is never
  admitted, because the announced length wraps: `Credentials.AdmittedIff`.
- A day decodes to a valid date and back exactly from 0001-01-01 to day 2146753519. The
  last days before the 32-bit limit round to a year whose day count overflows, and before
  year 1 the division goes the other way: `Calendar.DecodeThenEncodeIff`.
- A dotted name reads back what was set unless a nearer frame binds its head, or, after a
  local delete, an outer scope still shows a value: `EnvStore.SetThenGetIff`,
  `EnvStore.ShadowedSetIsNotRead`. The second is a property of the function: the only delete
  in the source is global (src/ops/tblop.c:1462), so no present caller reaches it. A local write that binds or unbinds the head changes
  what unrelated dotted names under it read: `EnvStore.SetElsewhereIff`. A delete undoes
  the set that created a path exactly if no dictionary on the way was empty before:
  `EnvStore.DeleteUndoesSetIff`.
- Two float zeros of different sign share one pool entry (`RayfallTheorems.ConstantChangedIff`),
  and a pool index survives its encoding exactly up to 65536 constants
  (`RayfallTheorems.IndexEncodableIff`).
- A self call does not look at the number of its arguments, although a comment at
  src/lang/eval.c:2589 says the compiler does; `(fn [x] (self))` then calls itself until
  the machine's stack limit: `RayfallTheorems.ShortSelfCallNeverEnds`.
- A parameter named like a built-in is ignored in head position:
  `RayfallTheorems.ShadowedBuiltinIsStillCalled`.
- What is not compiled is evaluated by the tree walker, whose rules differ. A `do` has a
  scope of its own (`RayfallWalker.ScopedDoDiffers`); `return` only gives back its argument
  (`RayfallWalker.ReturnDiffers`); a handler sees 0 and not the error object
  (`RayfallWalker.HandlersDiffer`), exactly unless something was raised or the object is 0 or
  absent (`RayfallWalker.SeesSameIff`); a call is refused for its head or its number of
  arguments before they are evaluated (`RayfallWalker.CallsDiffer`). A whole body means the
  same under both if `return` stands only at its end, no name is read after a `do` that
  bound it, `let` binds no reserved name and not `self`, and calls and handlers on the way
  are alike (`RayfallWalker.WalkedBodyAgrees`); `RayfallWalked.WalkedIsCompiled` gives a
  condition on the source alone. Left out here, and different too: the walker checks the
  number of arguments of `self`, honours names that shadow built-ins and special forms, and shows a
  caller's frames to what it calls.
- The two servers' logs differ exactly in this: the older one evaluates response frames
  that the newer one deposits, and only the newer one answers an empty credential string
  (`Session.LogsDifferIn`). On framed messages behind a login the logs are equal exactly if
  none of them is a response (`Session.SameLogIff`).

## Model

| member | source | states |
|---|---|---|
| RayfallTheorems.CompiledCodePreservesMeaning | src/lang/compile.c:252-632 | A call of a checked lambda that direct evaluation finishes is finished by the machine with the same result or error, the same global bindings and the same pending raise, and while direct evaluation still needs fuel so does the machine; for every host, arguments and world. |
| RayfallTheorems.MachineResultIsMeaning | src/lang/eval.c:2112-2863 | The converse: whatever the machine ends a call with is what the source means, and it is never stuck, unless an unchecked lambda is called on the way. |
| RayfallForms.IfMeans | src/lang/eval.c:1865-1880 | In the list `(if c a b)` it is the second element that decides, and what it leaves goes on into the third if true and into the fourth if not; anything but a value of c is the result. |
| RayfallForms.IfShortMeans | src/lang/compile.c:332-354 | `(if c a)` with c false is 0. |
| RayfallForms.SetMeans | src/lang/eval.c:1832-1848 | `(set x v)` binds the value of v to the global name x and gives it, or fails as the host does. |
| RayfallForms.LetMeans | src/lang/eval.c:1850-1863 | `(let x v)` binds the value of v to the local name x, changes no other name, and gives it. |
| RayfallForms.DoMeans | src/lang/eval.c:1882-1900 | `(do e ...)` evaluates e, then the rest in what e left; the last value is the result, and anything but a value ends it. |
| RayfallForms.ReturnMeans | src/lang/compile.c:399-417 | `(return v)` leaves the lambda with the value of v, `(return)` with null. |
| RayfallForms.TryMeans | src/lang/eval.c:294-325 | `(try b hd)` is b unless b fails; then hd is evaluated in what b left, and a lambda or unary built-in is called with what was raised, else the error object, else 0; any other value is the result. |
| RayfallForms.CallMeans | src/lang/eval.c:3719-3880 | Any list that is no special form evaluates its head, then its arguments from left to right, each in what the one before left, and calls the one with the others. |
| RayfallForms.ArgsMean | src/lang/eval.c:2362-2430 | Arguments are evaluated from left to right, up to the first that gives no value. |
| RayfallForms.SelfMeans | src/lang/compile.c:419-430 | `(self args ...)` calls the running lambda. |
| RayfallForms.WalkedMeans | src/lang/compile.c:365-372 | A `fn` form, or one of a built-in that takes its arguments unevaluated, goes to the tree walker as the whole list. |
| RayfallForms.NameMeans | src/lang/compile.c:526-551 | A name is the local of that name, or else what the host finds under it, or a name error. |
| RayfallForms.ConstantMeans | src/lang/compile.c:552-566 | Everything else stands for itself, quoted symbols and the empty list included. |
| RayfallForms.ArityMeans | src/lang/eval.c:2112-2147 | A compiled lambda with another number of arguments than parameters is an arity error, and nothing changes. |
| RayfallForms.LambdaMeans | src/lang/eval.c:2112-2190 | A checked lambda called with the right number of arguments is its body evaluated as a `do` with its parameters bound and nothing else; an early return is its value. |
| RayfallForms.HostCalls | src/lang/eval.c:2515-2569 | Anything else is called by the host, with the arguments in their order. |
| RayfallForms.ParameterMeans | src/lang/eval.c:2171-2176 | Each parameter is bound to the argument in its place. |
| RayfallForms.CompiledIfMeans | src/lang/compile.c:332-354 | Calling a compiled lambda `(fn params (if c a b))` from outside gives on the machine the value, early return or error of a if c is true of the arguments, and of b if not. |
| RayfallForms.ChoiceCompiles | src/lang/compile.c:572-632 | `(fn [x] (if x 1 2))` compiles to the bytes 4 0 2 0 5 3 0 1 0 2 3 1 0 with the pool [1 2]. |
| RayfallForms.ChoiceGives | src/lang/eval.c:2112-2863 | Called, it gives 1 for a true argument and 2 for another, whatever the host is. |
| RayfallPlain.PlainIsChecked | src/lang/compile.c:252-516 | Every lambda that compiles to at most 65536 constants is checked if its `let`s stand in its body only, self calls have the right number of arguments, no called or assigned built-in is shadowed, special forms mention no local, and +0.0 does not occur. |
| RayfallBytes.IfCompiles | src/lang/compile.c:332-354 | `(if c a b)` is c, opcode 2 over a and the next jump, a, opcode 1 over b, b; and fails exactly if a part does or a jump is longer than 32767 bytes. |
| RayfallBytes.LetCompiles | src/lang/compile.c:293-330 | `(let x v)` is v, 24, 14, 5 and the last slot of x or a new one; and fails exactly if v does, x is reserved, or 256 slots are taken. |
| RayfallBytes.SetCompiles | src/lang/compile.c:266-291 | `(set x v)` is v, then 19 or 20 with a place in the pool where x stands. |
| RayfallBytes.DoCompiles | src/lang/compile.c:356-363 | `(do e ...)` is e, 6, and the code of the rest. |
| RayfallBytes.TryCompiles | src/lang/compile.c:374-397 | `(try b hd)` is opcode 17 over b and its end, b, 18, opcode 1 over the handler, 5 with a slot of its own, hd, 4 with that slot, 23; and fails exactly if a part does, 256 slots are taken, or a jump is too long. |
| RayfallBytes.ReturnCompiles | src/lang/compile.c:399-417 | `return` is its value or null, one 18 for each open trap, 0. |
| RayfallBytes.SelfCompiles | src/lang/compile.c:419-430 | `(self args ...)` is the arguments, 12 and their number, and fails exactly if one does or there are more than 64. |
| RayfallBytes.CallCompiles | src/lang/compile.c:476-516 | A call is its head, or the built-in that the head names, its arguments, and 8, 9, 10 or 11 by the built-in's arity and their number; it fails exactly if a part does or there are more than 64 arguments. |
| RayfallBytes.NameCompiles | src/lang/compile.c:526-551 | A name is 4 and the last slot of the name, or 7 or 16 with a place in the pool where it stands. |
| RayfallBytes.ConstantLoads | src/lang/compile.c:117-159 | A constant is loaded from a place in the pool where it, or one it is taken for, stands; the pool grows by it or not at all. |
| RayfallBytes.LambdaCompiles | src/lang/compile.c:572-632 | A lambda is its body as a `do`, and 0; it fails exactly if the body does or there are more than 256 parameters. |
| RayfallCompile.ScopeCarriesNames | src/lang/compile.c:454-474 | A special form that mentions a local is called between 21 and 22, each behind the list of the names in the slots, in order. |
| RayfallCompile.NoScopeWithoutNames | src/lang/compile.c:446-452 | One that mentions none is called as it stands. |
| RayfallCompile.RefsLocalsIff | src/lang/compile.c:220-248 | A form counts as mentioning a local exactly if the name of one, or `self`, `eval` or `resolve`, occurs anywhere in it, quoted or not. |
| RayfallMeaning.SimReturn | src/lang/compile.c:406-417 | A `return` inside any number of guarded bodies leaves the frame with its value and exactly the traps armed outside it. |
| RayfallMeaning.SimTry | src/lang/eval.c:294-325 | A guarded body and its handler, compiled with a trap, a hidden slot and two jumps, do what direct evaluation says of both outcomes. |
| RayfallCompiler.Compile | src/lang/compile.c:572-632 | The imperative compiler, with its forward jumps patched in place, fails exactly when the compiler function does and otherwise emits the program it describes. |
| RayfallCompiler.Compiler.CompileExpr | src/lang/compile.c:519-569 | From any compiler state, compiling an expression appends the function's code, extends pool and locals as it says, leaves the trap depth, and sets the error flag exactly on failure. |
| RayfallCompiler.Compiler.PatchJump | src/lang/compile.c:178-192 | Patching makes the jump skip exactly the bytes emitted since, or sets the error flag when they are too many. |
| RayfallCode.CompiledCodeIsFormed | src/lang/compile.c:101-192 | Every emitted value is a byte, the code is a sequence of whole instructions ending in RET, and every jump and trap lands on an instruction inside the code. |
| RayfallStack.CompiledCodeIsDisciplined | src/lang/compile.c:332-417 | On every path, whichever way branches go and wherever an instruction fails, no instruction reaches below its frame or the innermost trap, slots and constants exist, traps are closed before RET, and control never leaves the code; such a path has no exit but RET and failure. |
| RayfallStack.ExprSafe | src/lang/compile.c:519-569 | The code of one expression pushes exactly one value, never pops below its entry depth and leaves the traps as they were, except by RET with every trap closed or by failing into an outer trap. |
| RayfallSound.StepFollows | src/lang/eval.c:2191-2720 | One step of the machine from a state that matches a point of such a path leads to a matching successor, enters a callee, leaves the frame, or fails into the innermost trap; it is never stuck. |
| RayfallSound.HandlerFollows | src/lang/eval.c:2704-2716 | The same for the call of a handler, stuck only if the handler's own execution is. |
| RayfallRuns.RunKeeps | src/lang/eval.c:2112-2863 | Over every run of the machine, with any depth of calls, early returns, and failures caught any number of frames down, every frame on the return stack is at each moment at a point of a disciplined path of its own code; the operands lie frame upon frame, and the traps are exactly those armed at the frames' points. |
| RayfallRuns.StepKeeps | src/lang/eval.c:2191-2863 | Every step keeps that: the running frame goes on, enters a callee, hands a value back to the frame below, or fails into the nearest handler, in whatever frame it is. |
| RayfallRuns.StartIsStacked | src/lang/eval.c:2112-2190 | A lambda called from outside begins so, whatever it was compiled from. |
| RayfallRuns.Endings | src/lang/eval.c:2638-2665 | Such a run ends with a value only in the outermost frame with every trap closed, with an error only if no frame has a trap, and stuck only in a dynamic scope or because a handler was. |
| RayfallStack.KeepsRaised | src/lang/eval.c:2575-2598 | Spare operands, which a self call with too many arguments leaves, do not disturb a path. |
| RayfallTheorems.ConstantChangedIff | src/lang/compile.c:129-159 | A constant is stored as another one exactly when it is a float zero and the pool already holds the zero of the other sign, before it if it holds it too. |
| RayfallTheorems.SignedZerosConflated | src/lang/compile.c:129-158 | 0.0 and then -0.0 get one pool entry, which is 0.0. |
| RayfallTheorems.IndexEncodableIff | src/lang/compile.c:117-127 | A pool index reads back from its encoding exactly if it is below 65536. |
| RayfallTheorems.ShortSelfCallNeverEnds | src/lang/compile.c:419-430 | `(fn [x] (self))` compiles to code that returns for no amount of fuel, where the source's rules give an arity error; the static conditions exclude it. |
| RayfallTheorems.ShadowedBuiltinIsStillCalled | src/lang/compile.c:432-516 | A lambda with a parameter named like a built-in calls the built-in whatever the argument is; the static conditions exclude it. |
| RayfallWalker.WalkedBodyAgrees | src/lang/eval.c:2057-2103 | For every host, argument list, world and fuel: a body walked by the tree walker's own rules, every `do` scoped and `return` an ordinary call, ends in the same value or error and world as direct evaluation, if the source is plain (`return` at most at the end, nothing read after the `do` that binds it, no reserved name or `self` bound) and each call and handler on the way is alike under both rules, unless an unchecked lambda is called. |
| RayfallWalked.WalkedIsCompiled | src/lang/eval.c:2050-2059 | A checked lambda that is plain, calls only built-ins known by name and itself, and whose handlers are not called, gives walked what the machine gives for it; as long as the walk needs fuel, so does the machine. |
| RayfallWalked.ChoiceWalks | src/lang/eval.c:2050-2059 | The condition holds of `(fn [x] (if x 1 2))`. |
| RayfallWalked.QuietTame | src/lang/eval.c:3640-3880 | For such source, at any depth, each call is taken by both rules and built-ins stay bound as at compile time. |
| RayfallWalker.WalkAgrees | src/lang/eval.c:1832-1900 | Without `return`, an expression gives the same under both rules, and afterwards the two frames differ at most in the names bound inside a `do`. |
| RayfallWalker.WalkEnds | src/ops/system.c:873-882 | With `return` at the end only, the value returned by the one is the value of the other. |
| RayfallWalker.SeesSameIff | src/lang/eval.c:305-325 | A handler gets the same from both rules exactly if something was raised, or the failure carries no object, or the object is 0. |
| RayfallWalker.ScopedDoDiffers | src/lang/eval.c:1882-1900 | `(do (let x 2) 0) x` with x at 1 is 2 in one frame and 1 walked. |
| RayfallWalker.ReturnDiffers | src/ops/system.c:873-882 | `(do (return 1)) 2` leaves with 1 when compiled and is 2 walked. |
| RayfallWalker.HandlersDiffer | src/lang/eval.c:305-325 | `(try (fail 5) give)` is the error object when compiled and 0 walked. |
| RayfallWalker.CallsDiffer | src/lang/eval.c:3719-3721 | `(give (set x 1) 2)`, one argument too many, sets x when compiled and is an arity error, with nothing set, walked. |
| RayfallWalker.EvalLeaves | src/lang/eval.c:1850-1863 | Evaluating an expression changes the frame at most in the names its `let`s bind. |
| Pool.ReachableSafe | src/core/pool.c:61-114 | In every reachable state, over any number of dispatches and surplus wake-ups, task_claim is at most task_limit, each ticket below it has exactly one owner, and each ticket that was run was run with what was written for it. |
| Pool.StepKeeps | src/core/pool.c:61-378 | Every step of every thread keeps the invariant: cursors and registers agree, held tickets are owned, unfinished and of the window in the ring, and pending counts the unfinished tickets. |
| Pool.NothingTwice | src/core/pool.c:61-78 | No ticket is claimed twice and none is run twice, however far apart in a run. |
| Pool.SwapClaimsFresh | src/core/pool.c:61-78 | A successful swap claims a published ticket of the present window that nobody claimed before. |
| Pool.EnterReadsOwnTask | src/core/pool.c:92-110 | A claimer reads a slot of the live ring that holds exactly what was written for its ticket, which no thread has run. |
| Pool.RingChangesOnlyWhenIdle | src/core/pool.c:276-333 | Slots are written and the ring is moved only while every ticket ever published is claimed and no thread holds one. |
| Pool.BarrierProgress | src/core/pool.c:356-364 | While the dispatcher spins, some worker holds an unfinished ticket and can go on. |
| Pool.NeverStuck | src/core/pool.c:276-378 | In every state a dispatch under way can go on by a step that is neither a retry nor a surplus wake-up, unless another thread claimed between the dispatcher's load and its swap. |
| Pool.ReturnMeansDone | src/core/pool.c:353-378 | A dispatch returns only when its window is fully claimed, no thread holds a ticket and, uncancelled, every ticket has run its own rows. |
| Pool.DispatchProcessesEachRowOnceIff | src/core/pool.c:262-378 | When an uncancelled dispatch over rows returns, each row of [0, total) was processed by exactly one executed ticket and no other row was, if and only if the 32-bit task count was not cut or still exceeds the ring. |
| Pool.HugeDispatchRunsNothing | src/core/pool.c:262-275 | From a fresh pool a dispatch over 2^45 rows comes to return with no ticket run. |
| Pool.DispatchNRunsEachPartOnceIff | src/core/pool.c:384-465 | ray_pool_dispatch_n runs each part exactly once if and only if the ring, once grown, holds them all. |
| Pool.CancelStops | src/core/pool.c:92-113 | While the cancel flag stays set, over any run, nothing is run but tickets that were past the look at the flag when it was set. |
| Pool.CancelledWindowRunsNothing | src/core/pool.c:92-113 | Set before a window is published, it keeps every ticket of the window from being run. |
| Pool.MaskedSlot | src/core/pool.c:101-101 | In every state of the invariant, masking a ticket with capacity - 1 is the remainder by the capacity. |
| Pool.FillWindow | src/core/pool.c:310-327 | Filling the ring in place puts each row range into its own slot and changes no other slot. |
| PoolRange.RowsCoveredIff | src/core/pool.c:262-304 | The split covers [0, total) exactly once, also when the clamp to the ring leaves trailing ranges empty or inverted, if and only if the task count was not cut or still exceeds the ring. |
| PoolRange.GrowCapacity | src/core/pool.c:282-296 | The doubling loop reaches the function's capacity. |
| Codec.RoundTrip | src/core/ipc.c:74-160 | Whatever compress accepts, decompress gives back with its length, for every input and buffer size. |
| Codec.EncodeBound | src/core/ipc.c:87-119 | Three times the encoded length is at most four times the input plus 2, and plus 0 behind a literal shorter than 128. |
| Codec.RoomForAll | src/core/ipc.c:87-119 | A buffer of (4 * len + 2) / 3 bytes never overflows. |
| Codec.RunsAreWritten | src/core/ipc.c:91-100 | 2 to 127 equal differences, as long as they go, are written as their number and the byte. |
| Codec.LiteralsAreWritten | src/core/ipc.c:101-115 | 1 to 128 differences up to the next two equal ones are written as they are behind 256 less their number. |
| Codec.RunsAreRead | src/core/ipc.c:130-140 | A run is read back, and refused exactly if the byte or the room is missing. |
| Codec.LiteralsAreRead | src/core/ipc.c:141-149 | So is a literal. |
| Codec.UndeltaAddsUp | src/core/ipc.c:152-156 | Each byte is the sum of the differences up to it, modulo 256. |
| Codec.DeltaLeads | src/core/ipc.c:83-85 | Each difference leads from its byte to the next, modulo 256, and the first is the first byte. |
| Codec.Compress | src/core/ipc.c:74-120 | The loops over the buffers write exactly the compressed form, and return 0 exactly when there is none or it does not fit. |
| Codec.Decompress | src/core/ipc.c:122-160 | The loops over the buffers write exactly the decompressed bytes, and return 0 exactly when the input is malformed or too long. |
| Wire.ReceivedIff | src/core/ipc.c:424-450 | A message arrives as it was sent, compressed or not, exactly if it has at most 256 MB. |
| Wire.HeaderRoundTrip | src/core/ipc.c:868-891 | A header reads back as written exactly if its size is from 1 to 256 MB, and is refused otherwise. |
| Wire.HeaderAcceptedIff | src/core/ipc.c:868-891 | Sixteen bytes are accepted as a header exactly if they start with fa de fa ce, byte 4 is 3, byte 6 is 0 and the size is from 1 to 268435456; and they are then the bytes that are written for it. |
| Wire.HeaderLayout | src/store/serde.h:58-67 | The sixteen bytes of a header, the size with its least significant byte first. |
| Wire.SentAsItIsIff | src/core/ipc.c:1478-1533 | A payload is sent as it is exactly if it has at most 2000 bytes or compressing does not save more than four; else the flag is set and the body is the length in four bytes and the compressed form. |
| Wire.WriteMessage | src/core/ipc.c:1478-1533 | Writing a payload produces the frame of the message, compressed exactly when that saves more than the four bytes of the length. |
| Wire.Unpack | src/core/ipc.c:424-450 | The receiver's unpacking is the function for every flag byte and body, malformed ones too. |
| Session.FeedConcat | src/core/ipc.c:690-705 | How recv cuts the stream does not matter. |
| Session.Delivery | src/core/ipc.c:868-980 | For any list of sendable messages the reader hands over one event for each, in order, whose body unpacks to that payload, and nothing else, and is ready for the next header. |
| Session.SessionDelivers | src/core/ipc.c:774-980 | A whole stream of login and framed messages leads to the greeting and exactly those messages. |
| Session.LogsDifferIn | src/core/ipc.c:1076-1214 | For every byte stream the newer server's whole log, answers and openings included, is the older one's with evaluated response frames turned into deposited ones, plus one refusal exactly when a password is set and the announced credentials are empty. |
| Session.SameLogIff | src/core/ipc.c:893-980 | On framed messages behind a login the two logs are equal exactly if no message is a response. |
| Session.ServersAgree | src/core/ipc.c:1123-1150 | So for every byte stream the two servers evaluate the same requests in the same order. |
| Session.ServesIffAuthorized | src/core/ipc.c:774-866 | Either server opens a connection or takes a frame if and only if the stream starts with the version and, with a password set, with accepted credentials. |
| Session.RefusedHears | src/core/ipc.c:774-866 | The whole log of any stream that is not authorized, for both servers: nothing before or for a wrong version; else [3 1]; and after complete credentials [1], except that the older server does not answer empty ones. |
| Session.BadHeaderEnds | src/core/ipc.c:868-891 | Behind a login and any messages, sixteen bytes that are no header end it: nothing after them is taken. |
| Connection.PollConn.OnReadable | src/core/epoll.c:207-256 | The poll server's read loop, with its buffer reused or replaced between phases, does to its state what the byte machine does with the bytes received, however recv splits them. |
| Connection.PollConn.RxRequest | src/core/poll.c:66-79 | A request for n bytes leaves a buffer of that size at offset 0, the old one where it fits. |
| Connection.LegacyConn.Serve | src/core/ipc.c:1194-1214 | The older server's read loop does to its state what the byte machine does with the bytes received. |
| Connection.ServePoll | src/core/ipc.c:736-980 | For any chunks, the log is the byte machine's; where they join to a login and framed messages, it is the greeting and exactly those messages, and where they are not authorized it is the refusal. |
| Connection.ServeLegacy | src/core/ipc.c:1076-1214 | The same for the older server. |
| Connection.ServeBoth | src/core/ipc.c:1076-1214 | The two servers on one stream, chunked differently, have the logs that `Session.LogsDifferIn` says, evaluate the same requests, and each serves only an authorized stream. |
| Credentials.AdmittedIff | src/core/ipc.c:170-235 | A user without a colon in the name is admitted exactly with the right password and at most 253 bytes of both together. |
| Credentials.ClientSends | src/core/ipc.c:1578-1594 | The client sends the length byte, the user, a colon, the password and a NUL, 0 as the length of 256, and nothing if user and password have more than 254 bytes. |
| Credentials.PasswordSent | src/core/ipc.c:184-199 | What the server takes for the password is what was sent as it. |
| Credentials.PasswordWithoutColon | src/core/ipc.c:184-199 | Without a colon, all the credentials are the password, but for one final NUL. |
| Credentials.ClientServedIff | src/core/ipc.c:1576-1596 | Either server opens the connection of such a client exactly then. |
| Sync.RepliesMatch | src/core/ipc.c:1666-1747 | In every run of two peers, for any nesting of asynchronous frames and reverse requests, each direction has at most one outstanding sync request and every finished send returned the reply to its own request. |
| Sync.EveryRequestIsEvaluated | src/core/ipc.c:893-980 | In every run and in each direction, the requests a peer has begun to evaluate, followed by those in its inbox, are exactly the asynchronous and sync ones the other has sent, in order, each once. |
| Sync.SentGrow | src/core/ipc.c:1666-1747 | All requests sent have numbers of their own, which grow. |
| Sync.ReturnHands | src/core/ipc.c:1710-1722 | A returning send hands over the reply to its own request, and its wait is over. |
| Sync.ReturnsCount | src/core/ipc.c:1666-1747 | There are as many finished sends as returns in the run. |
| Sync.NoResponseLost | src/core/ipc.c:893-930 | A response arrives only while a wait without a reply is under way, and is deposited for it. |
| Sync.NoDeadlock | src/core/ipc.c:1448-1476 | While a peer waits, one of the two can take a frame, finish an evaluation or pick up a reply. |
| TimerHeap.RemovedHeap | src/core/timer.c:147-163 | Moving the tail into any index and sifting down, then up, restores heap order and leaves exactly the other timers. |
| TimerHeap.RootLeast | src/core/timer.c:81-84 | In a heap no timer is before the root. |
| TimerHeap.HeapRemove | src/core/timer.c:86-114 | The sifts in place on the array do what the functions on sequences do. |
| TimerQueue.Timers.Add | src/core/timer.c:128-145 | The timer joins the sorted queue under a fresh id, and ids stay unique. |
| TimerQueue.Timers.Del | src/core/timer.c:147-163 | Deletes exactly the timer of that id, and tells whether there was one. |
| TimerQueue.Timers.NextDeadline | src/core/timer.c:165-168 | The deadline of the first timer in the sorted queue, or the largest 64-bit value without one. |
| TimerQueue.Timers.FireExpired | src/core/timer.c:170-228 | The firing loop fires and reschedules exactly as the sorted queue says, for any sequence of clock readings. |
| TimerRuns.FiresLeast | src/core/timer.c:170-186 | Every fire takes the pending timer with the least deadline and id. |
| TimerRuns.RunGuarantee | src/core/timer.c:170-228 | In every run under a clock that never goes back: fired deadlines never decrease, the k-th fire of a timer is due k - 1 intervals after its first deadline, and an undeleted timer with num >= 1 is gone exactly when it has fired num times, never more. |
| TimerRuns.TimersAreAdditions | src/core/timer.c:128-145 | The timers of a run are its additions, numbered in order, each first due its interval after the clock at its addition. |
| TimerRuns.DeletedIsGone | src/core/timer.c:147-163 | A pending timer that is deleted never fires again in any continuation, and no other timer is touched. |
| TimerRuns.FiresWhatIsDue | src/core/timer.c:170-228 | Each timer fired was due at the clock read before it, and when the loop ends nothing left is due. |
| TimerRuns.BatchIsRun | src/core/timer.c:170-228 | One call of the firing loop is such a run of single fires. |
| TimerRuns.FrozenClockEnds | src/core/timer.c:170-228 | With a frozen clock and positive intervals the loop ends, after exactly as many fires as intervals are overdue. |
| EnvStore.SetThenGetIff | src/lang/env.c:446-551 | After a successful dotted set or delete, to the top frame or the global table, the name reads as written exactly if the whole name is not bound otherwise, no nearer frame shows another value under the head, and no outer scope shows one once a local delete has unbound the head; an error changes nothing. |
| EnvStore.BoundAtErrorIff | src/lang/env.c:446-551 | A dotted write or delete is a type error exactly if a value on the way is there and is no dictionary; a write finds no room exactly if it is none, its head is new and the table is full; all others succeed. |
| EnvStore.WriteErrorIff | src/lang/env.c:775-789 | The same for a write to the top frame, which never is full, and to the global table, which is with 1024 names. |
| EnvStore.BoundIff | src/lang/env.c:340-395 | A plain write fails exactly if the name is new and the table full, and a delete never; afterwards the name is as written and no other is touched. |
| EnvStore.MarkedIff | src/lang/env.c:340-395 | A user's write marks its name, another leaves the mark as it was, a delete takes it away and a refusal changes none. |
| EnvStore.NearestReads | src/lang/env.c:188-200 | A name reads as the nearest frame that binds it says, and as the global table says if none does. |
| EnvStore.ShadowedSetIsNotRead | src/lang/env.c:202-236 | A global set of a dotted name whose head a frame binds succeeds and stays unread. |
| EnvStore.SetElsewhereIff | src/lang/env.c:775-789 | A name whose path is neither prefix nor extension of the one written reads as before, exactly unless a local write binds or unbinds the head and an outer scope has a value there. |
| EnvStore.DeleteLeavesNoEmpty | src/lang/env.c:481-548 | A delete leaves no dictionary on the way up empty, and unbinds an emptied head. |
| EnvStore.DeleteUndoesSetIff | src/lang/env.c:481-548 | Deleting what a set created brings back the whole table, exactly if no dictionary on the way was empty before. |
| PathTree.RemoveEmptiesIff | src/lang/env.c:510-548 | A delete leaves nothing exactly if every dictionary on the way holds only the next name of the path. |
| PathTree.PutRefusedIff | src/lang/env.c:452-474 | A write is refused exactly if a value on the way is there and is not a dictionary. |
| PathTree.AtMeans | src/lang/env.c:224-227 | Below a value a name is an entry of a dictionary or a column of a table, and nothing otherwise. |
| PathTree.RemoveCases | src/lang/env.c:481-505 | A delete is refused exactly when a write would be, and does nothing only where the path is undefined. |
| EnvStore.SetDotted | src/lang/env.c:446-551 | Walking the chain, rebuilding it bottom-up and cascading through emptied dictionaries does to the table what the function on nested dictionaries says. |
| EnvStore.Bindings.Bind | src/lang/env.c:340-444 | Binding, overwriting or deleting in the slot arrays, with compaction, growth or the fixed capacity, is the update of the map, and marks user-written names. |
| EnvStore.EnvGet | src/lang/env.c:185-236 | Looking a name up through frames and table, then through its segments, gives what the dotted name means. |
| Swar.TestIsExact | src/core/numparse.c:52-66 | The wrapping subtract, add, or, and mask test passes exactly if all bytes are digits. |
| Swar.Fold8IsNumber | src/core/numparse.c:76-102 | On eight digits the three folds modulo 2^64 give the decimal value. |
| Swar.Fold4IsNumber | src/core/numparse.c:104-115 | On four digits the two folds modulo 2^32 give the decimal value. |
| Numparse.ParseI64 | src/core/numparse.c:123-179 | Returns the length of sign and maximal digit run, and stores the value, if and only if there is a digit and the value fits 64 bits; else returns 0 and stores nothing. |
| NumText.IntegerOfText | src/core/numparse.c:123-179 | The decimal digits of a 64-bit v, behind any number of zeros, with a minus if negative or an optional plus if not, parse to their end and v, whatever follows that is no digit; a v outside 64 bits is refused. |
| NumText.NoInteger | src/core/numparse.c:123-140 | Without a digit behind the sign there is no integer. |
| Numparse.Accumulate | src/core/numparse.c:141-163 | The unsigned accumulator holds the exact value and never wraps; more than 19 significant digits are refused. |
| Numparse.ExtractDecimal | src/core/numparse.c:269-341 | mantissa * 10^offset <= value < (mantissa + 1) * 10^offset with mantissa below 10^18, and equality unless 18 significant digits were kept, so whenever there are at most 15. |
| NumText.DecimalOfText | src/core/numparse.c:269-341 | The digits of n, a point, y zeros and the digits of m are read as the one number n * 10^k + m with k digits behind the point. |
| NumText.WholeOfText | src/core/numparse.c:269-341 | Without a point, or with nothing behind it, they are n. |
| NumText.PointOfText | src/core/numparse.c:306-341 | A number may begin with its point. |
| NumText.NoDecimal | src/core/numparse.c:305-343 | Without a digit before or behind the point there is none. |
| Numparse.ParseExponent | src/core/numparse.c:345-370 | The exponent is its digits' value, cut off at 10000, with its sign; an `e` without digits is not part of the number. |
| NumText.ExponentOfText | src/core/numparse.c:345-370 | Behind e or E, a sign or none, zeros and the digits of v give v up to 10000 with that sign, to the end of the digits. |
| NumText.NoExponent | src/core/numparse.c:345-367 | Without an e, or with no digit behind it and its sign, there is none, and nothing is read. |
| Calendar.OneCorrection | src/lang/cal.h:48-54 | With a quotient within a quarter of a year, the rounded year is right or one too high, and the one correction finds the year. |
| Calendar.DecodeThenEncodeIff | src/lang/cal.h:48-83 | For every day whose offset fits 32 bits, decoding gives a valid date that encodes back exactly from 0001-01-01 to day 2146753519. |
| Calendar.EncodeThenDecodeIff | src/lang/cal.h:74-83 | A date whose number fits comes back from it exactly if it is valid and not after that day. |
| Calendar.EncodeIncreasesIff | src/lang/cal.h:74-83 | One valid date has a smaller number than another exactly if it is earlier. |
| Calendar.DecodeFollowsCalendar | src/lang/cal.h:48-71 | Day 0 is 2000-01-01, and the date of the next day is the day after by the month lengths and leap rule of Appendix C of RFC 3339. |
| Calendar.DateToYmd | src/lang/cal.h:48-71 | The correction and the month loop compute the decoded date. |

## Left out

- RayfallTheorems.CompiledCodePreservesMeaning: covers checked lambdas, which read no local before its `let`, pass self calls the right number of arguments, do not shadow a built-in they call, hold float zeros of at most one sign and use at most 65536 constants.
- RayfallSound.StepFollows: does not cover OP_SCOPE_BEGIN and OP_SCOPE_END, which materialize locals for the tree walker; special forms that mention locals are outside the checked language.
- RayfallRuns.RunKeeps: every lambda entered on the way has disciplined code, which `RayfallStack.CompiledCodeIsDisciplined` gives for a body that is not empty.
- RayfallStack.CompiledCodeIsDisciplined: covers bodies without error objects in the source tree, for which the compiler emits nothing, and with at most 65536 constants.
- RayfallWalker.WalkedBodyAgrees: one way only; a body outside the condition may still agree on some arguments. Calls and special forms are the same operations under both rules, so a callee does not see the walker's frames.
- RayfallWalked.WalkedIsCompiled: one way only, for the same reason.
- Names that shadow special forms in the walker, literals that name columns of an active query, and calls that fall back to the list itself.
- Calendar.DecodeThenEncodeIff: the floating quotient is any real within 1/146097 of the exact one, which double precision meets.
- Sync.RepliesMatch: a peer may stop taking frames at any point, which allows more interleavings than conn_pump.
- Pool.StepKeeps: memory is sequentially consistent, and ring growth copies what was there.
- The reference evaluator has one mutable frame for each call, as src/lang/env.c:661-666 describes it, not the tree walker's scopes.
- The machine's stack, frame and trap limits, interrupts, restricted built-ins, profiling and debug spans, and reference counts.
- Built-in calls: OP_CALL1 and OP_CALL2 map atomic built-ins over vectors and refuse null, OP_CALLF does neither, and the walker also lets `ser` take null; one arbitrary function stands for all of them.
- Lazy values: OP_FORCE is the identity.
- `self` used as a value, lambdas with duplicate parameter names, and built-ins rebound behind compiled code's back.
- Pool.DispatchProcessesEachRowOnceIff: does not cover totals within 65536 of the 64-bit limit, where the end of a range overflows in the source.
- The pool's semaphores, shutdown, per-thread heaps, progress and profiling.
- Sockets, out-of-band cancel, restricted mode, journals and the open, close, request and error hooks; the authentication hook is part of the acceptance predicate. Sends always succeed.
- Serialization of values: payloads are byte strings; payloads of 2^32 bytes and more, whose stored length would be cut.
- 64-bit overflow of deadlines, and callbacks that add or delete timers; ray_timers_pump_for.
- Allocation failure, except that the pool's ring may fail to grow.
- Locks on the environment, reserved names, pushing and popping scopes, dictionaries with typed-vector values, and dotted names of more than 256 segments.
- ray_parse_u64_hex, nan and inf, and the scaling by a power of ten in ray_parse_f64.
