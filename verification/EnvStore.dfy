/** Binding tables, and dotted names over them. */
module EnvStore {
  import opened Wrappers
  import opened PathTree

  datatype Err = Ok | TypeErr | Oom

  const ENV_CAP: nat := 1024
  const FRAME_CAP: nat := 64
  const MAX_SEGS: nat := 256

  type Scope = map<nat, Value>

  function Get(s: Scope, k: nat): Option<Value> { if k in s then Some(s[k]) else None }

  /** Binding or, with None, unbinding one name.  `limit`: the table's fixed capacity. */
  function Bound(s: Scope, limit: Option<nat>, k: nat, v: Option<Value>): (Err, Scope) {
    if v.None? then (Ok, s - {k})
    else if k !in s && limit.Some? && |s| >= limit.value then (Oom, s)
    else (Ok, s[k := v.value])
  }

  /** Writing or deleting under a dotted name: the head is bound in this scope. */
  function BoundAt(s: Scope, limit: Option<nat>, p: Path, v: Option<Value>): (Err, Scope)
    requires |p| >= 2
  {
    if v.Some? then
      match Put(Get(s, p[0]), p[1..], v.value)
      case None => (TypeErr, s)
      case Some(u) => Bound(s, limit, p[0], Some(u))
    else if p[0] !in s then (Ok, s)
    else
      match Remove(s[p[0]], p[1..])
      case Refused => (TypeErr, s)
      case Absent => (Ok, s)
      case Cut(rest) => Bound(s, limit, p[0], rest)
  }

  // ---------- a table's rows ----------

  datatype Row = Row(key: nat, val: Value, user: bool)

  /** The slot of a name, or the number of rows. */
  function Index(rows: seq<Row>, k: nat): (i: nat)
    ensures i <= |rows| && (i < |rows| ==> rows[i].key == k) && forall j :: 0 <= j < i ==> rows[j].key != k
  {
    if rows == [] || rows[0].key == k then 0 else 1 + Index(rows[1..], k)
  }

  ghost predicate Distinct(rows: seq<Row>) {
    forall i, j :: 0 <= i < j < |rows| ==> rows[i].key != rows[j].key
  }

  function Binds(rows: seq<Row>): Scope {
    if rows == [] then map[] else Binds(rows[1..])[rows[0].key := rows[0].val]
  }

  function Users(rows: seq<Row>): set<nat> {
    if rows == [] then {} else (if rows[0].user then {rows[0].key} else {}) + Users(rows[1..])
  }

  function Without(rows: seq<Row>, i: nat): (r: seq<Row>)
    requires i < |rows|
    ensures |r| == |rows| - 1 && forall j :: 0 <= j < |r| ==> r[j] == if j < i then rows[j] else rows[j + 1]
  {
    rows[..i] + rows[i + 1..]
  }

  lemma {:induction false} BindsIndex(rows: seq<Row>, k: nat)
    ensures k in Binds(rows) <==> Index(rows, k) < |rows|
    ensures k in Binds(rows) ==> Binds(rows)[k] == rows[Index(rows, k)].val
    ensures k in Users(rows) ==> k in Binds(rows)
    decreases |rows|
  {
    if rows != [] { BindsIndex(rows[1..], k); }
  }

  lemma {:induction false} BindsSize(rows: seq<Row>)
    requires Distinct(rows)
    ensures |Binds(rows)| == |rows|
    decreases |rows|
  {
    if rows != [] {
      BindsSize(rows[1..]);
      BindsIndex(rows[1..], rows[0].key);
      assert rows[0].key !in Binds(rows[1..]);
    }
  }

  lemma DistinctWithout(rows: seq<Row>, i: nat)
    requires Distinct(rows) && i < |rows|
    ensures Distinct(Without(rows, i))
  {
  }

  lemma {:induction false} BindsWithout(rows: seq<Row>, i: nat)
    requires Distinct(rows) && i < |rows|
    ensures Distinct(Without(rows, i)) && Binds(Without(rows, i)) == Binds(rows) - {rows[i].key}
    ensures Users(Without(rows, i)) == Users(rows) - {rows[i].key}
    decreases |rows|
  {
    DistinctWithout(rows, i);
    if i == 0 {
      assert Without(rows, i) == rows[1..];
      BindsIndex(rows[1..], rows[0].key);
    } else {
      assert rows[1..][i - 1] == rows[i];
      BindsWithout(rows[1..], i - 1);
      BindsWithoutStep(rows, i);
    }
  }

  /** A row behind the first is left out of the rest. */
  lemma BindsWithoutStep(rows: seq<Row>, i: nat)
    requires 0 < i < |rows| && rows[0].key != rows[i].key
    requires Binds(Without(rows[1..], i - 1)) == Binds(rows[1..]) - {rows[i].key}
    requires Users(Without(rows[1..], i - 1)) == Users(rows[1..]) - {rows[i].key}
    ensures Binds(Without(rows, i)) == Binds(rows) - {rows[i].key}
    ensures Users(Without(rows, i)) == Users(rows) - {rows[i].key}
  {
    var r := Without(rows, i);
    assert r[1..] == Without(rows[1..], i - 1) && r[0] == rows[0];
  }

  lemma {:induction false} BindsUpdate(rows: seq<Row>, i: nat, r: Row)
    requires Distinct(rows) && i < |rows| && r.key == rows[i].key
    ensures Distinct(rows[i := r]) && Binds(rows[i := r]) == Binds(rows)[r.key := r.val]
    ensures Users(rows[i := r]) == if r.user then Users(rows) + {r.key} else Users(rows) - {r.key}
    decreases |rows|
  {
    if i == 0 {
      assert rows[0 := r][1..] == rows[1..];
      BindsIndex(rows[1..], r.key);
    } else {
      BindsUpdate(rows[1..], i - 1, r);
      assert rows[i := r][1..] == rows[1..][i - 1 := r];
      assert rows[1..][i - 1] == rows[i] && rows[0].key != r.key;
    }
  }

  lemma {:induction false} BindsAppend(rows: seq<Row>, r: Row)
    requires Distinct(rows) && Index(rows, r.key) == |rows|
    ensures Distinct(rows + [r]) && Binds(rows + [r]) == Binds(rows)[r.key := r.val]
    ensures Users(rows + [r]) == Users(rows) + (if r.user then {r.key} else {})
    decreases |rows|
  {
    DistinctAppend(rows, r);
    if rows == [] {
      assert [] + [r] == [r] && [r][1..] == [];
    } else {
      BindsAppend(rows[1..], r);
      BindsAppendStep(rows, r);
    }
  }

  lemma DistinctAppend(rows: seq<Row>, r: Row)
    requires Distinct(rows) && Index(rows, r.key) == |rows|
    ensures Distinct(rows + [r])
  {
  }

  /** A row goes behind the rest. */
  lemma BindsAppendStep(rows: seq<Row>, r: Row)
    requires rows != [] && rows[0].key != r.key
    requires Binds(rows[1..] + [r]) == Binds(rows[1..])[r.key := r.val]
    requires Users(rows[1..] + [r]) == Users(rows[1..]) + (if r.user then {r.key} else {})
    ensures Binds(rows + [r]) == Binds(rows)[r.key := r.val]
    ensures Users(rows + [r]) == Users(rows) + (if r.user then {r.key} else {})
  {
    assert (rows + [r])[1..] == rows[1..] + [r] && (rows + [r])[0] == rows[0];
  }

  // ---------- one table ----------

  /** The global table (fixed: ENV_CAP slots) or a scope frame (growing). */
  class Bindings {
    const fixed: bool
    var keys: array<nat>
    var vals: array<Value>
    var user: array<bool>
    var count: nat
    ghost var rows: seq<Row>

    ghost predicate Valid()
      reads this, keys, vals, user
    {
      && 0 < keys.Length == vals.Length == user.Length && |rows| == count <= keys.Length && (fixed ==> keys.Length == ENV_CAP)
      && Distinct(rows) && Stored()
    }

    ghost predicate Stored()
      requires |rows| <= keys.Length && |rows| <= vals.Length && |rows| <= user.Length
      reads this, keys, vals, user
    {
      forall i :: 0 <= i < |rows| ==> keys[i] == rows[i].key && vals[i] == rows[i].val && user[i] == rows[i].user
    }

    ghost function Limit(): Option<nat> { if fixed then Some(ENV_CAP) else None }

    constructor (fixed: bool)
      ensures Valid() && this.fixed == fixed && rows == []
      ensures fresh(keys) && fresh(vals) && fresh(user)
    {
      this.fixed := fixed;
      var cap := if fixed then ENV_CAP else FRAME_CAP;
      keys, vals, user := new nat[cap], new Value[cap](i => Atom(0)), new bool[cap];
      count, rows := 0, [];
    }

    method Find(k: nat) returns (i: nat)
      requires Valid()
      ensures i == Index(rows, k)
    {
      i := 0;
      while i < count && keys[i] != k
        invariant i <= count && forall j :: 0 <= j < i ==> rows[j].key != k
      {
        i := i + 1;
      }
    }

    method Lookup(k: nat) returns (v: Option<Value>)
      requires Valid()
      ensures v == Get(Binds(rows), k)
    {
      BindsIndex(rows, k);
      var i := Find(k);
      if i == count { return None; }
      return Some(vals[i]);
    }

    /** Closes the gap at i by moving the later slots down. */
    method Compact(i: nat)
      requires Valid() && i < count
      modifies this`count, this`rows, keys, vals, user
      ensures Valid() && rows == Without(old(rows), i)
    {
      var j := i;
      while j + 1 < count
        invariant i <= j < count == |rows| && rows == old(rows)
        invariant forall m :: 0 <= m < j ==>
          && keys[m] == Without(rows, i)[m].key && vals[m] == Without(rows, i)[m].val
          && user[m] == Without(rows, i)[m].user
        invariant forall m :: j < m < count ==> keys[m] == rows[m].key && vals[m] == rows[m].val && user[m] == rows[m].user
      {
        keys[j], vals[j], user[j] := keys[j + 1], vals[j + 1], user[j + 1];
        j := j + 1;
      }
      DistinctWithout(rows, i);
      count, rows := count - 1, Without(rows, i);
    }

    method Grow()
      requires Valid() && !fixed
      modifies this`keys, this`vals, this`user
      ensures Valid() && keys.Length == 2 * old(keys.Length) && fresh(keys) && fresh(vals) && fresh(user)
    {
      var nk, nv, nu := new nat[2 * keys.Length], new Value[2 * keys.Length](i => Atom(0)), new bool[2 * keys.Length];
      forall i | 0 <= i < count { nk[i] := keys[i]; }
      forall i | 0 <= i < count { nv[i] := vals[i]; }
      forall i | 0 <= i < count { nu[i] := user[i]; }
      keys, vals, user := nk, nv, nu;
    }

    method Append(k: nat, v: Value, isUser: bool)
      requires Valid() && count < keys.Length && Index(rows, k) == |rows|
      modifies this`count, this`rows, keys, vals, user
      ensures Valid() && rows == old(rows) + [Row(k, v, isUser)]
    {
      keys[count], vals[count], user[count] := k, v, isUser;
      BindsAppend(rows, Row(k, v, isUser));
      count, rows := count + 1, rows + [Row(k, v, isUser)];
    }

    /** Overwrites or unbinds a name that has a slot. */
    method Rebind(i: nat, v: Option<Value>, isUser: bool)
      requires Valid() && i < count
      modifies this`count, this`rows, keys, vals, user
      ensures Valid() && var k := old(rows)[i].key;
        && Binds(rows) == (if v.None? then Binds(old(rows)) - {k} else Binds(old(rows))[k := v.value])
        && Users(rows) == Marked(Users(old(rows)), Ok, k, v.Some?, isUser)
    {
      if v.None? {
        BindsWithout(rows, i);
        Compact(i);
        return;
      }
      ghost var r := Row(keys[i], v.value, user[i] || isUser);
      BindsUpdate(rows, i, r);
      StaysUser(rows, i);
      vals[i] := v.value;
      if isUser { user[i] := true; }
      rows := rows[i := r];
    }

    /** Adds a name that has no slot. */
    method Insert(k: nat, v: Value, isUser: bool) returns (e: Err)
      requires Valid() && Index(rows, k) == |rows|
      modifies this, keys, vals, user
      ensures Valid() && (keys == old(keys) || fresh(keys)) && (vals == old(vals) || fresh(vals)) && (user == old(user) || fresh(user))
      ensures e == if fixed && old(count) >= ENV_CAP then Oom else Ok
      ensures e == Oom ==> rows == old(rows)
      ensures e == Ok ==> Binds(rows) == Binds(old(rows))[k := v] && Users(rows) == Marked(Users(old(rows)), Ok, k, true, isUser)
    {
      if count >= keys.Length {
        if fixed { return Oom; }
        Grow();
      }
      BindsAppend(rows, Row(k, v, isUser));
      Append(k, v, isUser);
      return Ok;
    }

    /** Binds, overwrites or unbinds; a user's write marks the slot until it is deleted. */
    method Bind(k: nat, v: Option<Value>, isUser: bool) returns (e: Err)
      requires Valid()
      modifies this, keys, vals, user
      ensures Valid() && (e, Binds(rows)) == Bound(Binds(old(rows)), Limit(), k, v)
      ensures Users(rows) == Marked(Users(old(rows)), e, k, v.Some?, isUser)
      ensures (keys == old(keys) || fresh(keys)) && (vals == old(vals) || fresh(vals)) && (user == old(user) || fresh(user))
    {
      BindsIndex(rows, k);
      BindsSize(rows);
      var i := Find(k);
      if i < count {
        Rebind(i, v, isUser);
        return Ok;
      }
      if v.None? {
        Untouched(Binds(rows), Users(rows), k);
        return Ok;
      }
      e := Insert(k, v.value, isUser);
    }
  }

  lemma Untouched(s: Scope, users: set<nat>, k: nat)
    requires k !in s && k !in users
    ensures s - {k} == s && users - {k} == users
  {
  }

  /** The names last written by a user. */
  function Marked(users: set<nat>, e: Err, k: nat, written: bool, isUser: bool): set<nat> {
    if e != Ok then users else if !written then users - {k} else if isUser then users + {k} else users
  }

  lemma {:induction false} StaysUser(rows: seq<Row>, i: nat)
    requires Distinct(rows) && i < |rows|
    ensures rows[i].key in Users(rows) <==> rows[i].user
    decreases |rows|
  {
    BindsIndex(rows[1..], rows[0].key);
    if i > 0 {
      StaysUser(rows[1..], i - 1);
      assert rows[0].key != rows[i].key;
    }
  }

  // ---------- dotted names ----------

  /** parents[i]: the value at segments 0..i, all dictionaries; None from the first missing one. */
  ghost predicate Walked(head: Option<Value>, p: Path, parents: array<Option<Value>>, n: nat)
    requires n <= |p| <= parents.Length && (n > 0 ==> p != [])
    reads parents
  {
    forall i :: 0 <= i < n ==> parents[i] == At(head, p[1..i + 1]) && (parents[i].Some? ==> parents[i].value.Dict?)
  }

  lemma AtNext(head: Option<Value>, p: Path, i: nat)
    requires 0 < i < |p|
    ensures At(head, p[1..i + 1]) == Child(At(head, p[1..i]), p[i])
  {
    AtConcat(head, p[1..i], [p[i]]);
    assert p[1..i + 1] == p[1..i] + [p[i]];
  }

  /** The chain down to the leaf's parent; false: a value on the way is not a dictionary. */
  method Walk(head: Option<Value>, p: Path, parents: array<Option<Value>>) returns (ok: bool)
    requires 2 <= |p| <= parents.Length
    modifies parents
    ensures ok ==> Walked(head, p, parents, |p| - 1)
    ensures (!ok <==> Put(head, p[1..], Atom(0)).None?) && (!ok ==> head.Some?)
  {
    parents[0] := head;
    assert p[1..1] == [] && p[1..][..0] == [];
    PutRefusedIff(head, p[1..], Atom(0));
    if head.Some? && !head.value.Dict? { return false; }
    for i := 1 to |p| - 1
      invariant Walked(head, p, parents, i)
    {
      parents[i] := if parents[i - 1].None? then None else Probe(parents[i - 1].value, p[i]);
      AtNext(head, p, i);
      assert p[1..][..i] == p[1..i + 1];
      if parents[i].Some? && !parents[i].value.Dict? { return false; }
    }
    forall i | 0 <= i < |p| - 1 ensures At(head, p[1..][..i]).Some? ==> At(head, p[1..][..i]).value.Dict? {
      assert p[1..][..i] == p[1..i + 1] && parents[i] == At(head, p[1..i + 1]);
    }
    return true;
  }

  /** The chain rebuilt around a new leaf, bottom up; missing levels are created. */
  method Rebuild(ghost head: Option<Value>, p: Path, parents: array<Option<Value>>, x: Value) returns (cur: Value)
    requires 2 <= |p| <= parents.Length && Walked(head, p, parents, |p| - 1) && Put(head, p[1..], Atom(0)).Some?
    ensures Put(head, p[1..], x) == Some(cur)
  {
    cur := x;
    var i := |p| - 1;
    assert p[i + 1..] == [];
    while i >= 1
      invariant 0 <= i < |p| && Put(At(head, p[1..i + 1]), p[i + 1..], x) == Some(cur)
    {
      AtNext(head, p, i);
      assert p[i..][1..] == p[i + 1..] && parents[i - 1] == At(head, p[1..i]);
      var m := if parents[i - 1].Some? then parents[i - 1].value.m else map[];
      cur := Dict(m[p[i] := cur]);
      i := i - 1;
    }
    assert p[1..1] == [];
  }

  /** What is left of a value once a deletion below it is done; an empty dictionary is gone. */
  function Left(cur: Value): Option<Value> {
    if cur == Dict(map[]) then None else Some(cur)
  }

  /** The chain rebuilt after removing the leaf: a level that became empty is removed from
      the one above it. */
  method Cascade(ghost head: Option<Value>, p: Path, parents: array<Option<Value>>) returns (cur: Value)
    requires 2 <= |p| <= parents.Length && Walked(head, p, parents, |p| - 1)
    requires parents[|p| - 2].Some? && p[|p| - 1] in parents[|p| - 2].value.m
    ensures head.Some? && Remove(head.value, p[1..]) == Cut(Left(cur))
  {
    var n := |p|;
    cur := Dict(parents[n - 2].value.m - {p[n - 1]});
    assert p[n - 1..] == [p[n - 1]];
    var i := n - 2;
    while i >= 1
      invariant 0 <= i <= n - 2 && parents[i].Some? && Remove(parents[i].value, p[i + 1..]) == Cut(Left(cur))
    {
      AtNext(head, p, i);
      assert p[i..][1..] == p[i + 1..] && |p[i..]| > 1;
      assert parents[i] == Child(parents[i - 1], p[i]);
      var m := parents[i - 1].value.m;
      if cur == Dict(map[]) {
        cur := Dict(m - {p[i]});
      } else {
        assert p[i] in m[p[i] := cur];
        cur := Dict(m[p[i] := cur]);
      }
      i := i - 1;
    }
    assert p[1..1] == [];
  }

  /** Writing, or with None deleting, under a dotted name in one table. */
  method SetDotted(t: Bindings, p: Path, v: Option<Value>, isUser: bool) returns (e: Err)
    requires t.Valid() && 2 <= |p| <= MAX_SEGS
    modifies t, t.keys, t.vals, t.user
    ensures t.Valid() && (e, Binds(t.rows)) == BoundAt(Binds(old(t.rows)), t.Limit(), p, v)
  {
    var parents := new Option<Value>[MAX_SEGS](i => None);
    var head := t.Lookup(p[0]);
    var ok := Walk(head, p, parents);
    if !ok {
      if v.Some? { PutSame(head, p[1..], v.value, Atom(0)); } else { RemoveCases(head.value, p[1..]); }
      return TypeErr;
    }
    if v.Some? {
      PutSame(head, p[1..], v.value, Atom(0));
      var cur := Rebuild(head, p, parents, v.value);
      e := t.Bind(p[0], Some(cur), isUser);
      return;
    }
    var n := |p|;
    NoLeaf(head, p, parents);
    if parents[n - 2].None? || p[n - 1] !in parents[n - 2].value.m { return Ok; }
    var cur := Cascade(head, p, parents);
    e := t.Bind(p[0], Left(cur), isUser);
  }

  /** Whether a write is refused does not depend on what is written. */
  lemma {:induction false} PutSame(v: Option<Value>, p: Path, x: Value, y: Value)
    ensures Put(v, p, x).Some? <==> Put(v, p, y).Some?
    decreases |p|
  {
    PutRefusedIff(v, p, x);
    PutRefusedIff(v, p, y);
  }

  /** Nothing is deleted when the leaf is not there. */
  lemma NoLeaf(head: Option<Value>, p: Path, parents: array<Option<Value>>)
    requires 2 <= |p| <= parents.Length && Walked(head, p, parents, |p| - 1) && Put(head, p[1..], Atom(0)).Some?
    ensures parents[|p| - 2].None? || p[|p| - 1] !in parents[|p| - 2].value.m ==>
      head.None? || Remove(head.value, p[1..]).Absent?
  {
    AtNext(head, p, |p| - 1);
    assert p[1..|p|] == p[1..] && p[1..1] == [];
    if head.Some? { RemoveCases(head.value, p[1..]); }
  }

  // ---------- names in scope ----------

  /** Innermost frame first, then the global table. */
  function Flat(frames: seq<Scope>, globals: Scope, k: nat): Option<Value> {
    if frames == [] then Get(globals, k)
    else if k in frames[|frames| - 1] then Some(frames[|frames| - 1][k])
    else Flat(frames[..|frames| - 1], globals, k)
  }

  /** names: the segments of the dotted names.  A binding of the whole name comes first. */
  function Resolve(names: map<nat, Path>, frames: seq<Scope>, globals: Scope, k: nat): Option<Value> {
    if Flat(frames, globals, k).Some? then Flat(frames, globals, k)
    else if k !in names || |names[k]| < 2 then None
    else At(Flat(frames, globals, names[k][0]), names[k][1..])
  }

  /** The frame nearest to the top that binds the name says what it is; without one the global
      table does. */
  lemma {:induction false} NearestReads(frames: seq<Scope>, globals: Scope, k: nat, i: nat)
    requires i <= |frames| && (i > 0 ==> k in frames[i - 1]) && forall j :: i <= j < |frames| ==> k !in frames[j]
    ensures Flat(frames, globals, k) ==
      if i > 0 then Some(frames[i - 1][k]) else if k in globals then Some(globals[k]) else None
    decreases |frames|
  {
    if i < |frames| { NearestReads(frames[..|frames| - 1], globals, k, i); }
  }

  method LookupFlat(frames: seq<Bindings>, globals: Bindings, ghost scopes: seq<Scope>, k: nat) returns (v: Option<Value>)
    requires globals.Valid() && |scopes| == |frames| && forall i :: 0 <= i < |frames| ==> frames[i].Valid() && Binds(frames[i].rows) == scopes[i]
    ensures v == Flat(scopes, Binds(globals.rows), k)
  {
    var d := |frames|;
    assert scopes[..d] == scopes;
    while d > 0
      invariant 0 <= d <= |frames| && Flat(scopes[..d], Binds(globals.rows), k) == Flat(scopes, Binds(globals.rows), k)
    {
      assert scopes[..d][..d - 1] == scopes[..d - 1];
      d := d - 1;
      v := frames[d].Lookup(k);
      if v.Some? { return; }
    }
    v := globals.Lookup(k);
  }

  method EnvGet(names: map<nat, Path>, frames: seq<Bindings>, globals: Bindings, ghost scopes: seq<Scope>,
                k: nat) returns (v: Option<Value>)
    requires globals.Valid() && |scopes| == |frames| && forall i :: 0 <= i < |frames| ==> frames[i].Valid() && Binds(frames[i].rows) == scopes[i]
    ensures v == Resolve(names, scopes, Binds(globals.rows), k)
  {
    v := LookupFlat(frames, globals, scopes, k);
    if v.Some? || k !in names || |names[k]| < 2 { return; }
    var p := names[k];
    v := LookupFlat(frames, globals, scopes, p[0]);
    var i := 1;
    while i < |p| && v.Some?
      invariant 1 <= i <= |p| && At(v, p[i..]) == At(Flat(scopes, Binds(globals.rows), p[0]), p[1..])
      decreases |p| - i
    {
      assert p[i..][1..] == p[i + 1..];
      v := Probe(v.value, p[i]);
      i := i + 1;
    }
  }

  // ---------- the laws ----------

  /** The frames, the innermost last, and the global table. */
  datatype Store = Store(frames: seq<Scope>, globals: Scope)

  function Read(names: map<nat, Path>, s: Store, k: nat): Option<Value> { Resolve(names, s.frames, s.globals, k) }

  /** A write to the innermost frame, or, with no frame or on request, to the global table. */
  function Write(s: Store, local: bool, p: Path, v: Option<Value>): (Err, Store)
    requires |p| >= 2
  {
    if local && s.frames != [] then
      var n := |s.frames| - 1;
      var (e, f) := BoundAt(s.frames[n], None, p, v);
      (e, s.(frames := s.frames[..n] + [f]))
    else
      var (e, g) := BoundAt(s.globals, Some(ENV_CAP), p, v);
      (e, s.(globals := g))
  }

  /** What the frames alone show. */
  function Inner(frames: seq<Scope>, k: nat): Option<Value> { Flat(frames, map[], k) }

  lemma {:induction false} FlatSplit(frames: seq<Scope>, globals: Scope, k: nat)
    ensures Flat(frames, globals, k) == if Inner(frames, k).Some? then Inner(frames, k) else Get(globals, k)
    decreases |frames|
  {
    if frames != [] { FlatSplit(frames[..|frames| - 1], globals, k); }
  }

  lemma FlatPush(frames: seq<Scope>, f: Scope, globals: Scope, k: nat)
    ensures Flat(frames + [f], globals, k) == if k in f then Some(f[k]) else Flat(frames, globals, k)
  {
    assert (frames + [f])[..|frames|] == frames;
  }

  /** In the table written, the path reads as written and other names are as before; an error
      changes nothing. */
  lemma WrittenReads(s: Scope, limit: Option<nat>, p: Path, v: Option<Value>)
    requires |p| >= 2
    ensures var (e, t) := BoundAt(s, limit, p, v);
      && (e != Ok ==> t == s)
      && (e == Ok ==> At(Get(t, p[0]), p[1..]) == v && (v.Some? ==> p[0] in t))
      && (forall k :: k != p[0] ==> Get(t, k) == Get(s, k))
  {
    assert p[1..] + [] == p[1..];
    if v.Some? {
      if Put(Get(s, p[0]), p[1..], v.value).Some? { PutThere(Get(s, p[0]), p[1..], v.value, []); }
    } else if p[0] in s {
      RemoveCases(s[p[0]], p[1..]);
      if Remove(s[p[0]], p[1..]).Cut? { RemoveGone(s[p[0]], p[1..], []); }
    }
  }

  /** A path apart from the one written reads in that table as before. */
  lemma WrittenElsewhere(s: Scope, limit: Option<nat>, p: Path, v: Option<Value>, q: Path)
    requires |p| >= 2 && |q| >= 2 && Apart(p, q)
    ensures At(Get(BoundAt(s, limit, p, v).1, q[0]), q[1..]) == At(Get(s, q[0]), q[1..])
  {
    if q[0] != p[0] {
      WrittenReads(s, limit, p, v);
    } else if v.Some? {
      if Put(Get(s, p[0]), p[1..], v.value).Some? { PutElsewhere(Get(s, p[0]), p[1..], v.value, q[1..]); }
    } else if p[0] in s && Remove(s[p[0]], p[1..]).Cut? {
      RemoveElsewhere(s[p[0]], p[1..], q[1..]);
    }
  }

  /** Names other than the head are bound as before, in every frame and in the global table. */
  lemma FlatAfterWrite(s: Store, local: bool, p: Path, v: Option<Value>, k: nat)
    requires |p| >= 2 && k != p[0]
    ensures var t := Write(s, local, p, v).1; Flat(t.frames, t.globals, k) == Flat(s.frames, s.globals, k)
  {
    if local && s.frames != [] {
      var n := |s.frames| - 1;
      WrittenReads(s.frames[n], None, p, v);
      FlatPush(s.frames[..n], BoundAt(s.frames[n], None, p, v).1, s.globals, k);
      assert Get(s.frames[n], k) == Get(BoundAt(s.frames[n], None, p, v).1, k);
    } else {
      WrittenReads(s.globals, Some(ENV_CAP), p, v);
      FlatSplit(s.frames, s.globals, k);
      FlatSplit(s.frames, BoundAt(s.globals, Some(ENV_CAP), p, v).1, k);
    }
  }

  /** A delete under p empties what its head is bound to in this scope. */
  predicate Empties(s: Scope, p: Path)
    requires |p| >= 2
  {
    p[0] in s && Alone(s[p[0]], p[1..])
  }

  /** Whether the head is bound in a frame after a write there. */
  lemma HeadAfterWrite(s: Scope, p: Path, v: Option<Value>)
    requires |p| >= 2
    ensures p[0] in BoundAt(s, None, p, v).1 <==> v.Some? || (p[0] in s && !Empties(s, p))
  {
    if v.Some? {
      PutRefusedIff(None, p[1..], v.value);
    } else if p[0] in s {
      RemoveEmptiesIff(s[p[0]], p[1..]);
    }
  }

  /** Nothing nearer in scope than the write shows another value, nor, after a delete that
      unbinds the head, anything further out. */
  ghost predicate Shows(s: Store, local: bool, p: Path, v: Option<Value>)
    requires |p| >= 2
  {
    if local && s.frames != [] then
      var n := |s.frames| - 1;
      v.Some? || (p[0] in s.frames[n] && !Empties(s.frames[n], p)) || At(Flat(s.frames[..n], s.globals, p[0]), p[1..]).None?
    else
      var inner := Inner(s.frames, p[0]); inner.None? || At(inner, p[1..]) == v
  }

  /** After a set that succeeds the dotted name reads as the value, after a delete it is
      undefined, exactly if: the whole name is not bound as one name to something else, no frame
      shows another value under the head of a global write, and no outer scope shows one once
      a local delete has unbound the head.  An error leaves everything as it was.  The source
      deletes only from the global table so far; its local set takes a delete all the same. */
  lemma SetThenGetIff(names: map<nat, Path>, s: Store, local: bool, k: nat, v: Option<Value>)
    requires k in names && |names[k]| >= 2 && names[k][0] != k
    ensures var (e, t) := Write(s, local, names[k], v); var whole := Flat(s.frames, s.globals, k);
      && (e != Ok ==> t == s)
      && (e == Ok ==> (Read(names, t, k) == v <==> if whole.Some? then v == whole else Shows(s, local, names[k], v)))
  {
    var p := names[k];
    var t := Write(s, local, p, v).1;
    FlatAfterWrite(s, local, p, v, k);
    if local && s.frames != [] {
      LocalHead(s, p, v);
      HeadAfterWrite(s.frames[|s.frames| - 1], p, v);
    } else {
      WrittenReads(s.globals, Some(ENV_CAP), p, v);
      FlatSplit(s.frames, s.globals, p[0]);
      FlatSplit(s.frames, t.globals, p[0]);
    }
  }

  /** What the head of a local write shows afterwards. */
  lemma LocalHead(s: Store, p: Path, v: Option<Value>)
    requires |p| >= 2 && s.frames != []
    ensures var n := |s.frames| - 1; var (e, t) := Write(s, true, p, v);
      && (e != Ok ==> t == s)
      && |t.frames| == n + 1 && t.globals == s.globals && t.frames[n] == BoundAt(s.frames[n], None, p, v).1
      && (p[0] in t.frames[n] && e == Ok ==> At(Flat(t.frames, t.globals, p[0]), p[1..]) == v)
      && (p[0] !in t.frames[n] ==> Flat(t.frames, t.globals, p[0]) == Flat(s.frames[..n], s.globals, p[0]))
      && (v.Some? && e == Ok ==> p[0] in t.frames[n])
  {
    var n := |s.frames| - 1;
    var f := BoundAt(s.frames[n], None, p, v).1;
    WrittenReads(s.frames[n], None, p, v);
    FlatPush(s.frames[..n], f, s.globals, p[0]);
    assert s.frames[..n] + [s.frames[n]] == s.frames;
  }

  /** A set of a dotted name whose head a frame binds: it succeeds, and the name stays unread. */
  lemma ShadowedSetIsNotRead(v: Value)
    ensures var names: map<nat, Path>, s := map[0 := [1, 2]], Store([map[1 := Dict(map[])]], map[]);
      var (e, t) := Write(s, false, [1, 2], Some(v)); e == Ok && Read(names, t, 0) == None
  {
    var s := Store([map[1 := Dict(map[])]], map[]);
    var p: Path := [1, 2];
    assert p[1..] == [2] && [2][1..] == [];
    PutRefusedIff(None, [2], v);
    assert Write(s, false, p, Some(v)).0 == Ok;
    var e: seq<Scope> := [];
    var f: Scope := map[1 := Dict(map[])];
    assert s.frames == e + [f];
    FlatPush(e, f, s.globals, 0);
    FlatPush(e, f, map[], 1);
    FlatPush(e, f, Write(s, false, p, Some(v)).1.globals, 0);
    FlatPush(e, f, Write(s, false, p, Some(v)).1.globals, 1);
    assert At(Some(Dict(map[])), [2]).None?;
  }

  /** Names whose path is neither a prefix nor an extension of the one written keep their
      values, and so do plain names other than its head, exactly unless a local write binds or
      unbinds the head and an outer scope has a value there. */
  lemma SetElsewhereIff(names: map<nat, Path>, s: Store, local: bool, p: Path, v: Option<Value>, k: nat)
    requires |p| >= 2 && k != p[0] && (k in names && |names[k]| >= 2 ==> Apart(p, names[k]))
    ensures Read(names, Write(s, local, p, v).1, k) == Read(names, s, k) <==> !Exposed(names, s, local, p, v, k)
  {
    FlatAfterWrite(s, local, p, v, k);
    if k in names && |names[k]| >= 2 && Flat(s.frames, s.globals, k).None? {
      var q := names[k];
      if q[0] != p[0] {
        FlatAfterWrite(s, local, p, v, q[0]);
      } else if local && s.frames != [] {
        LocalElsewhere(s, p, v, q);
      } else {
        WrittenElsewhere(s.globals, Some(ENV_CAP), p, v, q);
        FlatSplit(s.frames, s.globals, q[0]);
        FlatSplit(s.frames, Write(s, local, p, v).1.globals, q[0]);
      }
    }
  }

  /** The write binds or unbinds the head of k's name in the innermost frame, and so covers or
      uncovers a value further out. */
  ghost predicate Exposed(names: map<nat, Path>, s: Store, local: bool, p: Path, v: Option<Value>, k: nat)
    requires |p| >= 2
  {
    && k in names && |names[k]| >= 2 && names[k][0] == p[0] && Flat(s.frames, s.globals, k).None?
    && local && s.frames != []
    && var n := |s.frames| - 1;
      Rebinds(s.frames[n], p, v) && At(Flat(s.frames[..n], s.globals, p[0]), names[k][1..]).Some?
  }

  /** A write binds a head that was not bound, or a delete unbinds one. */
  predicate Rebinds(s: Scope, p: Path, v: Option<Value>)
    requires |p| >= 2
  {
    if v.Some? then p[0] !in s else Empties(s, p)
  }

  lemma LocalElsewhere(s: Store, p: Path, v: Option<Value>, q: Path)
    requires |p| >= 2 && |q| >= 2 && Apart(p, q) && q[0] == p[0] && s.frames != []
    ensures var n := |s.frames| - 1; var t := Write(s, true, p, v).1;
      var lost := Rebinds(s.frames[n], p, v) && At(Flat(s.frames[..n], s.globals, p[0]), q[1..]).Some?;
      At(Flat(t.frames, t.globals, q[0]), q[1..]) == At(Flat(s.frames, s.globals, q[0]), q[1..]) <==> !lost
  {
    var n := |s.frames| - 1;
    var f := BoundAt(s.frames[n], None, p, v).1;
    WrittenElsewhere(s.frames[n], None, p, v, q);
    HeadAfterWrite(s.frames[n], p, v);
    FlatPush(s.frames[..n], f, s.globals, q[0]);
  }

  /** A delete leaves no dictionary on the way up empty; an emptied head is unbound. */
  lemma DeleteLeavesNoEmpty(s: Scope, limit: Option<nat>, p: Path, i: nat)
    requires |p| >= 2 && p[0] in s && Remove(s[p[0]], p[1..]).Cut? && i < |p|
    ensures var (e, t) := BoundAt(s, limit, p, None);
      e == Ok && var d := At(Get(t, p[0]), p[1..i + 1]); d.Some? && d.value.Dict? ==> d.value.m != map[]
  {
    RemoveLeavesNoEmpty(s[p[0]], p[1..], i);
    assert p[1..][..i] == p[1..i + 1];
  }

  /** Deleting what a set created brings back the whole table, exactly if no dictionary on the
      way was empty before. */
  lemma DeleteUndoesSetIff(s: Scope, limit: Option<nat>, p: Path, x: Value)
    requires |p| >= 2 && At(Get(s, p[0]), p[1..]).None? && BoundAt(s, limit, p, Some(x)).0 == Ok
    ensures var (e, t) := BoundAt(BoundAt(s, limit, p, Some(x)).1, limit, p, None);
      e == Ok && (t == s <==> Solid(Get(s, p[0]), p[1..]))
  {
    var t := BoundAt(s, limit, p, Some(x)).1;
    var u := Put(Get(s, p[0]), p[1..], x).value;
    RemoveUndoesPutIff(Get(s, p[0]), p[1..], x);
    assert t == s[p[0] := u];
    HeadBack(s, p[0], u, Remove(u, p[1..]).rest);
  }

  lemma HeadBack(s: Scope, k: nat, u: Value, rest: Option<Value>)
    ensures (if rest.None? then s[k := u] - {k} else s[k := u][k := rest.value]) == s <==> rest == Get(s, k)
  {
    var t := if rest.None? then s[k := u] - {k} else s[k := u][k := rest.value];
    assert Get(t, k) == rest;
    if rest == Get(s, k) { assert t == s; }
  }

  // ---------- when a write succeeds ----------

  /** A value on the way to the end of the path is there and is not a dictionary. */
  ghost predicate Blocked(s: Scope, p: Path)
    requires p != []
  {
    exists i :: 0 <= i < |p| - 1 && OnTheWay(s, p, i).Some? && !OnTheWay(s, p, i).value.Dict?
  }

  function OnTheWay(s: Scope, p: Path, i: nat): Option<Value>
    requires i < |p|
  {
    At(Get(s, p[0]), p[1..i + 1])
  }

  /** A new name in a table of fixed size that is full. */
  predicate Full(s: Scope, limit: Option<nat>, k: nat) {
    k !in s && limit.Some? && |s| >= limit.value
  }

  /** A plain write fails exactly if the name is new and the table is full; a delete never does.
      Afterwards the name is bound as written, and no other name is touched. */
  lemma BoundIff(s: Scope, limit: Option<nat>, k: nat, v: Option<Value>)
    ensures var (e, t) := Bound(s, limit, k, v);
      && (e == Oom <==> v.Some? && Full(s, limit, k)) && (e == Oom || e == Ok)
      && (e == Oom ==> t == s)
      && (e == Ok ==> Get(t, k) == v && forall j :: j != k ==> Get(t, j) == Get(s, j))
  {
  }

  lemma BlockedIff(s: Scope, p: Path, x: Value)
    requires |p| >= 2
    ensures Put(Get(s, p[0]), p[1..], x).None? <==> Blocked(s, p)
  {
    PutRefusedIff(Get(s, p[0]), p[1..], x);
    var head := Get(s, p[0]);
    forall i | 0 <= i < |p| - 1 ensures At(head, p[1..][..i]) == OnTheWay(s, p, i) { assert p[1..][..i] == p[1..i + 1]; }
    if i :| 0 <= i < |p[1..]| && At(head, p[1..][..i]).Some? && !At(head, p[1..][..i]).value.Dict? {
      assert OnTheWay(s, p, i).Some? && !OnTheWay(s, p, i).value.Dict?;
    }
  }

  /** A dotted write or delete is a type error exactly if a value on the way is not a
      dictionary; a write finds no room exactly if it is not, its head is new and the table is
      full; otherwise it succeeds. */
  lemma BoundAtErrorIff(s: Scope, limit: Option<nat>, p: Path, v: Option<Value>)
    requires |p| >= 2
    ensures var e := BoundAt(s, limit, p, v).0;
      && (e == TypeErr <==> Blocked(s, p))
      && (e == Oom <==> !Blocked(s, p) && v.Some? && Full(s, limit, p[0]))
  {
    BlockedIff(s, p, if v.Some? then v.value else Atom(0));
    if v.None? && p[0] in s { RemoveCases(s[p[0]], p[1..]); }
  }

  /** The same of a write to the innermost frame, which grows, or to the global table, which
      holds 1024 names. */
  lemma WriteErrorIff(s: Store, local: bool, p: Path, v: Option<Value>)
    requires |p| >= 2
    ensures var e := Write(s, local, p, v).0;
      if local && s.frames != [] then
        e == if Blocked(s.frames[|s.frames| - 1], p) then TypeErr else Ok
      else
        && (e == TypeErr <==> Blocked(s.globals, p))
        && (e == Oom <==> !Blocked(s.globals, p) && v.Some? && p[0] !in s.globals && |s.globals| >= 1024)
  {
    if local && s.frames != [] {
      BoundAtErrorIff(s.frames[|s.frames| - 1], None, p, v);
    } else {
      BoundAtErrorIff(s.globals, Some(ENV_CAP), p, v);
    }
  }

  /** A user's write marks its name, any other write leaves the mark alone, and a delete or a
      refusal marks nothing. */
  lemma MarkedIff(users: set<nat>, e: Err, k: nat, written: bool, isUser: bool, j: nat)
    ensures j in Marked(users, e, k, written, isUser) <==>
      if j != k || e != Ok then j in users
      else written && (isUser || j in users)
  {
  }
}
