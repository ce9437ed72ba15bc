/** Nested dictionaries addressed by paths of names, and what writing and deleting
    under a dotted name does to them. */
module PathTree {
  import opened Wrappers

  /** A table can be read through, but not written through. */
  datatype Value = Atom(data: int) | Dict(m: map<nat, Value>) | Table(cols: map<nat, Value>)

  type Path = seq<nat>

  function Probe(v: Value, k: nat): Option<Value> {
    match v
    case Atom(_) => None
    case Dict(m) => if k in m then Some(m[k]) else None
    case Table(m) => if k in m then Some(m[k]) else None
  }

  /** The value at a path below v. */
  function At(v: Option<Value>, p: Path): Option<Value>
    decreases |p|
  {
    if v.None? || p == [] then v else At(Probe(v.value, p[0]), p[1..])
  }

  function Child(v: Option<Value>, k: nat): Option<Value> {
    if v.None? then None else Probe(v.value, k)
  }

  /** v with x at the path, missing levels created; None: a level is not a dictionary. */
  function Put(v: Option<Value>, p: Path, x: Value): (r: Option<Value>)
    ensures p != [] && r.Some? ==> r.value.Dict? && p[0] in r.value.m
    decreases |p|
  {
    if p == [] then Some(x)
    else
      match v
      case None => (match Put(None, p[1..], x) case None => None case Some(u) => Some(Dict(map[p[0] := u])))
      case Some(Dict(m)) => (match Put(Child(v, p[0]), p[1..], x) case None => None case Some(u) => Some(Dict(m[p[0] := u])))
      case Some(_) => None
  }

  /** Refused: a level is not a dictionary.  Absent: nothing is there.  Cut: what is left
      of v, None if that would be empty. */
  datatype Cutting = Refused | Absent | Cut(rest: Option<Value>)

  function Filled(m: map<nat, Value>): Option<Value> { if m == map[] then None else Some(Dict(m)) }

  function Remove(v: Value, p: Path): (r: Cutting)
    requires p != []
    ensures r.Cut? && r.rest.Some? ==> r.rest.value.Dict? && r.rest.value.m != map[]
    decreases |p|
  {
    match v
    case Dict(m) =>
      if p[0] !in m then Absent
      else if |p| == 1 then Cut(Filled(m - {p[0]}))
      else
        (match Remove(m[p[0]], p[1..])
         case Refused => Refused
         case Absent => Absent
         case Cut(None) => Cut(Filled(m - {p[0]}))
         case Cut(Some(u)) => assert p[0] in m[p[0] := u]; Cut(Some(Dict(m[p[0] := u]))))
    case _ => Refused
  }

  // ---------- reading back ----------

  /** Neither path is a prefix of the other. */
  predicate Apart(p: Path, q: Path) {
    p != [] && q != [] && (p[0] != q[0] || Apart(p[1..], q[1..]))
  }

  lemma {:induction false} AtConcat(v: Option<Value>, p: Path, q: Path)
    ensures At(v, p + q) == At(At(v, p), q)
    decreases |p|
  {
    if p == [] {
      assert p + q == q;
    } else if v.Some? {
      assert (p + q)[1..] == p[1..] + q;
      AtConcat(Probe(v.value, p[0]), p[1..], q);
    }
  }

  /** After a write the path, and everything below it, reads as written. */
  lemma {:induction false} PutThere(v: Option<Value>, p: Path, x: Value, q: Path)
    requires Put(v, p, x).Some?
    ensures At(Put(v, p, x), p + q) == At(Some(x), q)
    decreases |p|
  {
    if p == [] {
      assert p + q == q;
    } else {
      assert (p + q)[1..] == p[1..] + q && (p + q)[0] == p[0];
      PutThere(Child(v, p[0]), p[1..], x, q);
    }
  }

  /** A path apart from it reads as before. */
  lemma {:induction false} PutElsewhere(v: Option<Value>, p: Path, x: Value, q: Path)
    requires Put(v, p, x).Some? && Apart(p, q)
    ensures At(Put(v, p, x), q) == At(v, q)
    decreases |p|
  {
    if p[0] == q[0] {
      PutElsewhere(Child(v, p[0]), p[1..], x, q[1..]);
    }
  }

  /** A write is refused exactly if a value on the way is there and is not a dictionary. */
  lemma {:induction false} PutRefusedIff(v: Option<Value>, p: Path, x: Value)
    ensures Put(v, p, x).None? <==> exists i :: 0 <= i < |p| && At(v, p[..i]).Some? && !At(v, p[..i]).value.Dict?
    decreases |p|
  {
    if p != [] {
      assert p[..0] == [];
      if v.None? {
        PutRefusedIff(None, p[1..], x);
      } else if v.value.Dict? {
        var w := Child(v, p[0]);
        PutRefusedIff(w, p[1..], x);
        forall i | 0 < i <= |p| ensures At(v, p[..i]) == At(w, p[1..][..i - 1]) {
          assert p[..i][1..] == p[1..][..i - 1];
        }
        if i :| 0 <= i < |p| - 1 && At(w, p[1..][..i]).Some? && !At(w, p[1..][..i]).value.Dict? {
          assert At(v, p[..i + 1]) == At(w, p[1..][..i]);
        }
      }
    }
  }

  /** A name below a value is an entry of a dictionary or a column of a table; there is nothing
      below anything else. */
  lemma AtMeans(v: Value, k: nat, q: Path)
    ensures At(Some(v), [k] + q) ==
      if v.Dict? && k in v.m then At(Some(v.m[k]), q)
      else if v.Table? && k in v.cols then At(Some(v.cols[k]), q)
      else None
    ensures At(Some(v), []) == Some(v) && At(None, q) == None
  {
    assert ([k] + q)[1..] == q;
  }

  // ---------- deleting ----------

  /** After a deletion the path is undefined. */
  lemma {:induction false} RemoveGone(v: Value, p: Path, q: Path)
    requires p != [] && Remove(v, p).Cut?
    ensures At(Some(v), p).Some? && At(Remove(v, p).rest, p + q).None?
    decreases |p|
  {
    assert (p + q)[1..] == p[1..] + q && (p + q)[0] == p[0];
    if |p| > 1 { RemoveGone(v.m[p[0]], p[1..], q); }
  }

  /** A path apart from it reads as before. */
  lemma {:induction false} RemoveElsewhere(v: Value, p: Path, q: Path)
    requires p != [] && Remove(v, p).Cut? && Apart(p, q)
    ensures At(Remove(v, p).rest, q) == At(Some(v), q)
    decreases |p|
  {
    var m := v.m;
    if p[0] != q[0] {
      assert q[0] in m <==> q[0] in m - {p[0]};
      assert Child(Filled(m - {p[0]}), q[0]) == Child(Some(v), q[0]);
    } else {
      RemoveElsewhere(m[p[0]], p[1..], q[1..]);
      if Remove(m[p[0]], p[1..]).rest.None? {
        assert Child(Filled(m - {p[0]}), q[0]).None?;
      }
    }
  }

  /** Nothing is in v but what the path leads to. */
  predicate Alone(v: Value, p: Path)
    decreases |p|
  {
    p != [] && v.Dict? && p[0] in v.m && |v.m| == 1 && (|p| == 1 || Alone(v.m[p[0]], p[1..]))
  }

  lemma SingleKey(m: map<nat, Value>, k: nat)
    requires k in m
    ensures m - {k} == map[] <==> |m| == 1
  {
    assert m.Keys == (m - {k}).Keys + {k};
    assert |m.Keys| == |(m - {k}).Keys| + 1;
  }

  /** A deletion leaves nothing exactly then. */
  lemma {:induction false} RemoveEmptiesIff(v: Value, p: Path)
    requires p != []
    ensures Remove(v, p) == Cut(None) <==> Alone(v, p)
    decreases |p|
  {
    if v.Dict? && p[0] in v.m {
      SingleKey(v.m, p[0]);
      if |p| > 1 { RemoveEmptiesIff(v.m[p[0]], p[1..]); }
    }
  }

  /** No dictionary on the way is left empty. */
  lemma {:induction false} RemoveLeavesNoEmpty(v: Value, p: Path, i: nat)
    requires p != [] && Remove(v, p).Cut? && i <= |p|
    ensures var d := At(Remove(v, p).rest, p[..i]); d.Some? && d.value.Dict? ==> d.value.m != map[]
    decreases |p|
  {
    if i == |p| {
      RemoveGone(v, p, []);
      assert p + [] == p && p[..i] == p;
    } else if i > 0 {
      assert p[..i][1..] == p[1..][..i - 1];
      RemoveLeavesNoEmpty(v.m[p[0]], p[1..], i - 1);
    }
  }

  /** A deletion does nothing exactly if the path is undefined and no value on the way
      stands against it; it is refused exactly if one does. */
  lemma {:induction false} RemoveCases(v: Value, p: Path)
    requires p != []
    ensures Remove(v, p).Refused? <==> Put(Some(v), p, Atom(0)).None?
    ensures Remove(v, p).Cut? ==> At(Some(v), p).Some?
    ensures Remove(v, p).Absent? ==> At(Some(v), p).None?
    decreases |p|
  {
    match v
    case Dict(m) =>
      if p[0] !in m {
        PutRefusedIff(None, p[1..], Atom(0));
      } else if |p| > 1 {
        RemoveCases(m[p[0]], p[1..]);
      }
    case _ =>
  }

  /** No dictionary on the way down is empty. */
  predicate Solid(v: Option<Value>, p: Path)
    decreases |p|
  {
    v.Some? && p != [] ==> v.value.Dict? ==> v.value.m != map[] && Solid(Child(v, p[0]), p[1..])
  }

  /** Deleting what a write created brings the old value back, exactly if no dictionary on the
      way was empty before. */
  lemma {:induction false} RemoveUndoesPutIff(v: Option<Value>, p: Path, x: Value)
    requires p != [] && Put(v, p, x).Some? && At(v, p).None?
    ensures var c := Remove(Put(v, p, x).value, p); c.Cut? && (c.rest == v <==> Solid(v, p))
    decreases |p|
  {
    var k, w := p[0], Child(v, p[0]);
    var u := Put(w, p[1..], x).value;
    if |p| > 1 { RemoveUndoesPutIff(w, p[1..], x); }
    match v
    case None => assert map[k := u] - {k} == map[];
    case Some(Dict(m)) =>
      if w.None? {
        assert m[k := u] - {k} == m;
      } else {
        assert m[k := u][k := w.value] == m;
        var c := Remove(u, p[1..]);
        if c.rest != w { Replaced(m, k, u, c.rest); }
      }
  }

  /** A level whose child came out otherwise is not what it was. */
  lemma Replaced(m: map<nat, Value>, k: nat, u: Value, rest: Option<Value>)
    requires k in m && rest != Some(m[k])
    ensures if rest.None? then Filled(m[k := u] - {k}) != Some(Dict(m)) else m[k := u][k := rest.value] != m
  {
    if rest.Some? { assert m[k := u][k := rest.value][k] != m[k]; }
  }
}
