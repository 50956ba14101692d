/**
GetterSetterDataSource: a data source which mirrors a field of the object another data source holds,
keeping a copy of it. Sources are nested to any depth; a chain of them ends in a source that holds
the root object.
*/
module GetterSetter {

  /**
  A getter and a setter, with the values they are made for. The objects and fields of a chain have
  different types; here they share one type T and the predicates say which values belong where.
  */
  datatype Lens<!T> = Lens(get: T -> T, put: (T, T) -> T, isObject: T -> bool, isField: T -> bool)

  ghost predicate Lawful<T(!new)>(l: Lens<T>) {
    && (forall o :: l.isObject(o) ==> l.isField(l.get(o)))
    && (forall o, v :: l.isObject(o) && l.isField(v) ==> l.isObject(l.put(o, v)))
    // the getter reads what the setter wrote
    && (forall o, v :: l.isObject(o) && l.isField(v) ==> l.get(l.put(o, v)) == v)
    // writing back what was read changes nothing, and the last write wins
    && (forall o :: l.isObject(o) ==> l.put(o, l.get(o)) == o)
    && (forall o, v, w :: l.isObject(o) && l.isField(v) && l.isField(w) ==> l.put(l.put(o, v), w) == l.put(o, w))
  }

  /** The field of one level is the object of the next. */
  ghost predicate Chained<T(!new)>(ls: seq<Lens<T>>) {
    && (forall i | 0 <= i < |ls| :: Lawful(ls[i]))
    && (forall i, x | 0 < i < |ls| :: ls[i - 1].isField(x) <==> ls[i].isObject(x))
  }

  /** values[0] is the root object, values[i + 1] the copy kept by the i-th source of the chain. */
  ghost predicate Typed<T>(values: seq<T>, ls: seq<Lens<T>>) {
    && |values| == |ls| + 1
    && (forall i | 0 <= i < |ls| :: ls[i].isObject(values[i]) && ls[i].isField(values[i + 1]))
  }

  ghost predicate Coherent<T>(values: seq<T>, ls: seq<Lens<T>>)
    requires |values| == |ls| + 1
  {
    forall i | 0 <= i < |ls| :: values[i + 1] == ls[i].get(values[i])
  }

  // ---------------------------------------------------------------------------------------------
  // What reading and writing a chain mean

  /** All copies read anew from the root. */
  function Fresh<T>(root: T, ls: seq<Lens<T>>): (r: seq<T>)
    ensures |r| == |ls| + 1 && r[0] == root
  {
    if ls == [] then [root] else [root] + Fresh(ls[0].get(root), ls[1..])
  }

  /** The field of the root at the end of the chain, and the root with this field replaced. */
  function ReadRoot<T>(root: T, ls: seq<Lens<T>>): T {
    if ls == [] then root else ReadRoot(ls[0].get(root), ls[1..])
  }

  function WriteRoot<T>(root: T, ls: seq<Lens<T>>, v: T): T {
    if ls == [] then v else ls[0].put(root, WriteRoot(ls[0].get(root), ls[1..], v))
  }

  /** The values after v was written through the chain, each object being rebuilt from its copy. */
  function WriteThrough<T>(values: seq<T>, ls: seq<Lens<T>>, v: T): (r: seq<T>)
    requires |values| == |ls| + 1
    ensures |r| == |values| && r[|ls|] == v
    decreases |ls|
  {
    if ls == [] then [v] else
      var rest := WriteThrough(values[1..], ls[1..], v);
      [ls[0].put(values[0], rest[0])] + rest
  }

  lemma {:induction false} WriteThroughLast<T>(values: seq<T>, ls: seq<Lens<T>>, v: T)
    requires |values| == |ls| + 1 && ls != []
    ensures var n := |ls|;
            WriteThrough(values, ls, v) ==
            WriteThrough(values[..n], ls[..n - 1], ls[n - 1].put(values[n - 1], v)) + [v]
    decreases |ls|
  {
    var n := |ls|;
    if n == 1 {
      assert ls[1..] == [] && ls[..0] == [];
      assert WriteThrough(values[1..], ls[1..], v) == [v];
    } else {
      WriteThroughLast(values[1..], ls[1..], v);
      assert values[1..][..n - 1] == values[..n][1..];
      assert ls[1..][..n - 2] == ls[..n - 1][1..];
      assert ls[1..][n - 2] == ls[n - 1] && values[1..][n - 2] == values[n - 1];
    }
  }

  lemma {:induction false} FreshLast<T>(root: T, ls: seq<Lens<T>>)
    requires ls != []
    ensures var n := |ls|; var r := Fresh(root, ls[..n - 1]); Fresh(root, ls) == r + [ls[n - 1].get(r[n - 1])]
    decreases |ls|
  {
    var n := |ls|;
    if n == 1 {
      assert ls[1..] == [] && ls[..0] == [];
    } else {
      FreshLast(ls[0].get(root), ls[1..]);
      assert ls[1..][..n - 2] == ls[..n - 1][1..];
    }
  }

  lemma ChainedTail<T(!new)>(ls: seq<Lens<T>>)
    requires Chained(ls) && ls != []
    ensures Chained(ls[1..])
    ensures |ls| > 1 ==> forall x :: ls[0].isField(x) <==> ls[1..][0].isObject(x)
  {
    forall i, x | 0 < i < |ls[1..]| ensures ls[1..][i - 1].isField(x) <==> ls[1..][i].isObject(x) {
      assert ls[1..][i - 1] == ls[i] && ls[1..][i] == ls[i + 1];
      assert ls[i + 1 - 1].isField(x) <==> ls[i + 1].isObject(x);
    }
    forall x | |ls| > 1 ensures ls[0].isField(x) <==> ls[1..][0].isObject(x) {
      assert ls[1 - 1].isField(x) <==> ls[1].isObject(x);
    }
  }

  /** v can be stored at the end of the chain. */
  ghost predicate FieldOf<T>(ls: seq<Lens<T>>, v: T) {
    ls != [] ==> ls[|ls| - 1].isField(v)
  }

  ghost predicate RootOf<T>(ls: seq<Lens<T>>, root: T) {
    ls != [] ==> ls[0].isObject(root)
  }

  lemma CoherentCons<T(!new)>(o: T, rest: seq<T>, ls: seq<Lens<T>>)
    requires ls != [] && Typed(rest, ls[1..]) && Coherent(rest, ls[1..])
    requires ls[0].isObject(o) && ls[0].isField(rest[0]) && rest[0] == ls[0].get(o)
    ensures Typed([o] + rest, ls) && Coherent([o] + rest, ls)
  {
    var r := [o] + rest;
    forall i | 0 <= i < |ls| ensures ls[i].isObject(r[i]) && ls[i].isField(r[i + 1]) && r[i + 1] == ls[i].get(r[i]) {
      if i > 0 {
        assert r[i] == rest[i - 1] && r[i + 1] == rest[i] && ls[i] == ls[1..][i - 1];
      }
    }
  }

  /** Reading anew makes every copy agree with the object it was taken from. */
  lemma {:induction false} FreshIsCoherent<T(!new)>(root: T, ls: seq<Lens<T>>)
    requires Chained(ls) && RootOf(ls, root)
    ensures Typed(Fresh(root, ls), ls) && Coherent(Fresh(root, ls), ls)
    ensures Fresh(root, ls)[|ls|] == ReadRoot(root, ls)
    decreases |ls|
  {
    if ls == [] {
    } else {
      ChainedTail(ls);
      var rest := Fresh(ls[0].get(root), ls[1..]);
      FreshIsCoherent(ls[0].get(root), ls[1..]);
      CoherentCons(root, rest, ls);
    }
  }

  /** Coherent copies are fresh copies. */
  lemma {:induction false} CoherentIsFresh<T>(values: seq<T>, ls: seq<Lens<T>>)
    requires |values| == |ls| + 1 && Coherent(values, ls)
    ensures values == Fresh(values[0], ls)
    decreases |ls|
  {
    if ls == [] {
    } else {
      forall i | 0 <= i < |ls[1..]| ensures values[1..][i + 1] == ls[1..][i].get(values[1..][i]) {
        assert values[i + 1 + 1] == ls[i + 1].get(values[i + 1]);
      }
      CoherentIsFresh(values[1..], ls[1..]);
      assert values[0 + 1] == ls[0].get(values[0]);
    }
  }

  /** Whatever the copies were, after a write they agree with their objects and the last one is v. */
  lemma {:induction false} WriteMakesCoherent<T(!new)>(values: seq<T>, ls: seq<Lens<T>>, v: T)
    requires Chained(ls) && Typed(values, ls) && FieldOf(ls, v)
    ensures var r := WriteThrough(values, ls, v); Typed(r, ls) && Coherent(r, ls)
    decreases |ls|
  {
    if ls == [] {
    } else {
      ChainedTail(ls);
      TypedTail(values, ls);
      WriteMakesCoherent(values[1..], ls[1..], v);
      var rest := WriteThrough(values[1..], ls[1..], v);
      assert ls[0].isObject(values[0]) && ls[0].isField(rest[0]) by {
        if |ls| > 1 { assert ls[1..][0].isObject(rest[0]); }
      }
      PutTyped(ls[0], values[0], rest[0]);
      CoherentCons(ls[0].put(values[0], rest[0]), rest, ls);
    }
  }

  lemma PutTyped<T(!new)>(l: Lens<T>, o: T, v: T)
    requires Lawful(l) && l.isObject(o) && l.isField(v)
    ensures l.isObject(l.put(o, v)) && l.get(l.put(o, v)) == v
  {
  }

  /** Reading anew after a write finds v, and every copy already as the write left it. */
  lemma ReadBack<T(!new)>(values: seq<T>, ls: seq<Lens<T>>, v: T)
    requires Chained(ls) && Typed(values, ls) && FieldOf(ls, v)
    ensures var r := WriteThrough(values, ls, v); Fresh(r[0], ls) == r && ReadRoot(r[0], ls) == v
  {
    var r := WriteThrough(values, ls, v);
    WriteMakesCoherent(values, ls, v);
    CoherentIsFresh(r, ls);
    assert ls != [] ==> ls[0].isObject(r[0]);
    FreshIsCoherent(r[0], ls);
  }

  /** The composed lens is lawful again. */
  lemma {:induction false} ComposedLensIsLawful<T(!new)>(root: T, ls: seq<Lens<T>>, v: T, w: T)
    requires Chained(ls) && RootOf(ls, root) && FieldOf(ls, v) && FieldOf(ls, w)
    ensures var root' := WriteRoot(root, ls, v);
            && RootOf(ls, root')
            && ReadRoot(root', ls) == v
            && WriteRoot(root, ls, ReadRoot(root, ls)) == root
            && WriteRoot(root', ls, w) == WriteRoot(root, ls, w)
    decreases |ls|
  {
    if ls == [] {
    } else {
      ChainedTail(ls);
      var l := ls[0];
      assert Lawful(l);
      var o := l.get(root);
      assert RootOf(ls[1..], o);
      assert |ls| > 1 ==> FieldOf(ls[1..], v) && FieldOf(ls[1..], w);
      ComposedLensIsLawful(o, ls[1..], v, w);
      ComposedLensIsLawful(o, ls[1..], w, v);
      assert l.isField(WriteRoot(o, ls[1..], v)) && l.isField(WriteRoot(o, ls[1..], w));
    }
  }

  // ---------------------------------------------------------------------------------------------
  // When a write reaches the root unspoilt

  /** Copy i differs from the object it mirrors at most in the field the chain goes through. */
  ghost predicate FreshElsewhere<T>(values: seq<T>, ls: seq<Lens<T>>)
    requires |values| == |ls| + 1
  {
    var f := Fresh(values[0], ls);
    forall i | 0 < i < |ls| :: ls[i].put(values[i], ls[i].get(f[i])) == f[i]
  }

  ghost predicate WritesEqual<T>(values: seq<T>, newest: seq<T>, ls: seq<Lens<T>>)
    requires |values| == |newest| == |ls| + 1
  {
    forall i | 0 <= i < |ls| :: ls[i].put(values[i], ls[i].get(newest[i])) == newest[i]
  }

  lemma SamePut<T(!new)>(l: Lens<T>, o: T, f: T, v: T, w: T)
    requires Lawful(l) && l.isObject(o) && l.isObject(f) && l.isField(v) && l.isField(w)
    ensures l.put(o, v) == l.put(f, w) <==> v == w && l.put(o, l.get(f)) == f
  {
    assert l.get(l.put(o, v)) == v && l.get(l.put(f, w)) == w;
    var x := l.get(f);
    assert l.isField(x) && l.put(f, x) == f;
    assert l.put(l.put(o, v), x) == l.put(o, x);
    assert l.put(l.put(f, w), x) == l.put(f, x);
    assert l.put(l.put(o, x), v) == l.put(o, v);
    assert l.put(l.put(f, x), v) == l.put(f, v);
  }

  lemma {:induction false} WritesAgree<T(!new)>(values: seq<T>, newest: seq<T>, ls: seq<Lens<T>>, v: T)
    requires Chained(ls) && Typed(values, ls) && Typed(newest, ls) && FieldOf(ls, v)
    ensures WriteThrough(values, ls, v)[0] == WriteThrough(newest, ls, v)[0] <==> WritesEqual(values, newest, ls)
    decreases |ls|
  {
    if ls == [] {
    } else {
      ChainedTail(ls);
      TypedTail(values, ls);
      TypedTail(newest, ls);
      WritesAgree(values[1..], newest[1..], ls[1..], v);
      WriteMakesCoherent(values[1..], ls[1..], v);
      WriteMakesCoherent(newest[1..], ls[1..], v);
      var a := WriteThrough(values[1..], ls[1..], v)[0];
      var b := WriteThrough(newest[1..], ls[1..], v)[0];
      assert ls[0].isField(a) && ls[0].isField(b) by {
        if |ls| > 1 { assert ls[1..][0].isObject(a) && ls[1..][0].isObject(b); }
      }
      SamePut(ls[0], values[0], newest[0], a, b);
      WritesEqualTail(values, newest, ls);
    }
  }

  lemma TypedTail<T(!new)>(values: seq<T>, ls: seq<Lens<T>>)
    requires Typed(values, ls) && ls != []
    ensures Typed(values[1..], ls[1..])
  {
    forall i | 0 <= i < |ls[1..]|
      ensures ls[1..][i].isObject(values[1..][i]) && ls[1..][i].isField(values[1..][i + 1])
    {
      assert ls[i + 1].isObject(values[i + 1]) && ls[i + 1].isField(values[i + 1 + 1]);
    }
  }

  lemma WritesEqualTail<T>(values: seq<T>, newest: seq<T>, ls: seq<Lens<T>>)
    requires |values| == |newest| == |ls| + 1 && ls != []
    ensures WritesEqual(values, newest, ls) <==>
            ls[0].put(values[0], ls[0].get(newest[0])) == newest[0] && WritesEqual(values[1..], newest[1..], ls[1..])
  {
    if WritesEqual(values, newest, ls) {
      forall i | 0 <= i < |ls[1..]|
        ensures ls[1..][i].put(values[1..][i], ls[1..][i].get(newest[1..][i])) == newest[1..][i]
      {
        assert ls[i + 1].put(values[i + 1], ls[i + 1].get(newest[i + 1])) == newest[i + 1];
      }
    }
    if ls[0].put(values[0], ls[0].get(newest[0])) == newest[0] && WritesEqual(values[1..], newest[1..], ls[1..]) {
      forall i | 0 <= i < |ls| ensures ls[i].put(values[i], ls[i].get(newest[i])) == newest[i] {
        if i > 0 {
          assert ls[1..][i - 1].put(values[1..][i - 1], ls[1..][i - 1].get(newest[1..][i - 1])) == newest[1..][i - 1];
        }
      }
    }
  }

  lemma {:induction false} WriteFresh<T>(root: T, ls: seq<Lens<T>>, v: T)
    ensures WriteThrough(Fresh(root, ls), ls, v)[0] == WriteRoot(root, ls, v)
    decreases |ls|
  {
    if ls == [] {
    } else {
      WriteFresh(ls[0].get(root), ls[1..], v);
      assert Fresh(root, ls)[1..] == Fresh(ls[0].get(root), ls[1..]);
    }
  }

  /**
  A write changes the root in the field at the end of the chain and nowhere else if and only if the
  copies in between are not stale outside the fields the chain goes through. In particular it does
  from a coherent chain; from a stale one it writes back old values of other fields.
  */
  lemma WriteReachesRootIff<T(!new)>(values: seq<T>, ls: seq<Lens<T>>, v: T)
    requires Chained(ls) && Typed(values, ls) && FieldOf(ls, v)
    ensures WriteThrough(values, ls, v)[0] == WriteRoot(values[0], ls, v) <==> FreshElsewhere(values, ls)
    ensures Coherent(values, ls) ==> WriteThrough(values, ls, v)[0] == WriteRoot(values[0], ls, v)
  {
    var f := Fresh(values[0], ls);
    FreshIsCoherent(values[0], ls);
    WritesAgree(values, f, ls, v);
    WriteFresh(values[0], ls, v);
    if ls != [] { assert Lawful(ls[0]) && ls[0].isObject(values[0]) && f[0] == values[0]; }
    if Coherent(values, ls) { CoherentIsFresh(values, ls); }
  }

  datatype Example = Number(n: int) | Pair(first: int, second: int)

  const WHOLE_PAIR: Lens<Example> := Lens(o => o, (o, v) => v, (o: Example) => o.Pair?, (v: Example) => v.Pair?)
  const FIRST_NUMBER: Lens<Example> :=
    Lens((o: Example) => if o.Pair? then Number(o.first) else o,
         (o: Example, v: Example) => if o.Pair? && v.Number? then Pair(v.n, o.second) else o,
         (o: Example) => o.Pair?, (v: Example) => v.Number?)
  const STALE_COPIES := [Pair(0, 5), Pair(0, 1), Number(0)]

  /** A lost update: the root (0, 5) becomes (7, 1) because the copy in between is still (0, 1). */
  lemma StaleCopyOverwrites()
    ensures var ls := [WHOLE_PAIR, FIRST_NUMBER];
            && Chained(ls) && Typed(STALE_COPIES, ls)
            && WriteThrough(STALE_COPIES, ls, Number(7))[0] == Pair(7, 1)
            && WriteRoot(STALE_COPIES[0], ls, Number(7)) == Pair(7, 5)
  {
    var ls := [WHOLE_PAIR, FIRST_NUMBER];
    assert ls[1..] == [FIRST_NUMBER] && ls[1..][1..] == [];
    assert STALE_COPIES[1..] == [Pair(0, 1), Number(0)] && STALE_COPIES[1..][1..] == [Number(0)];
    assert WriteThrough(STALE_COPIES[1..], [FIRST_NUMBER], Number(7)) == [Pair(7, 1), Number(7)];
    assert WriteRoot(Pair(0, 5), [FIRST_NUMBER], Number(7)) == Pair(7, 5);
  }
}
