/** Worked inputs for the discovery search, each checked end to end. */
module ExtractExamples {
  import opened Json
  import opened Extract

  /** An event-like record: an object with a string type and a string result. */
  const SpikePoint: Node := Obj([("type", Str("spike")), ("result", Str("point"))])

  /** Node 0 is `{a: arr, b: arr, self: <node 0>}` and node 1 is `arr = [event]`. */
  const Shared: Heap := [Obj([("a", Ref(1)), ("b", Ref(1)), ("self", Ref(0))]), Arr([Ref(2)]), SpikePoint]

  lemma SharedFirstStep()
    ensures Step(Shared, Start(Ref(0))) == Search([Ref(1), Ref(1), Ref(0)], {0}, 1, [])
  {
    StepObject(Shared, Start(Ref(0)));
    assert Values(Shared[0].fields) == [Ref(1), Ref(1), Ref(0)];
  }

  lemma SharedSecondStep()
    ensures Step(Shared, Search([Ref(1), Ref(1), Ref(0)], {0}, 1, [])) == Search([Ref(1), Ref(0)], {0, 1}, 2, [Ref(2)])
  {
    assert IsEventLike(Shared, Ref(2));
    assert [Ref(2)][..0] == [];
    assert EventCount(Shared, [Ref(2)]) == 1;
    assert EventsIn(Shared, [Ref(2)]) == [Ref(2)];
    StepArray(Shared, Search([Ref(1), Ref(1), Ref(0)], {0}, 1, []));
  }

  /** The collection is reachable twice and the root through a cycle, yet its
      event is taken once and the search ends after four dequeues. */
  lemma SharedCollectionTakenOnce()
    ensures Run(Shared, Start(Ref(0))).out == [Ref(2)]
    ensures Run(Shared, Start(Ref(0))).steps == 4
    ensures Collected(Shared, Start(Ref(0))) == [1]
  {
    var s1 := Search([Ref(1), Ref(1), Ref(0)], {0}, 1, []);
    var s2 := Search([Ref(1), Ref(0)], {0, 1}, 2, [Ref(2)]);
    var s3 := Search([Ref(0)], {0, 1}, 3, [Ref(2)]);
    var s4 := Search([], {0, 1}, 4, [Ref(2)]);
    SharedFirstStep();
    SharedSecondStep();
    StepSkips(Shared, s2);
    StepSkips(Shared, s3);
    assert Run(Shared, s4) == s4;
  }

  /** `[event, 1]`: exactly half of the elements are events, so the array is
      a collection and its event is taken. */
  const Half: Heap := [Arr([Ref(1), Num(1.0)]), SpikePoint]

  lemma ExactlyHalfIsCollection()
    ensures Run(Half, Start(Ref(0))).out == [Ref(1)]
  {
    var h := Half;
    var elems := [Ref(1), Num(1.0)];
    assert IsEventLike(h, Ref(1)) && !IsEventLike(h, Num(1.0));
    assert elems[..1] == [Ref(1)] && [Ref(1)][..0] == [];
    assert EventCount(h, [Ref(1)]) == 1;
    assert EventCount(h, elems) == 1;
    assert EventsIn(h, [Ref(1)]) == [Ref(1)];
    assert EventsIn(h, elems) == [Ref(1)];
    StepArray(h, Start(Ref(0)));
    assert Step(h, Start(Ref(0))) == Search([], {0}, 1, [Ref(1)]);
  }

  /** Node 0 is `[event, 1, 2]`: fewer than half of its elements are events. */
  const Sparse: Heap := [Arr([Ref(1), Num(1.0), Num(2.0)]), SpikePoint]

  lemma SparseFirstSteps()
    ensures Step(Sparse, Start(Ref(0))) == Search([Ref(1), Num(1.0), Num(2.0)], {0}, 1, [])
    ensures Step(Sparse, Search([Ref(1), Num(1.0), Num(2.0)], {0}, 1, [])) ==
            Search([Num(1.0), Num(2.0), Str("spike"), Str("point")], {0, 1}, 2, [])
  {
    var elems := [Ref(1), Num(1.0), Num(2.0)];
    assert IsEventLike(Sparse, Ref(1)) && !IsEventLike(Sparse, Num(1.0)) && !IsEventLike(Sparse, Num(2.0));
    assert elems[..2] == [Ref(1), Num(1.0)] && elems[..2][..1] == [Ref(1)] && [Ref(1)][..0] == [];
    assert EventCount(Sparse, [Ref(1)]) == 1;
    assert EventCount(Sparse, elems[..2]) == 1;
    assert EventCount(Sparse, elems) == 1;
    StepArray(Sparse, Start(Ref(0)));
    StepObject(Sparse, Search(elems, {0}, 1, []));
    assert Values(Sparse[1].fields) == [Str("spike"), Str("point")];
  }

  /** Below the threshold the search descends instead; the event object is
      then searched as an object, and nothing is taken. */
  lemma BelowHalfIsSearched()
    ensures Run(Sparse, Start(Ref(0))).out == []
  {
    SparseFirstSteps();
    var s2 := Search([Num(1.0), Num(2.0), Str("spike"), Str("point")], {0, 1}, 2, []);
    var s3 := Search([Num(2.0), Str("spike"), Str("point")], {0, 1}, 3, []);
    var s4 := Search([Str("spike"), Str("point")], {0, 1}, 4, []);
    var s5 := Search([Str("point")], {0, 1}, 5, []);
    var s6 := Search([], {0, 1}, 6, []);
    StepSkips(Sparse, s2);
    StepSkips(Sparse, s3);
    StepSkips(Sparse, s4);
    StepSkips(Sparse, s5);
    assert Run(Sparse, s6) == s6;
  }

  /** A document that is not an object yields an empty key bag, which is its
      own database root, and no events. */
  lemma NonObjectRootFindsNothing(h: Heap, root: Value)
    requires !IsObject(h, root)
    ensures var l := NormalizeToKeyBag(h, root);
            Run(l.heap, Start(PickDbRoot(l.heap, l.bag))).out == []
  {
    var l := NormalizeToKeyBag(h, root);
    var bag := Ref(|h|);
    assert l.heap[|h|] == Obj([]);
    assert forall k :: Get(l.heap, bag, k) == Undefined;
    assert PickDbRoot(l.heap, l.bag) == bag;
    StepObject(l.heap, Start(bag));
    assert Step(l.heap, Start(bag)) == Search([], {|h|}, 1, []);
  }
}
