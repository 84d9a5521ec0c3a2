/**
 * Schema-agnostic discovery of rally records in an unknown JSON document
 * (src/lib/extract.ts): the export-envelope normaliser, the database-root
 * selector, the "event-like" test and the breadth-first search for arrays
 * that are mostly events.
 */
module Extract {
  import opened Json
  import opened Sums

  /** Budget of dequeues of the search (`STEP_LIMIT`). */
  const STEP_LIMIT: nat := 50000

  /** The database keys probed by `pickDbRoot`, in order. */
  const DB_KEYS: seq<string> := ["valleyPwa.db.v2", "volleyPwa.db.v2", "valleyPwa.db", "volleyPwa.db"]

  /** The type-like field: the first present of `type`, `skill` and `label`. */
  function TypeField(h: Heap, x: Value): Value {
    Coalesce([Get(h, x, "type"), Get(h, x, "skill"), Get(h, x, "label")])
  }

  /** The result-like field: `result`, or `outcome` when `result` is absent. */
  function ResultField(h: Heap, x: Value): Value {
    Coalesce([Get(h, x, "result"), Get(h, x, "outcome")])
  }

  /** `isEventLike`: an object whose type-like and result-like fields are strings. */
  predicate IsEventLike(h: Heap, x: Value) {
    IsObject(h, x) && TypeField(h, x).Str? && ResultField(h, x).Str?
  }

  /** `isEventLike(x)` holds exactly when x is an object, the first present of
      `type`/`skill`/`label` is a string and the first present of
      `result`/`outcome` is a string. */
  lemma EventLikeIff(h: Heap, x: Value)
    ensures IsEventLike(h, x) <==>
      && IsObject(h, x)
      && FirstPresentIsString([Get(h, x, "type"), Get(h, x, "skill"), Get(h, x, "label")])
      && FirstPresentIsString([Get(h, x, "result"), Get(h, x, "outcome")])
  {
    CoalesceIsString([Get(h, x, "type"), Get(h, x, "skill"), Get(h, x, "label")]);
    CoalesceIsString([Get(h, x, "result"), Get(h, x, "outcome")]);
  }

  /** A present `type` that is not a string hides any `skill` or `label`. */
  lemma TypeShadowsSkill(h: Heap, x: Value)
    requires !Nullish(Get(h, x, "type")) && !Get(h, x, "type").Str?
    ensures !IsEventLike(h, x)
  {
    assert TypeField(h, x) == Get(h, x, "type");
  }

  /** A document after `normalizeToKeyBag`: the heap (with a fresh empty
      object when one had to be made) and the node that is the key bag. */
  datatype Loaded = Loaded(heap: Heap, bag: nat)

  /** `normalizeToKeyBag`: unwrap a `{keys: {...}}` envelope, keep any other
      object as it is, and turn a non-object into a fresh `{}`. */
  function NormalizeToKeyBag(h: Heap, root: Value): (r: Loaded)
    ensures !IsObject(h, root) ==> r.heap == h + [Obj([])] && r.bag == |h|
    ensures IsObject(h, root) && IsObject(h, Get(h, root, "keys")) ==>
              r == Loaded(h, Get(h, root, "keys").id)
    ensures IsObject(h, root) && !IsObject(h, Get(h, root, "keys")) ==> r == Loaded(h, root.id)
    ensures IsObject(r.heap, Ref(r.bag)) && r.heap[..|h|] == h
    ensures WellFormed(h) ==> WellFormed(r.heap)
  {
    if !IsObject(h, root) then
      var h' := h + [Obj([])];
      assert forall i | 0 <= i < |h| :: h'[i] == h[i];
      Loaded(h', |h|)
    else
      var maybeKeys := Get(h, root, "keys");
      if IsObject(h, maybeKeys) then Loaded(h, maybeKeys.id) else Loaded(h, root.id)
  }

  /** `pickDbRoot`: the first present value among the database keys, else the bag. */
  function PickDbRoot(h: Heap, bag: nat): (r: Value)
    ensures forall i | 0 <= i < |DB_KEYS| && !Nullish(Get(h, Ref(bag), DB_KEYS[i])) &&
                       (forall j | 0 <= j < i :: Nullish(Get(h, Ref(bag), DB_KEYS[j]))) ::
              r == Get(h, Ref(bag), DB_KEYS[i])
    ensures (forall i | 0 <= i < |DB_KEYS| :: Nullish(Get(h, Ref(bag), DB_KEYS[i]))) ==> r == Ref(bag)
  {
    var b := Ref(bag);
    var chain := [Get(h, b, DB_KEYS[0]), Get(h, b, DB_KEYS[1]), Get(h, b, DB_KEYS[2]), Get(h, b, DB_KEYS[3]), b];
    assert forall i | 0 <= i < |DB_KEYS| :: chain[i] == Get(h, b, DB_KEYS[i]);
    Coalesce(chain)
  }

  // ---------------------------------------------------------------------
  // Breadth-first search for event collections (`findEventArrays`)
  // ---------------------------------------------------------------------

  /** The number of event-like elements of `s` (`eventCount`). */
  function EventCount(h: Heap, s: seq<Value>): nat {
    if s == [] then 0
    else EventCount(h, s[..|s| - 1]) + (if IsEventLike(h, s[|s| - 1]) then 1 else 0)
  }

  /** The event-like elements of `s`, in order: exactly those of its
      elements that are event-like, `eventCount` of them. */
  function EventsIn(h: Heap, s: seq<Value>): (r: seq<Value>)
    ensures |r| == EventCount(h, s)
    ensures forall i | 0 <= i < |r| :: IsEventLike(h, r[i])
    ensures forall v :: v in r <==> v in s && IsEventLike(h, v)
  {
    if s == [] then []
    else
      var init := s[..|s| - 1];
      assert s == init + [s[|s| - 1]];
      var r := EventsIn(h, init);
      if IsEventLike(h, s[|s| - 1]) then r + [s[|s| - 1]] else r
  }

  /** Taking the events keeps their order: the events of `a + b` are those of
      `a` followed by those of `b`, and a single element is kept exactly when
      it is event-like. */
  lemma {:induction false} EventsInAppend(h: Heap, a: seq<Value>, b: seq<Value>)
    ensures EventsIn(h, a + b) == EventsIn(h, a) + EventsIn(h, b)
    ensures |b| == 1 ==> EventsIn(h, b) == if IsEventLike(h, b[0]) then b else []
    decreases |b|
  {
    if b == [] {
      assert a + b == a;
    } else {
      var init, x := b[..|b| - 1], b[|b| - 1];
      assert (a + b)[..|a + b| - 1] == a + init && (a + b)[|a + b| - 1] == x;
      EventsInAppend(h, a, init);
      if |b| == 1 {
        assert init == [];
      }
    }
  }

  /** An array that is a collection of events: non-empty and at least half
      event-like, stated in integers (the ratio form is `CollectionThreshold`). */
  predicate IsCollection(h: Heap, elems: seq<Value>) {
    |elems| >= 1 && 2 * EventCount(h, elems) >= |elems|
  }

  lemma HalfRatio(c: real, n: real)
    requires n > 0.0
    ensures c / n >= 0.5 <==> 2.0 * c >= n
  {
    assert c / n * n == c;
    if c / n >= 0.5 {
      assert c / n * n >= 0.5 * n;
    } else {
      assert c / n * n < 0.5 * n;
    }
  }

  /** The source's test `eventCount / cur.length >= 0.5` on a non-empty
      array: exactly half already qualifies. */
  lemma CollectionThreshold(h: Heap, elems: seq<Value>)
    ensures IsCollection(h, elems) <==>
              |elems| >= 1 && EventCount(h, elems) as real / |elems| as real >= 0.5
  {
    if |elems| >= 1 {
      HalfRatio(EventCount(h, elems) as real, |elems| as real);
    }
  }

  /** Node `id` is an array whose events the search takes. */
  ghost predicate IsCollectionNode(h: Heap, id: nat) {
    id < |h| && h[id].Arr? && IsCollection(h, h[id].elems)
  }

  /** The state of the search loop: `queue`, `seen`, `steps` and `out`. */
  datatype Search = Search(queue: seq<Value>, seen: set<nat>, steps: nat, out: seq<Value>)

  function Start(root: Value): Search {
    Search([root], {}, 0, [])
  }

  /** One iteration of the loop: dequeue one value; skip it when it is falsy
      or an already seen node; otherwise mark it seen, take the events of a
      collection without descending, or enqueue the children of any other
      array or object. */
  function Step(h: Heap, s: Search): (r: Search)
    requires |s.queue| > 0
    ensures r.steps == s.steps + 1
  {
    var cur := s.queue[0];
    var next := s.(queue := s.queue[1..], steps := s.steps + 1);
    if !Truthy(cur) || (cur.Ref? && cur.id in s.seen) then next
    else if !cur.Ref? then next
    else
      var marked := next.(seen := s.seen + {cur.id});
      if cur.id >= |h| then marked
      else match h[cur.id]
        case Arr(elems) =>
          if IsCollection(h, elems) then marked.(out := s.out + EventsIn(h, elems))
          else marked.(queue := next.queue + elems)
        case Obj(fields) => marked.(queue := next.queue + Values(fields))
  }

  /** A falsy value, a primitive or an already seen node only costs a step. */
  lemma StepSkips(h: Heap, s: Search)
    requires |s.queue| > 0
    requires !Truthy(s.queue[0]) || !s.queue[0].Ref? || s.queue[0].id in s.seen
    ensures Step(h, s) == s.(queue := s.queue[1..], steps := s.steps + 1)
  {
  }

  /** An unseen object node is marked seen and all its values are enqueued. */
  lemma StepObject(h: Heap, s: Search)
    requires |s.queue| > 0 && IsObject(h, s.queue[0]) && h[s.queue[0].id].Obj?
    requires s.queue[0].id !in s.seen
    ensures Step(h, s) == Search(s.queue[1..] + Values(h[s.queue[0].id].fields),
                                 s.seen + {s.queue[0].id}, s.steps + 1, s.out)
  {
  }

  /** An unseen array node is marked seen; when it is non-empty and at least
      half of its elements are event-like, those elements are appended to the
      output in order and nothing is enqueued, and otherwise all its elements
      are enqueued. */
  lemma StepArray(h: Heap, s: Search)
    requires |s.queue| > 0 && IsArray(h, s.queue[0]) && s.queue[0].id !in s.seen
    ensures var elems := h[s.queue[0].id].elems;
            var marked := s.seen + {s.queue[0].id};
            Step(h, s) ==
              if |elems| >= 1 && 2 * EventCount(h, elems) >= |elems|
              then Search(s.queue[1..], marked, s.steps + 1, s.out + EventsIn(h, elems))
              else Search(s.queue[1..] + elems, marked, s.steps + 1, s.out)
  {
  }

  /** The loop run to its end: until the queue is empty or the budget spent. */
  function Run(h: Heap, s: Search): Search
    decreases STEP_LIMIT - s.steps
  {
    if |s.queue| > 0 && s.steps < STEP_LIMIT then Run(h, Step(h, s)) else s
  }

  /** The collection node that one step takes its events from, if any. */
  ghost function Emitted(h: Heap, s: Search): seq<nat>
    requires |s.queue| > 0
  {
    var cur := s.queue[0];
    if cur.Ref? && cur.id !in s.seen && IsCollectionNode(h, cur.id) then [cur.id] else []
  }

  /** The collection nodes the search takes events from, in order. */
  ghost function Collected(h: Heap, s: Search): seq<nat>
    decreases STEP_LIMIT - s.steps
  {
    if |s.queue| > 0 && s.steps < STEP_LIMIT then Emitted(h, s) + Collected(h, Step(h, s)) else []
  }

  /** The events of the given collection nodes, one node after the other. */
  function EventsOf(h: Heap, ids: seq<nat>): seq<Value> {
    if ids == [] then []
    else
      (if ids[0] < |h| && h[ids[0]].Arr? then EventsIn(h, h[ids[0]].elems) else [])
      + EventsOf(h, ids[1..])
  }

  lemma {:induction false} EventsOfAppend(h: Heap, a: seq<nat>, b: seq<nat>)
    ensures EventsOf(h, a + b) == EventsOf(h, a) + EventsOf(h, b)
  {
    if a == [] {
      assert a + b == b;
    } else {
      assert (a + b)[0] == a[0] && (a + b)[1..] == a[1..] + b;
      EventsOfAppend(h, a[1..], b);
    }
  }

  /** Everything the search emits is event-like. */
  lemma {:induction false} EventsOfEventLike(h: Heap, ids: seq<nat>)
    ensures forall i | 0 <= i < |EventsOf(h, ids)| :: IsEventLike(h, EventsOf(h, ids)[i])
  {
    if ids != [] {
      EventsOfEventLike(h, ids[1..]);
      var first := if ids[0] < |h| && h[ids[0]].Arr? then EventsIn(h, h[ids[0]].elems) else [];
      assert EventsOf(h, ids) == first + EventsOf(h, ids[1..]);
      forall i | 0 <= i < |EventsOf(h, ids)| ensures IsEventLike(h, EventsOf(h, ids)[i]) {
        if i >= |first| { assert EventsOf(h, ids)[i] == EventsOf(h, ids[1..])[i - |first|]; }
      }
    }
  }

  lemma StepEmits(h: Heap, s: Search)
    requires |s.queue| > 0
    ensures Step(h, s).out == s.out + EventsOf(h, Emitted(h, s))
    ensures s.seen <= Step(h, s).seen
    ensures forall id | id in Emitted(h, s) :: id !in s.seen && id in Step(h, s).seen && IsCollectionNode(h, id)
  {
    var cur := s.queue[0];
    if cur.Ref? && cur.id !in s.seen && IsCollectionNode(h, cur.id) {
      assert EventsOf(h, [cur.id]) == EventsIn(h, h[cur.id].elems) + EventsOf(h, []);
    }
  }

  /** One step of the loop, as `Run` and `Collected` see it. */
  lemma RunUnfold(h: Heap, s: Search)
    requires |s.queue| > 0 && s.steps < STEP_LIMIT
    ensures Run(h, s) == Run(h, Step(h, s))
    ensures Collected(h, s) == Emitted(h, s) + Collected(h, Step(h, s))
  {
  }

  /** Output after one step, then after the rest of the run. */
  lemma OutputConcat(h: Heap, o: seq<Value>, o1: seq<Value>, r: seq<Value>, e: seq<nat>, rest: seq<nat>)
    requires o1 == o + EventsOf(h, e) && r == o1 + EventsOf(h, rest)
    ensures r == o + EventsOf(h, e + rest)
  {
    EventsOfAppend(h, e, rest);
    ConcatAssoc(o, EventsOf(h, e), EventsOf(h, rest));
  }

  /** The search outputs exactly the events of the collection nodes it takes. */
  lemma {:induction false} RunOutput(h: Heap, s: Search)
    ensures Run(h, s).out == s.out + EventsOf(h, Collected(h, s))
    decreases STEP_LIMIT - s.steps
  {
    if |s.queue| > 0 && s.steps < STEP_LIMIT {
      var s1 := Step(h, s);
      RunUnfold(h, s);
      RunOutput(h, s1);
      StepEmits(h, s);
      OutputConcat(h, s.out, s1.out, Run(h, s1).out, Emitted(h, s), Collected(h, s1));
    } else {
      assert s.out + EventsOf(h, []) == s.out;
    }
  }

  /** One emitted node followed by nodes taken later: all unseen at the
      start and none repeated, when the later ones are unseen after the
      first node is marked. */
  lemma {:induction false} TakenOnceConcat(h: Heap, e: seq<nat>, rest: seq<nat>, seen: set<nat>, seen1: set<nat>)
    requires |e| <= 1
    requires forall id | id in e :: id !in seen && id in seen1 && IsCollectionNode(h, id)
    requires forall i | 0 <= i < |rest| :: rest[i] !in seen1 && IsCollectionNode(h, rest[i])
    requires forall i, j | 0 <= i < j < |rest| :: rest[i] != rest[j]
    requires seen <= seen1
    ensures forall i | 0 <= i < |e + rest| :: (e + rest)[i] !in seen && IsCollectionNode(h, (e + rest)[i])
    ensures forall i, j | 0 <= i < j < |e + rest| :: (e + rest)[i] != (e + rest)[j]
  {
    var c := e + rest;
    forall i | 0 <= i < |c| ensures c[i] !in seen && IsCollectionNode(h, c[i]) {
      if i >= |e| { assert c[i] == rest[i - |e|]; } else { assert c[i] in e; }
    }
    forall i, j | 0 <= i < j < |c| ensures c[i] != c[j] {
      assert c[j] == rest[j - |e|];
      if i >= |e| {
        assert c[i] == rest[i - |e|];
      } else {
        assert c[i] in e;
      }
    }
  }

  /** The collection nodes the search takes were unseen when it started,
      and none is taken twice: a collection reachable along several paths,
      or around a cycle, contributes its events once. */
  lemma {:induction false} RunCollectsOnce(h: Heap, s: Search)
    ensures forall i | 0 <= i < |Collected(h, s)| ::
              Collected(h, s)[i] !in s.seen && IsCollectionNode(h, Collected(h, s)[i])
    ensures forall i, j | 0 <= i < j < |Collected(h, s)| :: Collected(h, s)[i] != Collected(h, s)[j]
    decreases STEP_LIMIT - s.steps
  {
    if |s.queue| > 0 && s.steps < STEP_LIMIT {
      var s1 := Step(h, s);
      RunUnfold(h, s);
      RunCollectsOnce(h, s1);
      StepEmits(h, s);
      TakenOnceConcat(h, Emitted(h, s), Collected(h, s1), s.seen, s1.seen);
    }
  }

  // ---------------------------------------------------------------------
  // Completeness: every reachable collection is taken
  // ---------------------------------------------------------------------

  /** A node the search walks through without taking it: an object, or an
      array below the threshold. */
  ghost predicate Passable(h: Heap, id: nat) {
    id < |h| && (h[id].Obj? || !IsCollection(h, h[id].elems))
  }

  /** `p` is a chain of references that starts at `root`. Every node but the
      last is passable and holds a reference to the next one. */
  ghost predicate Path(h: Heap, root: Value, p: seq<nat>) {
    && |p| >= 1 && root == Ref(p[0])
    && forall k | 0 <= k < |p| - 1 :: Passable(h, p[k]) && Ref(p[k + 1]) in Children(h[p[k]])
  }

  /** A collection node at the end of a path from `root`. */
  ghost predicate ReachableCollection(h: Heap, root: Value, id: nat) {
    IsCollectionNode(h, id) && exists p :: Path(h, root, p) && p[|p| - 1] == id
  }

  /** The children of every passable seen node are seen or still queued. */
  ghost predicate Closed(h: Heap, s: Search) {
    forall x, c | x in s.seen && Passable(h, x) && c in Children(h[x]) && c.Ref? ::
      c.id in s.seen || c in s.queue
  }

  /** One step keeps the seen nodes closed. It marks the dequeued node seen,
      keeps the rest of the queue, and marks no other node. */
  lemma StepClosed(h: Heap, s: Search)
    requires |s.queue| > 0 && Closed(h, s)
    ensures Closed(h, Step(h, s))
    ensures s.queue[0].Ref? ==> s.queue[0].id in Step(h, s).seen
    ensures forall v | v in s.queue[1..] :: v in Step(h, s).queue
    ensures forall id | id in Step(h, s).seen && id !in s.seen :: s.queue[0] == Ref(id)
  {
    var cur := s.queue[0];
    var s1 := Step(h, s);
    assert s.queue == [cur] + s.queue[1..];
    assert s1.queue[..|s.queue| - 1] == s.queue[1..];
    forall v | v in s.queue[1..] ensures v in s1.queue {
      assert v in s1.queue[..|s.queue| - 1];
    }
    forall x, c | x in s1.seen && Passable(h, x) && c in Children(h[x]) && c.Ref?
      ensures c.id in s1.seen || c in s1.queue
    {
      if x !in s.seen {
        assert x == cur.id;
        assert Children(h[x]) == s1.queue[|s.queue| - 1..];
      } else if c.id !in s1.seen {
        assert c in s.queue[1..];
      }
    }
  }

  /** Along the run the seen nodes stay closed and only grow. When the queue
      runs empty, every reference that was queued has been seen. */
  lemma {:induction false} RunClosed(h: Heap, s: Search)
    requires Closed(h, s)
    ensures Closed(h, Run(h, s)) && s.seen <= Run(h, s).seen
    ensures Run(h, s).queue == [] ==> forall v | v in s.queue && v.Ref? :: v.id in Run(h, s).seen
    decreases STEP_LIMIT - s.steps
  {
    if |s.queue| > 0 && s.steps < STEP_LIMIT {
      var s1 := Step(h, s);
      RunUnfold(h, s);
      StepClosed(h, s);
      StepEmits(h, s);
      RunClosed(h, s1);
      if Run(h, s).queue == [] {
        forall v | v in s.queue && v.Ref? ensures v.id in Run(h, s).seen {
          if v != s.queue[0] {
            assert s.queue == [s.queue[0]] + s.queue[1..];
            assert v in s.queue[1..];
          }
        }
      }
    }
  }

  /** Every collection node the run marks seen is one it takes. */
  lemma {:induction false} RunSeenCollected(h: Heap, s: Search)
    ensures forall id | id in Run(h, s).seen && id !in s.seen && IsCollectionNode(h, id) :: id in Collected(h, s)
    decreases STEP_LIMIT - s.steps
  {
    if |s.queue| > 0 && s.steps < STEP_LIMIT {
      var s1 := Step(h, s);
      RunUnfold(h, s);
      RunSeenCollected(h, s1);
      StepSeen(h, s);
    }
  }

  /** A node one step marks seen is the dequeued one, and a collection node
      marked that way is what the step takes. */
  lemma StepSeen(h: Heap, s: Search)
    requires |s.queue| > 0
    ensures forall id | id in Step(h, s).seen && id !in s.seen && IsCollectionNode(h, id) :: Emitted(h, s) == [id]
  {
  }

  /** On a closed state with an empty queue, every node of a path whose first
      node is seen is seen. */
  lemma {:induction false} PathSeen(h: Heap, root: Value, p: seq<nat>, f: Search, k: nat)
    requires Path(h, root, p) && Closed(h, f) && f.queue == [] && p[0] in f.seen && k < |p|
    ensures p[k] in f.seen
  {
    if k > 0 {
      PathSeen(h, root, p, f, k - 1);
      assert Passable(h, p[k - 1]) && Ref(p[k]) in Children(h[p[k - 1]]);
    }
  }

  /** When the search ends by emptying its queue rather than by spending its
      budget, it has taken every collection reachable from the root through
      objects and arrays below the threshold. */
  lemma RunFindsReachable(h: Heap, root: Value, id: nat)
    requires Run(h, Start(root)).queue == [] && ReachableCollection(h, root, id)
    ensures id in Collected(h, Start(root))
  {
    var f := Run(h, Start(root));
    RunClosed(h, Start(root));
    RunSeenCollected(h, Start(root));
    var p :| Path(h, root, p) && p[|p| - 1] == id;
    assert root in Start(root).queue;
    PathSeen(h, root, p, f, |p| - 1);
  }

  /** The search stops after at most `STEP_LIMIT` dequeues, and it stops
      only when the queue is empty or the budget is spent. */
  lemma {:induction false} RunBudget(h: Heap, s: Search)
    requires s.steps <= STEP_LIMIT
    ensures s.steps <= Run(h, s).steps <= STEP_LIMIT
    ensures Run(h, s).queue == [] || Run(h, s).steps == STEP_LIMIT
    decreases STEP_LIMIT - s.steps
  {
    if |s.queue| > 0 && s.steps < STEP_LIMIT {
      RunBudget(h, Step(h, s));
    }
  }

  /** One more element of `elems` extends the filtered prefix by that element alone, if it is event-like. */
  lemma TakeStep(h: Heap, out: seq<Value>, elems: seq<Value>, j: nat)
    requires j < |elems|
    ensures out + EventsIn(h, elems[..j + 1])
         == (out + EventsIn(h, elems[..j])) + (if IsEventLike(h, elems[j]) then [elems[j]] else [])
  {
    assert elems[..j + 1] == elems[..j] + [elems[j]];
    EventsInAppend(h, elems[..j], [elems[j]]);
    ConcatAssoc(out, EventsIn(h, elems[..j]), if IsEventLike(h, elems[j]) then [elems[j]] else []);
  }

  /** The loop that appends the event-like elements of a collection to the output. */
  method TakeEvents(h: Heap, out: seq<Value>, elems: seq<Value>) returns (out': seq<Value>)
    ensures out' == out + EventsIn(h, elems)
  {
    out' := out;
    for j := 0 to |elems|
      invariant out' == out + EventsIn(h, elems[..j])
    {
      TakeStep(h, out, elems, j);
      if IsEventLike(h, elems[j]) {
        out' := out' + [elems[j]];
      }
    }
    assert elems[..|elems|] == elems;
  }

  /** The loop that pushes every child onto the queue, in order. */
  method EnqueueAll(queue: seq<Value>, vs: seq<Value>) returns (queue': seq<Value>)
    ensures queue' == queue + vs
  {
    queue' := queue;
    for j := 0 to |vs|
      invariant queue' == queue + vs[..j]
    {
      assert vs[..j + 1] == vs[..j] + [vs[j]];
      queue' := queue' + [vs[j]];
    }
    assert vs[..|vs|] == vs;
  }

  /** `findEventArrays`: breadth-first search from `root` for event collections. */
  method FindEventArrays(h: Heap, root: Value) returns (out: seq<Value>)
    ensures out == Run(h, Start(root)).out
    ensures out == EventsOf(h, Collected(h, Start(root)))
    ensures forall i | 0 <= i < |out| :: IsEventLike(h, out[i])
    ensures forall id | id in Collected(h, Start(root)) :: IsCollectionNode(h, id)
    ensures forall i, j | 0 <= i < j < |Collected(h, Start(root))| ::
              Collected(h, Start(root))[i] != Collected(h, Start(root))[j]
    ensures Run(h, Start(root)).queue == [] || Run(h, Start(root)).steps == STEP_LIMIT
    ensures Run(h, Start(root)).queue == [] ==>
              forall id | ReachableCollection(h, root, id) :: id in Collected(h, Start(root))
  {
    out := [];
    var seen: set<nat> := {};
    var queue := [root];
    var steps := 0;
    while |queue| > 0 && steps < STEP_LIMIT
      invariant steps <= STEP_LIMIT
      invariant Run(h, Search(queue, seen, steps, out)) == Run(h, Start(root))
      decreases STEP_LIMIT - steps
    {
      ghost var before := Search(queue, seen, steps, out);
      var cur := queue[0];
      queue := queue[1..];
      steps := steps + 1;
      if Truthy(cur) && !(cur.Ref? && cur.id in seen) && cur.Ref? {
        seen := seen + {cur.id};
        if IsArray(h, cur) {
          StepArray(h, before);
          var elems := h[cur.id].elems;
          var isCollection := false;
          if |elems| >= 1 {
            var eventCount := EventCount(h, elems);
            isCollection := eventCount as real / |elems| as real >= 0.5;
          }
          assert isCollection == IsCollection(h, elems) by {
            CollectionThreshold(h, elems);
          }
          if isCollection {
            out := TakeEvents(h, out, elems);
          } else {
            queue := EnqueueAll(queue, elems);
          }
        } else if IsObject(h, cur) {
          StepObject(h, before);
          queue := EnqueueAll(queue, Values(h[cur.id].fields));
        }
      } else {
        StepSkips(h, before);
      }
      assert Search(queue, seen, steps, out) == Step(h, before);
    }
    RunOutput(h, Start(root));
    RunCollectsOnce(h, Start(root));
    EventsOfEventLike(h, Collected(h, Start(root)));
    RunBudget(h, Start(root));
    if Run(h, Start(root)).queue == [] {
      forall id | ReachableCollection(h, root, id) ensures id in Collected(h, Start(root)) {
        RunFindsReachable(h, root, id);
      }
    }
  }
}
