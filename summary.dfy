/**
 * The quick-look tally over discovered records (`summarizeEvents` of
 * src/lib/extract.ts): counts by type label, result label and player label,
 * each table sorted by descending count, the player table cut to 30 rows.
 */
module Summary {
  import opened Json
  import opened Sums
  import opened Assoc
  import opened Sorting
  import Extract

  /** Rows kept in the player table (`slice(0, 30)`). */
  const PLAYER_ROWS: nat := 30

  /** The bucket for a missing label. */
  const UNKNOWN: string := "unknown"

  /** A frequency table: label and count, as `Array.from(map.entries())`. */
  type Table = seq<(string, nat)>

  datatype EventSummary = EventSummary(total: nat, byType: Table, byResult: Table, byPlayer: Table)

  /** `String(v)`: the string itself for a string, and an unspecified
      rendering `show` for every other value. */
  function Stringify(v: Value, show: Value -> string): string {
    if v.Str? then v.s else show(v)
  }

  /** The type label: the type-like field as a string, "unknown" when it is absent. */
  function TypeLabel(h: Heap, e: Value, show: Value -> string): string {
    var t := Extract.TypeField(h, e);
    if Nullish(t) then UNKNOWN else Stringify(t, show)
  }

  /** The result label: the result-like field as a string, "unknown" when it is absent. */
  function ResultLabel(h: Heap, e: Value, show: Value -> string): string {
    var r := Extract.ResultField(h, e);
    if Nullish(r) then UNKNOWN else Stringify(r, show)
  }

  /** The player field: `playerId`, or `player` when `playerId` is absent. */
  function PlayerField(h: Heap, e: Value): Value {
    Coalesce([Get(h, e, "playerId"), Get(h, e, "player")])
  }

  /** The player label: the player field as a string, "unknown" when it is falsy. */
  function PlayerLabel(h: Heap, e: Value, show: Value -> string): string {
    var p := PlayerField(h, e);
    if Truthy(p) then Stringify(p, show) else UNKNOWN
  }

  function TypeLabels(h: Heap, events: seq<Value>, show: Value -> string): (ls: seq<string>)
    ensures |ls| == |events| && forall i | 0 <= i < |events| :: ls[i] == TypeLabel(h, events[i], show)
  {
    seq(|events|, i requires 0 <= i < |events| => TypeLabel(h, events[i], show))
  }

  function ResultLabels(h: Heap, events: seq<Value>, show: Value -> string): (ls: seq<string>)
    ensures |ls| == |events| && forall i | 0 <= i < |events| :: ls[i] == ResultLabel(h, events[i], show)
  {
    seq(|events|, i requires 0 <= i < |events| => ResultLabel(h, events[i], show))
  }

  function PlayerLabels(h: Heap, events: seq<Value>, show: Value -> string): (ls: seq<string>)
    ensures |ls| == |events| && forall i | 0 <= i < |events| :: ls[i] == PlayerLabel(h, events[i], show)
  {
    seq(|events|, i requires 0 <= i < |events| => PlayerLabel(h, events[i], show))
  }

  /** An event-like record is tallied under its own type and result strings. */
  lemma EventLabels(h: Heap, e: Value, show: Value -> string)
    requires Extract.IsEventLike(h, e)
    ensures TypeLabel(h, e, show) == Extract.TypeField(h, e).s
    ensures ResultLabel(h, e, show) == Extract.ResultField(h, e).s
  {
  }

  /** A falsy player (missing, `null`, `false`, `0` or `""`) falls into "unknown". */
  lemma MissingPlayerIsUnknown(h: Heap, e: Value, show: Value -> string)
    requires !Truthy(PlayerField(h, e))
    ensures PlayerLabel(h, e, show) == UNKNOWN
  {
  }

  /** Count one more occurrence of `k`, adding it at the end when it is new. */
  function Bump(t: Table, k: string): Table {
    Put(t, k, GetOr(t, k, 0) + 1)
  }

  /** A bump adds one to the count of `k` and leaves every other count alone. */
  lemma BumpCounts(t: Table, k: string, k': string)
    ensures GetOr(Bump(t, k), k', 0) == GetOr(t, k', 0) + (if k' == k then 1 else 0)
  {
    PutFind(t, k, GetOr(t, k, 0) + 1, k');
  }

  /** A new `k` goes at the end; an existing one keeps its place. */
  lemma BumpKeys(t: Table, k: string)
    ensures Keys(Bump(t, k)) == if k in KeySet(t) then Keys(t) else Keys(t) + [k]
  {
    PutKeyOrder(t, k, GetOr(t, k, 0) + 1);
  }

  /** The frequency map after the loop has seen `labels`, in insertion order. */
  function Tally(labels: seq<string>): Table {
    if labels == [] then [] else Bump(Tally(labels[..|labels| - 1]), labels[|labels| - 1])
  }

  /** One more label extends the tally of a prefix by one bump. */
  lemma TallyPrefix(labels: seq<string>, i: nat)
    requires i < |labels|
    ensures Tally(labels[..i + 1]) == Bump(Tally(labels[..i]), labels[i])
  {
    assert labels[..i + 1][..i] == labels[..i];
  }

  /** The loop step: bumping the tally of a prefix by the next label. */
  lemma TallyStep(labels: seq<string>, i: nat, t: Table, l: string)
    requires i < |labels| && t == Tally(labels[..i]) && l == labels[i]
    ensures Bump(t, l) == Tally(labels[..i + 1])
  {
    TallyPrefix(labels, i);
  }

  function Label(e: (string, nat)): string { e.0 }

  function Count(e: (string, nat)): int { e.1 }

  /** The comparator `(a, b) => b[1] - a[1]`: larger counts first. */
  predicate ByCountDesc(a: (string, nat), b: (string, nat)) {
    a.1 >= b.1
  }

  /** `t` is the frequency table of `labels`: one row per distinct label,
      holding the number of times it occurs, rows by non-increasing count. */
  ghost predicate FrequencyTable(t: Table, labels: seq<string>) {
    && DistinctBy(t, Label)
    && (forall i | 0 <= i < |t| :: t[i].1 == multiset(labels)[t[i].0] && t[i].1 >= 1)
    && (forall l | l in labels :: exists i | 0 <= i < |t| :: t[i].0 == l)
    && SumOf(t, Count) == |labels|
    && SortedBy(t, ByCountDesc)
  }

  /** The tally has one row per distinct label. */
  lemma {:induction false} TallyKeys(labels: seq<string>)
    ensures DistinctKeys(Tally(labels))
    ensures KeySet(Tally(labels)) == set l | l in labels
  {
    if labels != [] {
      var init, x := labels[..|labels| - 1], labels[|labels| - 1];
      var t := Tally(init);
      TallyKeys(init);
      assert labels == init + [x];
      PutKeys(t, x, GetOr(t, x, 0) + 1);
      PutDistinct(t, x, GetOr(t, x, 0) + 1);
      assert (set l | l in labels) == (set l | l in init) + {x};
    }
  }

  /** The tally counts every label exactly as often as it occurs. */
  lemma {:induction false} TallyCounts(labels: seq<string>, k: string)
    ensures GetOr(Tally(labels), k, 0) == multiset(labels)[k]
  {
    if labels != [] {
      var init, x := labels[..|labels| - 1], labels[|labels| - 1];
      var t := Tally(init);
      TallyCounts(init, k);
      TallyCounts(init, x);
      assert labels == init + [x];
      PutFind(t, x, GetOr(t, x, 0) + 1, k);
    }
  }

  /** The counts of the tally add up to the number of labels. */
  lemma {:induction false} TallySum(labels: seq<string>)
    ensures SumOf(Tally(labels), Count) == |labels|
  {
    if labels != [] {
      var init, x := labels[..|labels| - 1], labels[|labels| - 1];
      var t := Tally(init);
      TallySum(init);
      SumOfPut(t, x, GetOr(t, x, 0) + 1, Count);
      TallyCounts(init, x);
      TallyKeys(init);
      if x in KeySet(t) {
        var j :| 0 <= j < |t| && t[j].0 == x;
        FindEntry(t, j);
      }
    }
  }

  lemma ByCountDescIsPreorder()
    ensures TotalPreorder(ByCountDesc)
  {
  }

  /** Sorting the tally gives the frequency table. */
  lemma {:induction false} SortedTallyIsFrequencyTable(labels: seq<string>)
    ensures FrequencyTable(SortBy(Tally(labels), ByCountDesc), labels)
  {
    var t := Tally(labels);
    var s := SortBy(t, ByCountDesc);
    TallyKeys(labels);
    TallySum(labels);
    ByCountDescIsPreorder();
    SortBySorted(t, ByCountDesc);
    SumOfSortBy(t, ByCountDesc, Count);
    assert DistinctBy(t, Label);
    DistinctBySortBy(t, ByCountDesc, Label);
    forall i | 0 <= i < |s| ensures s[i].1 == multiset(labels)[s[i].0] && s[i].1 >= 1 {
      SortByMembers(t, ByCountDesc, s[i]);
      var j :| 0 <= j < |t| && t[j] == s[i];
      FindEntry(t, j);
      TallyCounts(labels, s[i].0);
      assert s[i].0 in KeySet(t);
    }
    forall l | l in labels ensures exists i | 0 <= i < |s| :: s[i].0 == l {
      assert l in KeySet(t);
      var j :| 0 <= j < |t| && t[j].0 == l;
      SortByMembers(t, ByCountDesc, t[j]);
      var i :| 0 <= i < |s| && s[i] == t[j];
    }
  }

  /** `slice(0, 30)`: the first `PLAYER_ROWS` rows, or all of them when
      there are fewer. */
  function Top(t: Table): (r: Table)
    ensures |r| <= PLAYER_ROWS
    ensures |r| == if |t| <= PLAYER_ROWS then |t| else PLAYER_ROWS
    ensures r == t[..|r|]
  {
    if |t| <= PLAYER_ROWS then t else t[..PLAYER_ROWS]
  }

  /** The tables the loop ends with, over the whole label list. */
  lemma SummaryTables(labels: seq<string>, t: Table)
    requires t == Tally(labels[..|labels|])
    ensures t == Tally(labels)
    ensures FrequencyTable(SortBy(t, ByCountDesc), labels)
  {
    assert labels[..|labels|] == labels;
    SortedTallyIsFrequencyTable(labels);
  }

  /** `summarizeEvents`: the number of records and the three frequency tables. */
  method SummarizeEvents(h: Heap, events: seq<Value>, show: Value -> string) returns (s: EventSummary)
    ensures s.total == |events|
    ensures FrequencyTable(s.byType, TypeLabels(h, events, show))
    ensures FrequencyTable(s.byResult, ResultLabels(h, events, show))
    ensures s.byPlayer == Top(SortBy(Tally(PlayerLabels(h, events, show)), ByCountDesc))
    ensures FrequencyTable(SortBy(Tally(PlayerLabels(h, events, show)), ByCountDesc), PlayerLabels(h, events, show))
    ensures |s.byPlayer| <= PLAYER_ROWS
  {
    var byType: Table := [];
    var byResult: Table := [];
    var byPlayer: Table := [];
    ghost var types := TypeLabels(h, events, show);
    ghost var results := ResultLabels(h, events, show);
    ghost var players := PlayerLabels(h, events, show);
    for i := 0 to |events|
      invariant byType == Tally(types[..i])
      invariant byResult == Tally(results[..i])
      invariant byPlayer == Tally(players[..i])
    {
      var e := events[i];
      var t, r, p := TypeLabel(h, e, show), ResultLabel(h, e, show), PlayerLabel(h, e, show);
      TallyStep(types, i, byType, t);
      TallyStep(results, i, byResult, r);
      TallyStep(players, i, byPlayer, p);
      byType := Bump(byType, t);
      byResult := Bump(byResult, r);
      byPlayer := Bump(byPlayer, p);
    }
    SummaryTables(types, byType);
    SummaryTables(results, byResult);
    SummaryTables(players, byPlayer);
    s := EventSummary(|events|, SortBy(byType, ByCountDesc), SortBy(byResult, ByCountDesc),
                      Top(SortBy(byPlayer, ByCountDesc)));
  }
}
