/**
 * Per-match statistics of one player (src/lib/matchStats.ts): outcome
 * counts per skill, the decision rate (share of points) and the weighted
 * effect rate, one row per match, rows ordered by match name.
 */
module MatchStats {
  import opened Optional
  import opened Sums
  import opened Assoc
  import opened Sorting

  datatype Skill = Spike | Serve | Block | Receive | Set

  datatype Result = Point | Effective | Continue | Miss

  /** The outcome order every reduction walks. */
  const RESULTS: seq<Result> := [Point, Effective, Continue, Miss]

  lemma ResultsListed(r: Result)
    ensures r in RESULTS
  {
  }

  /** One row of weights: a missing result weighs 0 (`w[r] ?? 0`). */
  type Row = map<Result, real>

  /** `Record<Skill, Record<Result, number>>`: a row for every skill. */
  type Weights = Skill -> Row

  function Weight(row: Row, r: Result): real {
    if r in row then row[r] else 0.0
  }

  /** `Record<Result, number>` of non-negative counts. */
  datatype Counts = Counts(point: nat, effective: nat, cont: nat, miss: nat)

  /** The counts before any event: zero for every outcome (`emptyCounts`). */
  const EMPTY: Counts := Counts(0, 0, 0, 0)

  /** The count of outcome `r`. */
  function Of(c: Counts, r: Result): nat {
    match r
    case Point => c.point
    case Effective => c.effective
    case Continue => c.cont
    case Miss => c.miss
  }

  /** `c[r] = n`: only the count of `r` changes. */
  function With(c: Counts, r: Result, n: nat): (d: Counts)
    ensures Of(d, r) == n
    ensures forall r' | r' != r :: Of(d, r') == Of(c, r')
  {
    match r
    case Point => c.(point := n)
    case Effective => c.(effective := n)
    case Continue => c.(cont := n)
    case Miss => c.(miss := n)
  }

  /** Counts are equal when they agree on every outcome. */
  lemma CountsExt(a: Counts, b: Counts)
    requires forall r :: Of(a, r) == Of(b, r)
    ensures a == b
  {
    assert Of(a, Point) == Of(b, Point) && Of(a, Effective) == Of(b, Effective);
    assert Of(a, Continue) == Of(b, Continue) && Of(a, Miss) == Of(b, Miss);
  }

  /** One more event with outcome `r`. */
  function Inc(c: Counts, r: Result): (d: Counts)
    ensures Of(d, r) == Of(c, r) + 1
    ensures forall r' | r' != r :: Of(d, r') == Of(c, r')
  {
    With(c, r, Of(c, r) + 1)
  }

  /** Two records of counts added outcome by outcome. */
  function Plus(a: Counts, b: Counts): (c: Counts)
    ensures forall r :: Of(c, r) == Of(a, r) + Of(b, r)
  {
    Counts(a.point + b.point, a.effective + b.effective, a.cont + b.cont, a.miss + b.miss)
  }

  /** The number of events the counts hold, over all outcomes. */
  function Total(c: Counts): nat {
    c.point + c.effective + c.cont + c.miss
  }

  /** Every outcome starts at zero, and so does the total. */
  lemma EmptyCounts()
    ensures forall r :: Of(EMPTY, r) == 0
    ensures Total(EMPTY) == 0
  {
  }

  lemma TotalInc(c: Counts, r: Result)
    ensures Total(Inc(c, r)) == Total(c) + 1
  {
  }

  lemma TotalPlus(a: Counts, b: Counts)
    ensures Total(Plus(a, b)) == Total(a) + Total(b)
  {
  }

  /** The weighted score of the first `j` outcomes of `RESULTS`. */
  function ScoreUpTo(c: Counts, row: Row, j: nat): real
    requires j <= |RESULTS|
  {
    if j == 0 then 0.0
    else ScoreUpTo(c, row, j - 1) + Of(c, RESULTS[j - 1]) as real * Weight(row, RESULTS[j - 1])
  }

  /** The weighted score: each outcome's count times its weight, summed. */
  function Score(c: Counts, row: Row): real {
    ScoreUpTo(c, row, |RESULTS|)
  }

  /** Each outcome contributes its count times its weight. */
  lemma ScoreTerms(c: Counts, row: Row)
    ensures Score(c, row) == c.point as real * Weight(row, Point) + c.effective as real * Weight(row, Effective)
                           + c.cont as real * Weight(row, Continue) + c.miss as real * Weight(row, Miss)
  {
    assert ScoreUpTo(c, row, 1) == c.point as real * Weight(row, Point);
    assert ScoreUpTo(c, row, 2) == ScoreUpTo(c, row, 1) + c.effective as real * Weight(row, Effective);
    assert ScoreUpTo(c, row, 3) == ScoreUpTo(c, row, 2) + c.cont as real * Weight(row, Continue);
  }

  /** With weights in [0, 1] the score lies between 0 and the number of events. */
  lemma ScoreBounded(c: Counts, row: Row)
    requires forall r | r in row :: 0.0 <= row[r] <= 1.0
    ensures 0.0 <= Score(c, row) <= Total(c) as real
  {
    ScoreTerms(c, row);
    var p := MulBounded(c.point, Weight(row, Point));
    var e := MulBounded(c.effective, Weight(row, Effective));
    var k := MulBounded(c.cont, Weight(row, Continue));
    var m := MulBounded(c.miss, Weight(row, Miss));
    assert Score(c, row) == p + e + k + m;
    assert Total(c) as real == c.point as real + c.effective as real + c.cont as real + c.miss as real;
  }

  lemma MulBounded(n: nat, w: real) returns (x: real)
    requires 0.0 <= w <= 1.0
    ensures x == n as real * w && 0.0 <= x <= n as real
  {
    x := n as real * w;
  }

  /** `clamp01` on finite numbers: the nearest point of [0, 1]. */
  function Clamp01(x: real): (y: real)
    ensures 0.0 <= y <= 1.0
    ensures 0.0 <= x <= 1.0 ==> y == x
    ensures x < 0.0 ==> y == 0.0
    ensures x > 1.0 ==> y == 1.0
  {
    if x < 0.0 then 0.0 else if x > 1.0 then 1.0 else x
  }

  /** The mean score per event, clamped to [0, 1], and 0 when there are no events. */
  function Ratio01(score: real, total: nat): (y: real)
    ensures 0.0 <= y <= 1.0
    ensures total == 0 ==> y == 0.0
  {
    if total == 0 then 0.0 else Clamp01(score / total as real)
  }

  /** A score within [0, total] is not clamped: the ratio times the total is the score. */
  lemma Ratio01Exact(score: real, total: nat)
    requires total > 0 && 0.0 <= score <= total as real
    ensures Ratio01(score, total) * total as real == score
  {
  }

  /** `calcDecisionRate`: the share of events that scored a point. */
  function DecisionRate(c: Counts): (y: real)
    ensures 0.0 <= y <= 1.0
    ensures Total(c) == 0 ==> y == 0.0
  {
    var total := Total(c);
    if total == 0 then 0.0 else c.point as real / total as real
  }

  /** The decision rate times the number of events is the number of points. */
  lemma DecisionRateShare(c: Counts)
    requires Total(c) > 0
    ensures DecisionRate(c) * Total(c) as real == c.point as real
  {
  }

  /** `calcEffectRate`: the weighted score per event, clamped to [0, 1]. */
  function EffectRate(c: Counts, row: Row): (y: real)
    ensures 0.0 <= y <= 1.0
    ensures Total(c) == 0 ==> y == 0.0
  {
    Ratio01(Score(c, row), Total(c))
  }

  /** With weights in [0, 1] clamping never bites: the effect rate is the mean score. */
  lemma EffectRateIsMeanScore(c: Counts, row: Row)
    requires forall r | r in row :: 0.0 <= row[r] <= 1.0
    requires Total(c) > 0
    ensures EffectRate(c, row) * Total(c) as real == Score(c, row)
  {
    ScoreBounded(c, row);
    Ratio01Exact(Score(c, row), Total(c));
  }

  datatype RallyEvent = RallyEvent(id: string, matchId: string, skill: Skill, result: Result, playerId: Option<string>)

  datatype Match = Match(id: string, name: string, dateISO: Option<string>)

  /** `events.filter((e) => e.playerId === playerId)`; `None` is `null`, so
      a `None` selects the events recorded without a player. */
  function ForPlayer(events: seq<RallyEvent>, p: Option<string>): (r: seq<RallyEvent>)
    ensures forall e :: multiset(r)[e] == if e.playerId == p then multiset(events)[e] else 0
  {
    if events == [] then []
    else
      var init, e := events[..|events| - 1], events[|events| - 1];
      assert events == init + [e];
      if e.playerId == p then ForPlayer(init, p) + [e] else ForPlayer(init, p)
  }

  /** The filter keeps the order of the events: filtering `a + b` filters
      `a`, then `b`. With `ForPlayerSingle` this determines the filter. */
  lemma {:induction false} ForPlayerAppend(a: seq<RallyEvent>, b: seq<RallyEvent>, p: Option<string>)
    ensures ForPlayer(a + b, p) == ForPlayer(a, p) + ForPlayer(b, p)
    decreases |b|
  {
    if b == [] {
      assert a + b == a;
    } else {
      var init, x := b[..|b| - 1], b[|b| - 1];
      var ab := a + b;
      assert ab[..|ab| - 1] == a + init && ab[|ab| - 1] == x;
      var keep := if x.playerId == p then [x] else [];
      ForPlayerSnoc(ab, p);
      ForPlayerSnoc(b, p);
      ForPlayerAppend(a, init, p);
      ConcatAssoc(ForPlayer(a, p), ForPlayer(init, p), keep);
    }
  }

  /** A single event is kept exactly when it carries `p`. */
  lemma ForPlayerSingle(e: RallyEvent, p: Option<string>)
    ensures ForPlayer([e], p) == if e.playerId == p then [e] else []
  {
    assert [e][..0] == [];
  }

  /** Filtering a non-empty list filters all but its last event, then keeps
      the last one exactly when it carries `p`. */
  lemma ForPlayerSnoc(s: seq<RallyEvent>, p: Option<string>)
    requires s != []
    ensures ForPlayer(s, p) == ForPlayer(s[..|s| - 1], p) + if s[|s| - 1].playerId == p then [s[|s| - 1]] else []
  {
  }

  lemma ForPlayerMembers(events: seq<RallyEvent>, p: Option<string>, e: RallyEvent)
    ensures e in ForPlayer(events, p) <==> e in events && e.playerId == p
  {
    assert e in ForPlayer(events, p) <==> e in multiset(ForPlayer(events, p));
    assert e in events <==> e in multiset(events);
  }

  /** Shown for a match that has no entry of its own. */
  const PLACEHOLDER: string := "(名称未設定)"

  /** `new Map(matches.map((m) => [m.id, m]))`: a later match with the same
      id replaces the earlier one in place. */
  function IndexMatches(ms: seq<Match>): seq<(string, Match)> {
    if ms == [] then []
    else Put(IndexMatches(ms[..|ms| - 1]), ms[|ms| - 1].id, ms[|ms| - 1])
  }

  /** The index finds nothing for an id exactly when no match carries it. */
  lemma {:induction false} IndexMatchesAbsent(ms: seq<Match>, id: string)
    ensures Find(IndexMatches(ms), id).None? <==> forall i | 0 <= i < |ms| :: ms[i].id != id
  {
    if ms != [] {
      var init, m := ms[..|ms| - 1], ms[|ms| - 1];
      IndexMatchesAbsent(init, id);
      PutFind(IndexMatches(init), m.id, m, id);
      if m.id != id {
        assert forall i | 0 <= i < |init| :: init[i] == ms[i];
      }
    }
  }

  /** The last match carrying an id is the one the index finds: a later
      duplicate replaces an earlier one. */
  lemma {:induction false} IndexMatchesLast(ms: seq<Match>, id: string, i: nat)
    requires i < |ms| && ms[i].id == id && forall j | i < j < |ms| :: ms[j].id != id
    ensures Find(IndexMatches(ms), id) == Some(ms[i])
  {
    var init, m := ms[..|ms| - 1], ms[|ms| - 1];
    PutFind(IndexMatches(init), m.id, m, id);
    if i < |ms| - 1 {
      assert forall j | i < j < |init| :: init[j] == ms[j];
      IndexMatchesLast(init, id, i);
    }
  }

  /** The name a row shows: that of the indexed match with its id, or the placeholder. */
  function MatchName(index: seq<(string, Match)>, id: string): string {
    match Find(index, id)
    case Some(m) => m.name
    case None => PLACEHOLDER
  }

  /** A match's row is named after the last match carrying its id, or the placeholder. */
  lemma MatchNameOf(ms: seq<Match>, id: string, i: nat)
    requires i < |ms| && ms[i].id == id && forall j | i < j < |ms| :: ms[j].id != id
    ensures MatchName(IndexMatches(ms), id) == ms[i].name
  {
    IndexMatchesLast(ms, id, i);
  }

  lemma MatchNameMissing(ms: seq<Match>, id: string)
    requires forall i | 0 <= i < |ms| :: ms[i].id != id
    ensures MatchName(IndexMatches(ms), id) == PLACEHOLDER
  {
    IndexMatchesAbsent(ms, id);
  }

  /** Counts per skill of one match, in insertion order. */
  type PerSkill = seq<(Skill, Counts)>

  /** `acc`: match id to per-skill counts, in insertion order (`AccumulateOrder`). */
  type Acc = seq<(string, PerSkill)>

  /** One iteration of the accumulation loop. */
  function AddEvent(acc: Acc, e: RallyEvent): Acc {
    var m := GetOr(acc, e.matchId, []);
    Put(acc, e.matchId, Put(m, e.skill, Inc(GetOr(m, e.skill, EMPTY), e.result)))
  }

  /** `acc` after the loop has seen `evs`. */
  function Accumulate(evs: seq<RallyEvent>): Acc {
    if evs == [] then [] else AddEvent(Accumulate(evs[..|evs| - 1]), evs[|evs| - 1])
  }

  lemma AccumulatePrefix(evs: seq<RallyEvent>, i: nat)
    requires i < |evs|
    ensures Accumulate(evs[..i + 1]) == AddEvent(Accumulate(evs[..i]), evs[i])
  {
    assert evs[..i + 1][..i] == evs[..i];
  }

  /** How many of `evs` are in match `mid` with skill `s` and result `r`. */
  function Occurrences(evs: seq<RallyEvent>, mid: string, s: Skill, r: Result): nat {
    if evs == [] then 0
    else
      var e := evs[|evs| - 1];
      Occurrences(evs[..|evs| - 1], mid, s, r) + if e.matchId == mid && e.skill == s && e.result == r then 1 else 0
  }

  /** How many of `evs` are in match `mid`. */
  function InMatch(evs: seq<RallyEvent>, mid: string): nat {
    if evs == [] then 0
    else InMatch(evs[..|evs| - 1], mid) + if evs[|evs| - 1].matchId == mid then 1 else 0
  }

  lemma {:induction false} InMatchPositive(evs: seq<RallyEvent>, e: RallyEvent)
    requires e in evs
    ensures InMatch(evs, e.matchId) >= 1
  {
    if evs[|evs| - 1] != e {
      assert evs == evs[..|evs| - 1] + [evs[|evs| - 1]];
      InMatchPositive(evs[..|evs| - 1], e);
    }
  }

  function EntryTotal(e: (Skill, Counts)): int { Total(e.1) }

  function MatchTotal(e: (string, PerSkill)): int { SumOf(e.1, EntryTotal) }

  /** One iteration adds the event's match to the keys and keeps them distinct. */
  lemma AddEventKeys(acc: Acc, e: RallyEvent)
    requires DistinctKeys(acc)
    ensures DistinctKeys(AddEvent(acc, e))
    ensures KeySet(AddEvent(acc, e)) == KeySet(acc) + {e.matchId}
  {
    var m := GetOr(acc, e.matchId, []);
    var m' := Put(m, e.skill, Inc(GetOr(m, e.skill, EMPTY), e.result));
    PutKeys(acc, e.matchId, m');
    PutDistinct(acc, e.matchId, m');
  }

  /** One iteration touches only the event's match, where it adds the event's skill. */
  lemma AddEventSkills(acc: Acc, e: RallyEvent, mid: string)
    requires DistinctKeys(GetOr(acc, mid, []))
    ensures DistinctKeys(GetOr(AddEvent(acc, e), mid, []))
    ensures KeySet(GetOr(AddEvent(acc, e), mid, [])) ==
              KeySet(GetOr(acc, mid, [])) + if mid == e.matchId then {e.skill} else {}
  {
    var m := GetOr(acc, e.matchId, []);
    var c' := Inc(GetOr(m, e.skill, EMPTY), e.result);
    var m' := Put(m, e.skill, c');
    PutFind(acc, e.matchId, m', mid);
    if mid == e.matchId {
      PutKeys(m, e.skill, c');
      PutDistinct(m, e.skill, c');
    }
  }

  /** One iteration adds one to the count of the event's match, skill and result only. */
  lemma AddEventCounts(acc: Acc, e: RallyEvent, mid: string, s: Skill, r: Result)
    ensures Of(GetOr(GetOr(AddEvent(acc, e), mid, []), s, EMPTY), r) ==
              Of(GetOr(GetOr(acc, mid, []), s, EMPTY), r) + if e.matchId == mid && e.skill == s && e.result == r then 1 else 0
  {
    var m := GetOr(acc, e.matchId, []);
    var c' := Inc(GetOr(m, e.skill, EMPTY), e.result);
    var m' := Put(m, e.skill, c');
    PutFind(acc, e.matchId, m', mid);
    if mid == e.matchId {
      PutFind(m, e.skill, c', s);
    }
  }

  /** One row per match the events mention, keys distinct. */
  lemma {:induction false} AccumulateKeys(evs: seq<RallyEvent>)
    ensures DistinctKeys(Accumulate(evs))
    ensures KeySet(Accumulate(evs)) == set e | e in evs :: e.matchId
  {
    if evs != [] {
      var init, x := evs[..|evs| - 1], evs[|evs| - 1];
      AccumulateKeys(init);
      AddEventKeys(Accumulate(init), x);
      assert evs == init + [x];
      assert (set e | e in evs :: e.matchId) == (set e | e in init :: e.matchId) + {x.matchId};
    }
  }

  /** The match ids of `evs`, in order. */
  function MatchIds(evs: seq<RallyEvent>): (ids: seq<string>)
    ensures |ids| == |evs| && forall i | 0 <= i < |evs| :: ids[i] == evs[i].matchId
  {
    seq(|evs|, i requires 0 <= i < |evs| => evs[i].matchId)
  }

  /** An id is among the match ids exactly when some event carries it. */
  lemma MatchIdsMembers(evs: seq<RallyEvent>, mid: string)
    ensures mid in MatchIds(evs) <==> mid in set e | e in evs :: e.matchId
  {
    if mid in set e | e in evs :: e.matchId {
      var e :| e in evs && e.matchId == mid;
      var i :| 0 <= i < |evs| && evs[i] == e;
      assert MatchIds(evs)[i] == mid;
    }
  }

  /** One iteration appends the event's match to the keys when it is new. */
  lemma AddEventKeyOrder(acc: Acc, e: RallyEvent)
    ensures Keys(AddEvent(acc, e)) == if e.matchId in KeySet(acc) then Keys(acc) else Keys(acc) + [e.matchId]
  {
    var m := GetOr(acc, e.matchId, []);
    PutKeyOrder(acc, e.matchId, Put(m, e.skill, Inc(GetOr(m, e.skill, EMPTY), e.result)));
  }

  /** `acc` holds its matches in the order the events first mention them. */
  lemma {:induction false} AccumulateOrder(evs: seq<RallyEvent>)
    ensures Keys(Accumulate(evs)) == FirstOccurrences(MatchIds(evs))
  {
    if evs != [] {
      var init, x := evs[..|evs| - 1], evs[|evs| - 1];
      var acc, ids := Accumulate(init), MatchIds(evs);
      assert Accumulate(evs) == AddEvent(acc, x);
      assert ids[..|ids| - 1] == MatchIds(init) && ids[|ids| - 1] == x.matchId;
      AccumulateOrder(init);
      AccumulateKeys(init);
      MatchIdsMembers(init, x.matchId);
      AddEventKeyOrder(acc, x);
    }
  }

  /** Within a match, one row per skill the match's events mention, keys distinct. */
  lemma {:induction false} AccumulateSkills(evs: seq<RallyEvent>, mid: string)
    ensures DistinctKeys(GetOr(Accumulate(evs), mid, []))
    ensures KeySet(GetOr(Accumulate(evs), mid, [])) == set e | e in evs && e.matchId == mid :: e.skill
  {
    if evs != [] {
      var init, x := evs[..|evs| - 1], evs[|evs| - 1];
      AccumulateSkills(init, mid);
      AddEventSkills(Accumulate(init), x, mid);
      SkillsSnoc(evs, mid);
    }
  }

  lemma SkillsSnoc(evs: seq<RallyEvent>, mid: string)
    requires evs != []
    ensures var init, x := evs[..|evs| - 1], evs[|evs| - 1];
            (set e | e in evs && e.matchId == mid :: e.skill) ==
            (set e | e in init && e.matchId == mid :: e.skill) + if mid == x.matchId then {x.skill} else {}
  {
    var init, x := evs[..|evs| - 1], evs[|evs| - 1];
    assert evs == init + [x];
    var l, r := set e | e in init + [x] && e.matchId == mid :: e.skill, set e | e in init && e.matchId == mid :: e.skill;
    forall s | s in l ensures s in r + if mid == x.matchId then {x.skill} else {} {
      var e :| e in init + [x] && e.matchId == mid && e.skill == s;
      if e != x { assert e in init; }
    }
    forall s | s in r ensures s in l {
      var e :| e in init && e.matchId == mid && e.skill == s;
      assert e in init + [x];
    }
    if mid == x.matchId {
      assert x in init + [x];
    }
  }

  /** Every count is the number of matching events. */
  lemma {:induction false} AccumulateCounts(evs: seq<RallyEvent>, mid: string, s: Skill, r: Result)
    ensures Of(GetOr(GetOr(Accumulate(evs), mid, []), s, EMPTY), r) == Occurrences(evs, mid, s, r)
  {
    if evs != [] {
      AccumulateCounts(evs[..|evs| - 1], mid, s, r);
      AddEventCounts(Accumulate(evs[..|evs| - 1]), evs[|evs| - 1], mid, s, r);
    }
  }

  /** Counting one more event adds one to a match's counts. */
  lemma AddSkillTotal(m: PerSkill, s: Skill, r: Result)
    ensures SumOf(Put(m, s, Inc(GetOr(m, s, EMPTY), r)), EntryTotal) == SumOf(m, EntryTotal) + 1
  {
    var c := GetOr(m, s, EMPTY);
    var d := Inc(c, r);
    assert Total(d) == Total(c) + 1 by { TotalInc(c, r); }
    assert SumOf(Put(m, s, d), EntryTotal) == SumOf(m, EntryTotal) - FoundOr0(m, s, EntryTotal) + EntryTotal((s, d)) by {
      SumOfPut(m, s, d, EntryTotal);
    }
    assert FoundOr0(m, s, EntryTotal) == Total(c) by {
      FoundOr0GetOr(m, s, EMPTY, EntryTotal);
    }
  }

  /** Counting one more event adds one to the counts of all matches. */
  lemma AddEventSum(acc: Acc, e: RallyEvent)
    ensures SumOf(AddEvent(acc, e), MatchTotal) == SumOf(acc, MatchTotal) + 1
  {
    var m := GetOr(acc, e.matchId, []);
    var m' := Put(m, e.skill, Inc(GetOr(m, e.skill, EMPTY), e.result));
    SumOfPut(acc, e.matchId, m', MatchTotal);
    FoundOr0GetOr(acc, e.matchId, [], MatchTotal);
    AddSkillTotal(m, e.skill, e.result);
    assert MatchTotal((e.matchId, m')) == MatchTotal((e.matchId, m)) + 1;
  }

  /** One iteration adds one to the counts of the event's match only. */
  lemma AddEventMatchTotal(acc: Acc, e: RallyEvent, mid: string)
    ensures MatchTotal((mid, GetOr(AddEvent(acc, e), mid, []))) ==
              MatchTotal((mid, GetOr(acc, mid, []))) + if e.matchId == mid then 1 else 0
  {
    var m := GetOr(acc, e.matchId, []);
    var m' := Put(m, e.skill, Inc(GetOr(m, e.skill, EMPTY), e.result));
    PutFind(acc, e.matchId, m', mid);
    if mid == e.matchId {
      AddSkillTotal(m, e.skill, e.result);
    }
  }

  /** A match's counts add up to the number of its events. */
  lemma {:induction false} AccumulateMatchTotal(evs: seq<RallyEvent>, mid: string)
    ensures MatchTotal((mid, GetOr(Accumulate(evs), mid, []))) == InMatch(evs, mid)
  {
    if evs != [] {
      AccumulateMatchTotal(evs[..|evs| - 1], mid);
      AddEventMatchTotal(Accumulate(evs[..|evs| - 1]), evs[|evs| - 1], mid);
    }
  }

  /** The counts of all matches add up to the number of events. */
  lemma {:induction false} AccumulateSum(evs: seq<RallyEvent>)
    ensures SumOf(Accumulate(evs), MatchTotal) == |evs|
  {
    if evs != [] {
      AccumulateSum(evs[..|evs| - 1]);
      AddEventSum(Accumulate(evs[..|evs| - 1]), evs[|evs| - 1]);
    }
  }

  /** Statistics of one skill in one match. */
  datatype PerSkillStat = PerSkillStat(total: nat, counts: Counts, decisionRate: real, effectRate: real)

  /** One row of the result: a match in which the player has events. */
  datatype PlayerMatchStat = PlayerMatchStat(matchId: string, matchName: string, total: nat,
                                             decisionRate: real, effectRate: real,
                                             bySkill: seq<(Skill, PerSkillStat)>)

  /** The object stored under `bySkill[skill]`. */
  function SkillStat(c: Counts, row: Row): PerSkillStat {
    PerSkillStat(Total(c), c, DecisionRate(c), EffectRate(c, row))
  }

  /** `totalCounts` after summing the counts of `ps`. */
  function SumCounts(ps: PerSkill): Counts {
    if ps == [] then EMPTY else Plus(SumCounts(ps[..|ps| - 1]), ps[|ps| - 1].1)
  }

  /** The score of one skill's counts under that skill's row of weights. */
  function Scorer(weights: Weights): ((Skill, Counts)) -> real {
    (e: (Skill, Counts)) => Score(e.1, weights(e.0))
  }

  /** `totalScore` after scoring `ps`, each skill under its own row of weights. */
  function SumScores(ps: PerSkill, weights: Weights): real {
    RealSumOf(ps, Scorer(weights))
  }

  /** `bySkill` after writing the statistics of `ps`. */
  function SkillStats(ps: PerSkill, weights: Weights): seq<(Skill, PerSkillStat)> {
    if ps == [] then []
    else
      var (s, c) := ps[|ps| - 1];
      Put(SkillStats(ps[..|ps| - 1], weights), s, SkillStat(c, weights(s)))
  }

  function SkillTotalOf(e: (Skill, PerSkillStat)): int { e.1.total }

  /** With distinct skills, the per-skill totals of `bySkill` add up to the
      total of the summed counts. */
  lemma {:induction false} SkillStatsTotal(ps: PerSkill, weights: Weights)
    requires DistinctKeys(ps)
    ensures SumOf(SkillStats(ps, weights), SkillTotalOf) == Total(SumCounts(ps))
  {
    if ps != [] {
      var init, last := ps[..|ps| - 1], ps[|ps| - 1];
      assert DistinctKeys(init) && last.0 !in KeySet(init) by {
        forall i | 0 <= i < |init| ensures init[i].0 != last.0 {
          assert init[i] == ps[i];
        }
      }
      var before, stat := SkillStats(init, weights), SkillStat(last.1, weights(last.0));
      assert last.0 !in KeySet(before) by {
        SkillStatsFind(init, weights, last.0);
      }
      assert SkillStats(ps, weights) == before + [(last.0, stat)];
      SumOfAppend(before, (last.0, stat), SkillTotalOf);
      SkillStatsTotal(init, weights);
      TotalPlus(SumCounts(init), last.1);
    }
  }

  /** The row built for one entry of `acc`. */
  function MatchStat(index: seq<(string, Match)>, weights: Weights, entry: (string, PerSkill)): PlayerMatchStat {
    var (mid, ps) := entry;
    var totalCounts := SumCounts(ps);
    var total := Total(totalCounts);
    PlayerMatchStat(mid, MatchName(index, mid), total,
                    if total == 0 then 0.0 else totalCounts.point as real / total as real,
                    Ratio01(SumScores(ps, weights), total),
                    SkillStats(ps, weights))
  }

  /** `out` before sorting: one row per entry of `acc`, in the same order. */
  function Stats(index: seq<(string, Match)>, weights: Weights, acc: Acc): (r: seq<PlayerMatchStat>)
    ensures |r| == |acc|
  {
    if acc == [] then [] else Stats(index, weights, acc[..|acc| - 1]) + [MatchStat(index, weights, acc[|acc| - 1])]
  }

  lemma {:induction false} StatsAt(index: seq<(string, Match)>, weights: Weights, acc: Acc, k: nat)
    requires k < |acc|
    ensures Stats(index, weights, acc)[k] == MatchStat(index, weights, acc[k])
  {
    if k < |acc| - 1 {
      StatsAt(index, weights, acc[..|acc| - 1], k);
    }
  }

  function MatchIdOf(st: PlayerMatchStat): string { st.matchId }

  function TotalOf(st: PlayerMatchStat): int { st.total }

  /** The comparator `a.matchName.localeCompare(b.matchName, "ja") <= 0`,
      for a collation `nameLe` of names. */
  function ByName(nameLe: (string, string) -> bool): (PlayerMatchStat, PlayerMatchStat) -> bool {
    (a: PlayerMatchStat, b: PlayerMatchStat) => nameLe(a.matchName, b.matchName)
  }

  lemma ByNamePreorder(nameLe: (string, string) -> bool)
    requires TotalPreorder(nameLe)
    ensures TotalPreorder(ByName(nameLe))
  {
    var le := ByName(nameLe);
    forall a, b ensures le(a, b) || le(b, a) {
      assert nameLe(a.matchName, b.matchName) || nameLe(b.matchName, a.matchName);
    }
    forall a, b, c | le(a, b) && le(b, c) ensures le(a, c) {
      assert nameLe(a.matchName, b.matchName) && nameLe(b.matchName, c.matchName);
    }
  }

  /** What `buildPlayerMatchStats` returns. */
  function PlayerMatchStats(playerId: Option<string>, matches: seq<Match>, events: seq<RallyEvent>,
                            weights: Weights, nameLe: (string, string) -> bool): seq<PlayerMatchStat> {
    SortBy(Stats(IndexMatches(matches), weights, Accumulate(ForPlayer(events, playerId))), ByName(nameLe))
  }

  function EntryPoints(e: (Skill, Counts)): int { e.1.point }

  /** How many of `evs` are in match `mid` and scored a point. */
  function PointsInMatch(evs: seq<RallyEvent>, mid: string): nat {
    if evs == [] then 0
    else
      var e := evs[|evs| - 1];
      PointsInMatch(evs[..|evs| - 1], mid) + if e.matchId == mid && e.result == Point then 1 else 0
  }

  /** The summed counts hold as many events as the skills together. */
  lemma {:induction false} SumCountsTotal(ps: PerSkill)
    ensures Total(SumCounts(ps)) == SumOf(ps, EntryTotal)
  {
    if ps != [] {
      var init, last := ps[..|ps| - 1], ps[|ps| - 1];
      assert SumOf(ps, EntryTotal) == SumOf(init, EntryTotal) + Total(last.1) by {
        assert ps == init + [last];
        SumOfAppend(init, last, EntryTotal);
      }
      assert Total(SumCounts(ps)) == Total(SumCounts(init)) + Total(last.1) by {
        TotalPlus(SumCounts(init), last.1);
      }
      SumCountsTotal(init);
    }
  }

  /** The summed counts hold as many points as the skills together. */
  lemma {:induction false} SumCountsPoints(ps: PerSkill)
    ensures SumCounts(ps).point == SumOf(ps, EntryPoints)
  {
    if ps != [] {
      var init, last := ps[..|ps| - 1], ps[|ps| - 1];
      SumCountsPoints(init);
      assert ps == init + [last];
      SumOfAppend(init, last, EntryPoints);
    }
  }

  lemma AddSkillPoints(m: PerSkill, s: Skill, r: Result)
    ensures SumOf(Put(m, s, Inc(GetOr(m, s, EMPTY), r)), EntryPoints) ==
              SumOf(m, EntryPoints) + if r == Point then 1 else 0
  {
    var c := GetOr(m, s, EMPTY);
    var d := Inc(c, r);
    assert d.point == c.point + if r == Point then 1 else 0;
    assert SumOf(Put(m, s, d), EntryPoints) == SumOf(m, EntryPoints) - FoundOr0(m, s, EntryPoints) + EntryPoints((s, d)) by {
      SumOfPut(m, s, d, EntryPoints);
    }
    assert FoundOr0(m, s, EntryPoints) == c.point by {
      FoundOr0GetOr(m, s, EMPTY, EntryPoints);
    }
  }

  lemma AddEventPoints(acc: Acc, e: RallyEvent, mid: string)
    ensures SumOf(GetOr(AddEvent(acc, e), mid, []), EntryPoints) ==
              SumOf(GetOr(acc, mid, []), EntryPoints) + if e.matchId == mid && e.result == Point then 1 else 0
  {
    var m := GetOr(acc, e.matchId, []);
    var m' := Put(m, e.skill, Inc(GetOr(m, e.skill, EMPTY), e.result));
    PutFind(acc, e.matchId, m', mid);
    if mid == e.matchId {
      AddSkillPoints(m, e.skill, e.result);
    }
  }

  /** A match's point counts add up to the number of its events that scored. */
  lemma {:induction false} AccumulatePoints(evs: seq<RallyEvent>, mid: string)
    ensures SumOf(GetOr(Accumulate(evs), mid, []), EntryPoints) == PointsInMatch(evs, mid)
  {
    if evs != [] {
      AccumulatePoints(evs[..|evs| - 1], mid);
      AddEventPoints(Accumulate(evs[..|evs| - 1]), evs[|evs| - 1], mid);
    }
  }

  /** The weights of the events of `evs` in match `mid`, added up:
      each event weighs its result's weight under its skill's row. */
  function EventScore(evs: seq<RallyEvent>, mid: string, weights: Weights): real {
    if evs == [] then 0.0
    else
      var e := evs[|evs| - 1];
      EventScore(evs[..|evs| - 1], mid, weights) + if e.matchId == mid then Weight(weights(e.skill), e.result) else 0.0
  }

  /** One more event adds its result's weight to the score. */
  lemma ScoreInc(c: Counts, row: Row, r: Result)
    ensures Score(Inc(c, r), row) == Score(c, row) + Weight(row, r)
  {
    ScoreTerms(c, row);
    ScoreTerms(Inc(c, r), row);
  }

  lemma AddSkillScore(m: PerSkill, s: Skill, r: Result, weights: Weights)
    ensures RealSumOf(Put(m, s, Inc(GetOr(m, s, EMPTY), r)), Scorer(weights)) ==
              RealSumOf(m, Scorer(weights)) + Weight(weights(s), r)
  {
    var c := GetOr(m, s, EMPTY);
    assert Scorer(weights)((s, EMPTY)) == 0.0 by {
      ScoreTerms(EMPTY, weights(s));
    }
    RealSumOfPut(m, s, Inc(c, r), EMPTY, Scorer(weights));
    ScoreInc(c, weights(s), r);
  }

  lemma AddEventScore(acc: Acc, e: RallyEvent, mid: string, weights: Weights)
    ensures SumScores(GetOr(AddEvent(acc, e), mid, []), weights) ==
              SumScores(GetOr(acc, mid, []), weights) + if e.matchId == mid then Weight(weights(e.skill), e.result) else 0.0
  {
    var m := GetOr(acc, e.matchId, []);
    var m' := Put(m, e.skill, Inc(GetOr(m, e.skill, EMPTY), e.result));
    PutFind(acc, e.matchId, m', mid);
    if mid == e.matchId {
      AddSkillScore(m, e.skill, e.result, weights);
    }
  }

  /** A match's `totalScore` is the summed weight of its events. */
  lemma {:induction false} AccumulateScore(evs: seq<RallyEvent>, mid: string, weights: Weights)
    ensures SumScores(GetOr(Accumulate(evs), mid, []), weights) == EventScore(evs, mid, weights)
  {
    if evs != [] {
      AccumulateScore(evs[..|evs| - 1], mid, weights);
      AddEventScore(Accumulate(evs[..|evs| - 1]), evs[|evs| - 1], mid, weights);
    }
  }

  /** With distinct skills, `bySkill` holds exactly the statistics of each skill's counts. */
  lemma {:induction false} SkillStatsFind(ps: PerSkill, weights: Weights, s: Skill)
    requires DistinctKeys(ps)
    ensures Find(SkillStats(ps, weights), s) ==
              match Find(ps, s)
              case Some(c) => Some(SkillStat(c, weights(s)))
              case None => None
  {
    if ps != [] {
      var init, last := ps[..|ps| - 1], ps[|ps| - 1];
      assert DistinctKeys(init) && last.0 !in KeySet(init) by {
        forall i | 0 <= i < |init| ensures init[i].0 != last.0 {
          assert init[i] == ps[i];
        }
      }
      assert ps == Put(init, last.0, last.1) by {
        assert ps == init + [(last.0, last.1)];
      }
      SkillStatsFind(init, weights, s);
      PutFind(init, last.0, last.1, s);
      PutFind(SkillStats(init, weights), last.0, SkillStat(last.1, weights(last.0)), s);
    }
  }

  /** What a row's `bySkill` states about the events of match `mid`: an
      entry exactly for the skills used, holding that skill's counts and
      the statistics of those counts. */
  ghost predicate SkillRows(bySkill: seq<(Skill, PerSkillStat)>, mid: string, evs: seq<RallyEvent>, weights: Weights) {
    && (forall s :: Find(bySkill, s).Some? <==> exists e | e in evs :: e.matchId == mid && e.skill == s)
    && (forall s, r | Find(bySkill, s).Some? :: Of(Find(bySkill, s).value.counts, r) == Occurrences(evs, mid, s, r))
    && (forall s | Find(bySkill, s).Some? :: Find(bySkill, s).value == SkillStat(Find(bySkill, s).value.counts, weights(s)))
  }

  /** What each row states about the events it summarises. */
  ghost predicate IsRowOf(st: PlayerMatchStat, evs: seq<RallyEvent>, index: seq<(string, Match)>, weights: Weights) {
    && (exists e | e in evs :: e.matchId == st.matchId)
    && st.total == InMatch(evs, st.matchId) && st.total >= 1
    && st.matchName == MatchName(index, st.matchId)
    && st.decisionRate == PointsInMatch(evs, st.matchId) as real / st.total as real
    && st.effectRate == Ratio01(EventScore(evs, st.matchId, weights), st.total)
    && 0.0 <= st.decisionRate <= 1.0 && 0.0 <= st.effectRate <= 1.0
    && SkillRows(st.bySkill, st.matchId, evs, weights)
    && SumOf(st.bySkill, SkillTotalOf) == st.total
  }

  /** A match's summed counts hold its events and its points. */
  lemma MatchTotals(evs: seq<RallyEvent>, mid: string)
    ensures var ps := GetOr(Accumulate(evs), mid, []);
            Total(SumCounts(ps)) == InMatch(evs, mid) && SumCounts(ps).point == PointsInMatch(evs, mid)
  {
    var ps := GetOr(Accumulate(evs), mid, []);
    AccumulateMatchTotal(evs, mid);
    SumCountsTotal(ps);
    AccumulatePoints(evs, mid);
    SumCountsPoints(ps);
  }

  /** Per-skill statistics built from counts that agree with the events agree with the events. */
  lemma SkillStatsRows(ps: PerSkill, mid: string, evs: seq<RallyEvent>, weights: Weights)
    requires DistinctKeys(ps)
    requires KeySet(ps) == set e | e in evs && e.matchId == mid :: e.skill
    requires forall s, r :: Of(GetOr(ps, s, EMPTY), r) == Occurrences(evs, mid, s, r)
    ensures SkillRows(SkillStats(ps, weights), mid, evs, weights)
  {
    var bs := SkillStats(ps, weights);
    forall s ensures Find(bs, s).Some? <==> exists e | e in evs :: e.matchId == mid && e.skill == s {
      SkillStatsFind(ps, weights, s);
      assert s in KeySet(ps) <==> exists e | e in evs :: e.matchId == mid && e.skill == s;
    }
    forall s, r | Find(bs, s).Some? ensures Of(Find(bs, s).value.counts, r) == Occurrences(evs, mid, s, r) {
      SkillStatsFind(ps, weights, s);
    }
    forall s | Find(bs, s).Some? ensures Find(bs, s).value == SkillStat(Find(bs, s).value.counts, weights(s)) {
      SkillStatsFind(ps, weights, s);
    }
  }

  /** The row built for a match from counts that agree with its events describes it faithfully. */
  lemma MatchStatRow(index: seq<(string, Match)>, weights: Weights, evs: seq<RallyEvent>, e: RallyEvent, ps: PerSkill)
    requires e in evs
    requires Total(SumCounts(ps)) == InMatch(evs, e.matchId) && SumCounts(ps).point == PointsInMatch(evs, e.matchId)
    requires SumScores(ps, weights) == EventScore(evs, e.matchId, weights)
    requires SkillRows(SkillStats(ps, weights), e.matchId, evs, weights)
    requires SumOf(SkillStats(ps, weights), SkillTotalOf) == Total(SumCounts(ps))
    ensures IsRowOf(MatchStat(index, weights, (e.matchId, ps)), evs, index, weights)
  {
    InMatchPositive(evs, e);
    MatchStatFields(index, weights, e.matchId, ps);
  }

  /** The fields of a row in terms of its match's per-skill counts. */
  lemma MatchStatFields(index: seq<(string, Match)>, weights: Weights, mid: string, ps: PerSkill)
    ensures var st := MatchStat(index, weights, (mid, ps));
            && st.matchId == mid && st.matchName == MatchName(index, mid)
            && st.total == Total(SumCounts(ps)) && st.bySkill == SkillStats(ps, weights)
            && 0.0 <= st.decisionRate <= 1.0 && 0.0 <= st.effectRate <= 1.0
            && (st.total > 0 ==> st.decisionRate == SumCounts(ps).point as real / st.total as real)
            && st.effectRate == Ratio01(SumScores(ps, weights), st.total)
  {
    var tc := SumCounts(ps);
    ShareOf(tc.point, Total(tc));
  }

  /** `total === 0 ? 0 : points / total` for at most `total` points. */
  lemma ShareOf(points: nat, total: nat)
    requires points <= total
    ensures var y := if total == 0 then 0.0 else points as real / total as real;
            0.0 <= y <= 1.0
  {
  }

  /** Every row built from the accumulated counts describes its match faithfully. */
  lemma StatsRow(index: seq<(string, Match)>, weights: Weights, evs: seq<RallyEvent>, k: nat)
    requires k < |Accumulate(evs)|
    ensures IsRowOf(Stats(index, weights, Accumulate(evs))[k], evs, index, weights)
  {
    var acc := Accumulate(evs);
    var mid := acc[k].0;
    AccumulateKeys(evs);
    FindEntry(acc, k);
    assert mid in KeySet(acc);
    var e :| e in evs && e.matchId == mid;
    StatsAt(index, weights, acc, k);
    var ps := GetOr(acc, mid, []);
    assert acc[k] == (mid, ps);
    MatchTotals(evs, mid);
    AccumulateScore(evs, mid, weights);
    AccumulateSkills(evs, mid);
    forall s, r ensures Of(GetOr(ps, s, EMPTY), r) == Occurrences(evs, mid, s, r) {
      AccumulateCounts(evs, mid, s, r);
    }
    SkillStatsRows(ps, mid, evs, weights);
    SkillStatsTotal(ps, weights);
    MatchStatRow(index, weights, evs, e, ps);
  }

  /** Every returned row describes one match of the player's events faithfully. */
  lemma PlayerMatchStatsRows(playerId: Option<string>, matches: seq<Match>, events: seq<RallyEvent>,
                             weights: Weights, nameLe: (string, string) -> bool)
    ensures var out := PlayerMatchStats(playerId, matches, events, weights, nameLe);
            forall i | 0 <= i < |out| :: IsRowOf(out[i], ForPlayer(events, playerId), IndexMatches(matches), weights)
  {
    var mine, index := ForPlayer(events, playerId), IndexMatches(matches);
    var stats := Stats(index, weights, Accumulate(mine));
    var out := SortBy(stats, ByName(nameLe));
    forall i | 0 <= i < |out| ensures IsRowOf(out[i], mine, index, weights) {
      SortByMembers(stats, ByName(nameLe), out[i]);
      var k :| 0 <= k < |stats| && stats[k] == out[i];
      StatsRow(index, weights, mine, k);
    }
  }

  lemma MatchStatTotal(index: seq<(string, Match)>, weights: Weights, e: (string, PerSkill))
    ensures MatchStat(index, weights, e).total == MatchTotal(e)
  {
    SumCountsTotal(e.1);
  }

  lemma {:induction false} StatsSum(index: seq<(string, Match)>, weights: Weights, acc: Acc)
    ensures SumOf(Stats(index, weights, acc), TotalOf) == SumOf(acc, MatchTotal)
  {
    if acc != [] {
      var init, last := acc[..|acc| - 1], acc[|acc| - 1];
      StatsSum(index, weights, init);
      SumOfAppend(Stats(index, weights, init), MatchStat(index, weights, last), TotalOf);
      assert acc == init + [last];
      SumOfAppend(init, last, MatchTotal);
      MatchStatTotal(index, weights, last);
    }
  }

  /** The rows carry the match ids of the groups, one row per group. */
  lemma StatsMatchIds(index: seq<(string, Match)>, weights: Weights, acc: Acc)
    requires DistinctKeys(acc)
    ensures DistinctBy(Stats(index, weights, acc), MatchIdOf)
    ensures (set st | st in Stats(index, weights, acc) :: st.matchId) == KeySet(acc)
  {
    var stats := Stats(index, weights, acc);
    forall k | 0 <= k < |stats| ensures stats[k].matchId == acc[k].0 {
      StatsAt(index, weights, acc, k);
    }
    forall m | m in (set st | st in stats :: st.matchId) ensures m in KeySet(acc) {
      var st :| st in stats && st.matchId == m;
      var k :| 0 <= k < |stats| && stats[k] == st;
    }
    forall m | m in KeySet(acc) ensures m in (set st | st in stats :: st.matchId) {
      var k :| 0 <= k < |acc| && acc[k].0 == m;
      assert stats[k] in stats;
    }
  }

  /** Sorting the rows keeps their match ids, and keeps them distinct. */
  lemma SortedMatchIds(stats: seq<PlayerMatchStat>, nameLe: (string, string) -> bool)
    ensures (set st | st in SortBy(stats, ByName(nameLe)) :: st.matchId) == (set st | st in stats :: st.matchId)
    ensures DistinctBy(stats, MatchIdOf) ==> DistinctBy(SortBy(stats, ByName(nameLe)), MatchIdOf)
  {
    var out := SortBy(stats, ByName(nameLe));
    var sorted, unsorted := set st | st in out :: st.matchId, set st | st in stats :: st.matchId;
    forall m | m in sorted ensures m in unsorted {
      var st :| st in out && st.matchId == m;
      SortByMembers(stats, ByName(nameLe), st);
    }
    forall m | m in unsorted ensures m in sorted {
      var st :| st in stats && st.matchId == m;
      SortByMembers(stats, ByName(nameLe), st);
    }
    if DistinctBy(stats, MatchIdOf) {
      DistinctBySortBy(stats, ByName(nameLe), MatchIdOf);
    }
  }

  /** One row per match the player has events in, the rows' totals
      accounting for every one of those events, ordered by match name. */
  lemma PlayerMatchStatsTable(playerId: Option<string>, matches: seq<Match>, events: seq<RallyEvent>,
                              weights: Weights, nameLe: (string, string) -> bool)
    ensures var out := PlayerMatchStats(playerId, matches, events, weights, nameLe);
            && DistinctBy(out, MatchIdOf)
            && (set st | st in out :: st.matchId) == (set e | e in ForPlayer(events, playerId) :: e.matchId)
            && SumOf(out, TotalOf) == |ForPlayer(events, playerId)|
            && (TotalPreorder(nameLe) ==> SortedBy(out, ByName(nameLe)))
  {
    var mine, index := ForPlayer(events, playerId), IndexMatches(matches);
    var acc := Accumulate(mine);
    var stats := Stats(index, weights, acc);
    AccumulateKeys(mine);
    StatsMatchIds(index, weights, acc);
    SortedMatchIds(stats, nameLe);
    StatsSum(index, weights, acc);
    AccumulateSum(mine);
    SumOfSortBy(stats, ByName(nameLe), TotalOf);
    if TotalPreorder(nameLe) {
      ByNamePreorder(nameLe);
      SortBySorted(stats, ByName(nameLe));
    }
  }

  /** The inner loop that adds one skill's counts to the running totals. */
  method AddCounts(total: Counts, c: Counts) returns (sum: Counts)
    ensures sum == Plus(total, c)
  {
    sum := total;
    for j := 0 to |RESULTS|
      invariant forall t | 0 <= t < |RESULTS| ::
                  Of(sum, RESULTS[t]) == Of(total, RESULTS[t]) + if t < j then Of(c, RESULTS[t]) else 0
    {
      var r := RESULTS[j];
      sum := With(sum, r, Of(sum, r) + Of(c, r));
    }
    forall r ensures Of(sum, r) == Of(Plus(total, c), r) {
      ResultsListed(r);
    }
    CountsExt(sum, Plus(total, c));
  }

  /** The inner loop that adds one skill's weighted score to the running score. */
  method AddScore(score: real, c: Counts, row: Row) returns (sum: real)
    ensures sum == score + Score(c, row)
  {
    sum := score;
    for j := 0 to |RESULTS|
      invariant sum == score + ScoreUpTo(c, row, j)
    {
      var r := RESULTS[j];
      sum := sum + Of(c, r) as real * Weight(row, r);
    }
  }

  /** `totalCounts`: the counts of every skill of a match added together. */
  method SumSkillCounts(ps: PerSkill) returns (totalCounts: Counts)
    ensures totalCounts == SumCounts(ps)
  {
    totalCounts := EMPTY;
    for i := 0 to |ps|
      invariant totalCounts == SumCounts(ps[..i])
    {
      assert ps[..i + 1][..i] == ps[..i];
      totalCounts := AddCounts(totalCounts, ps[i].1);
    }
    assert ps[..|ps|] == ps;
  }

  /** `totalScore`: every skill's counts scored under that skill's weights. */
  method SumSkillScores(ps: PerSkill, weights: Weights) returns (totalScore: real)
    ensures totalScore == SumScores(ps, weights)
  {
    totalScore := 0.0;
    for i := 0 to |ps|
      invariant totalScore == SumScores(ps[..i], weights)
    {
      assert ps[..i + 1] == ps[..i] + [ps[i]];
      RealSumOfAppend(ps[..i], ps[i], Scorer(weights));
      var (skill, c) := ps[i];
      totalScore := AddScore(totalScore, c, weights(skill));
    }
    assert ps[..|ps|] == ps;
  }

  /** `bySkill`: the statistics of every skill of a match. */
  method BuildBySkill(ps: PerSkill, weights: Weights) returns (bySkill: seq<(Skill, PerSkillStat)>)
    ensures bySkill == SkillStats(ps, weights)
  {
    bySkill := [];
    for i := 0 to |ps|
      invariant bySkill == SkillStats(ps[..i], weights)
    {
      assert ps[..i + 1][..i] == ps[..i];
      var (skill, c) := ps[i];
      bySkill := Put(bySkill, skill, PerSkillStat(Total(c), c, DecisionRate(c), EffectRate(c, weights(skill))));
    }
    assert ps[..|ps|] == ps;
  }

  /** `buildPlayerMatchStats`, for a collation `nameLe` of match names. */
  method BuildPlayerMatchStats(playerId: Option<string>, matches: seq<Match>, events: seq<RallyEvent>,
                               weights: Weights, nameLe: (string, string) -> bool)
    returns (out: seq<PlayerMatchStat>)
    ensures out == PlayerMatchStats(playerId, matches, events, weights, nameLe)
    ensures forall i | 0 <= i < |out| :: IsRowOf(out[i], ForPlayer(events, playerId), IndexMatches(matches), weights)
    ensures DistinctBy(out, MatchIdOf)
    ensures (set st | st in out :: st.matchId) == (set e | e in ForPlayer(events, playerId) :: e.matchId)
    ensures SumOf(out, TotalOf) == |ForPlayer(events, playerId)|
    ensures TotalPreorder(nameLe) ==> SortedBy(out, ByName(nameLe))
  {
    var matchMap := IndexMatches(matches);
    var mine := ForPlayer(events, playerId);
    var acc := GroupByMatch(mine);
    out := MatchRows(matchMap, weights, acc);
    out := SortBy(out, ByName(nameLe));
    PlayerMatchStatsRows(playerId, matches, events, weights, nameLe);
    PlayerMatchStatsTable(playerId, matches, events, weights, nameLe);
  }

  /** The first loop of `buildPlayerMatchStats`: bump the count of each
      event's result under its match and skill, creating the entries on
      first sight. */
  method GroupByMatch(mine: seq<RallyEvent>) returns (acc: Acc)
    ensures acc == Accumulate(mine)
  {
    acc := [];
    for i := 0 to |mine|
      invariant acc == Accumulate(mine[..i])
    {
      AccumulatePrefix(mine, i);
      var e := mine[i];
      var m := GetOr(acc, e.matchId, []);
      var c := GetOr(m, e.skill, EMPTY);
      c := Inc(c, e.result);
      m := Put(m, e.skill, c);
      acc := Put(acc, e.matchId, m);
    }
    assert mine[..|mine|] == mine;
  }

  /** The second loop of `buildPlayerMatchStats`: one row per match group,
      in the groups' insertion order. */
  method MatchRows(matchMap: seq<(string, Match)>, weights: Weights, acc: Acc) returns (out: seq<PlayerMatchStat>)
    ensures out == Stats(matchMap, weights, acc)
  {
    out := [];
    for k := 0 to |acc|
      invariant out == Stats(matchMap, weights, acc[..k])
    {
      assert acc[..k + 1][..k] == acc[..k];
      var (matchId, perSkill) := acc[k];
      var matchName := MatchName(matchMap, matchId);
      var totalCounts := SumSkillCounts(perSkill);
      var total := Total(totalCounts);
      var totalScore := SumSkillScores(perSkill, weights);
      var decisionRate := if total == 0 then 0.0 else totalCounts.point as real / total as real;
      var effectRate := Ratio01(totalScore, total);
      var bySkill := BuildBySkill(perSkill, weights);
      out := out + [PlayerMatchStat(matchId, matchName, total, decisionRate, effectRate, bySkill)];
    }
    assert acc[..|acc|] == acc;
  }
}
