/** Scoring the locators of an element and ranking them into a bundle: the best candidate of
    each locator, best first. The heuristics that look for generated identifiers are given
    with each observation. */
module LocatorRanking {
  import opened Outcomes
  import opened CanonicalJson
  import Sorting

  datatype Source = TestId | Role | Label | StableId | Placeholder | StableName | VisibleText | Css

  datatype Risk = Uuid | Timestamp | Hash | NumericSuffix | FrameworkGenerated | RandomLooking

  datatype Reason =
    | FromSource(source: Source) | UniqueMatch | ShortValue | Dynamic(risk: Risk) | PositionalCss | DeepCss | GeneratedClass

  // The key is the canonical text of the locator. A value is risky in each way at most once.
  datatype Observation = Observation(
    key: Text, source: Source, matchCount: nat, valueLength: nat, risks: seq<Risk>, sensitiveText: bool,
    isCss: bool, positional: bool, depth: nat, generatedClass: bool)

  datatype Scored = Scored(key: Text, score: int, source: Source, riskCount: nat, reasons: seq<Reason>)

  const MAX_FALLBACKS := 4

  function Priority(s: Source): nat {
    match s
    case TestId => 0
    case Role => 1
    case Label => 2
    case StableId => 3
    case Placeholder => 4
    case StableName => 5
    case VisibleText => 6
    case Css => 7
  }

  function BaseScore(s: Source): int {
    match s
    case TestId => 90
    case Role => 82
    case Label => 76
    case StableId => 72
    case Placeholder => 62
    case StableName => 58
    case VisibleText => 48
    case Css => 30
  }

  function Penalty(r: Risk): int {
    match r
    case Uuid => -45
    case Timestamp => -35
    case Hash => -40
    case NumericSuffix => -18
    case FrameworkGenerated => -30
    case RandomLooking => -30
  }

  function Penalties(risks: seq<Risk>): int {
    if risks == [] then 0 else Penalty(risks[0]) + Penalties(risks[1..])
  }

  function RisksOf(o: Observation): seq<Risk> {
    if o.source.TestId? || o.source.StableId? || o.source.StableName? then o.risks else []
  }

  function Max(a: int, b: int): int {
    if a >= b then a else b
  }

  predicate Usable(o: Observation) {
    o.matchCount == 1 && !(o.source.VisibleText? && o.sensitiveText)
  }

  // ---------- Scoring ----------

  function AsReasons(risks: seq<Risk>): (r: seq<Reason>)
    ensures |r| == |risks| && forall i :: 0 <= i < |r| ==> r[i] == Dynamic(risks[i])
  {
    seq(|risks|, i requires 0 <= i < |risks| => Dynamic(risks[i]))
  }

  // The score before it is cut to the range of scores.
  function RawScore(o: Observation): int {
    BaseScore(o.source) + 8
    + (if o.source.Role? || o.source.Label? then 4 else 0)
    + (if o.valueLength <= 40 then 2 else 0)
    + (if o.source.VisibleText? && o.valueLength > 40 then -10 else 0)
    + Max(-50, Penalties(RisksOf(o)))
    + (if o.isCss && o.positional then -25 else 0)
    + (if o.isCss && o.depth > 3 then Max(-16, (o.depth - 3) * -4) else 0)
    + if o.isCss && o.generatedClass then -20 else 0
  }

  // The refinements of the candidate schema: a score in range, and at most twelve reasons, among
  // them the two that every candidate must give.
  predicate CandidateAccepted(s: Scored) {
    && 0 <= s.score <= 100
    && 1 <= |s.reasons| <= 12 && FromSource(s.source) in s.reasons && UniqueMatch in s.reasons
  }

  // Exactly the usable observations become candidates, which their schema accepts when each
  // risk occurs once.
  method ScoreLocatorObservation(o: Observation) returns (r: Option<Scored>)
    requires |o.risks| <= 6
    ensures r.Some? <==> Usable(o)
    ensures r.Some? ==> RankOf(r.value) == RankFor(o)
    ensures r.Some? ==> r.value.source == o.source && CandidateAccepted(r.value)
  {
    if o.matchCount != 1 || (o.source.VisibleText? && o.sensitiveText) {
      return None;
    }
    var reasons := [FromSource(o.source), UniqueMatch];
    var score := BaseScore(o.source) + 8;
    if o.source.Role? || o.source.Label? {
      score := score + 4;
    }
    if o.valueLength <= 40 {
      score := score + 2;
      reasons := reasons + [ShortValue];
    }
    if o.source.VisibleText? && o.valueLength > 40 {
      score := score - 10;
    }
    score := score + Max(-50, Penalties(RisksOf(o)));
    reasons := reasons + AsReasons(RisksOf(o));
    if o.isCss && o.positional {
      score := score - 25;
      reasons := reasons + [PositionalCss];
    }
    if o.isCss {
      if o.depth > 3 {
        score := score + Max(-16, (o.depth - 3) * -4);
        reasons := reasons + [DeepCss];
      }
      if o.generatedClass {
        score := score - 20;
        reasons := reasons + [GeneratedClass];
      }
    }
    r := Some(Scored(o.key, Max(0, if score <= 100 then score else 100), o.source, RiskCount(o), reasons));
  }

  function RiskCount(o: Observation): nat {
    |RisksOf(o)| + (if o.isCss && o.positional then 1 else 0) + if o.isCss && o.generatedClass then 1 else 0
  }

  // ---------- The order ----------

  datatype Rank = Rank(score: int, priority: nat, riskCount: nat, key: Text)

  function RankOf(s: Scored): Rank {
    Rank(s.score, Priority(s.source), s.riskCount, s.key)
  }

  // What the order of candidates looks at, without the reasons.
  function RankFor(o: Observation): Rank {
    Rank(Max(0, if RawScore(o) <= 100 then RawScore(o) else 100), Priority(o.source), RiskCount(o), o.key)
  }

  predicate RankLe(a: Rank, b: Rank) {
    if a.score != b.score then a.score > b.score
    else if a.priority != b.priority then a.priority < b.priority
    else if a.riskCount != b.riskCount then a.riskCount < b.riskCount
    else if |a.key| != |b.key| then |a.key| < |b.key|
    else TextLe(a.key, b.key)
  }

  predicate ComesFirst(a: Scored, b: Scored) {
    RankLe(RankOf(a), RankOf(b))
  }

  // The comparator is a total preorder, and tells apart any two locators with different keys.
  lemma RankLeOrders()
    ensures Sorting.TotalPreorder(RankLe)
    ensures forall a: Rank, b: Rank :: RankLe(a, b) && RankLe(b, a) ==> a == b
  {
    forall a: Rank, b: Rank ensures RankLe(a, b) || RankLe(b, a)
      ensures RankLe(a, b) && RankLe(b, a) ==> a == b {
      TextLeTotal(a.key, b.key);
    }
    forall a: Rank, b: Rank, c: Rank | RankLe(a, b) && RankLe(b, c) ensures RankLe(a, c) {
      RankLeTransitive(a, b, c);
    }
  }

  lemma RankLeTransitive(a: Rank, b: Rank, c: Rank)
    requires RankLe(a, b) && RankLe(b, c)
    ensures RankLe(a, c)
  {
    if TextLe(a.key, b.key) && TextLe(b.key, c.key) {
      TextLeTransitive(a.key, b.key, c.key);
    }
  }

  // ---------- What a ranking is ----------

  ghost function Candidates(observations: seq<Observation>): set<Rank> {
    set o | o in observations && Usable(o) :: RankFor(o)
  }

  function Ranks(s: seq<Scored>): (r: seq<Rank>)
    ensures |r| == |s| && forall i :: 0 <= i < |r| ==> r[i] == RankOf(s[i])
  {
    seq(|s|, i requires 0 <= i < |s| => RankOf(s[i]))
  }

  ghost predicate DistinctKeys(ranked: seq<Rank>) {
    forall i, j :: 0 <= i < j < |ranked| ==> ranked[i].key != ranked[j].key
  }

  // r comes from a candidate, and no candidate with its key is better.
  ghost predicate IsBest(candidates: set<Rank>, r: Rank) {
    r in candidates && forall x :: x in candidates && x.key == r.key ==> RankLe(r, x)
  }

  // Best first, with exactly one entry for each locator found, the best of its key.
  ghost predicate IsRanking(candidates: set<Rank>, ranked: seq<Rank>) {
    && Sorting.Sorted(RankLe, ranked) && DistinctKeys(ranked)
    && (forall r :: r in ranked ==> IsBest(candidates, r))
    && (forall x :: x in candidates ==> exists r :: r in ranked && r.key == x.key)
  }

  // There is at most one ranking, and it depends on the set of candidates alone: the order in
  // which the locators were observed makes no difference.
  lemma RankingIsUnique(candidates: set<Rank>, a: seq<Rank>, b: seq<Rank>)
    requires IsRanking(candidates, a) && IsRanking(candidates, b)
    ensures a == b
  {
    forall r ensures r in a <==> r in b {
      if r in a { RankedInBoth(candidates, a, b, r); }
      if r in b { RankedInBoth(candidates, b, a, r); }
    }
    SameMembersSameRanking(a, b);
  }

  lemma RankedInBoth(candidates: set<Rank>, a: seq<Rank>, b: seq<Rank>, r: Rank)
    requires IsRanking(candidates, a) && IsRanking(candidates, b) && r in a
    ensures r in b
  {
    assert IsBest(candidates, r);
    var e :| e in b && e.key == r.key;
    assert IsBest(candidates, e);
    RankLeOrders();
  }

  lemma {:induction false} SameMembersSameRanking(a: seq<Rank>, b: seq<Rank>)
    requires Sorting.Sorted(RankLe, a) && Sorting.Sorted(RankLe, b) && DistinctKeys(a) && DistinctKeys(b)
    requires forall r :: r in a <==> r in b
    ensures a == b
  {
    if a == [] {
      if b != [] {
        HasMember(b);
        assert false;
      }
    } else {
      RankLeOrders();
      assert a[0] in b && b[0] in a;
      assert RankLe(a[0], b[0]) && RankLe(b[0], a[0]);
      forall r ensures r in a[1..] <==> r in b[1..] {
        TailMember(a, r);
        TailMember(b, r);
      }
      SameMembersSameRanking(a[1..], b[1..]);
      assert a == [a[0]] + a[1..] && b == [b[0]] + b[1..];
    }
  }

  lemma HasMember(s: seq<Rank>)
    requires s != []
    ensures exists r :: r in s
  {
    assert s[0] in s;
  }

  lemma TailMember(s: seq<Rank>, r: Rank)
    requires s != [] && DistinctKeys(s)
    ensures r in s[1..] <==> r in s && r != s[0]
  {
    if r in s && r != s[0] {
      var i :| 0 <= i < |s| && s[i] == r;
      assert s[1..][i - 1] == r;
    }
  }

  // The same locators in any order give the same bundle, up to the reasons.
  lemma RankingIgnoresOrder(a: seq<Observation>, b: seq<Observation>, ra: seq<Scored>, rb: seq<Scored>)
    requires multiset(a) == multiset(b)
    requires IsRanking(Candidates(a), Ranks(ra)) && IsRanking(Candidates(b), Ranks(rb))
    ensures Ranks(ra) == Ranks(rb)
  {
    assert forall o :: o in a <==> o in multiset(a);
    assert forall o :: o in b <==> o in multiset(b);
    assert Candidates(a) == Candidates(b);
    RankingIsUnique(Candidates(a), Ranks(ra), Ranks(rb));
  }

  // ---------- Deduplication ----------

  // The map from keys to entries, in the order of first sight.
  datatype Index = Index(keys: seq<Text>, best: map<Text, Scored>)

  ghost predicate Indexed(x: Index) {
    && (forall i, j :: 0 <= i < j < |x.keys| ==> x.keys[i] != x.keys[j])
    && (forall k :: k in x.keys <==> k in x.best)
    && (forall k :: k in x.best ==> x.best[k].key == k && CandidateAccepted(x.best[k]))
  }

  ghost predicate HoldsBest(candidates: set<Rank>, x: Index) {
    && Indexed(x)
    && (forall k :: k in x.best ==> IsBest(candidates, RankOf(x.best[k])))
    && (forall r :: r in candidates ==> r.key in x.best)
  }

  function Consider(x: Index, s: Scored): Index {
    if s.key !in x.best then Index(x.keys + [s.key], x.best[s.key := s])
    else if !ComesFirst(x.best[s.key], s) then x.(best := x.best[s.key := s])
    else x
  }

  lemma ConsiderKeepsIndexed(x: Index, s: Scored)
    requires Indexed(x) && CandidateAccepted(s)
    ensures Indexed(Consider(x, s))
  {
    var y := Consider(x, s);
    assert s.key !in x.best ==> forall k :: k in y.keys <==> k in x.keys || k == s.key;
  }

  lemma ConsiderKeepsBest(candidates: set<Rank>, x: Index, s: Scored)
    requires HoldsBest(candidates, x) && CandidateAccepted(s)
    ensures HoldsBest(candidates + {RankOf(s)}, Consider(x, s))
  {
    ConsiderKeepsIndexed(x, s);
    var y := Consider(x, s);
    forall k | k in y.best ensures IsBest(candidates + {RankOf(s)}, RankOf(y.best[k])) {
      if k != s.key {
        OthersStayBest(candidates, RankOf(x.best[k]), RankOf(s));
      } else if k in x.best {
        BestOfTwo(candidates, RankOf(x.best[k]), RankOf(s));
      } else {
        FirstIsBest(candidates, RankOf(s));
      }
    }
  }

  lemma OthersStayBest(candidates: set<Rank>, r: Rank, new_: Rank)
    requires IsBest(candidates, r) && r.key != new_.key
    ensures IsBest(candidates + {new_}, r)
  {}

  lemma FirstIsBest(candidates: set<Rank>, new_: Rank)
    requires forall r :: r in candidates ==> r.key != new_.key
    ensures IsBest(candidates + {new_}, new_)
  {
    RankLeOrders();
  }

  lemma BestOfTwo(candidates: set<Rank>, old_: Rank, new_: Rank)
    requires IsBest(candidates, old_) && old_.key == new_.key
    ensures IsBest(candidates + {new_}, if RankLe(old_, new_) then old_ else new_)
  {
    RankLeOrders();
  }

  method Deduplicate(observations: seq<Observation>) returns (x: Index)
    requires forall o :: o in observations ==> |o.risks| <= 6
    ensures HoldsBest(Candidates(observations), x)
  {
    x := Index([], map[]);
    for i := 0 to |observations|
      invariant HoldsBest(Candidates(observations[..i]), x)
    {
      var scored := ScoreLocatorObservation(observations[i]);
      CandidatesGrow(observations, i);
      if scored.Some? {
        ConsiderKeepsBest(Candidates(observations[..i]), x, scored.value);
        var s := scored.value;
        if s.key !in x.best {
          x := Index(x.keys + [s.key], x.best[s.key := s]);
        } else if !ComesFirst(x.best[s.key], s) {
          x := x.(best := x.best[s.key := s]);
        }
      }
    }
    assert observations[..|observations|] == observations;
  }

  lemma CandidatesGrow(observations: seq<Observation>, i: nat)
    requires i < |observations|
    ensures Candidates(observations[..i + 1]) ==
      Candidates(observations[..i]) + if Usable(observations[i]) then {RankFor(observations[i])} else {}
  {
    assert observations[..i + 1] == observations[..i] + [observations[i]];
  }

  // ---------- Ranking ----------

  datatype Bundle = Bundle(primary: Scored, fallbacks: seq<Scored>)

  // The refinements of the bundle schema: acceptable candidates of distinct locators, with scores
  // that do not rise.
  predicate BundleAccepted(b: Bundle) {
    var all := [b.primary] + b.fallbacks;
    && |b.fallbacks| <= MAX_FALLBACKS
    && (forall s :: s in all ==> CandidateAccepted(s))
    && (forall i, j :: 0 <= i < j < |all| ==> all[i].key != all[j].key)
    && (forall i :: 0 < i < |all| ==> all[i].score <= all[i - 1].score)
  }

  function Entries(x: Index): (r: seq<Scored>)
    requires Indexed(x)
    ensures |r| == |x.keys| && forall i :: 0 <= i < |r| ==> r[i] == x.best[x.keys[i]]
  {
    seq(|x.keys|, i requires 0 <= i < |x.keys| => x.best[x.keys[i]])
  }

  ghost predicate KeysDiffer(s: seq<Scored>) {
    Sorting.KeysDiffer((e: Scored) => e.key, s)
  }

  lemma ComesFirstIsTotalPreorder()
    ensures Sorting.TotalPreorder(ComesFirst)
  {
    RankLeOrders();
    forall a: Scored, b: Scored ensures ComesFirst(a, b) || ComesFirst(b, a) {
      assert RankLe(RankOf(a), RankOf(b)) || RankLe(RankOf(b), RankOf(a));
    }
    forall a: Scored, b: Scored, c: Scored | ComesFirst(a, b) && ComesFirst(b, c) ensures ComesFirst(a, c) {
      RankLeTransitive(RankOf(a), RankOf(b), RankOf(c));
    }
  }

  // Sorting the entries of the map gives the ranking.
  lemma SortedEntriesAreTheRanking(candidates: set<Rank>, x: Index)
    requires HoldsBest(candidates, x)
    ensures IsRanking(candidates, Ranks(Sorting.Sort(ComesFirst, Entries(x))))
  {
    Sorting.SortMembers(ComesFirst, Entries(x));
    SortedEntries(x);
    RankingOf(candidates, x, Sorting.Sort(ComesFirst, Entries(x)));
  }

  lemma SortedEntries(x: Index)
    requires Indexed(x)
    ensures Sorting.Sorted(ComesFirst, Sorting.Sort(ComesFirst, Entries(x)))
    ensures KeysDiffer(Sorting.Sort(ComesFirst, Entries(x)))
  {
    ComesFirstIsTotalPreorder();
    Sorting.SortSorts(ComesFirst, Entries(x));
    Sorting.SortKeepsKeysDifferent(ComesFirst, (e: Scored) => e.key, Entries(x));
  }

  lemma SortedEntriesAreAccepted(x: Index)
    requires Indexed(x)
    ensures forall s :: s in Sorting.Sort(ComesFirst, Entries(x)) ==> CandidateAccepted(s)
  {
    Sorting.SortMembers(ComesFirst, Entries(x));
    forall s | s in Entries(x) ensures CandidateAccepted(s) {
      var k :| 0 <= k < |x.keys| && s == Entries(x)[k];
      assert x.keys[k] in x.best;
    }
  }

  lemma RankingOf(candidates: set<Rank>, x: Index, s: seq<Scored>)
    requires HoldsBest(candidates, x) && forall e :: e in s <==> e in Entries(x)
    requires Sorting.Sorted(ComesFirst, s) && KeysDiffer(s)
    ensures IsRanking(candidates, Ranks(s))
  {
    RanksAreSorted(s);
    EntriesAreBest(candidates, x, s);
    EntriesCoverCandidates(candidates, x, s);
  }

  lemma RanksAreSorted(s: seq<Scored>)
    requires Sorting.Sorted(ComesFirst, s)
    ensures Sorting.Sorted(RankLe, Ranks(s))
  {
    forall i, j | 0 <= i < j < |s| ensures RankLe(Ranks(s)[i], Ranks(s)[j]) {
      assert ComesFirst(s[i], s[j]);
    }
  }

  lemma EntriesAreBest(candidates: set<Rank>, x: Index, s: seq<Scored>)
    requires HoldsBest(candidates, x) && forall e :: e in s <==> e in Entries(x)
    ensures forall r :: r in Ranks(s) ==> IsBest(candidates, r)
  {
    forall r | r in Ranks(s) ensures IsBest(candidates, r) {
      var i :| 0 <= i < |s| && Ranks(s)[i] == r;
      assert s[i] in s;
      var k :| 0 <= k < |x.keys| && s[i] == Entries(x)[k];
      assert x.keys[k] in x.best;
    }
  }

  lemma EntriesCoverCandidates(candidates: set<Rank>, x: Index, s: seq<Scored>)
    requires HoldsBest(candidates, x) && forall e :: e in s <==> e in Entries(x)
    ensures forall c :: c in candidates ==> exists r :: r in Ranks(s) && r.key == c.key
  {
    forall c | c in candidates ensures exists r :: r in Ranks(s) && r.key == c.key {
      var k :| 0 <= k < |x.keys| && x.keys[k] == c.key;
      assert Entries(x)[k] in s;
      var i :| 0 <= i < |s| && s[i] == Entries(x)[k];
      assert Ranks(s)[i] in Ranks(s) && Ranks(s)[i].key == c.key;
    }
  }

  // The bundle is the head of the ranking; the bundle schema never refuses it; and there is
  // none exactly when no observation is usable.
  method RankLocatorBundle(observations: seq<Observation>) returns (b: Option<Bundle>, ghost ranked: seq<Scored>)
    requires forall o :: o in observations ==> |o.risks| <= 6
    ensures IsRanking(Candidates(observations), Ranks(ranked))
    ensures b.None? <==> forall o :: o in observations ==> !Usable(o)
    ensures b.Some? ==> BundleAccepted(b.value)
    ensures b.Some? ==> [b.value.primary] + b.value.fallbacks == ranked[..Min(|ranked|, MAX_FALLBACKS + 1)]
  {
    var x := Deduplicate(observations);
    var all := Sorting.Sort(ComesFirst, Entries(x));
    SortedEntriesAreTheRanking(Candidates(observations), x);
    SortedEntriesAreAccepted(x);
    ranked := all;
    NoneUsable(observations, Ranks(all));
    if |all| == 0 {
      return None, ranked;
    }
    var fallbacks := all[1..Min(|all|, MAX_FALLBACKS + 1)];
    b := Some(Bundle(all[0], fallbacks));
    HeadIsAccepted(Candidates(observations), all);
  }

  function Min(a: nat, b: nat): nat {
    if a <= b then a else b
  }

  lemma NoneUsable(observations: seq<Observation>, ranked: seq<Rank>)
    requires IsRanking(Candidates(observations), ranked)
    ensures ranked == [] <==> forall o :: o in observations ==> !Usable(o)
  {
    if o :| o in observations && Usable(o) {
      assert RankFor(o) in Candidates(observations);
    }
    if ranked != [] {
      assert IsBest(Candidates(observations), ranked[0]);
    }
  }

  lemma HeadIsAccepted(candidates: set<Rank>, all: seq<Scored>)
    requires IsRanking(candidates, Ranks(all)) && all != [] && forall s :: s in all ==> CandidateAccepted(s)
    ensures BundleAccepted(Bundle(all[0], all[1..Min(|all|, MAX_FALLBACKS + 1)]))
    ensures [all[0]] + all[1..Min(|all|, MAX_FALLBACKS + 1)] == all[..Min(|all|, MAX_FALLBACKS + 1)]
  {
    var r := Ranks(all);
    var b := Bundle(all[0], all[1..Min(|all|, MAX_FALLBACKS + 1)]);
    var head := [b.primary] + b.fallbacks;
    assert forall i :: 0 <= i < |head| ==> head[i] == all[i];
    forall i, j | 0 <= i < j < |head| ensures head[i].key != head[j].key {
      assert r[i].key != r[j].key;
    }
    forall i | 0 < i < |head| ensures head[i].score <= head[i - 1].score {
      assert RankLe(r[i - 1], r[i]);
    }
  }
}
