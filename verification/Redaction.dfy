/** Redaction planning: candidate rectangles are clamped to the viewport and merged
    until no two of them overlap significantly. Coordinates count thousandths. */
module Redaction {
  import opened Outcomes
  import opened Sorting
  import opened Groups
  import Decimal

  datatype Sensitivity =
    Authentication | Financial | Identity | Health | Personal | UnknownSensitive | General | Public

  datatype Rule =
    | AuthPasswordType | AuthAutocomplete | AuthMetadata
    | FinancialAutocomplete | FinancialMetadata | IdentityMetadata | HealthMetadata
    | PersonalInputType | PersonalAutocomplete | PersonalMetadata
    | UnknownSensitiveMetadata | SensitiveMetadataLiteral
    | PublicSemanticElement | GeneralNoSensitiveSignal

  datatype Viewport = Viewport(width: int, height: int)

  datatype Candidate = Candidate(
    id: string, x: int, y: int, width: int, height: int,
    sensitivity: Sensitivity, reasons: set<Rule>)

  // A duplicate-free sorted list of ids or reasons is modelled as the set it lists.
  datatype Region = Region(
    sourceIds: set<string>, x: int, y: int, width: int, height: int,
    sensitivity: Sensitivity, reasons: set<Rule>)

  datatype PlanError = TooManyRegions | NoVisibleArea

  const MAX_REDACTION_REGIONS := 200

  function Priority(s: Sensitivity): nat {
    match s
    case Authentication => 0
    case Financial => 1
    case Identity => 2
    case Health => 3
    case Personal => 4
    case UnknownSensitive => 5
    case General => 6
    case Public => 7
  }

  function Min(a: int, b: int): int { if a <= b then a else b }

  function Max(a: int, b: int): int { if a >= b then a else b }

  function Clamp(value: int, maximum: int): int { Min(Max(value, 0), maximum) }

  function Normalize(c: Candidate, v: Viewport): Result<Region, PlanError> {
    var left := Clamp(Min(c.x, c.x + c.width), v.width);
    var right := Clamp(Max(c.x, c.x + c.width), v.width);
    var top := Clamp(Min(c.y, c.y + c.height), v.height);
    var bottom := Clamp(Max(c.y, c.y + c.height), v.height);
    if right - left <= 0 || bottom - top <= 0 then Err(NoVisibleArea)
    else Ok(Region({c.id}, left, top, right - left, bottom - top, c.sensitivity, c.reasons))
  }

  function Area(r: Region): int { r.width * r.height }

  function IntersectionArea(a: Region, b: Region): int {
    var width := Max(0, Min(a.x + a.width, b.x + b.width) - Max(a.x, b.x));
    var height := Max(0, Min(a.y + a.height, b.y + b.height) - Max(a.y, b.y));
    width * height
  }

  // At least half of the smaller rectangle lies in the other one.
  predicate Overlaps(a: Region, b: Region) {
    var shared := IntersectionArea(a, b);
    shared > 0 && 2 * shared >= Min(Area(a), Area(b))
  }

  function Stronger(a: Sensitivity, b: Sensitivity): Sensitivity {
    if Priority(a) <= Priority(b) then a else b
  }

  function Merge(a: Region, b: Region): Region {
    var x, y := Min(a.x, b.x), Min(a.y, b.y);
    Region(
      a.sourceIds + b.sourceIds, x, y,
      Max(a.x + a.width, b.x + b.width) - x,
      Max(a.y + a.height, b.y + b.height) - y,
      Stronger(a.sensitivity, b.sensitivity),
      a.reasons + b.reasons)
  }

  // The collation of the joined source ids is abstract: rank is its order.
  predicate Precedes(rank: set<string> -> real, a: Region, b: Region) {
    if a.y != b.y then a.y < b.y
    else if a.x != b.x then a.x < b.x
    else if a.width != b.width then a.width < b.width
    else if a.height != b.height then a.height < b.height
    else if a.sensitivity != b.sensitivity then Priority(a.sensitivity) < Priority(b.sensitivity)
    else rank(a.sourceIds) <= rank(b.sourceIds)
  }

  function Order(rank: set<string> -> real): (Region, Region) -> bool {
    (a, b) => Precedes(rank, a, b)
  }

  // ---------- The merging loop ----------

  // The first overlapping pair in scan order.
  ghost predicate FirstPair(rs: seq<Region>, i: nat, j: nat) {
    && i < j < |rs|
    && Overlaps(rs[i], rs[j])
    && (forall l, r :: 0 <= l < i && l < r < |rs| ==> !Overlaps(rs[l], rs[r]))
    && (forall r :: i < r < j ==> !Overlaps(rs[i], rs[r]))
  }

  ghost predicate Separated(rs: seq<Region>) {
    forall l, r :: 0 <= l < r < |rs| ==> !Overlaps(rs[l], rs[r])
  }

  function MergePair(rs: seq<Region>, i: nat, j: nat): (out: seq<Region>)
    requires i < j < |rs|
    ensures |out| == |rs| - 1
  {
    rs[..i] + [Merge(rs[i], rs[j])] + rs[i + 1..j] + rs[j + 1..]
  }

  lemma FirstPairUnique(rs: seq<Region>, i: nat, j: nat, k: nat, l: nat)
    requires FirstPair(rs, i, j) && FirstPair(rs, k, l)
    ensures i == k && j == l
  {}

  lemma FirstPairExists(rs: seq<Region>)
    requires !Separated(rs)
    ensures exists i: nat, j: nat :: FirstPair(rs, i, j)
  {
    var i := 0;
    while forall r :: i < r < |rs| ==> !Overlaps(rs[i], rs[r])
      invariant 0 <= i <= |rs|
      invariant forall l, r :: 0 <= l < i && l < r < |rs| ==> !Overlaps(rs[l], rs[r])
      decreases |rs| - i
    {
      i := i + 1;
    }
    var j := i + 1;
    while !Overlaps(rs[i], rs[j])
      invariant i < j < |rs|
      invariant forall r :: i < r < j ==> !Overlaps(rs[i], rs[r])
      decreases |rs| - j
    {
      j := j + 1;
    }
    assert FirstPair(rs, i, j);
  }

  ghost function Fixpoint(rank: set<string> -> real, rs: seq<Region>): seq<Region>
    decreases |rs|
  {
    if Separated(rs) then rs
    else
      FirstPairExists(rs);
      var i: nat, j: nat :| FirstPair(rs, i, j);
      SortPermutes(Order(rank), MergePair(rs, i, j));
      Fixpoint(rank, Sort(Order(rank), MergePair(rs, i, j)))
  }

  lemma FixpointStep(rank: set<string> -> real, rs: seq<Region>, i: nat, j: nat)
    requires FirstPair(rs, i, j)
    ensures Fixpoint(rank, rs) == Fixpoint(rank, Sort(Order(rank), MergePair(rs, i, j)))
  {
    FirstPairExists(rs);
    var k: nat, l: nat :| FirstPair(rs, k, l)
      && Fixpoint(rank, rs) == Fixpoint(rank, Sort(Order(rank), MergePair(rs, k, l)));
    FirstPairUnique(rs, i, j, k, l);
  }

  // The two inner scanning loops, up to the labelled break.
  method ScanForOverlap(rs: seq<Region>) returns (pair: Option<(nat, nat)>)
    ensures pair.None? ==> Separated(rs)
    ensures pair.Some? ==> FirstPair(rs, pair.value.0, pair.value.1)
  {
    var left := 0;
    while left < |rs|
      invariant 0 <= left <= |rs|
      invariant forall l, r :: 0 <= l < left && l < r < |rs| ==> !Overlaps(rs[l], rs[r])
    {
      var right := left + 1;
      while right < |rs|
        invariant left < right <= |rs|
        invariant forall r :: left < r < right ==> !Overlaps(rs[left], rs[r])
      {
        if Overlaps(rs[left], rs[right]) {
          return Some((left, right));
        }
        right := right + 1;
      }
      left := left + 1;
    }
    pair := None;
  }

  method MergeRegions(rank: set<string> -> real, regions: seq<Region>) returns (remaining: seq<Region>)
    ensures remaining == Fixpoint(rank, Sort(Order(rank), regions))
  {
    remaining := Sort(Order(rank), regions);
    ghost var goal := Fixpoint(rank, remaining);
    SortRegions(rank, regions);
    var changed := true;
    while changed
      invariant Fixpoint(rank, remaining) == goal
      invariant Sorted(Order(rank), remaining)
      invariant !changed ==> Separated(remaining)
      decreases |remaining|, changed
    {
      changed := false;
      var pair := ScanForOverlap(remaining);
      if pair.Some? {
        var (left, right) := pair.value;
        FixpointStep(rank, remaining, left, right);
        var merged := MergePair(remaining, left, right);
        SortRegions(rank, merged);
        remaining := Sort(Order(rank), merged);
        changed := true;
      }
    }
    SortFixesSorted(Order(rank), remaining);
    remaining := Sort(Order(rank), remaining);
  }

  lemma SortRegions(rank: set<string> -> real, rs: seq<Region>)
    ensures TotalPreorder(Order(rank))
    ensures Sorted(Order(rank), Sort(Order(rank), rs))
    ensures |Sort(Order(rank), rs)| == |rs|
  {
    SortSorts(Order(rank), rs);
    SortPermutes(Order(rank), rs);
  }

  // ---------- What the merged regions are made of ----------

  ghost function Hull(members: seq<Region>): Region
    requires members != []
  {
    if |members| == 1 then members[0] else Merge(members[0], Hull(members[1..]))
  }

  ghost predicate Covers(r: Region, m: Region) {
    && r.x <= m.x && m.x + m.width <= r.x + r.width
    && r.y <= m.y && m.y + m.height <= r.y + r.height
  }

  // The smallest rectangle around the members, with the strongest sensitivity among
  // them and exactly their reasons and source ids.
  ghost predicate IsHull(r: Region, members: seq<Region>) {
    && (forall m :: m in members ==> Covers(r, m) && Priority(r.sensitivity) <= Priority(m.sensitivity))
    && (exists m :: m in members && m.x == r.x)
    && (exists m :: m in members && m.y == r.y)
    && (exists m :: m in members && m.x + m.width == r.x + r.width)
    && (exists m :: m in members && m.y + m.height == r.y + r.height)
    && (exists m :: m in members && m.sensitivity == r.sensitivity)
    && (forall rule :: rule in r.reasons <==> exists m :: m in members && rule in m.reasons)
    && (forall id :: id in r.sourceIds <==> exists m :: m in members && id in m.sourceIds)
  }

  lemma MergeIsHull(a: Region, b: Region, ms: seq<Region>)
    requires ms != [] && IsHull(b, ms)
    ensures IsHull(Merge(a, b), [a] + ms)
  {
    var all, r := [a] + ms, Merge(a, b);
    assert a in all && forall m :: m in ms ==> m in all;
    assert forall m :: m in all ==> m == a || m in ms;
    forall rule ensures rule in r.reasons <==> exists m :: m in all && rule in m.reasons {
      if rule in b.reasons {
        var m :| m in ms && rule in m.reasons;
        assert m in all;
      }
    }
    forall id ensures id in r.sourceIds <==> exists m :: m in all && id in m.sourceIds {
      if id in b.sourceIds {
        var m :| m in ms && id in m.sourceIds;
        assert m in all;
      }
    }
  }

  lemma {:induction false} HullIsHull(members: seq<Region>)
    requires members != []
    ensures IsHull(Hull(members), members)
  {
    if |members| == 1 {
      assert members[0] in members;
    } else {
      HullIsHull(members[1..]);
      MergeIsHull(members[0], Hull(members[1..]), members[1..]);
      assert members == [members[0]] + members[1..];
    }
  }

  lemma MergeAssociative(a: Region, b: Region, c: Region)
    ensures Merge(Merge(a, b), c) == Merge(a, Merge(b, c))
  {
    assert a.sourceIds + b.sourceIds + c.sourceIds == a.sourceIds + (b.sourceIds + c.sourceIds);
    assert a.reasons + b.reasons + c.reasons == a.reasons + (b.reasons + c.reasons);
  }

  lemma {:induction false} HullOfConcat(a: seq<Region>, b: seq<Region>)
    requires a != [] && b != []
    ensures Hull(a + b) == Merge(Hull(a), Hull(b))
  {
    assert (a + b)[1..] == a[1..] + b;
    if |a| > 1 {
      HullOfConcat(a[1..], b);
      MergeAssociative(a[0], Hull(a[1..]), Hull(b));
    } else {
      assert a[1..] + b == b;
    }
  }

  // Group k lists the original regions that region k was merged from.
  ghost predicate Hulls(rs: seq<Region>, groups: seq<seq<Region>>) {
    && |rs| == |groups|
    && forall i :: 0 <= i < |rs| ==> groups[i] != [] && rs[i] == Hull(groups[i])
  }

  lemma {:induction false} InsertGroup(le: (Region, Region) -> bool, x: Region, g: seq<Region>, s: seq<Region>, gs: seq<seq<Region>>)
    returns (out: seq<seq<Region>>)
    requires g != [] && x == Hull(g) && Hulls(s, gs)
    ensures Hulls(Insert(le, x, s), out)
    ensures multiset(Flatten(out)) == multiset(g) + multiset(Flatten(gs))
  {
    if s == [] || le(x, s[0]) {
      out := [g] + gs;
      assert out[1..] == gs;
    } else {
      var rest := InsertGroup(le, x, g, s[1..], gs[1..]);
      out := [gs[0]] + rest;
      assert out[1..] == rest;
    }
  }

  lemma {:induction false} SortGroups(le: (Region, Region) -> bool, s: seq<Region>, gs: seq<seq<Region>>)
    returns (out: seq<seq<Region>>)
    requires Hulls(s, gs)
    ensures Hulls(Sort(le, s), out)
    ensures multiset(Flatten(out)) == multiset(Flatten(gs))
  {
    if s == [] {
      out := [];
    } else {
      var rest := SortGroups(le, s[1..], gs[1..]);
      out := InsertGroup(le, s[0], gs[0], Sort(le, s[1..]), rest);
    }
  }

  lemma MergeGroups(rs: seq<Region>, gs: seq<seq<Region>>, i: nat, j: nat)
    requires Hulls(rs, gs) && i < j < |rs|
    ensures Hulls(MergePair(rs, i, j), JoinPair(gs, i, j))
  {
    HullOfConcat(gs[i], gs[j]);
    var merged := Merge(rs[i], rs[j]);
    assert merged == Hull(gs[i] + gs[j]);
    assert Hulls(rs[..i], gs[..i]) && Hulls(rs[i + 1..j], gs[i + 1..j]) && Hulls(rs[j + 1..], gs[j + 1..]);
    HullsConcat(rs[..i], gs[..i], [merged], [gs[i] + gs[j]]);
    HullsConcat(rs[..i] + [merged], gs[..i] + [gs[i] + gs[j]], rs[i + 1..j], gs[i + 1..j]);
    HullsConcat(rs[..i] + [merged] + rs[i + 1..j], gs[..i] + [gs[i] + gs[j]] + gs[i + 1..j], rs[j + 1..], gs[j + 1..]);
  }

  lemma HullsConcat(a: seq<Region>, ga: seq<seq<Region>>, b: seq<Region>, gb: seq<seq<Region>>)
    requires Hulls(a, ga) && Hulls(b, gb)
    ensures Hulls(a + b, ga + gb)
  {}

  lemma {:induction false} FixpointGroups(rank: set<string> -> real, rs: seq<Region>, gs: seq<seq<Region>>)
    returns (out: seq<seq<Region>>)
    requires Hulls(rs, gs)
    ensures Hulls(Fixpoint(rank, rs), out)
    ensures multiset(Flatten(out)) == multiset(Flatten(gs))
    decreases |rs|
  {
    if Separated(rs) {
      out := gs;
    } else {
      FirstPairExists(rs);
      var i: nat, j: nat :| FirstPair(rs, i, j);
      FixpointStep(rank, rs, i, j);
      MergeGroups(rs, gs, i, j);
      JoinPairKeepsMembers(gs, i, j);
      var sorted := SortGroups(Order(rank), MergePair(rs, i, j), JoinPair(gs, i, j));
      SortPermutes(Order(rank), MergePair(rs, i, j));
      out := FixpointGroups(rank, Sort(Order(rank), MergePair(rs, i, j)), sorted);
    }
  }

  lemma {:induction false} FixpointSeparated(rank: set<string> -> real, rs: seq<Region>)
    requires Sorted(Order(rank), rs)
    ensures Separated(Fixpoint(rank, rs)) && |Fixpoint(rank, rs)| <= |rs|
    ensures Sorted(Order(rank), Fixpoint(rank, rs))
    decreases |rs|
  {
    if !Separated(rs) {
      FirstPairExists(rs);
      var i: nat, j: nat :| FirstPair(rs, i, j);
      FixpointStep(rank, rs, i, j);
      SortRegions(rank, MergePair(rs, i, j));
      FixpointSeparated(rank, Sort(Order(rank), MergePair(rs, i, j)));
    }
  }

  ghost function Singletons(rs: seq<Region>): seq<seq<Region>> {
    seq(|rs|, i requires 0 <= i < |rs| => [rs[i]])
  }

  lemma {:induction false} FlattenSingletons(rs: seq<Region>)
    ensures Flatten(Singletons(rs)) == rs
  {
    if rs != [] {
      assert Singletons(rs)[1..] == Singletons(rs[1..]);
      FlattenSingletons(rs[1..]);
    }
  }

  // The merged regions are exactly the hulls of a partition of the original ones.
  lemma MergePartitions(rank: set<string> -> real, regions: seq<Region>)
    returns (groups: seq<seq<Region>>)
    ensures var out := Fixpoint(rank, Sort(Order(rank), regions));
      && |groups| == |out|
      && multiset(Flatten(groups)) == multiset(regions)
      && (regions != [] ==> out != [])
      && (forall i :: 0 <= i < |out| ==> groups[i] != [] && IsHull(out[i], groups[i]))
  {
    var out := Fixpoint(rank, Sort(Order(rank), regions));
    FlattenSingletons(regions);
    groups := SortGroups(Order(rank), regions, Singletons(regions));
    groups := FixpointGroups(rank, Sort(Order(rank), regions), groups);
    forall i | 0 <= i < |out| ensures IsHull(out[i], groups[i]) {
      HullIsHull(groups[i]);
    }
    SameMultisetSameSize(Flatten(groups), regions);
  }

  // No two merged regions overlap significantly, in either order, and they are sorted.
  lemma MergeSeparates(rank: set<string> -> real, regions: seq<Region>)
    ensures var out := Fixpoint(rank, Sort(Order(rank), regions));
      && |out| <= |regions|
      && (forall i, j :: 0 <= i < |out| && 0 <= j < |out| && i != j ==> !Overlaps(out[i], out[j]))
      && (forall i, j :: 0 <= i < j < |out| ==> Precedes(rank, out[i], out[j]))
  {
    var out := Fixpoint(rank, Sort(Order(rank), regions));
    SortRegions(rank, regions);
    FixpointSeparated(rank, Sort(Order(rank), regions));
    forall i, j | 0 <= i < |out| && 0 <= j < |out| && i != j ensures !Overlaps(out[i], out[j]) {
      OverlapsSymmetric(out[i], out[j]);
    }
    assert forall i, j :: 0 <= i < j < |out| ==> Order(rank)(out[i], out[j]);
  }

  lemma OverlapsSymmetric(a: Region, b: Region)
    ensures Overlaps(a, b) == Overlaps(b, a)
  {}

  // ---------- The published plan ----------

  datatype PlanRegion = PlanRegion(
    id: string, x: int, y: int, width: int, height: int,
    sensitivity: Sensitivity, reasons: set<Rule>)

  function NormalizeAll(cs: seq<Candidate>, v: Viewport): Result<seq<Region>, PlanError> {
    if cs == [] then Ok([])
    else
      match Normalize(cs[0], v)
      case Err(e) => Err(e)
      case Ok(first) =>
        match NormalizeAll(cs[1..], v)
        case Err(e) => Err(e)
        case Ok(rest) => Ok([first] + rest)
  }

  function Publish(rs: seq<Region>): seq<PlanRegion> {
    seq(|rs|, i requires 0 <= i < |rs| =>
      PlanRegion("privacy-region-" + Decimal.Text(i + 1),
        rs[i].x, rs[i].y, rs[i].width, rs[i].height, rs[i].sensitivity, rs[i].reasons))
  }

  ghost function Plan(rank: set<string> -> real, v: Viewport, cs: seq<Candidate>): Result<seq<PlanRegion>, PlanError> {
    if |cs| > MAX_REDACTION_REGIONS then Err(TooManyRegions)
    else
      match NormalizeAll(cs, v)
      case Err(e) => Err(e)
      case Ok(rs) => Ok(Publish(Fixpoint(rank, Sort(Order(rank), rs))))
  }

  method BuildRedactionPlan(rank: set<string> -> real, v: Viewport, cs: seq<Candidate>)
    returns (plan: Result<seq<PlanRegion>, PlanError>)
    ensures plan == Plan(rank, v, cs)
  {
    if |cs| > MAX_REDACTION_REGIONS {
      return Err(TooManyRegions);
    }
    match NormalizeAll(cs, v)
    case Err(e) =>
      plan := Err(e);
    case Ok(rs) =>
      var merged := MergeRegions(rank, rs);
      plan := Ok(Publish(merged));
  }

  // A grid cell of the page lies in the candidate, whichever way its size points.
  ghost predicate InCandidate(c: Candidate, px: int, py: int) {
    && Min(c.x, c.x + c.width) <= px < Max(c.x, c.x + c.width)
    && Min(c.y, c.y + c.height) <= py < Max(c.y, c.y + c.height)
  }

  ghost predicate InViewport(v: Viewport, px: int, py: int) {
    0 <= px < v.width && 0 <= py < v.height
  }

  ghost predicate InRegion(r: PlanRegion, px: int, py: int) {
    r.x <= px < r.x + r.width && r.y <= py < r.y + r.height
  }

  ghost predicate Visible(c: Candidate, v: Viewport) {
    exists px, py :: InCandidate(c, px, py) && InViewport(v, px, py)
  }

  ghost predicate Inside(r: Region, v: Viewport) {
    && 0 <= r.x && r.x + r.width <= v.width && r.width > 0
    && 0 <= r.y && r.y + r.height <= v.height && r.height > 0
  }

  lemma NormalizeKeepsVisiblePart(c: Candidate, v: Viewport)
    requires v.width > 0 && v.height > 0
    ensures Normalize(c, v).Ok? <==> Visible(c, v)
    ensures Normalize(c, v).Ok? ==>
      var r := Normalize(c, v).value;
      && Inside(r, v) && r.sensitivity == c.sensitivity && r.reasons == c.reasons && r.sourceIds == {c.id}
      && forall px, py :: InCandidate(c, px, py) && InViewport(v, px, py) <==>
           r.x <= px < r.x + r.width && r.y <= py < r.y + r.height
  {
    var left := Clamp(Min(c.x, c.x + c.width), v.width);
    var top := Clamp(Min(c.y, c.y + c.height), v.height);
    if Normalize(c, v).Ok? {
      assert InCandidate(c, left, top) && InViewport(v, left, top);
    }
  }

  lemma {:induction false} NormalizeAllEach(cs: seq<Candidate>, v: Viewport)
    ensures NormalizeAll(cs, v).Ok? <==> forall c :: c in cs ==> Normalize(c, v).Ok?
    ensures NormalizeAll(cs, v).Ok? ==>
      var rs := NormalizeAll(cs, v).value;
      |rs| == |cs| && forall k :: 0 <= k < |cs| ==> Normalize(cs[k], v) == Ok(rs[k])
    ensures NormalizeAll(cs, v).Err? ==> NormalizeAll(cs, v).error == NoVisibleArea
  {
    if cs != [] {
      NormalizeAllEach(cs[1..], v);
      assert forall c :: c in cs <==> c == cs[0] || c in cs[1..];
    }
  }

  // Planning fails exactly on too many candidates or on one without a visible cell.
  lemma PlanFailsExactlyWhen(rank: set<string> -> real, v: Viewport, cs: seq<Candidate>)
    requires v.width > 0 && v.height > 0
    ensures Plan(rank, v, cs) == Err(TooManyRegions) <==> |cs| > 200
    ensures Plan(rank, v, cs) == Err(NoVisibleArea) <==> |cs| <= 200 && exists c :: c in cs && !Visible(c, v)
  {
    NormalizeAllEach(cs, v);
    forall c ensures Normalize(c, v).Ok? <==> Visible(c, v) {
      NormalizeKeepsVisiblePart(c, v);
    }
  }

  lemma HullInside(r: Region, members: seq<Region>, v: Viewport)
    requires members != [] && IsHull(r, members)
    requires forall m :: m in members ==> Inside(m, v)
    ensures Inside(r, v)
  {
    assert members[0] in members && Covers(r, members[0]);
  }

  lemma {:induction false} MemberOfFlatten(groups: seq<seq<Region>>, m: Region) returns (i: nat)
    requires m in Flatten(groups)
    ensures i < |groups| && m in groups[i]
  {
    if m in groups[0] {
      i := 0;
    } else {
      i := MemberOfFlatten(groups[1..], m);
      i := i + 1;
    }
  }

  lemma {:induction false} FlattenContains(groups: seq<seq<Region>>, i: nat, m: Region)
    requires i < |groups| && m in groups[i]
    ensures m in Flatten(groups)
  {
    if i > 0 {
      FlattenContains(groups[1..], i - 1, m);
    }
  }

  // One region hides every visible cell of the candidate, at least as strictly and for
  // at least the same reasons.
  ghost predicate Hides(r: PlanRegion, c: Candidate, v: Viewport) {
    && (forall px, py :: InCandidate(c, px, py) && InViewport(v, px, py) ==> InRegion(r, px, py))
    && Priority(r.sensitivity) <= Priority(c.sensitivity)
    && c.reasons <= r.reasons
  }

  // The merged regions behind the plan, which remember their candidates.
  ghost function Merged(rank: set<string> -> real, v: Viewport, cs: seq<Candidate>): seq<Region>
    requires Plan(rank, v, cs).Ok?
  {
    Fixpoint(rank, Sort(Order(rank), NormalizeAll(cs, v).value))
  }

  // Every candidate is hidden by a region, which is merged from it among others.
  lemma PlanHidesEveryCandidate(rank: set<string> -> real, v: Viewport, cs: seq<Candidate>)
    requires v.width > 0 && v.height > 0 && Plan(rank, v, cs).Ok?
    ensures var plan, merged := Plan(rank, v, cs).value, Merged(rank, v, cs);
      && |merged| == |plan|
      && forall c :: c in cs ==> exists i :: 0 <= i < |plan| && Hides(plan[i], c, v) && c.id in merged[i].sourceIds
  {
    NormalizeAllEach(cs, v);
    var rs := NormalizeAll(cs, v).value;
    var groups := MergePartitions(rank, rs);
    var out, plan := Merged(rank, v, cs), Plan(rank, v, cs).value;
    forall c | c in cs ensures exists i :: 0 <= i < |plan| && Hides(plan[i], c, v) && c.id in out[i].sourceIds {
      var k :| 0 <= k < |cs| && cs[k] == c;
      NormalizeKeepsVisiblePart(c, v);
      assert rs[k] in multiset(rs);
      var i := MemberOfFlatten(groups, rs[k]);
      assert Covers(out[i], rs[k]);
      assert c.id in rs[k].sourceIds;
      assert Hides(plan[i], c, v);
    }
  }

  // With unique identifiers the regions share out the candidates: each identifier belongs to
  // exactly one region, and no region has an identifier that no candidate has.
  lemma IdentifiersAreSharedOut(rank: set<string> -> real, v: Viewport, cs: seq<Candidate>)
    requires v.width > 0 && v.height > 0 && Plan(rank, v, cs).Ok?
    requires forall i, j :: 0 <= i < j < |cs| ==> cs[i].id != cs[j].id
    ensures var merged := Merged(rank, v, cs);
      && (forall i, j, id :: 0 <= i < j < |merged| && id in merged[i].sourceIds ==> id !in merged[j].sourceIds)
      && (forall i, id :: 0 <= i < |merged| && id in merged[i].sourceIds ==> exists c :: c in cs && c.id == id)
  {
    var rs, merged := NormalizeAll(cs, v).value, Merged(rank, v, cs);
    RegionsKeepIds(cs, v);
    var groups := MergePartitions(rank, rs);
    forall i, id | 0 <= i < |merged| && id in merged[i].sourceIds ensures exists c :: c in cs && c.id == id {
      var k := SourceOf(cs, rs, groups, merged, i, id);
      assert cs[k] in cs;
    }
    forall i, j, id | 0 <= i < j < |merged| && id in merged[i].sourceIds ensures id !in merged[j].sourceIds {
      if id in merged[j].sourceIds {
        var k := SourceOf(cs, rs, groups, merged, i, id);
        var l := SourceOf(cs, rs, groups, merged, j, id);
        InTwoGroups(groups, i, j, rs[k]);
        OncePerCandidate(cs, rs, k);
        assert false;
      }
    }
  }

  lemma SourceOf(cs: seq<Candidate>, rs: seq<Region>, groups: seq<seq<Region>>, merged: seq<Region>, i: nat, id: string)
    returns (k: nat)
    requires |rs| == |cs| && forall k :: 0 <= k < |cs| ==> rs[k].sourceIds == {cs[k].id}
    requires forall i, j :: 0 <= i < j < |cs| ==> cs[i].id != cs[j].id
    requires i < |groups| == |merged| && multiset(Flatten(groups)) == multiset(rs)
    requires groups[i] != [] && IsHull(merged[i], groups[i]) && id in merged[i].sourceIds
    ensures k < |cs| && cs[k].id == id && rs[k] in groups[i]
  {
    var m :| m in groups[i] && id in m.sourceIds;
    GroupWithin(groups, i, rs);
    k :| 0 <= k < |rs| && rs[k] == m;
  }

  lemma {:induction false} InTwoGroups(groups: seq<seq<Region>>, i: nat, j: nat, m: Region)
    requires i < j < |groups| && m in groups[i] && m in groups[j]
    ensures multiset(Flatten(groups))[m] >= 2
  {
    if i == 0 {
      assert m in multiset(groups[0]);
      FlattenContains(groups[1..], j - 1, m);
      assert m in multiset(Flatten(groups[1..]));
    } else {
      InTwoGroups(groups[1..], i - 1, j - 1, m);
    }
  }

  lemma {:induction false} OncePerCandidate(cs: seq<Candidate>, rs: seq<Region>, k: nat)
    requires k < |rs| == |cs| && forall i :: 0 <= i < |cs| ==> rs[i].sourceIds == {cs[i].id}
    requires forall i, j :: 0 <= i < j < |cs| ==> cs[i].id != cs[j].id
    ensures multiset(rs)[rs[k]] == 1
  {
    assert rs == rs[..k] + [rs[k]] + rs[k + 1..];
    assert forall i :: 0 <= i < |rs| && i != k ==> cs[k].id !in rs[i].sourceIds;
    assert rs[k] !in rs[..k] && rs[k] !in rs[k + 1..];
  }

  // A published region as the rectangle it is.
  function Rectangle(r: PlanRegion): Region {
    Region({}, r.x, r.y, r.width, r.height, r.sensitivity, r.reasons)
  }

  // No two published regions overlap significantly, and they are numbered from one.
  lemma PlanIsSeparated(rank: set<string> -> real, v: Viewport, cs: seq<Candidate>)
    requires Plan(rank, v, cs).Ok?
    ensures var plan := Plan(rank, v, cs).value;
      && (forall i, j :: 0 <= i < |plan| && 0 <= j < |plan| && i != j ==> !Overlaps(Rectangle(plan[i]), Rectangle(plan[j])))
      && (forall i :: 0 <= i < |plan| ==> plan[i].id == "privacy-region-" + Decimal.Text(i + 1))
  {
    MergeSeparates(rank, NormalizeAll(cs, v).value);
    var plan, merged := Plan(rank, v, cs).value, Merged(rank, v, cs);
    forall i, j | 0 <= i < |plan| && 0 <= j < |plan| && i != j ensures !Overlaps(Rectangle(plan[i]), Rectangle(plan[j])) {
      SameShape(merged[i], merged[j], Rectangle(plan[i]), Rectangle(plan[j]));
    }
  }

  lemma SameShape(a: Region, b: Region, c: Region, d: Region)
    requires a.x == c.x && a.y == c.y && a.width == c.width && a.height == c.height
    requires b.x == d.x && b.y == d.y && b.width == d.width && b.height == d.height
    ensures Overlaps(a, b) <==> Overlaps(c, d)
  {}

  // Every published region is schema-valid: inside the viewport, of positive size, with between
  // one and sixteen reasons and an identifier of its own.
  lemma PlanIsWellFormed(rank: set<string> -> real, v: Viewport, cs: seq<Candidate>)
    requires v.width > 0 && v.height > 0 && Plan(rank, v, cs).Ok?
    requires forall c :: c in cs ==> c.reasons != {}
    ensures var plan := Plan(rank, v, cs).value;
      && |plan| <= |cs| && (cs != [] ==> plan != [])
      && (forall i :: 0 <= i < |plan| ==>
            && 0 <= plan[i].x && 0 < plan[i].width && plan[i].x + plan[i].width <= v.width
            && 0 <= plan[i].y && 0 < plan[i].height && plan[i].y + plan[i].height <= v.height
            && 1 <= |plan[i].reasons| <= 16)
      && (forall i, j :: 0 <= i < j < |plan| ==> plan[i].id != plan[j].id)
  {
    var rs := NormalizeAll(cs, v).value;
    RegionsWellFormed(rank, v, cs, rs);
    IdsDiffer(Fixpoint(rank, Sort(Order(rank), rs)));
  }

  lemma RegionsWellFormed(rank: set<string> -> real, v: Viewport, cs: seq<Candidate>, rs: seq<Region>)
    requires v.width > 0 && v.height > 0 && NormalizeAll(cs, v) == Ok(rs)
    requires forall c :: c in cs ==> c.reasons != {}
    ensures var out := Fixpoint(rank, Sort(Order(rank), rs));
      && |out| <= |cs| && (cs != [] ==> out != [])
      && forall i :: 0 <= i < |out| ==> Inside(out[i], v) && 1 <= |out[i].reasons| <= 16
  {
    NormalizedWellFormed(v, cs, rs);
    MergeShrinks(rank, rs);
    var groups := MergePartitions(rank, rs);
    HullsWellFormed(Fixpoint(rank, Sort(Order(rank), rs)), groups, rs, v);
  }

  lemma HullsWellFormed(out: seq<Region>, groups: seq<seq<Region>>, rs: seq<Region>, v: Viewport)
    requires |groups| == |out| && multiset(Flatten(groups)) == multiset(rs)
    requires forall i :: 0 <= i < |out| ==> groups[i] != [] && IsHull(out[i], groups[i])
    requires forall m :: m in rs ==> Inside(m, v) && m.reasons != {}
    ensures forall i :: 0 <= i < |out| ==> Inside(out[i], v) && 1 <= |out[i].reasons| <= 16
  {
    forall i | 0 <= i < |out| ensures Inside(out[i], v) && 1 <= |out[i].reasons| <= 16 {
      GroupWithin(groups, i, rs);
      HullWellFormed(out[i], groups[i], v);
    }
  }

  lemma NormalizedWellFormed(v: Viewport, cs: seq<Candidate>, rs: seq<Region>)
    requires v.width > 0 && v.height > 0 && NormalizeAll(cs, v) == Ok(rs)
    requires forall c :: c in cs ==> c.reasons != {}
    ensures |rs| == |cs| && forall m :: m in rs ==> Inside(m, v) && m.reasons != {}
  {
    NormalizeAllEach(cs, v);
    forall m | m in rs ensures Inside(m, v) && m.reasons != {} {
      var k :| 0 <= k < |rs| && rs[k] == m;
      NormalizeKeepsVisiblePart(cs[k], v);
    }
  }

  lemma GroupWithin(groups: seq<seq<Region>>, i: nat, rs: seq<Region>)
    requires i < |groups| && multiset(Flatten(groups)) == multiset(rs)
    ensures forall m :: m in groups[i] ==> m in rs
  {
    forall m | m in groups[i] ensures m in rs {
      FlattenContains(groups, i, m);
      assert m in multiset(Flatten(groups));
    }
  }

  lemma MergeShrinks(rank: set<string> -> real, rs: seq<Region>)
    ensures |Fixpoint(rank, Sort(Order(rank), rs))| <= |rs|
  {
    MergeSeparates(rank, rs);
  }

  lemma HullWellFormed(r: Region, members: seq<Region>, v: Viewport)
    requires members != [] && IsHull(r, members)
    requires forall m :: m in members ==> Inside(m, v) && m.reasons != {}
    ensures Inside(r, v) && 1 <= |r.reasons| <= 16
  {
    HullInside(r, members, v);
    assert members[0] in members;
    var rule :| rule in members[0].reasons;
    assert rule in r.reasons;
    FewReasons(r.reasons);
  }

  lemma IdsDiffer(rs: seq<Region>)
    ensures forall i, j :: 0 <= i < j < |rs| ==> Publish(rs)[i].id != Publish(rs)[j].id
  {
    forall i, j | 0 <= i < j < |rs| ensures Publish(rs)[i].id != Publish(rs)[j].id {
      if Publish(rs)[i].id == Publish(rs)[j].id {
        var n := |"privacy-region-"|;
        assert Publish(rs)[i].id[n..] == Decimal.Text(i + 1) && Publish(rs)[j].id[n..] == Decimal.Text(j + 1);
        Decimal.TextInjective(i + 1, j + 1);
      }
    }
  }

  lemma FewReasons(reasons: set<Rule>)
    ensures |reasons| <= 14
  {
    var all := {AuthPasswordType, AuthAutocomplete, AuthMetadata, FinancialAutocomplete, FinancialMetadata,
      IdentityMetadata, HealthMetadata, PersonalInputType, PersonalAutocomplete, PersonalMetadata,
      UnknownSensitiveMetadata, SensitiveMetadataLiteral, PublicSemanticElement, GeneralNoSensitiveSignal};
    forall rule: Rule ensures rule in all {
      match rule {
        case AuthPasswordType => case AuthAutocomplete => case AuthMetadata =>
        case FinancialAutocomplete => case FinancialMetadata => case IdentityMetadata => case HealthMetadata =>
        case PersonalInputType => case PersonalAutocomplete => case PersonalMetadata =>
        case UnknownSensitiveMetadata => case SensitiveMetadataLiteral =>
        case PublicSemanticElement => case GeneralNoSensitiveSignal =>
      }
    }
    SubsetSize(reasons, all);
  }

  lemma {:induction false} SubsetSize<T>(a: set<T>, b: set<T>)
    requires a <= b
    ensures |a| <= |b|
  {
    if a != {} {
      var x :| x in a;
      SubsetSize(a - {x}, b - {x});
    }
  }

  // Candidates have different ids, and the collation tells these ids apart.
  ghost predicate DistinctIds(rank: set<string> -> real, cs: seq<Candidate>) {
    forall i, j :: 0 <= i < |cs| && 0 <= j < |cs| && rank({cs[i].id}) == rank({cs[j].id}) ==> i == j
  }

  lemma {:induction false} NormalizeAllPermuted(a: seq<Candidate>, b: seq<Candidate>, v: Viewport)
    requires multiset(a) == multiset(b)
    requires NormalizeAll(a, v).Ok? && NormalizeAll(b, v).Ok?
    ensures multiset(NormalizeAll(a, v).value) == multiset(NormalizeAll(b, v).value)
    decreases |a|
  {
    SameMultisetSameSize(a, b);
    if a != [] {
      var k := FindFirst(a, b);
      var rest := b[..k] + b[k + 1..];
      NormalizeAllEach(b, v);
      NormalizeAllEach(rest, v);
      NormalizeAllPermuted(a[1..], rest, v);
      NormalizeAllSplit(b, k, v);
    }
  }

  lemma FindFirst(a: seq<Candidate>, b: seq<Candidate>) returns (k: nat)
    requires a != [] && multiset(a) == multiset(b)
    ensures k < |b| && b[k] == a[0]
    ensures multiset(a[1..]) == multiset(b[..k] + b[k + 1..])
  {
    assert a[0] in multiset(b);
    k :| 0 <= k < |b| && b[k] == a[0];
    SplitAt(b, k);
    SplitAt(a, 0);
    assert a[..0] + a[1..] == a[1..];
    assert multiset(a[1..]) == multiset(a) - multiset{a[0]};
    assert multiset(b[..k] + b[k + 1..]) == multiset(b) - multiset{b[k]};
  }

  lemma NormalizeAllSplit(b: seq<Candidate>, k: nat, v: Viewport)
    requires k < |b| && NormalizeAll(b, v).Ok? && NormalizeAll(b[..k] + b[k + 1..], v).Ok?
    requires Normalize(b[k], v).Ok?
    ensures multiset(NormalizeAll(b, v).value) ==
      multiset{Normalize(b[k], v).value} + multiset(NormalizeAll(b[..k] + b[k + 1..], v).value)
  {
    NormalizeAllEach(b, v);
    var rest := b[..k] + b[k + 1..];
    NormalizeAllEach(rest, v);
    var rs, qs := NormalizeAll(b, v).value, NormalizeAll(rest, v).value;
    assert |qs| == |rs| - 1;
    forall i | 0 <= i < |qs| ensures qs[i] == (rs[..k] + rs[k + 1..])[i] {
      assert Normalize(rest[i], v) == Ok(qs[i]);
    }
    assert qs == rs[..k] + rs[k + 1..];
    SplitAt(rs, k);
  }

  lemma SplitAt<T>(rs: seq<T>, k: nat)
    requires k < |rs|
    ensures multiset(rs) == multiset{rs[k]} + multiset(rs[..k] + rs[k + 1..])
  {
    assert rs == rs[..k] + [rs[k]] + rs[k + 1..];
  }

  lemma RegionsKeepIds(cs: seq<Candidate>, v: Viewport)
    requires v.width > 0 && v.height > 0 && NormalizeAll(cs, v).Ok?
    ensures var rs := NormalizeAll(cs, v).value;
            |rs| == |cs| && forall k :: 0 <= k < |cs| ==> rs[k].sourceIds == {cs[k].id}
  {
    NormalizeAllEach(cs, v);
    forall k | 0 <= k < |cs| ensures NormalizeAll(cs, v).value[k].sourceIds == {cs[k].id} {
      NormalizeKeepsVisiblePart(cs[k], v);
    }
  }

  lemma RegionsAreOrdered(rank: set<string> -> real, cs: seq<Candidate>, rs: seq<Region>)
    requires DistinctIds(rank, cs) && |rs| == |cs|
    requires forall k :: 0 <= k < |cs| ==> rs[k].sourceIds == {cs[k].id}
    ensures forall p, q :: p in rs && q in rs && Precedes(rank, p, q) && Precedes(rank, q, p) ==> p == q
  {
    forall p, q | p in rs && q in rs && Precedes(rank, p, q) && Precedes(rank, q, p) ensures p == q {
      var i :| 0 <= i < |rs| && rs[i] == p;
      var j :| 0 <= j < |rs| && rs[j] == q;
    }
  }

  lemma SameCandidates(a: seq<Candidate>, b: seq<Candidate>)
    requires multiset(a) == multiset(b)
    ensures |a| == |b| && forall c :: c in a <==> c in b
  {
    SameMultisetSameSize(a, b);
    forall c ensures c in a <==> c in b {
      assert c in multiset(a) <==> c in multiset(b);
    }
  }

  // The plan does not depend on the order in which the candidates are listed.
  lemma PlanIgnoresOrder(rank: set<string> -> real, v: Viewport, a: seq<Candidate>, b: seq<Candidate>)
    requires multiset(a) == multiset(b) && DistinctIds(rank, a)
    requires v.width > 0 && v.height > 0
    ensures Plan(rank, v, a) == Plan(rank, v, b)
  {
    SameCandidates(a, b);
    NormalizeAllEach(a, v);
    NormalizeAllEach(b, v);
    if |a| <= MAX_REDACTION_REGIONS && NormalizeAll(a, v).Ok? {
      NormalizeAllPermuted(a, b, v);
      var rs := NormalizeAll(a, v).value;
      RegionsKeepIds(a, v);
      RegionsAreOrdered(rank, a, rs);
      SortRegions(rank, rs);
      SortOfPermutation(Order(rank), rs, NormalizeAll(b, v).value);
    }
  }
}
