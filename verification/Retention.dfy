/** Which installed releases of the runner are kept and which may be removed. What is in use,
    or may be in use again, always stays; beyond that the newest releases are kept, up to a
    limit, and nothing is removed that the limit leaves room for. */
module Retention {
  import opened Outcomes
  import Sorting

  type ReleaseId = string

  datatype Release = Release(id: ReleaseId, installedAt: string)

  datatype Phase = InFlight | ManualRecoveryRequired | Settled

  datatype Journal = Journal(phase: Phase, source: ReleaseId, target: ReleaseId)

  datatype Input = Input(installed: seq<Release>, current: ReleaseId, previous: Option<ReleaseId>, journal: Option<Journal>, limit: nat)

  datatype Decision = Decision(keep: seq<ReleaseId>, remove: seq<ReleaseId>)

  ghost predicate UniqueIds(installed: seq<Release>) {
    Sorting.KeysDiffer((r: Release) => r.id, installed)
  }

  function Ids(installed: seq<Release>): (r: seq<ReleaseId>)
    ensures |r| == |installed| && forall i :: 0 <= i < |r| ==> r[i] == installed[i].id
  {
    seq(|installed|, i requires 0 <= i < |installed| => installed[i].id)
  }

  function IdSet(installed: seq<Release>): set<ReleaseId> {
    set r | r in installed :: r.id
  }

  ghost predicate Consistent(q: Input) {
    && UniqueIds(q.installed) && q.current in IdSet(q.installed)
    && (q.previous.Some? ==> q.previous.value in IdSet(q.installed))
  }

  // The releases that are in use, or may be in use again. Those of an update in flight need
  // not be installed.
  function Mandatory(q: Input): set<ReleaseId> {
    {q.current} + (if q.previous.Some? then {q.previous.value} else {})
    + if q.journal.Some? && q.journal.value.phase.InFlight? then {q.journal.value.source, q.journal.value.target} else {}
  }

  // The newest releases join until the limit is reached.
  function Fill(newestFirst: seq<Release>, keep: set<ReleaseId>, limit: nat): set<ReleaseId> {
    if newestFirst == [] then keep
    else Fill(newestFirst[1..], if |keep| < limit then keep + {newestFirst[0].id} else keep, limit)
  }

  function Where(ids: seq<ReleaseId>, keep: set<ReleaseId>, kept: bool): seq<ReleaseId> {
    if ids == [] then []
    else (if (ids[0] in keep) == kept then [ids[0]] else []) + Where(ids[1..], keep, kept)
  }

  // ---------- What filling does ----------

  // Filling never goes beyond the limit, and only adds listed releases; it stops short of
  // the limit only when all are in.
  lemma {:induction false} FillGrows(list: seq<Release>, keep: set<ReleaseId>, limit: nat)
    ensures keep <= Fill(list, keep, limit)
    ensures |Fill(list, keep, limit)| <= limit || Fill(list, keep, limit) == keep
    decreases |list|
  {
    if list != [] {
      if |keep| < limit {
        Grown(keep, list[0].id);
        FillGrows(list[1..], keep + {list[0].id}, limit);
      } else {
        FillWhenFull(list, keep, limit);
      }
    }
  }

  lemma Grown(keep: set<ReleaseId>, id: ReleaseId)
    ensures |keep + {id}| <= |keep| + 1 && (keep < keep + {id} ==> |keep + {id}| == |keep| + 1)
  {
    if id in keep {
      assert keep + {id} == keep;
    }
  }

  lemma {:induction false} FillOnlyListed(list: seq<Release>, keep: set<ReleaseId>, limit: nat, id: ReleaseId)
    requires id in Fill(list, keep, limit)
    ensures id in keep || exists i :: 0 <= i < |list| && list[i].id == id
    decreases |list|
  {
    if list != [] && id !in keep {
      FillOnlyListed(list[1..], if |keep| < limit then keep + {list[0].id} else keep, limit, id);
    }
  }

  lemma {:induction false} FillTakesAll(list: seq<Release>, keep: set<ReleaseId>, limit: nat, i: nat)
    requires i < |list| && |Fill(list, keep, limit)| < limit
    ensures list[i].id in Fill(list, keep, limit)
    decreases |list|
  {
    FillGrows(list, keep, limit);
    if |keep| >= limit {
      FillWhenFull(list, keep, limit);
      assert false;
    }
    if i == 0 {
      FillGrows(list[1..], keep + {list[0].id}, limit);
    } else {
      FillTakesAll(list[1..], keep + {list[0].id}, limit, i - 1);
    }
  }

  // Whoever is passed over is older than all that were added.
  lemma {:induction false} FillTakesNewest(list: seq<Release>, keep: set<ReleaseId>, limit: nat, i: nat, j: nat)
    requires UniqueIds(list) && i < j < |list|
    requires list[i].id !in Fill(list, keep, limit) && list[j].id in Fill(list, keep, limit)
    ensures list[j].id in keep
    decreases |list|
  {
    if i == 0 {
      if |keep| < limit {
        FillGrows(list[1..], keep + {list[0].id}, limit);
        assert false;
      }
      FillWhenFull(list, keep, limit);
    } else {
      FillTakesNewest(list[1..], if |keep| < limit then keep + {list[0].id} else keep, limit, i - 1, j - 1);
    }
  }

  lemma {:induction false} FillWhenFull(list: seq<Release>, keep: set<ReleaseId>, limit: nat)
    requires |keep| >= limit
    ensures Fill(list, keep, limit) == keep
    decreases |list|
  {
    if list != [] {
      FillWhenFull(list[1..], keep, limit);
    }
  }

  // ---------- The decision ----------

  function Max(a: nat, b: nat): nat {
    if a >= b then a else b
  }

  // Kept and removed releases are all the installed ones, each once; nothing mandatory is
  // removed; no more is kept than the limit or the mandatory ones demand, and no less while
  // something is removed; and whatever is kept by choice is newer than all that is removed.
  ghost predicate Retains(q: Input, newer: (Release, Release) -> bool, d: Decision) {
    Partitions(q, d) && KeepsEnough(q, d) && KeepsNewest(q, newer, d)
  }

  ghost predicate Partitions(q: Input, d: Decision) {
    && multiset(d.keep) + multiset(d.remove) == multiset(Ids(q.installed))
    && forall id :: id in d.remove ==> id !in Mandatory(q) && id !in d.keep
  }

  ghost predicate KeepsEnough(q: Input, d: Decision) {
    && |d.keep| <= Max(q.limit, |Mandatory(q)|)
    && (d.remove != [] ==> |(set id | id in d.keep) + Mandatory(q)| >= q.limit)
  }

  ghost predicate KeepsNewest(q: Input, newer: (Release, Release) -> bool, d: Decision) {
    forall a, b :: a in q.installed && b in q.installed && a.id in d.keep && a.id !in Mandatory(q) && b.id in d.remove
      ==> newer(a, b)
  }

  // Filtering splits the identifiers in two.
  lemma {:induction false} WhereSplits(ids: seq<ReleaseId>, keep: set<ReleaseId>)
    ensures multiset(Where(ids, keep, true)) + multiset(Where(ids, keep, false)) == multiset(ids)
    ensures forall id :: id in Where(ids, keep, true) <==> id in ids && id in keep
    ensures forall id :: id in Where(ids, keep, false) <==> id in ids && id !in keep
  {
    if ids != [] {
      WhereSplits(ids[1..], keep);
      assert ids == [ids[0]] + ids[1..];
    }
  }

  lemma {:induction false} WhereIsSmall(ids: seq<ReleaseId>, keep: set<ReleaseId>)
    requires forall i, j :: 0 <= i < j < |ids| ==> ids[i] != ids[j]
    ensures |Where(ids, keep, true)| <= |keep|
    decreases |ids|
  {
    if ids != [] {
      if ids[0] in keep {
        WhereWithout(ids[1..], keep, ids[0]);
        WhereIsSmall(ids[1..], keep - {ids[0]});
      } else {
        WhereIsSmall(ids[1..], keep);
      }
    }
  }

  lemma {:induction false} WhereWithout(ids: seq<ReleaseId>, keep: set<ReleaseId>, id: ReleaseId)
    requires id !in ids
    ensures Where(ids, keep, true) == Where(ids, keep - {id}, true)
  {
    if ids != [] {
      WhereWithout(ids[1..], keep, id);
    }
  }

  function Split(q: Input, all: set<ReleaseId>): Decision {
    Decision(Where(Ids(q.installed), all, true), Where(Ids(q.installed), all, false))
  }

  lemma FilledRetains(q: Input, newer: (Release, Release) -> bool, list: seq<Release>)
    requires Consistent(q) && Sorting.Sorted(newer, list) && UniqueIds(list)
    requires forall r :: r in list <==> r in q.installed
    ensures Retains(q, newer, Split(q, Fill(list, Mandatory(q), q.limit)))
  {
    var all := Fill(list, Mandatory(q), q.limit);
    FillGrows(list, Mandatory(q), q.limit);
    WhereSplits(Ids(q.installed), all);
    WhereIsSmall(Ids(q.installed), all);
    if Split(q, all).remove != [] {
      assert Split(q, all).remove[0] in Split(q, all).remove;
      EnoughKept(q, list, all);
    }
    NewestKept(q, newer, list, all);
  }

  lemma NewestKept(q: Input, newer: (Release, Release) -> bool, list: seq<Release>, all: set<ReleaseId>)
    requires Sorting.Sorted(newer, list) && UniqueIds(list) && all == Fill(list, Mandatory(q), q.limit)
    requires forall r :: r in list <==> r in q.installed
    ensures KeepsNewest(q, newer, Split(q, all))
  {
    WhereSplits(Ids(q.installed), all);
    forall a, b | a in list && b in list && a.id in all && a.id !in Mandatory(q) && b.id !in all ensures newer(a, b) {
      ChosenIsNewer(newer, list, Mandatory(q), q.limit, a, b);
    }
  }

  lemma EnoughKept(q: Input, list: seq<Release>, all: set<ReleaseId>)
    requires all == Fill(list, Mandatory(q), q.limit) && forall r :: r in list <==> r in q.installed
    requires exists id :: id in Ids(q.installed) && id !in all
    ensures |(set id | id in Where(Ids(q.installed), all, true)) + Mandatory(q)| >= q.limit
  {
    var id :| id in Ids(q.installed) && id !in all;
    KeptAndMandatory(q, list, all);
    if |all| < q.limit {
      var k :| 0 <= k < |q.installed| && Ids(q.installed)[k] == id;
      assert q.installed[k] in list;
      var i :| 0 <= i < |list| && list[i] == q.installed[k];
      FillTakesAll(list, Mandatory(q), q.limit, i);
      assert false;
    }
  }

  lemma KeptAndMandatory(q: Input, list: seq<Release>, all: set<ReleaseId>)
    requires all == Fill(list, Mandatory(q), q.limit) && forall r :: r in list ==> r in q.installed
    ensures (set id | id in Where(Ids(q.installed), all, true)) + Mandatory(q) == all
  {
    var ids := Ids(q.installed);
    WhereSplits(ids, all);
    FillGrows(list, Mandatory(q), q.limit);
    forall x | x in all && x !in Mandatory(q) ensures x in Where(ids, all, true) {
      FillOnlyListed(list, Mandatory(q), q.limit, x);
      var i :| 0 <= i < |list| && list[i].id == x;
      ListedId(q.installed, list[i]);
    }
  }

  lemma ListedId(installed: seq<Release>, r: Release)
    requires r in installed
    ensures r.id in Ids(installed)
  {
    var m :| 0 <= m < |installed| && installed[m] == r;
    assert Ids(installed)[m] == r.id;
  }

  lemma ChosenIsNewer(
    newer: (Release, Release) -> bool, list: seq<Release>, mandatory: set<ReleaseId>, limit: nat, a: Release, b: Release)
    requires Sorting.Sorted(newer, list) && UniqueIds(list) && a in list && b in list
    requires a.id in Fill(list, mandatory, limit) && a.id !in mandatory && b.id !in Fill(list, mandatory, limit)
    ensures newer(a, b)
  {
    var i :| 0 <= i < |list| && list[i] == a;
    var j :| 0 <= j < |list| && list[j] == b;
    if j < i {
      FillTakesNewest(list, mandatory, limit, j, i);
    }
  }

  // Sorting the two lists changes nothing that matters.
  lemma SortedRetains(q: Input, newer: (Release, Release) -> bool, d: Decision, e: Decision)
    requires Retains(q, newer, d) && multiset(d.keep) == multiset(e.keep) && multiset(d.remove) == multiset(e.remove)
    ensures Retains(q, newer, e)
  {
    Sorting.SameMultisetSameSize(d.keep, e.keep);
    Sorting.SameMultisetSameSize(d.remove, e.remove);
    SameMembers(d.keep, e.keep);
    SameMembers(d.remove, e.remove);
    assert (set id | id in d.keep) == (set id | id in e.keep);
  }

  lemma SameMembers(a: seq<ReleaseId>, b: seq<ReleaseId>)
    requires multiset(a) == multiset(b)
    ensures forall x :: x in a <==> x in b
  {
    forall x ensures x in a <==> x in b {
      assert x in multiset(a) <==> x in multiset(b);
    }
  }

  // The identifiers are pairwise different exactly when the loop meets none twice.
  method CheckUnique(installed: seq<Release>) returns (byId: Option<map<ReleaseId, Release>>)
    ensures byId.None? <==> !UniqueIds(installed)
    ensures byId.Some? ==> byId.value.Keys == IdSet(installed)
  {
    var found: map<ReleaseId, Release> := map[];
    for i := 0 to |installed|
      invariant UniqueIds(installed[..i]) && found.Keys == IdSet(installed[..i])
    {
      assert installed[..i + 1] == installed[..i] + [installed[i]];
      if installed[i].id in found {
        return None;
      }
      found := found[installed[i].id := installed[i]];
    }
    assert installed[..|installed|] == installed;
    byId := Some(found);
  }

  method FillUp(newestFirst: seq<Release>, mandatory: set<ReleaseId>, limit: nat) returns (keep: set<ReleaseId>)
    ensures keep == Fill(newestFirst, mandatory, limit)
  {
    keep := mandatory;
    for i := 0 to |newestFirst|
      invariant Fill(newestFirst[i..], keep, limit) == Fill(newestFirst, mandatory, limit)
    {
      if |keep| < limit {
        keep := keep + {newestFirst[i].id};
      }
    }
  }

  // While an update awaits manual recovery nothing is removed. Otherwise the decision is what
  // retention promises, whatever the limit and the state of the journal.
  method DecideReleaseRetention(q: Input, newer: (Release, Release) -> bool, before: (ReleaseId, ReleaseId) -> bool)
    returns (r: Option<Decision>)
    requires Sorting.TotalPreorder(newer)
    ensures r.Some? <==> Consistent(q)
    ensures r.Some? ==> if q.journal.Some? && q.journal.value.phase.ManualRecoveryRequired?
                        then multiset(r.value.keep) == multiset(Ids(q.installed)) && r.value.remove == []
                        else Retains(q, newer, r.value)
  {
    var byId := CheckUnique(q.installed);
    if byId.None? || q.current !in byId.value || (q.previous.Some? && q.previous.value !in byId.value) {
      return None;
    }
    if q.journal.Some? && q.journal.value.phase.ManualRecoveryRequired? {
      Sorting.SortPermutes(before, Ids(q.installed));
      return Some(Decision(Sorting.Sort(before, Ids(q.installed)), []));
    }
    var newestFirst := Sorting.Sort(newer, q.installed);
    Sorting.SortMembers(newer, q.installed);
    Sorting.SortSorts(newer, q.installed);
    Sorting.SortKeepsKeysDifferent(newer, (r: Release) => r.id, q.installed);
    var keep := FillUp(newestFirst, Mandatory(q), q.limit);
    FilledRetains(q, newer, newestFirst);
    var d := Split(q, keep);
    Sorting.SortPermutes(before, d.keep);
    Sorting.SortPermutes(before, d.remove);
    r := Some(Decision(Sorting.Sort(before, d.keep), Sorting.Sort(before, d.remove)));
    SortedRetains(q, newer, d, r.value);
  }
}
