/** Flattening lists of groups, and joining two groups without losing a member. A partition
    of a list is held as a list of groups whose concatenation has the same multiset; joining
    the groups at two places, as a merge of two list elements does, keeps that multiset
    whatever the order of the groups. */
module Groups {

  ghost function Flatten<T>(groups: seq<seq<T>>): seq<T> {
    if groups == [] then [] else groups[0] + Flatten(groups[1..])
  }

  lemma {:induction false} FlattenConcat<T>(a: seq<seq<T>>, b: seq<seq<T>>)
    ensures Flatten(a + b) == Flatten(a) + Flatten(b)
  {
    if a == [] {
      assert a + b == b;
    } else {
      assert (a + b)[1..] == a[1..] + b;
      FlattenConcat(a[1..], b);
    }
  }

  ghost function JoinPair<T>(gs: seq<seq<T>>, i: nat, j: nat): seq<seq<T>>
    requires i < j < |gs|
  {
    gs[..i] + [gs[i] + gs[j]] + gs[i + 1..j] + gs[j + 1..]
  }

  lemma FlattenParts<T>(p: seq<seq<T>>, g: seq<T>, q: seq<seq<T>>, r: seq<seq<T>>)
    ensures Flatten(p + [g] + q + r) == Flatten(p) + g + Flatten(q) + Flatten(r)
  {
    FlattenConcat(p + [g] + q, r);
    FlattenConcat(p + [g], q);
    FlattenConcat(p, [g]);
    assert Flatten([g]) == g;
  }

  lemma JoinKeepsMembers<T>(p: seq<seq<T>>, a: seq<T>, q: seq<seq<T>>, b: seq<T>, r: seq<seq<T>>)
    ensures multiset(Flatten(p + [a + b] + q + r)) == multiset(Flatten(p + [a] + q + ([b] + r)))
  {
    FlattenParts(p, a + b, q, r);
    FlattenParts(p, a, q, [b] + r);
    FlattenConcat([b], r);
    assert Flatten([b]) == b;
  }

  lemma JoinPairKeepsMembers<T>(gs: seq<seq<T>>, i: nat, j: nat)
    requires i < j < |gs|
    ensures multiset(Flatten(JoinPair(gs, i, j))) == multiset(Flatten(gs))
  {
    JoinKeepsMembers(gs[..i], gs[i], gs[i + 1..j], gs[j], gs[j + 1..]);
    SplitAtPair(gs, i, j);
  }

  lemma SplitAtPair<T>(s: seq<T>, i: nat, j: nat)
    requires i < j < |s|
    ensures s == s[..i] + [s[i]] + s[i + 1..j] + ([s[j]] + s[j + 1..])
  {
    assert s[..i] + [s[i]] == s[..i + 1];
    assert s[..i + 1] + s[i + 1..j] == s[..j];
    assert [s[j]] + s[j + 1..] == s[j..];
  }
}
