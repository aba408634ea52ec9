/** Names for the variables and secrets of a generated workflow. */
module Naming {
  import opened Decimal

  const MAX_LENGTH := 80

  // String.prototype.slice(0, end): a negative end counts from the end of the text.
  function Slice(s: string, end: int): string {
    if end >= |s| then s
    else if end >= 0 then s[..end]
    else if |s| + end >= 0 then s[..|s| + end]
    else ""
  }

  // The k-th name that is tried; the first one has no suffix.
  function Candidate(base: string, k: nat): string {
    if k < 2 then Slice(base, MAX_LENGTH) else Slice(base, MAX_LENGTH - |Text(k)|) + Text(k)
  }

  // Names whose suffixes have different lengths may coincide, because a longer suffix cuts
  // off more of the base; those whose suffixes have the same length do not.
  lemma {:induction false} DistinctCandidates(prefix: string, lo: nat, hi: nat, used: set<string>)
    requires lo <= hi && forall k: nat :: lo <= k < hi ==> prefix + Text(k) in used
    ensures |used| >= hi - lo
    decreases hi - lo
  {
    if lo < hi {
      var last := prefix + Text(hi - 1);
      forall k: nat | lo <= k < hi - 1 ensures prefix + Text(k) in used - {last} {
        SuffixesDiffer(prefix, k, hi - 1);
      }
      DistinctCandidates(prefix, lo, hi - 1, used - {last});
    }
  }

  lemma SuffixesDiffer(prefix: string, j: nat, k: nat)
    requires j != k
    ensures prefix + Text(j) != prefix + Text(k)
  {
    if prefix + Text(j) == prefix + Text(k) {
      assert (prefix + Text(j))[|prefix|..] == Text(j) && (prefix + Text(k))[|prefix|..] == Text(k);
      TextInjective(j, k);
    }
  }

  lemma CandidateOfWidth(base: string, k: nat, digits: nat)
    requires 1 <= digits && Pow10(digits) <= k < Pow10(digits + 1)
    ensures k >= 2 && Candidate(base, k) == Slice(base, MAX_LENGTH - (digits + 1)) + Text(k)
  {
    DigitCount(k, digits);
    DigitCount(k, digits + 1);
    assert Pow10(digits) == 10 * Pow10(digits - 1);
  }

  // Among the suffixes of one length there are more candidates than used names.
  lemma SomeCandidateIsFree(base: string, used: set<string>, digits: nat) returns (k: nat)
    requires 1 <= digits < MAX_LENGTH && |used| < 9 * Pow10(digits)
    ensures 1 <= k < Pow10(digits + 1) && Candidate(base, k) !in used
  {
    var prefix := Slice(base, MAX_LENGTH - (digits + 1));
    assert Pow10(digits + 1) == 10 * Pow10(digits);
    if forall j: nat :: Pow10(digits) <= j < Pow10(digits + 1) ==> prefix + Text(j) in used {
      DistinctCandidates(prefix, Pow10(digits), Pow10(digits + 1), used);
      assert false;
    }
    k :| Pow10(digits) <= k < Pow10(digits + 1) && prefix + Text(k) !in used;
    CandidateOfWidth(base, k, digits);
  }

  lemma CandidateIsShort(base: string, k: nat, digits: nat)
    requires 1 <= digits <= MAX_LENGTH && k < Pow10(digits)
    ensures |Candidate(base, k)| <= MAX_LENGTH
  {
    DigitCount(k, digits);
  }

  // The first name that is free: not used before, at most eighty characters long, and
  // reached after finitely many tries.
  method AllocateIdentifier(preferred: string, fallback: string, used: set<string>, ghost digits: nat)
    returns (name: string, nowUsed: set<string>)
    requires 1 <= digits < MAX_LENGTH && |used| < 9 * Pow10(digits)
    ensures name !in used && |name| <= MAX_LENGTH && nowUsed == used + {name}
    ensures var base := if preferred == "" then fallback else preferred;
            exists k: nat :: k >= 1 && name == Candidate(base, k) && forall j: nat :: 1 <= j < k ==> Candidate(base, j) in used
  {
    var base := if preferred == "" then fallback else preferred;
    ghost var free := SomeCandidateIsFree(base, used, digits);
    ghost var tried: nat := 1;
    name := Slice(base, MAX_LENGTH);
    var suffix := 2;
    while name in used
      invariant 1 <= tried <= free && suffix == tried + 1
      invariant name == Candidate(base, tried)
      invariant forall j: nat :: 1 <= j < tried ==> Candidate(base, j) in used
      decreases free - tried
    {
      var suffixText := Text(suffix);
      name := Slice(base, MAX_LENGTH - |suffixText|) + suffixText;
      tried := suffix;
      suffix := suffix + 1;
    }
    CandidateIsShort(base, tried, digits + 1);
    nowUsed := used + {name};
  }
}
