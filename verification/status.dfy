/** Derivation of a release's aggregate status from its completion flags. */
module Status {
  import opened Records

  datatype ReleaseStatus = Planned | Ongoing | Done

  predicate NoneCompleted(s: seq<bool>)
  {
    forall i :: 0 <= i < |s| ==> !s[i]
  }

  predicate AllCompleted(s: seq<bool>)
  {
    forall i :: 0 <= i < |s| ==> s[i]
  }

  /** Number of completed steps, `filter(Boolean).length`. */
  function CountCompleted(s: seq<bool>): (n: nat)
    ensures n <= |s|
  {
    if |s| == 0 then 0 else (if s[0] then 1 else 0) + CountCompleted(s[1..])
  }

  lemma {:induction false} CountZeroIffNoneCompleted(s: seq<bool>)
    ensures CountCompleted(s) == 0 <==> NoneCompleted(s)
  {
    if |s| > 0 {
      CountZeroIffNoneCompleted(s[1..]);
      assert forall i :: 0 < i < |s| ==> s[i] == s[1..][i - 1];
    }
  }

  lemma {:induction false} CountFullIffAllCompleted(s: seq<bool>)
    ensures CountCompleted(s) == |s| <==> AllCompleted(s)
  {
    if |s| > 0 {
      CountFullIffAllCompleted(s[1..]);
      assert forall i :: 0 < i < |s| ==> s[i] == s[1..][i - 1];
    }
  }

  /** The count agrees with an independent definition: the multiplicity of
      `true` in the multiset of flags. */
  lemma {:induction false} CountIsMultiplicityOfTrue(s: seq<bool>)
    ensures CountCompleted(s) == multiset(s)[true]
  {
    if |s| > 0 {
      CountIsMultiplicityOfTrue(s[1..]);
      assert s == [s[0]] + s[1..];
      assert multiset(s) == multiset{s[0]} + multiset(s[1..]);
    }
  }

  /** `computeStatus`: total on any stored value. A non-array, an empty
      array and an array with no flag set are planned; a non-empty array
      with every flag set is done; anything else is ongoing. */
  function ComputeStatus(v: StepsValue): (r: ReleaseStatus)
    ensures r == Planned <==> (v.NotAnArray? || NoneCompleted(v.flags))
    ensures r == Done <==> (v.Flags? && |v.flags| > 0 && AllCompleted(v.flags))
    ensures r == Ongoing <==>
              (v.Flags? && (exists i :: 0 <= i < |v.flags| && v.flags[i])
                        && (exists j :: 0 <= j < |v.flags| && !v.flags[j]))
  {
    match v
    case NotAnArray => Planned
    case Flags(s) =>
      var completed := CountCompleted(s);
      var total := |s|;
      CountZeroIffNoneCompleted(s);
      CountFullIffAllCompleted(s);
      if completed == 0 then Planned
      else if completed == total && total > 0 then Done
      else Ongoing
  }
}
