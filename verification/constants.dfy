/** The checklist every release follows. It is one immutable value, read by
    the store (to size a new checklist) and by the mapper (to name steps). */
module Constants {

  /** Step names, positionally aligned with a release's completion flags. */
  const DefaultSteps: seq<string> := [
    "All PRs merged",
    "CHANGELOG updated",
    "Tests passing",
    "Release created in GitHub",
    "Deployed to staging",
    "Tested in staging",
    "Deployed to production"
  ]

  /** Number of checklist steps. */
  const StepCount: nat := |DefaultSteps|

  /** `n` flags, none completed: `new Array(n).fill(false)`. */
  function Unchecked(n: nat): (r: seq<bool>)
    ensures |r| == n
    ensures forall i :: 0 <= i < n ==> !r[i]
  {
    seq(n, _ => false)
  }

  /** A checklist as `create` lays it down: one flag per step, none set. */
  predicate FreshChecklist(flags: seq<bool>)
  {
    |flags| == StepCount && forall i :: 0 <= i < |flags| ==> !flags[i]
  }

  lemma StepCountIsSeven()
    ensures StepCount == 7
    ensures FreshChecklist(Unchecked(StepCount))
  {
  }
}
