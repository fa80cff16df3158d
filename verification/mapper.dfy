/** `toReleaseResponse`: the boundary between a stored row and the API. */
module ReleaseMapper {
  import opened Records
  import opened Constants
  import opened Status

  /** One entry of the named-step breakdown. */
  datatype StepView = StepView(name: string, completed: bool)

  /** A release as the API returns it. The field names are the response's
      JSON keys, which is why they are snake case. */
  datatype ReleaseResponse = ReleaseResponse(
    id: Id,
    name: string,
    date: Instant,
    additional_info: Option<string>,
    steps_completed: seq<bool>,
    created_at: Instant,
    updated_at: Instant,
    status: ReleaseStatus,
    steps: seq<StepView>)

  /** `Array.isArray(v) ? v : []`. */
  function StoredFlags(v: StepsValue): seq<bool>
  {
    match v
    case Flags(s) => s
    case NotAnArray => []
  }

  /** The completion column of a step breakdown. */
  function CompletedColumn(steps: seq<StepView>): (r: seq<bool>)
    ensures |r| == |steps|
    ensures forall i :: 0 <= i < |steps| ==> r[i] == steps[i].completed
  {
    seq(|steps|, i requires 0 <= i < |steps| => steps[i].completed)
  }

  function ToReleaseResponse(release: Release): (r: ReleaseResponse)
    // scalar fields are carried over, the camel-case ones under their snake-case keys
    ensures r.id == release.id && r.name == release.name && r.date == release.date
    ensures r.additional_info == release.additionalInfo
    ensures r.created_at == release.createdAt && r.updated_at == release.updatedAt
    // the stored array is passed through; anything else becomes []
    ensures release.stepsCompleted.Flags? ==> r.steps_completed == release.stepsCompleted.flags
    ensures release.stepsCompleted.NotAnArray? ==> r.steps_completed == []
    // the status is that of the stored flags, not of the padded breakdown
    ensures r.status == ComputeStatus(Flags(r.steps_completed))
    ensures release.stepsCompleted.NotAnArray? ==> r.status == Planned
    // exactly one named entry per checklist step, whatever the stored length
    ensures |r.steps| == |DefaultSteps|
    ensures forall i :: 0 <= i < |r.steps| ==> r.steps[i].name == DefaultSteps[i]
    ensures forall i :: 0 <= i < |r.steps| ==>
              r.steps[i].completed == Completed(release.stepsCompleted, i)
  {
    var flags := StoredFlags(release.stepsCompleted);
    ReleaseResponse(
      id := release.id,
      name := release.name,
      date := release.date,
      additional_info := release.additionalInfo,
      steps_completed := flags,
      created_at := release.createdAt,
      updated_at := release.updatedAt,
      status := ComputeStatus(Flags(flags)),
      steps := seq(|DefaultSteps|, i requires 0 <= i < |DefaultSteps| =>
                     StepView(DefaultSteps[i], if i < |flags| then flags[i] else false)))
  }

  /** For a full-length checklist the breakdown carries exactly the stored
      flags, so the status could equally be read off the breakdown. */
  lemma FullChecklistViewAgrees(release: Release)
    requires release.stepsCompleted.Flags?
    requires |release.stepsCompleted.flags| == StepCount
    ensures CompletedColumn(ToReleaseResponse(release).steps) == release.stepsCompleted.flags
    ensures ToReleaseResponse(release).status
              == ComputeStatus(Flags(CompletedColumn(ToReleaseResponse(release).steps)))
  {
    var r := ToReleaseResponse(release);
    assert CompletedColumn(r.steps) == release.stepsCompleted.flags;
  }

  /** For a shorter stored array the two disagree: one completed flag out of
      one stored is `done`, while the breakdown shows one step of seven. */
  lemma ShortChecklistStatusIgnoresPadding(release: Release)
    requires release.stepsCompleted == Flags([true])
    ensures ToReleaseResponse(release).status == Done
    ensures ComputeStatus(Flags(CompletedColumn(ToReleaseResponse(release).steps))) == Ongoing
  {
    var r := ToReleaseResponse(release);
    assert CompletedColumn(r.steps)[0];
    assert !CompletedColumn(r.steps)[1];
  }

  /** Seven completed flags map to `done` with every step completed. */
  lemma AllCompletedMapsToDone(release: Release)
    requires release.stepsCompleted.Flags?
    requires |release.stepsCompleted.flags| == StepCount
    requires AllCompleted(release.stepsCompleted.flags)
    ensures ToReleaseResponse(release).status == Done
    ensures forall i :: 0 <= i < StepCount ==> ToReleaseResponse(release).steps[i].completed
  {
  }

  /** A non-array column maps to an empty flag list, `planned`, and seven
      incomplete steps. */
  lemma NonArrayMapsToPlanned(release: Release)
    requires release.stepsCompleted.NotAnArray?
    ensures ToReleaseResponse(release).steps_completed == []
    ensures ToReleaseResponse(release).status == Planned
    ensures |ToReleaseResponse(release).steps| == 7
    ensures forall i :: 0 <= i < 7 ==> !ToReleaseResponse(release).steps[i].completed
  {
  }
}
