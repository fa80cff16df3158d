/** The request handlers: input validation, the store call, and the mapping
    of outcomes to HTTP status codes. */
module ReleaseController {
  import opened Records
  import opened Constants
  import opened Status
  import opened ReleaseMapper
  import opened ReleaseRepository

  /** The JSON body of a successful reply. */
  datatype Payload =
    | Single(release: ReleaseResponse)
    | Listing(releases: seq<ReleaseResponse>)
    | Deleted(message: string, id: Id)

  /** A reply, tagged by its HTTP status. */
  datatype Reply =
    | Success(payload: Payload)       // 200
    | Created(release: ReleaseResponse)  // 201
    | BadRequest(error: string)       // 400
    | NotFound(error: string)         // 404
    | ServerError(error: string)      // 500
  {
    function Code(): nat
    {
      match this
      case Success(_) => 200
      case Created(_) => 201
      case BadRequest(_) => 400
      case NotFound(_) => 404
      case ServerError(_) => 500
    }
  }

  /** A reply, and the store after the request. */
  datatype Handled = Handled(reply: Reply, db: Db)

  const ReleaseNotFound := "Release not found"

  /** A request body for `create` or `update`: the three keys the handlers
      read, and the names of any other keys, which they ignore. */
  datatype Body = Body(
    name: Field<string>,
    date: Field<string>,
    additional_info: Field<string>,
    otherKeys: set<string>)

  // ------------------------------------------------------------------ list

  method List(db: Db) returns (h: Handled)
    ensures h.db == db
    ensures !db.online <==> h.reply == ServerError("Failed to fetch releases")
    ensures db.online ==> h.reply.Success? && h.reply.payload.Listing?
    ensures h.reply.Success? ==>
              var listing := h.reply.payload.releases;
              && |listing| == |db.rows|
              && (forall i, j :: 0 <= i < j < |listing| ==> listing[i].date >= listing[j].date)
              && (forall id :: id in db.rows ==> ToReleaseResponse(db.rows[id]) in listing)
  {
    var found := FindAll(db);
    match found
    case Err(_) =>
      h := Handled(ServerError("Failed to fetch releases"), db);
    case Ok(rows) =>
      var listing := seq(|rows|, i requires 0 <= i < |rows| => ToReleaseResponse(rows[i]));
      forall id | id in db.rows
        ensures ToReleaseResponse(db.rows[id]) in listing
      {
        var i :| 0 <= i < |rows| && rows[i] == db.rows[id];
        assert listing[i] == ToReleaseResponse(db.rows[id]);
      }
      h := Handled(Success(Listing(listing)), db);
  }

  // --------------------------------------------------------------- getById

  function GetById(db: Db, id: Id): (h: Handled)
    ensures h.db == db
    ensures h.reply == ServerError("Failed to fetch release") <==> !db.online
    ensures h.reply == NotFound(ReleaseNotFound) <==> db.online && id !in db.rows
    ensures h.reply.Success? <==> db.online && id in db.rows
    ensures h.reply.Success? ==> h.reply.payload == Single(ToReleaseResponse(db.rows[id]))
  {
    match FindById(db, id)
    case Err(_) => Handled(ServerError("Failed to fetch release"), db)
    case Ok(None) => Handled(NotFound(ReleaseNotFound), db)
    case Ok(Some(release)) => Handled(Success(Single(ToReleaseResponse(release))), db)
  }

  // ---------------------------------------------------------------- create

  /** Both required keys are present and non-empty. */
  predicate ValidCreate(body: Body)
  {
    Truthy(body.name) && Truthy(body.date)
  }

  function Create(env: Env, db: Db, body: Body): (h: Handled)
    // validation comes first: a bad body is refused whatever the store's state
    ensures !ValidCreate(body) ==> h == Handled(BadRequest("Name and date are required"), db)
    ensures !h.reply.Created? ==> h.db == db
    ensures h.reply.Created? <==>
              ValidCreate(body) && db.online && env.parseDate(body.date.value).Some?
              && env.nextId !in db.rows
    ensures h.reply.ServerError? <==> ValidCreate(body) && !h.reply.Created?
    ensures h.reply.ServerError? ==> h.reply.error == "Failed to create release"
    ensures h.reply.Created? ==>
              var r := h.reply.release;
              && r.id == env.nextId
              && r.name == body.name.value
              && Some(r.date) == env.parseDate(body.date.value)
              && (body.additional_info.Given? ==> r.additional_info == Some(body.additional_info.value))
              && (!body.additional_info.Given? ==> r.additional_info == None)
              && r.status == Planned
              && r.steps_completed == Unchecked(7)
              && |r.steps| == 7
              && (forall i :: 0 <= i < 7 ==> !r.steps[i].completed)
              && env.nextId in h.db.rows
              && ToReleaseResponse(h.db.rows[env.nextId]) == r
              && h.db.online
              && h.db.rows.Keys == db.rows.Keys + {env.nextId}
              && (forall id :: id in db.rows ==> h.db.rows[id] == db.rows[id])
              && h.db == ReleaseRepository.Create(env, db,
                           CreateData(body.name.value, body.date.value, body.additional_info)).db
  {
    if !ValidCreate(body) then
      Handled(BadRequest("Name and date are required"), db)
    else
      var out := ReleaseRepository.Create(env, db,
                   CreateData(body.name.value, body.date.value, body.additional_info));
      match out.result
      case Err(_) => Handled(ServerError("Failed to create release"), db)
      case Ok(release) => Handled(Created(ToReleaseResponse(release)), out.db)
  }

  // ---------------------------------------------------------------- update

  /** The update data handed to the store: each of the three keys when it is
      defined, nothing else. */
  function Forwarded(body: Body): (data: UpdateData)
    ensures NoFields(data) <==>
              body.name.Undefined? && body.date.Undefined? && body.additional_info.Undefined?
  {
    UpdateData(
      if body.name.Undefined? then Undefined else body.name,
      if body.date.Undefined? then Undefined else body.date,
      if body.additional_info.Undefined? then Undefined else body.additional_info)
  }

  function Update(env: Env, db: Db, id: Id, body: Body): (h: Handled)
    ensures NoFields(Forwarded(body)) ==> h == Handled(BadRequest("No fields to update"), db)
    ensures !h.reply.Success? ==> h.db == db
    ensures h.reply.NotFound? <==>
              !NoFields(Forwarded(body)) && Acceptable(env, Forwarded(body))
              && db.online && id !in db.rows
    ensures h.reply.Success? <==>
              !NoFields(Forwarded(body)) && Acceptable(env, Forwarded(body))
              && db.online && id in db.rows
    ensures h.reply.BadRequest? <==> NoFields(Forwarded(body))
    ensures h.reply.ServerError? <==>
              !NoFields(Forwarded(body)) && (!Acceptable(env, Forwarded(body)) || !db.online)
    ensures h.reply.ServerError? ==> h.reply.error == "Failed to update release"
    ensures h.reply.Success? ==> h.reply.payload.Single?
    ensures h.reply.Success? ==>
              var before := db.rows[id];
              var r := h.reply.payload.release;
              && r.name == (if body.name.Given? then body.name.value else before.name)
              && (body.date.Undefined? ==> r.date == before.date)
              && (body.date.Given? ==> Some(r.date) == env.parseDate(body.date.value))
              && (body.date.Null? ==> r.date == 0)
              && (body.additional_info.Undefined? ==> r.additional_info == before.additionalInfo)
              && (body.additional_info.Null? ==> r.additional_info == None)
              && (body.additional_info.Given? ==> r.additional_info == Some(body.additional_info.value))
              && r.steps_completed == ToReleaseResponse(before).steps_completed
              && r.status == ToReleaseResponse(before).status
              && r.created_at == before.createdAt
              && h.db.online
              && h.db.rows.Keys == db.rows.Keys
              && ToReleaseResponse(h.db.rows[id]) == r
              && (forall other :: other in db.rows && other != id ==> h.db.rows[other] == db.rows[other])
              && h.db == ReleaseRepository.Update(env, db, id, Forwarded(body)).db
  {
    var data := Forwarded(body);
    if NoFields(data) then
      Handled(BadRequest("No fields to update"), db)
    else
      var out := ReleaseRepository.Update(env, db, id, data);
      match out.result
      case Ok(None) => Handled(NotFound(ReleaseNotFound), db)
      case Ok(Some(release)) => Handled(Success(Single(ToReleaseResponse(release))), out.db)
      case Err(RecordNotFound) => Handled(NotFound(ReleaseNotFound), db)
      case Err(_) => Handled(ServerError("Failed to update release"), db)
  }

  /** Keys other than the three recognised ones change nothing. */
  lemma UpdateIgnoresOtherKeys(env: Env, db: Db, id: Id, body: Body, keys: set<string>)
    ensures Update(env, db, id, body) == Update(env, db, id, body.(otherKeys := keys))
  {
  }

  // ------------------------------------------------------------ toggleStep

  /** The index check as the handler writes it: `stepIndex === undefined ||
      stepIndex < 0 || stepIndex >= DEFAULT_STEPS.length`. The relational
      operators coerce JSON `null` to 0, so `null` passes. */
  predicate PassesIndexCheckAsWritten(stepIndex: Field<int>)
  {
    var n := if stepIndex.Given? then stepIndex.value else 0;
    !(stepIndex.Undefined? || n < 0 || n >= |DefaultSteps|)
  }

  /** The index check as intended: `stepIndex` is present, is a number, and
      names a checklist step. */
  predicate ValidStepIndex(stepIndex: Field<int>)
  {
    stepIndex.Given? && 0 <= stepIndex.value < |DefaultSteps|
  }

  /** The two checks differ on exactly one input, JSON `null`. */
  lemma IndexChecksDifferOnlyOnNull(stepIndex: Field<int>)
    ensures PassesIndexCheckAsWritten(stepIndex) <==> ValidStepIndex(stepIndex) || stepIndex.Null?
  {
  }

  function ToggleStep(env: Env, db: Db, id: Id, stepIndex: Field<int>): (h: Handled)
    // an absent or out-of-range index is refused whatever the store's state
    ensures !ValidStepIndex(stepIndex) ==> h == Handled(BadRequest("Invalid step index"), db)
    ensures !h.reply.Success? ==> h.db == db
    ensures h.reply == NotFound(ReleaseNotFound) <==>
              ValidStepIndex(stepIndex) && db.online && id !in db.rows
    ensures h.reply == ServerError("Failed to toggle step") <==>
              ValidStepIndex(stepIndex) && !db.online
    ensures h.reply.Success? <==> ValidStepIndex(stepIndex) && db.online && id in db.rows
    ensures h.reply.Success? ==> h.reply.payload.Single? && |h.reply.payload.release.steps| == StepCount
    ensures h.reply.Success? ==>
              var k := stepIndex.value;
              var before := db.rows[id];
              var r := h.reply.payload.release;
              && r.steps[k].completed == !Completed(before.stepsCompleted, k)
              && (forall i :: 0 <= i < |r.steps| && i != k ==>
                    r.steps[i].completed == Completed(before.stepsCompleted, i))
              && r.name == before.name && r.date == before.date
              && r.additional_info == before.additionalInfo
              && h.db.online
              && h.db.rows.Keys == db.rows.Keys
              && ToReleaseResponse(h.db.rows[id]) == r
              && (forall other :: other in db.rows && other != id ==> h.db.rows[other] == db.rows[other])
              && h.db == ReleaseRepository.ToggleStep(env, db, id, k).db
  {
    if !ValidStepIndex(stepIndex) then
      Handled(BadRequest("Invalid step index"), db)
    else
      var out := ReleaseRepository.ToggleStep(env, db, id, stepIndex.value);
      match out.result
      case Ok(None) => Handled(NotFound(ReleaseNotFound), db)
      case Ok(Some(release)) => Handled(Success(Single(ToReleaseResponse(release))), out.db)
      case Err(RecordNotFound) => Handled(NotFound(ReleaseNotFound), db)
      case Err(_) => Handled(ServerError("Failed to toggle step"), db)
  }

  /** `toggleStep` as written. A `null` index passes the check; the store
      then assigns a property named "null" on the flag array, which is not an
      element, and writes the normalised flags back: no step is flipped. */
  function ToggleStepAsWritten(env: Env, db: Db, id: Id, stepIndex: Field<int>): (h: Handled)
    ensures !PassesIndexCheckAsWritten(stepIndex) ==> h == Handled(BadRequest("Invalid step index"), db)
    ensures stepIndex.Given? ==> h == ToggleStep(env, db, id, stepIndex)
    ensures stepIndex.Null? && db.online && id in db.rows ==>
              && h.reply.Success? && h.reply.payload.Single?
              && h.reply.payload.release.steps == ToReleaseResponse(db.rows[id]).steps
              && h.db.online
              && h.db.rows.Keys == db.rows.Keys
              && ToReleaseResponse(h.db.rows[id]) == h.reply.payload.release
              && h.db == ReleaseRepository.RewriteSteps(env, db, id).db
              && (forall i: nat :: Completed(h.db.rows[id].stepsCompleted, i)
                                   == Completed(db.rows[id].stepsCompleted, i))
              && (forall other :: other in db.rows && other != id ==> h.db.rows[other] == db.rows[other])
    ensures stepIndex.Null? && db.online && id !in db.rows ==> h == Handled(NotFound(ReleaseNotFound), db)
    ensures stepIndex.Null? && !db.online ==> h == Handled(ServerError("Failed to toggle step"), db)
  {
    if !PassesIndexCheckAsWritten(stepIndex) then
      Handled(BadRequest("Invalid step index"), db)
    else if stepIndex.Given? then
      ToggleStep(env, db, id, stepIndex)
    else
      var out := ReleaseRepository.RewriteSteps(env, db, id);
      match out.result
      case Ok(None) => Handled(NotFound(ReleaseNotFound), db)
      case Ok(Some(release)) => Handled(Success(Single(ToReleaseResponse(release))), out.db)
      case Err(RecordNotFound) => Handled(NotFound(ReleaseNotFound), db)
      case Err(_) => Handled(ServerError("Failed to toggle step"), db)
  }

  /** The discrepancy: with a `null` index the handler as written answers 200
      and flips nothing, where the corrected handler answers 400. */
  lemma NullStepIndexFlipsNothing(env: Env, db: Db, id: Id)
    requires db.online && id in db.rows
    ensures PassesIndexCheckAsWritten(Null)
    ensures ToggleStepAsWritten(env, db, id, Null).reply.Code() == 200
    ensures ToggleStepAsWritten(env, db, id, Null).reply.payload.release.steps
              == ToReleaseResponse(db.rows[id]).steps
    ensures forall i: nat ::
              Completed(ToggleStepAsWritten(env, db, id, Null).db.rows[id].stepsCompleted, i)
              == Completed(db.rows[id].stepsCompleted, i)
    ensures ToggleStep(env, db, id, Null).reply.Code() == 400
  {
  }

  // ---------------------------------------------------------------- remove

  function Remove(db: Db, id: Id): (h: Handled)
    ensures h.reply == ServerError("Failed to delete release") <==> !db.online
    ensures h.reply == NotFound(ReleaseNotFound) <==> db.online && id !in db.rows
    ensures h.reply.Success? <==> db.online && id in db.rows
    ensures h.reply.Success? ==>
              && h.reply.payload == Deleted("Release deleted successfully", db.rows[id].id)
              && h.db.online
              && h.db.rows.Keys == db.rows.Keys - {id}
              && (forall other :: other in h.db.rows ==> h.db.rows[other] == db.rows[other])
              && h.db == ReleaseRepository.Remove(db, id).db
    ensures !h.reply.Success? ==> h.db == db
  {
    var out := ReleaseRepository.Remove(db, id);
    match out.result
    case Ok(release) => Handled(Success(Deleted("Release deleted successfully", release.id)), out.db)
    case Err(RecordNotFound) => Handled(NotFound(ReleaseNotFound), db)
    case Err(_) => Handled(ServerError("Failed to delete release"), db)
  }

  // ------------------------------------------------------------ properties

  /** In a well-formed store the deleted id echoed back is the one asked for. */
  lemma RemoveEchoesId(db: Db, id: Id)
    requires WellFormed(db) && db.online && id in db.rows
    ensures Remove(db, id).reply == Success(Deleted("Release deleted successfully", id))
  {
  }

  /** A request naming an id the store does not hold is answered 404, not
      500, by every handler that takes an id, once its input is valid. */
  lemma GetByIdMissingIsNotFound(db: Db, id: Id)
    requires db.online && id !in db.rows
    ensures GetById(db, id).reply.Code() == 404
  {
  }

  lemma UpdateMissingIsNotFound(env: Env, db: Db, id: Id, body: Body)
    requires db.online && id !in db.rows
    requires !NoFields(Forwarded(body)) && Acceptable(env, Forwarded(body))
    ensures Update(env, db, id, body).reply.Code() == 404
  {
  }

  lemma ToggleStepMissingIsNotFound(env: Env, db: Db, id: Id, stepIndex: Field<int>)
    requires db.online && id !in db.rows
    requires ValidStepIndex(stepIndex)
    ensures ToggleStep(env, db, id, stepIndex).reply.Code() == 404
  {
  }

  lemma RemoveMissingIsNotFound(db: Db, id: Id)
    requires db.online && id !in db.rows
    ensures Remove(db, id).reply.Code() == 404
  {
  }

  /** Every handler keeps the store well formed. */
  lemma HandlersPreserveWellFormed(env: Env, db: Db, id: Id, body: Body, stepIndex: Field<int>)
    requires WellFormed(db)
    ensures WellFormed(Create(env, db, body).db)
    ensures WellFormed(Update(env, db, id, body).db)
    ensures WellFormed(ToggleStep(env, db, id, stepIndex).db)
    ensures WellFormed(Remove(db, id).db)
  {
    if ValidCreate(body) {
      CreatePreservesWellFormed(env, db, CreateData(body.name.value, body.date.value, body.additional_info));
    }
    UpdatePreservesWellFormed(env, db, id, Forwarded(body));
    if ValidStepIndex(stepIndex) {
      TogglePreservesWellFormed(env, db, id, stepIndex.value);
    }
    RemovePreservesWellFormed(db, id);
  }

  /** The lifecycle of one release: created planned, ongoing after its
      first step is ticked, and back to the created state, apart from the
      modification time, after the same step is ticked again. */
  lemma CreateToggleScenario(env: Env, db: Db, body: Body, env2: Env, env3: Env)
    requires db.online && env.nextId !in db.rows
    requires ValidCreate(body) && env.parseDate(body.date.value).Some?
    ensures var created := Create(env, db, body);
            var id := env.nextId;
            var ticked := ToggleStep(env2, created.db, id, Given(0));
            var unticked := ToggleStep(env3, ticked.db, id, Given(0));
            && created.reply.Code() == 201
            && created.reply.release.status == Planned
            && ticked.reply.Code() == 200
            && ticked.reply.payload.release.status == Ongoing
            && ticked.reply.payload.release.steps_completed[0]
            && unticked.reply.payload.release.status == Planned
            && unticked.db.rows == created.db.rows[id := created.db.rows[id].(updatedAt := env3.now)]
  {
    var created := Create(env, db, body);
    var id := env.nextId;
    var ticked := ToggleStep(env2, created.db, id, Given(0));
    var flags := ticked.db.rows[id].stepsCompleted.flags;
    assert flags[0] && !flags[1];
    ReleaseRepository.ToggleTwiceRestores(env2, env3, created.db, id, 0);
  }
}
