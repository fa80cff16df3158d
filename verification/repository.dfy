/** The release store: every database access for releases, over a map from
    id to row instead of a database client. */
module ReleaseRepository {
  import opened Records
  import opened Constants

  /** Failures the database reports. */
  datatype DbError =
    | RecordNotFound  // the row an update or delete targets does not exist
    | Unavailable     // the database cannot be reached
    | Rejected        // the write breaks the schema: a null name, an invalid date
    | DuplicateId     // the generated primary key is already taken

  datatype Result<+T> = Ok(value: T) | Err(error: DbError)

  /** The table of releases, and whether the database can be reached. */
  datatype Db = Db(rows: map<Id, Release>, online: bool)

  /** What the environment supplies: the clock, the next generated id, and
      date parsing (`new Date(text)`, `None` for an invalid date). */
  datatype Env = Env(now: Instant, nextId: Id, parseDate: string -> Option<Instant>)

  /** The result of one store operation and the store after it. */
  datatype Outcome<+T> = Outcome(result: Result<T>, db: Db)

  /** Every row is stored under its own id and carries one flag per step. */
  predicate WellFormed(db: Db)
  {
    forall id :: id in db.rows ==>
      && db.rows[id].id == id
      && db.rows[id].stepsCompleted.Flags?
      && |db.rows[id].stepsCompleted.flags| == StepCount
  }

  // ---------------------------------------------------------------- reads

  function FindById(db: Db, id: Id): (out: Result<Option<Release>>)
    ensures !db.online <==> out == Err(Unavailable)
    ensures db.online && id in db.rows ==> out == Ok(Some(db.rows[id]))
    ensures db.online && id !in db.rows ==> out == Ok(None)
  {
    if !db.online then Err(Unavailable)
    else if id in db.rows then Ok(Some(db.rows[id]))
    else Ok(None)
  }

  /** Newest-first order on the `date` field. */
  predicate NewestFirst(rs: seq<Release>)
  {
    forall i, j :: 0 <= i < j < |rs| ==> rs[i].date >= rs[j].date
  }

  /** Places `x` after every row dated at or after it. */
  function InsertNewestFirst(rs: seq<Release>, x: Release): (r: seq<Release>)
    requires NewestFirst(rs)
    ensures NewestFirst(r)
    ensures |r| == |rs| + 1
    ensures r[0] == x || (|rs| > 0 && r[0] == rs[0])
  {
    if |rs| == 0 then [x]
    else if rs[0].date >= x.date then
      var tail := InsertNewestFirst(rs[1..], x);
      assert tail[0].date <= rs[0].date;
      var r := [rs[0]] + tail;
      assert forall j :: 0 < j < |r| ==> r[j] == tail[j - 1];
      r
    else
      [x] + rs
  }

  /** Insertion adds `x` and loses nothing. */
  lemma {:induction false} InsertIsPermutation(rs: seq<Release>, x: Release)
    requires NewestFirst(rs)
    ensures multiset(InsertNewestFirst(rs, x)) == multiset(rs) + multiset{x}
  {
    if |rs| > 0 && rs[0].date >= x.date {
      InsertIsPermutation(rs[1..], x);
      assert rs == [rs[0]] + rs[1..];
    }
  }

  /** The rows after an insertion are those before it, and `x`. */
  lemma InsertMembers(rs: seq<Release>, x: Release)
    requires NewestFirst(rs)
    ensures forall y :: y in InsertNewestFirst(rs, x) <==> y in rs || y == x
  {
  }

  /** `findAll`: every row, ordered by date, newest first. */
  method FindAll(db: Db) returns (out: Result<seq<Release>>)
    ensures !db.online <==> out == Err(Unavailable)
    ensures db.online <==> out.Ok?
    ensures out.Ok? ==> NewestFirst(out.value)
    ensures out.Ok? ==> |out.value| == |db.rows|
    ensures out.Ok? ==> forall id :: id in db.rows ==> db.rows[id] in out.value
    ensures out.Ok? ==> forall i :: 0 <= i < |out.value| ==> out.value[i] in db.rows.Values
  {
    if !db.online {
      return Err(Unavailable);
    }
    var pending := db.rows.Keys;
    ghost var listed: set<Id> := {};
    var rs: seq<Release> := [];
    while pending != {}
      invariant pending + listed == db.rows.Keys
      invariant pending !! listed
      invariant |rs| == |listed|
      invariant NewestFirst(rs)
      invariant forall id :: id in listed ==> db.rows[id] in rs
      invariant forall y :: y in rs ==> y in db.rows.Values
      decreases pending
    {
      var id :| id in pending;
      var row := db.rows[id];
      var before := rs;
      rs := InsertNewestFirst(rs, row);
      InsertMembers(before, row);
      pending := pending - {id};
      listed := listed + {id};
    }
    assert listed == db.rows.Keys;
    return Ok(rs);
  }

  // ---------------------------------------------------------------- writes

  /** The fields `create` reads from its argument. */
  datatype CreateData = CreateData(name: string, date: string, additionalInfo: Field<string>)

  /** `data.additional_info ?? null`. */
  function InfoOrNull(f: Field<string>): Option<string>
  {
    if f.Given? then Some(f.value) else None
  }

  /** `create`: a new row with a fresh checklist, whatever else the caller
      sent. */
  function Create(env: Env, db: Db, data: CreateData): (out: Outcome<Release>)
    ensures out.result.Err? ==> out.db == db
    ensures !db.online ==> out.result == Err(Unavailable)
    ensures out.result.Ok? <==>
              db.online && env.parseDate(data.date).Some? && env.nextId !in db.rows
    ensures out.result.Ok? ==>
              var r := out.result.value;
              && r.id == env.nextId
              && r.name == data.name
              && Some(r.date) == env.parseDate(data.date)
              && (data.additionalInfo.Given? ==> r.additionalInfo == Some(data.additionalInfo.value))
              && (!data.additionalInfo.Given? ==> r.additionalInfo == None)
              && r.stepsCompleted.Flags? && FreshChecklist(r.stepsCompleted.flags)
              && r.createdAt == env.now && r.updatedAt == env.now
              && out.db == Db(db.rows[r.id := r], true)
  {
    var stepsCompleted := Unchecked(|DefaultSteps|);
    if !db.online then Outcome(Err(Unavailable), db)
    else match env.parseDate(data.date)
      case None => Outcome(Err(Rejected), db)
      case Some(date) =>
        if env.nextId in db.rows then Outcome(Err(DuplicateId), db)
        else
          var row := Release(env.nextId, data.name, date, InfoOrNull(data.additionalInfo),
                             Flags(stepsCompleted), env.now, env.now);
          Outcome(Ok(row), Db(db.rows[row.id := row], true))
  }

  /** The fields `update` reads; `Undefined` means the key is absent. */
  datatype UpdateData = UpdateData(name: Field<string>, date: Field<string>, additionalInfo: Field<string>)

  predicate NoFields(data: UpdateData)
  {
    data.name.Undefined? && data.date.Undefined? && data.additionalInfo.Undefined?
  }

  /** `new Date(...)` of a date key that is present: `null` is the epoch. */
  function DateValue(env: Env, f: Field<string>): Option<Instant>
  {
    match f
    case Given(text) => env.parseDate(text)
    case _ => Some(0)
  }

  /** Whether the database accepts the values the update writes: the name
      column is not nullable and a date must be valid. */
  predicate Acceptable(env: Env, data: UpdateData)
  {
    !data.name.Null? && DateValue(env, data.date).Some?
  }

  /** `update`: a partial update of the present fields; `None` when no
      field is present, before any database access. */
  function Update(env: Env, db: Db, id: Id, data: UpdateData): (out: Outcome<Option<Release>>)
    ensures NoFields(data) ==> out == Outcome(Ok(None), db)
    ensures !out.result.Ok? || out.result.value.None? ==> out.db == db
    ensures !NoFields(data) ==> out.result != Ok(None)
    ensures out.result == Err(RecordNotFound) <==>
              !NoFields(data) && Acceptable(env, data) && db.online && id !in db.rows
    ensures out.result.Ok? && out.result.value.Some? <==>
              !NoFields(data) && Acceptable(env, data) && db.online && id in db.rows
    ensures out.result.Ok? && out.result.value.Some? ==>
              var before := db.rows[id];
              var after := out.result.value.value;
              // absent keys keep their column; present keys overwrite it
              && after.name == (if data.name.Given? then data.name.value else before.name)
              && (data.date.Undefined? ==> after.date == before.date)
              && (!data.date.Undefined? ==> Some(after.date) == DateValue(env, data.date))
              && (data.additionalInfo.Undefined? ==> after.additionalInfo == before.additionalInfo)
              && (data.additionalInfo.Null? ==> after.additionalInfo == None)
              && (data.additionalInfo.Given? ==> after.additionalInfo == Some(data.additionalInfo.value))
              // the id, the checklist and the creation time are never touched
              && after.id == before.id
              && after.stepsCompleted == before.stepsCompleted
              && after.createdAt == before.createdAt
              && after.updatedAt == env.now
              && out.db == Db(db.rows[id := after], true)
  {
    if NoFields(data) then Outcome(Ok(None), db)
    else if !Acceptable(env, data) then Outcome(Err(Rejected), db)
    else if !db.online then Outcome(Err(Unavailable), db)
    else if id !in db.rows then Outcome(Err(RecordNotFound), db)
    else
      var before := db.rows[id];
      var after := before.(
        name := if data.name.Given? then data.name.value else before.name,
        date := if data.date.Undefined? then before.date else DateValue(env, data.date).value,
        additionalInfo := match data.additionalInfo
                          case Undefined => before.additionalInfo
                          case Null => None
                          case Given(info) => Some(info),
        updatedAt := env.now);
      Outcome(Ok(Some(after)), Db(db.rows[id := after], true))
  }

  /** The flags a toggle starts from: a copy of the stored array, or a fresh
      checklist when the column is not an array. */
  function Normalise(v: StepsValue): (s: seq<bool>)
    ensures v.Flags? ==> s == v.flags
    ensures v.NotAnArray? ==> FreshChecklist(s)
    ensures forall i :: 0 <= i < |s| ==> s[i] == Completed(v, i)
  {
    match v
    case Flags(flags) => flags
    case NotAnArray => Unchecked(|DefaultSteps|)
  }

  /** `flags[k] = !flags[k]`. Past the end of the array JavaScript leaves
      holes, which every reader treats as not completed; here they are
      `false`. */
  function Flip(flags: seq<bool>, k: nat): (r: seq<bool>)
    ensures |r| == if k < |flags| then |flags| else k + 1
    ensures r[k] == !(k < |flags| && flags[k])
    ensures forall i :: 0 <= i < |r| && i != k ==> r[i] == (i < |flags| && flags[i])
  {
    if k < |flags| then flags[k := !flags[k]]
    else flags + Unchecked(k - |flags|) + [true]
  }

  /** `toggleStep`: negates one flag of one row; `None` for a missing row. */
  function ToggleStep(env: Env, db: Db, id: Id, k: nat): (out: Outcome<Option<Release>>)
    ensures !db.online ==> out == Outcome(Err(Unavailable), db)
    ensures db.online && id !in db.rows ==> out == Outcome(Ok(None), db)
    ensures db.online && id in db.rows ==>
              && out.result.Ok? && out.result.value.Some?
              && var before := db.rows[id];
                 var after := out.result.value.value;
                 && after.stepsCompleted.Flags?
                 // the normalised array keeps its length, or grows to reach step k
                 && |after.stepsCompleted.flags|
                      == (var n := |Normalise(before.stepsCompleted)|; if k < n then n else k + 1)
                 && (before.stepsCompleted.NotAnArray? && k < StepCount ==>
                       |after.stepsCompleted.flags| == StepCount)
                 && k < |after.stepsCompleted.flags|
                 && after.stepsCompleted.flags[k] == !Completed(before.stepsCompleted, k)
                 && (forall i :: 0 <= i < |after.stepsCompleted.flags| && i != k ==>
                       after.stepsCompleted.flags[i] == Completed(before.stepsCompleted, i))
                 // every other column is kept, bar the modification time
                 && after == before.(stepsCompleted := after.stepsCompleted, updatedAt := env.now)
                 && out.db == Db(db.rows[id := after], true)
  {
    if !db.online then Outcome(Err(Unavailable), db)
    else if id !in db.rows then Outcome(Ok(None), db)
    else
      var before := db.rows[id];
      var stepsCompleted := Flip(Normalise(before.stepsCompleted), k);
      var after := before.(stepsCompleted := Flags(stepsCompleted), updatedAt := env.now);
      Outcome(Ok(Some(after)), Db(db.rows[id := after], true))
  }

  /** What `toggleStep` does with a key that is not an array index: the
      flags are normalised and written back with no step flipped. */
  function RewriteSteps(env: Env, db: Db, id: Id): (out: Outcome<Option<Release>>)
    ensures !db.online ==> out == Outcome(Err(Unavailable), db)
    ensures db.online && id !in db.rows ==> out == Outcome(Ok(None), db)
    ensures db.online && id in db.rows ==>
              && out.result.Ok? && out.result.value.Some?
              && var before := db.rows[id];
                 var after := out.result.value.value;
                 && after.stepsCompleted.Flags?
                 && after.stepsCompleted.flags == Normalise(before.stepsCompleted)
                 && (forall i :: 0 <= i < |after.stepsCompleted.flags| ==>
                       after.stepsCompleted.flags[i] == Completed(before.stepsCompleted, i))
                 && (forall i: nat :: Completed(after.stepsCompleted, i) == Completed(before.stepsCompleted, i))
                 && after == before.(stepsCompleted := after.stepsCompleted, updatedAt := env.now)
                 && out.db == Db(db.rows[id := after], true)
  {
    if !db.online then Outcome(Err(Unavailable), db)
    else if id !in db.rows then Outcome(Ok(None), db)
    else
      var before := db.rows[id];
      var after := before.(stepsCompleted := Flags(Normalise(before.stepsCompleted)), updatedAt := env.now);
      Outcome(Ok(Some(after)), Db(db.rows[id := after], true))
  }

  /** `remove`: deletes one row and returns it. */
  function Remove(db: Db, id: Id): (out: Outcome<Release>)
    ensures !db.online ==> out == Outcome(Err(Unavailable), db)
    ensures db.online && id !in db.rows ==> out == Outcome(Err(RecordNotFound), db)
    ensures db.online && id in db.rows ==>
              && out.result == Ok(db.rows[id])
              && out.db.online
              && out.db.rows.Keys == db.rows.Keys - {id}
              && forall other :: other in out.db.rows ==> out.db.rows[other] == db.rows[other]
  {
    if !db.online then Outcome(Err(Unavailable), db)
    else if id !in db.rows then Outcome(Err(RecordNotFound), db)
    else Outcome(Ok(db.rows[id]), Db(db.rows - {id}, true))
  }

  // ------------------------------------------------------------ properties

  /** Toggling the same step twice gives back the row as it was, apart from
      the modification time, when the step lies inside the stored array. */
  lemma ToggleTwiceRestores(env1: Env, env2: Env, db: Db, id: Id, k: nat)
    requires db.online && id in db.rows
    requires db.rows[id].stepsCompleted.Flags?
    requires k < |db.rows[id].stepsCompleted.flags|
    ensures ToggleStep(env2, ToggleStep(env1, db, id, k).db, id, k).db
              == Db(db.rows[id := db.rows[id].(updatedAt := env2.now)], true)
  {
    var once := ToggleStep(env1, db, id, k).db;
    var twice := ToggleStep(env2, once, id, k).db;
    var flags := db.rows[id].stepsCompleted.flags;
    assert twice.rows[id].stepsCompleted.flags == flags;
    assert twice.rows == db.rows[id := db.rows[id].(updatedAt := env2.now)];
  }

  /** Otherwise the second toggle undoes the first on the normalised,
      padded checklist: a non-array column comes back as a fresh checklist
      and a short array comes back padded with `false` up to step `k`. */
  lemma ToggleTwiceRestoresNormalised(env1: Env, env2: Env, db: Db, id: Id, k: nat)
    requires db.online && id in db.rows
    ensures var after := ToggleStep(env2, ToggleStep(env1, db, id, k).db, id, k).db.rows[id];
            var start := Normalise(db.rows[id].stepsCompleted);
            && after.stepsCompleted.Flags?
            && |after.stepsCompleted.flags| == (if k < |start| then |start| else k + 1)
            && (forall i :: 0 <= i < |after.stepsCompleted.flags| ==>
                  after.stepsCompleted.flags[i] == (i < |start| && start[i]))
            && after == db.rows[id].(stepsCompleted := after.stepsCompleted, updatedAt := env2.now)
  {
  }

  /** Removing a row just created gives back the store as it was. */
  lemma RemoveUndoesCreate(env: Env, db: Db, data: CreateData)
    requires Create(env, db, data).result.Ok?
    ensures Remove(Create(env, db, data).db, env.nextId) == Outcome(Ok(Create(env, db, data).result.value), db)
  {
  }

  /** Each write keeps the store well formed (a toggle as the controller
      calls it, on an index inside the checklist). */
  lemma CreatePreservesWellFormed(env: Env, db: Db, data: CreateData)
    requires WellFormed(db)
    ensures WellFormed(Create(env, db, data).db)
  {
  }

  lemma UpdatePreservesWellFormed(env: Env, db: Db, id: Id, data: UpdateData)
    requires WellFormed(db)
    ensures WellFormed(Update(env, db, id, data).db)
  {
  }

  lemma TogglePreservesWellFormed(env: Env, db: Db, id: Id, k: nat)
    requires WellFormed(db)
    requires k < StepCount
    ensures WellFormed(ToggleStep(env, db, id, k).db)
  {
  }

  lemma RemovePreservesWellFormed(db: Db, id: Id)
    requires WellFormed(db)
    ensures WellFormed(Remove(db, id).db)
  {
  }
}
