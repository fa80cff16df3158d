/** The data model shared by every layer: a stored release row, the values a
    request body can carry for a key, and the optional value used for
    nullable columns. */
module Records {

  /** Primary key of a release (a UUID string in the database). */
  type Id = string

  /** A point in time; dates and timestamps are kept opaque. */
  type Instant = int

  datatype Option<+T> = None | Some(value: T)

  /** What the `stepsCompleted` column holds when it is read back: a JSON
      array of completion flags, or anything else (null, undefined, a string,
      an object). Entries of an array are taken to be booleans. */
  datatype StepsValue = Flags(flags: seq<bool>) | NotAnArray

  /** The value a request body gives for one key: the key is missing
      (`undefined`), it is JSON `null`, or it carries a value. */
  datatype Field<+T> = Undefined | Null | Given(value: T)

  /** A release row as the store keeps it. `additionalInfo` is nullable. */
  datatype Release = Release(
    id: Id,
    name: string,
    date: Instant,
    additionalInfo: Option<string>,
    stepsCompleted: StepsValue,
    createdAt: Instant,
    updatedAt: Instant)

  /** Whether step `i` counts as completed when a stored value is read
      defensively: a non-array, or an index past the end of the array,
      reads as not completed. */
  predicate Completed(v: StepsValue, i: nat)
  {
    v.Flags? && i < |v.flags| && v.flags[i]
  }

  /** JavaScript truthiness of a string-valued body key, as in `!name`:
      a missing key, `null` and the empty string are falsy. */
  predicate Truthy(f: Field<string>)
  {
    f.Given? && f.value != ""
  }
}
