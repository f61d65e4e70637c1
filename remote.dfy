/**
 * The remote access functions, reduced to what the store can observe of them:
 * each round trip either succeeds with the record(s) it returns or fails with
 * the store's error. The network itself is not modelled; a reply is a
 * parameter of every store operation.
 */
module Remote {
  import opened Records

  /** Whatever the remote store reported (not found, constraint, connectivity); kept opaque. */
  datatype RemoteError = RemoteError(detail: string)

  /** The result of a round trip that returns a record. */
  datatype Reply<T> = Ok(value: T) | Err(error: RemoteError)

  /** The result of an operation that returns nothing on success. */
  datatype Outcome = Pass | Fail(error: RemoteError)

  /** A freshly inserted `people` row: the insert returns the row without any duaas. */
  datatype PersonRow = PersonRow(id: Id, name: string)

  /** What an update sends: one column of a duaa row. */
  datatype Patch = SetDone(isDone: bool) | SetText(text: string)

  /**
   * `addPerson`: on success the inserted row is returned with an empty duaa
   * list attached; on failure the store's error is re-thrown unchanged.
   */
  function AddPerson(reply: Reply<PersonRow>): (r: Reply<Person>)
    ensures r.Ok? <==> reply.Ok?
    ensures r.Ok? ==> r.value.duaas == [] && r.value.id == reply.value.id && r.value.name == reply.value.name
    ensures r.Err? ==> r.error == reply.error
  {
    match reply
    case Ok(row) => Ok(Person(row.id, row.name, []))
    case Err(e) => Err(e)
  }

  /** `addDuaa` inserts `{person_id, text, is_done: false}`; the row returned echoes those columns. */
  ghost predicate IsInsertedDuaa(d: Duaa, personId: Id, text: string)
  {
    d.personId == personId && d.text == text && !d.isDone
  }

  /** `updateDuaa(id, patch)` selects the single row with that id, after the patch was applied. */
  ghost predicate IsPatchedDuaa(d: Duaa, duaaId: Id, patch: Patch)
  {
    d.id == duaaId &&
    match patch
    case SetDone(b) => d.isDone == b
    case SetText(t) => d.text == t
  }
}
