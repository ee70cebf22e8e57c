/** The lookup by primary key that every directory performs (GORM `First` by id). */
module Records {
  import opened Wrappers
  import opened Errors

  /** The record stored under `id`, or `ErrRecordNotFound` when there is none. */
  function Find<V>(records: map<nat, V>, id: nat): (r: Result<V, Error>)
    ensures r.Success? <==> id in records
    ensures r.Success? ==> r.value == records[id]
    ensures r.Failure? ==> r.error == Sentinel(RecordNotFound)
  {
    if id in records then Success(records[id]) else Failure(Sentinel(RecordNotFound))
  }
}
