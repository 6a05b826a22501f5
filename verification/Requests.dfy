/** What all requests share: the rows they are about, how they end, and idempotency keys. */
module Requests {
  type AppId = nat
  type DocId = nat

  datatype Outcome = Accepted | NotFound | Forbidden | Conflict | Unprocessable | ServerError

  /** An idempotency key belongs to an actor and an operation, which includes what the operation is about. */
  datatype IdemKey<Op> = IdemKey(actor: string, operation: Op, key: string)

  /** What a client sends along with a request that must not take effect twice. */
  datatype Envelope = Envelope(actor: string, key: string, requestHash: string)

  function KeyFor<Op>(e: Envelope, operation: Op): IdemKey<Op> { IdemKey(e.actor, operation, e.key) }

  datatype IdemRecord<R> = IdemRecord(requestHash: string, resource: R)

  datatype Replay<R> = NewRequest | SameRequest(resource: R) | Mismatch

  function ReplayOf<Op(==), R>(records: map<IdemKey<Op>, IdemRecord<R>>, k: IdemKey<Op>, requestHash: string)
    : Replay<R>
  {
    if k !in records then NewRequest
    else if records[k].requestHash != requestHash then Mismatch
    else SameRequest(records[k].resource)
  }
}
