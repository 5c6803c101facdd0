/** Process-lifetime idempotency claims. */
module Idempotency {
  import opened Text

  type Key = string

  /** What is recorded for a key: a claim in flight, or the answer of a completed one. */
  datatype Claim<R> = Pending | Completed(status: int, response: R)

  datatype Begun<R> = Owner | Replayed(status: int, response: R) | Conflict

  function BeginAnswer<R>(claim: Option<Claim<R>>): Begun<R> {
    match claim
    case None => Owner
    case Some(Pending) => Conflict
    case Some(Completed(status, response)) => Replayed(status, response)
  }

  /** A claim is released only while it is in flight. */
  function AfterFail<R>(claim: Option<Claim<R>>): Option<Claim<R>> {
    if claim == Some(Pending) then None else claim
  }

  class MemoryIdempotencyStore<R(==)> {
    var records: map<Key, Claim<R>>

    function Recorded(key: Key): Option<Claim<R>>
      reads this
    {
      if key in records then Some(records[key]) else None
    }

    constructor ()
      ensures records == map[]
    {
      records := map[];
    }

    method Begin(key: Key) returns (answer: Begun<R>)
      modifies this
      ensures answer == BeginAnswer(old(Recorded(key)))
      ensures records == if answer.Owner? then old(records)[key := Pending] else old(records)
    {
      if key in records {
        match records[key] {
          case Completed(status, response) => return Replayed(status, response);
          case Pending => return Conflict;
        }
      }
      records := records[key := Pending];
      answer := Owner;
    }

    method Complete(key: Key, status: int, response: R)
      modifies this
      ensures records == old(records)[key := Completed(status, response)]
    {
      records := records[key := Completed(status, response)];
    }

    method Fail(key: Key)
      modifies this
      ensures Recorded(key) == AfterFail(old(Recorded(key)))
      ensures records - {key} == old(records) - {key}
    {
      if key in records && records[key].Pending? {
        records := records - {key};
      }
    }
  }
}
