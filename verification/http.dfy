/** The shape of an Express JSON reply: a status code and either a
    `{ message }` body or a payload. */
module Http {
  import opened Wrappers

  datatype Body<+T> = Message(text: string) | Payload(value: T)

  datatype Reply<+T> = Reply(status: int, body: Body<T>)

  /** A query hook's `data` after a fetch: the payload of a successful
      reply, `undefined` otherwise. */
  function DataOf<T>(reply: Reply<T>): (d: Option<T>)
    ensures d.Some? <==> reply.status == 200 && reply.body.Payload?
    ensures d.Some? ==> reply.body == Payload(d.value)
  {
    if reply.status == 200 && reply.body.Payload? then Some(reply.body.value) else None
  }
}
