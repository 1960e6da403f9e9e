/** Values shared by every part of the broker: published events, the
    deliveries the fan-out produces, and the outcomes of reading a request
    body and of querying the correlation cache. */
module Types {

  datatype Option<T> = None | Some(value: T)

  /** One octet of an opaque request body. */
  newtype byte = x: int | 0 <= x < 256

  /** Inbound HTTP headers: a header name mapped to its ordered values. */
  type Headers = map<string, seq<string>>

  /** The header whose first value is the correlation id. It is looked up
      exactly as spelled here, with no case folding. */
  const CorrelationHeader: string := "X-Correlation-Id"

  /** `EventInfo`: one published event as it is handed to the cache job. */
  datatype Event = Event(correlationId: string, topicName: string, headers: Headers, body: seq<byte>)

  /** One delivery attempt of the fan-out: the request that would be sent
      to one subscription's endpoint. */
  datatype Delivery = Delivery(endpoint: string, body: seq<byte>, headers: Headers)

  /** The outcome of reading a publish request's body. */
  datatype BodyRead = Read(bytes: seq<byte>) | Unreadable

  /** The answer to an events query: the stored events on a hit. */
  datatype QueryResult = Found(events: seq<Event>) | NotFound
}
