# hermes-mock broker core, modelled in Dafny

hermes-mock is a small message broker written in Go (`main.go`). Producers
publish events to a topic over HTTP. Subscribers register a callback endpoint
for a topic, and every event published to that topic is sent to each of them.
Independently, events that carry an `X-Correlation-Id` header are kept in a
cache keyed by that id. A later `GET /events/{id}` returns every event
published with that id.

This project models the broker's state and decision logic as a sequential
Dafny program and proves properties of it:

- `types.dfy` (module `Types`): events (`EventInfo`), deliveries, header maps,
  the result of reading a body and the result of a query.
- `registry.dfy` (module `Registry`): the subscription registry, a nested map
  from topic to (subscription name to endpoint), as the pure function
  `Register` and a fold `RegisterAll` over a sequence of registration requests.
- `correlation_cache.dfy` (module `CorrelationCache`): one step `Append` of the
  cache job (get or create, then append) and the fold `Consume` over a channel's
  worth of events. It also has a reference definition `Matching`: the events
  with one id, in arrival order.
- `ingestion.dfy` (module `Ingestion`): correlation-id extraction
  (`ExtractEvent`), the header copy (`FilterHeaders`) and the fan-out loop
  (`FanOut`). The predicate `IsFanOut` is the fan-out's specification.
- `broker.dfy` (module `Broker`): the class `Broker` with the registry and the
  cache as fields. Its methods model `registerSubscription`,
  `startEventsCacheJob`, `postEventOnTopic` and `queryEvents`. A ghost field
  `received` records every event the cache job has taken from the channel.
  The invariant `Valid()` says the cache is exactly `Consume(map[], received)`.

Modelling decisions:

- The channel `eventsChan` becomes a sequence that is consumed in order.
  `StartEventsCacheJob` loops over such a sequence. `Publish` is a whole
  publish request: the handler, then the single consumer taking the handed-off
  event. The channel is unbuffered, so sequentially the two happen one after
  the other.
- A delivery is a returned `Delivery(endpoint, body, headers)` record, not a
  network call. Go map iteration order is unspecified, so `FanOut` picks
  subscription names in an arbitrary order. Its ghost out-parameter `names`
  records the order it chose.
- Reading the body is an input: `BodyRead.Read(bytes)` or `BodyRead.Unreadable`.
- The cache maps each id to a value `seq<Event>` rather than to a heap
  `*CorrelationInfo`. Only the cache holds that pointer, so under one consumer
  the append at main.go:142 and a map update have the same effect.
- The list below gives some of the code's behaviours a reader might not
  expect. It is not complete. In each case the model follows the code:
  - HTTP header names are case-insensitive, but main.go:64 looks up the exact
    key `X-Correlation-Id` in the header map. `ExtractEvent` does the same.
  - A subscription's topic is taken from the body field `topicName`
    (main.go:97). The path parameter is never read.
  - One header copy is made per publish (main.go:75), and that same map is
    passed to every delivery (main.go:76-77). It is not one copy per delivery.
    `PostEventOnTopic` makes one `FilterHeaders` copy and hands it to `FanOut`,
    so every delivery carries the same headers.
  - The error from decoding a registration body is ignored (main.go:96). A
    body that cannot be parsed still registers `("", "") -> ""`.
    `RegisterSubscription` takes the decoded strings, so this is the call
    with three empty strings, which the model accepts like any other.

A worked example, `Broker.TwoPublishesScenario`, publishes twice with the id
`tx-7` to two topics. A query for `tx-7` then returns both events in publish
order, and a query for an unknown id returns `NotFound`.

## Model

| member | source | states |
|---|---|---|
| `Registry.Register` | main.go:103-106 | the topic is present afterwards and `name` is bound to `endpoint` under it; a new topic gets exactly `{name: endpoint}`; an existing topic keeps every other name with its endpoint and gains at most `name`; every other topic is unchanged; no topic is removed |
| `Registry.LastWriterWins` | main.go:106 | registering the same (topic, name) twice equals registering only the second endpoint |
| `Registry.RegisterAllNeverRemoves` | main.go:103-106 | over any sequence of registrations, no existing topic or subscription name disappears |
| `Registry.RegisterAllLastWins` | main.go:106 | over any sequence of registrations, a (topic, name) pair ends up bound to the endpoint of its last registration |
| `Registry.RegisterAllNames` | main.go:103-106 | over any sequence of registrations, a topic is present iff it was before or was registered, and its subscription names are exactly the old names plus every name registered for it; so each name has exactly one entry however often it is re-registered |
| `Registry.RegisterAllUntouched` | main.go:103-106 | a (topic, name) pair that no registration mentions keeps its endpoint |
| `CorrelationCache.Append` | main.go:133-142 | one event creates its id's entry if absent and adds exactly one element, the event, at the end; every other id's entry is unchanged and no id is removed |
| `CorrelationCache.ConsumeGroups` | main.go:130-143 | after consuming a sequence, an id has an entry iff it had one before or occurred in the sequence, and the entry is the old one followed by exactly the events with that id, in arrival order |
| `CorrelationCache.ConsumeFromEmpty` | main.go:130-143 | from an empty cache, ids that never occurred have no entry and every other id's entry is exactly the subsequence of events with that id, in arrival order |
| `CorrelationCache.MatchingMembers` | main.go:131-142 | no event is lost or misfiled: an event is in an id's group iff it was received and carries that id |
| `CorrelationCache.MatchingNonEmpty` | main.go:136-142 | an id's group is non-empty iff the id occurred, so no cache entry is ever empty |
| `CorrelationCache.ConsumeWellFormed` | main.go:133-142 | consuming events keeps the single-consumer invariant: every entry is non-empty and holds only events whose id is its key |
| `Ingestion.ExtractEvent` | main.go:64-71 | an event is handed to the cache path iff the header map has key `X-Correlation-Id` with a non-empty value list; its correlation id is the first value and its topic, headers and body are the inputs as given |
| `Ingestion.FilterHeaders` | main.go:122-128 | the copy has the same header names as the input and the same value list for each |
| `Ingestion.FanOut` | main.go:76-78 | the deliveries pair one-to-one with the topic's subscription names, in some order; delivery i goes to the endpoint of name i; there are exactly as many deliveries as subscriptions, every subscription gets a delivery to its endpoint, and every delivery carries the event's body and headers |
| `Ingestion.FanOutCount` | main.go:74-78 | a fan-out makes exactly as many deliveries as the topic has subscriptions |
| `Ingestion.FanOutEndpoints` | main.go:76-78 | the endpoints of a fan-out form the same multiset as the topic's endpoint values: each endpoint gets one delivery per subscription bound to it |
| `Broker.Broker.constructor` | main.go:20-38 | the broker starts with an empty registry (main.go:38), an empty cache (main.go:20) and nothing received |
| `Broker.Broker.RegisterSubscription` | main.go:94-107 | the registry becomes `Register(old registry, topicName, name, endpoint)`; the cache and what it was built from are unchanged |
| `Broker.Broker.CacheEvent` | main.go:132-142 | one loop iteration: the cache becomes `Append(old cache, event)`, the event is recorded as received, the registry is unchanged, and the cache still equals the fold of everything received |
| `Broker.Broker.StartEventsCacheJob` | main.go:130-144 | consuming a sequence of events leaves the cache equal to `Consume(old cache, events)`, the events are appended to what was received, the registry is unchanged, and `Valid()` holds at the end |
| `Broker.Broker.PostEventOnTopic` | main.go:51-80 | an unreadable body gives no cache hand-off and no delivery; otherwise the hand-off is `ExtractEvent` of the inputs, an unknown topic gives zero deliveries, and a known topic gives a fan-out to its current subscriptions |
| `Broker.Broker.Publish` | main.go:51-80 | a whole publish: the cache gains the handed-off event or is unchanged when there is none; the registry is unchanged; the deliveries are as for `PostEventOnTopic` |
| `Broker.Broker.QueryEvents` | main.go:146-154 | returns the stored sequence when the id is present and NotFound otherwise; a hit is non-empty and holds exactly the received events with that id, in arrival order; nothing is changed |

## Left out

- Expiry of cache entries (`patrickmn/go-cache`, created at main.go:20 with 5-minute expiry and 10-minute cleanup): the library's source is not part of this model, so entries never expire here. Whether a query refreshes an entry's expiry is therefore not modelled either.
- The failure branch of the cache's `Add` (main.go:138-140): it cannot happen under one consumer, which has just seen that the key is absent, so get-or-create is total.
- HTTP routing, route patterns and server start-up (main.go:39-48). The route patterns also restrict topic names; the subscription route's pattern (main.go:43) admits no digits, but its path parameter is unused.
- JSON decoding of request bodies (main.go:83-84, 89-90, 95-99): registration takes the decoded strings as parameters. A missing JSON field would decode to the empty string, which the model accepts like any other string.
- `registerGroup` and `registerTopic` (main.go:82-92): they only log and change no state.
- All logging and printing (main.go:58-62, 101, 110, 113, 118, 139).
- `sendEventToEndpoint` (main.go:109-120): network I/O with a one-minute timeout, started as a goroutine per delivery. A delivery is a returned record instead. Not modelled: when `http.NewRequest` fails (main.go:111-114), the error is logged and the code goes on to use the nil request at main.go:115. That goroutine panics, and an unrecovered goroutine panic ends the whole process, registry and cache included.
- Goroutines, the unbuffered channel and the unsynchronised global registry (main.go:34, 37, 46, 77): the model is sequential. The single cache consumer is modelled by processing events one at a time in arrival order.
- Header-name canonicalisation by Go's HTTP server: header maps are taken as delivered.
- FilterHeaders: Dafny maps are values, so the copy being a separate map object is automatic. The value lists that Go's shallow copy shares with the request are not modelled as shared.
- Broker.Broker.QueryEvents: the JSON encoding of the answer and the 404 status (main.go:150, 152) are reduced to `Found(events)` and `NotFound`.
