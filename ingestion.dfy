/** The decision logic of publishing an event, with the transport removed:
    which event goes to the cache job, and which deliveries the fan-out makes. */
module Ingestion {
  import opened Types

  /** The event handed to the cache job, if any: only when the header map has
      the correlation header with at least one value; the first value is the id. */
  function ExtractEvent(topicName: string, headers: Headers, body: seq<byte>): (r: Option<Event>)
    ensures r.Some? <==> CorrelationHeader in headers && |headers[CorrelationHeader]| > 0
    ensures r.Some? ==> r.value.correlationId == headers[CorrelationHeader][0]
    ensures r.Some? ==> r.value.topicName == topicName && r.value.headers == headers && r.value.body == body
  {
    if CorrelationHeader !in headers then None
    else
      var ids := headers[CorrelationHeader];
      if ids == [] then None else Some(Event(ids[0], topicName, headers, body))
  }

  /** A fresh header map with the same names bound to the same value lists. */
  method FilterHeaders(headers: Headers) returns (copy: Headers)
    ensures copy.Keys == headers.Keys
    ensures forall name :: name in copy ==> copy[name] == headers[name]
  {
    copy := map[];
    var remaining := headers.Keys;
    while remaining != {}
      invariant remaining <= headers.Keys
      invariant copy.Keys == headers.Keys - remaining
      invariant forall name :: name in copy ==> copy[name] == headers[name]
      decreases remaining
    {
      var name :| name in remaining;
      copy := copy[name := headers[name]];
      remaining := remaining - {name};
    }
  }

  /** No element of `s` occurs twice. */
  ghost predicate Distinct(s: seq<string>)
  {
    forall i, j :: 0 <= i < j < |s| ==> s[i] != s[j]
  }

  /** `deliveries` is a fan-out of one event to `subs`: `names` lists every
      subscription name exactly once, in the order the map was iterated, and
      the i-th delivery goes to the endpoint of the i-th name. */
  ghost predicate IsFanOut(deliveries: seq<Delivery>, names: seq<string>, subs: map<string, string>,
                           body: seq<byte>, headers: Headers)
  {
    && |deliveries| == |names|
    && Distinct(names)
    && (forall n :: n in subs <==> n in names)
    && (forall i :: 0 <= i < |deliveries| ==> names[i] in subs && deliveries[i] == Delivery(subs[names[i]], body, headers))
  }

  /** One delivery per subscription of the topic, in map iteration order
      (which the model leaves unspecified). */
  method FanOut(subs: map<string, string>, body: seq<byte>, headers: Headers)
    returns (deliveries: seq<Delivery>, ghost names: seq<string>)
    ensures IsFanOut(deliveries, names, subs, body, headers)
    ensures |deliveries| == |subs|
    ensures forall n :: n in subs ==> Delivery(subs[n], body, headers) in deliveries
    ensures forall i :: 0 <= i < |deliveries| ==>
              deliveries[i].endpoint in subs.Values && deliveries[i].body == body && deliveries[i].headers == headers
  {
    deliveries, names := [], [];
    var remaining := subs.Keys;
    while remaining != {}
      invariant remaining <= subs.Keys
      invariant |deliveries| == |names|
      invariant Distinct(names)
      invariant forall n :: n in subs && n !in remaining <==> n in names
      invariant forall i :: 0 <= i < |deliveries| ==> names[i] in subs && deliveries[i] == Delivery(subs[names[i]], body, headers)
      decreases remaining
    {
      var name :| name in remaining;
      deliveries := deliveries + [Delivery(subs[name], body, headers)];
      names := names + [name];
      remaining := remaining - {name};
    }
    FanOutCount(deliveries, names, subs, body, headers);
    forall n | n in subs
      ensures Delivery(subs[n], body, headers) in deliveries
    {
      var i :| 0 <= i < |names| && names[i] == n;
      assert deliveries[i] == Delivery(subs[n], body, headers);
    }
  }

  /** The endpoints of a sequence of deliveries, in order. */
  function Endpoints(deliveries: seq<Delivery>): (r: seq<string>)
    ensures |r| == |deliveries|
    ensures forall i :: 0 <= i < |r| ==> r[i] == deliveries[i].endpoint
  {
    if deliveries == [] then [] else Endpoints(deliveries[..|deliveries| - 1]) + [deliveries[|deliveries| - 1].endpoint]
  }

  /** The subscription names of `subs` bound to `endpoint`. */
  function SubscribedAt(subs: map<string, string>, endpoint: string): set<string>
  {
    set n | n in subs && subs[n] == endpoint
  }

  /** A duplicate-free sequence has as many distinct elements as it has length. */
  lemma {:induction false} DistinctCardinality(s: seq<string>)
    requires Distinct(s)
    ensures |set x | x in s| == |s|
  {
    if s != [] {
      var prefix, last := s[..|s| - 1], s[|s| - 1];
      DistinctCardinality(prefix);
      assert (set x | x in s) == (set x | x in prefix) + {last};
      assert last !in (set x | x in prefix);
    }
  }

  /** Exactly one delivery per subscription entry: as many deliveries as entries. */
  lemma FanOutCount(deliveries: seq<Delivery>, names: seq<string>, subs: map<string, string>,
                    body: seq<byte>, headers: Headers)
    requires IsFanOut(deliveries, names, subs, body, headers)
    ensures |deliveries| == |subs|
  {
    DistinctCardinality(names);
    assert (set x | x in names) == subs.Keys;
  }

  /** The names in `names` bound to `v` in `subs`. */
  function NamesAt(names: seq<string>, subs: map<string, string>, v: string): set<string>
  {
    set n | n in names && n in subs && subs[n] == v
  }

  /** Adding a name not yet listed adds it to the names bound to `v` iff it is bound to `v`. */
  lemma NamesAtStep(prefix: seq<string>, last: string, subs: map<string, string>, v: string)
    requires last !in prefix && last in subs
    ensures |NamesAt(prefix + [last], subs, v)| == |NamesAt(prefix, subs, v)| + (if subs[last] == v then 1 else 0)
  {
    var before := NamesAt(prefix, subs, v);
    assert NamesAt(prefix + [last], subs, v) == before + (if subs[last] == v then {last} else {});
    assert last !in before;
  }

  /** Counting along any duplicate-free sequence of names: the endpoint `v`
      occurs among their endpoints once per name bound to `v`. */
  lemma {:induction false} EndpointCountAlong(deliveries: seq<Delivery>, names: seq<string>, subs: map<string, string>,
                                              body: seq<byte>, headers: Headers, v: string)
    requires |deliveries| == |names| && Distinct(names)
    requires forall i :: 0 <= i < |deliveries| ==> names[i] in subs && deliveries[i] == Delivery(subs[names[i]], body, headers)
    ensures multiset(Endpoints(deliveries))[v] == |NamesAt(names, subs, v)|
  {
    if deliveries != [] {
      var k := |deliveries| - 1;
      var prefix, last := names[..k], names[k];
      assert names == prefix + [last];
      EndpointCountAlong(deliveries[..k], prefix, subs, body, headers, v);
      NamesAtStep(prefix, last, subs, v);
      assert Endpoints(deliveries) == Endpoints(deliveries[..k]) + [subs[last]];
    }
  }

  /** The endpoints of a fan-out form the same multiset as the topic's
      endpoint values: each endpoint receives one delivery per subscription
      bound to it. */
  lemma FanOutEndpoints(deliveries: seq<Delivery>, names: seq<string>, subs: map<string, string>,
                        body: seq<byte>, headers: Headers, v: string)
    requires IsFanOut(deliveries, names, subs, body, headers)
    ensures multiset(Endpoints(deliveries))[v] == |SubscribedAt(subs, v)|
  {
    EndpointCountAlong(deliveries, names, subs, body, headers, v);
    assert NamesAt(names, subs, v) == SubscribedAt(subs, v);
  }
}
