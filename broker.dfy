/** The broker's state and its request handlers, with HTTP, logging and the
    network removed: the subscription registry, the correlation cache and
    the single cache job that is the only writer of the cache. */
module Broker {
  import opened Types
  import opened Registry
  import opened CorrelationCache
  import opened Ingestion

  class Broker {
    /** topic name -> (subscription name -> endpoint) */
    var subscriptions: Subscriptions
    /** correlation id -> the events received for it */
    var cache: Cache
    /** Every event the cache job has taken from the channel, in order. */
    ghost var received: seq<Event>

    /** The cache is exactly what the single consumer built from what it received. */
    ghost predicate Valid()
      reads this
    {
      cache == Consume(map[], received)
    }

    /** Start-up: an empty registry and an empty cache. */
    constructor ()
      ensures Valid()
      ensures subscriptions == map[] && cache == map[] && received == []
    {
      subscriptions := map[];
      cache := map[];
      received := [];
    }

    /** `registerSubscription`: create the topic's inner map if the topic is
        new, then bind the subscription name to the endpoint. */
    method RegisterSubscription(topicName: string, name: string, endpoint: string)
      requires Valid()
      modifies this
      ensures Valid()
      ensures subscriptions == Register(old(subscriptions), topicName, name, endpoint)
      ensures cache == old(cache) && received == old(received)
    {
      if topicName !in subscriptions {
        subscriptions := subscriptions[topicName := map[]];
      }
      subscriptions := subscriptions[topicName := subscriptions[topicName][name := endpoint]];
    }

    /** One iteration of the cache job: get or create the entry for the
        event's correlation id, then append the event to it. */
    method CacheEvent(event: Event)
      requires Valid()
      modifies this
      ensures Valid()
      ensures cache == Append(old(cache), event)
      ensures received == old(received) + [event]
      ensures subscriptions == old(subscriptions)
    {
      var info: seq<Event>;
      if event.correlationId in cache {
        info := cache[event.correlationId];
      } else {
        info := [];
        cache := cache[event.correlationId := info];
      }
      cache := cache[event.correlationId := info + [event]];
      received := received + [event];
      assert received[..|received| - 1] == old(received);
    }

    /** `startEventsCacheJob`: the single consumer, run over the events the
        channel delivers, in order. */
    method StartEventsCacheJob(events: seq<Event>)
      requires Valid()
      modifies this
      ensures Valid()
      ensures cache == Consume(old(cache), events)
      ensures received == old(received) + events
      ensures subscriptions == old(subscriptions)
    {
      for i := 0 to |events|
        invariant Valid()
        invariant cache == Consume(old(cache), events[..i])
        invariant received == old(received) + events[..i]
        invariant subscriptions == old(subscriptions)
      {
        CacheEvent(events[i]);
        assert events[..i + 1][..i] == events[..i];
      }
      assert events[..|events|] == events;
    }

    /** `postEventOnTopic` without the transport: an unreadable body ends the
        request; otherwise the event goes to the cache job if it carries a
        correlation id, and one delivery is made per subscription of the
        topic, all with one copy of the inbound headers. */
    method PostEventOnTopic(topicName: string, headers: Headers, body: BodyRead)
      returns (handoff: Option<Event>, deliveries: seq<Delivery>, ghost names: seq<string>)
      ensures body.Unreadable? ==> handoff == None && deliveries == []
      ensures body.Read? ==> handoff == ExtractEvent(topicName, headers, body.bytes)
      ensures body.Read? && topicName !in subscriptions ==> deliveries == []
      ensures body.Read? && topicName in subscriptions ==>
                IsFanOut(deliveries, names, subscriptions[topicName], body.bytes, headers)
    {
      handoff, deliveries, names := None, [], [];
      if body.Unreadable? {
        return;
      }
      handoff := ExtractEvent(topicName, headers, body.bytes);
      if topicName in subscriptions {
        var copy := FilterHeaders(headers);
        assert copy == headers;
        deliveries, names := FanOut(subscriptions[topicName], body.bytes, copy);
      }
    }

    /** A whole publish: the handler followed by the cache job taking the
        handed-off event from the unbuffered channel. */
    method Publish(topicName: string, headers: Headers, body: BodyRead)
      returns (deliveries: seq<Delivery>, ghost names: seq<string>)
      requires Valid()
      modifies this
      ensures Valid()
      ensures subscriptions == old(subscriptions)
      ensures var handoff := if body.Read? then ExtractEvent(topicName, headers, body.bytes) else None;
              && (handoff.Some? ==> cache == Append(old(cache), handoff.value) && received == old(received) + [handoff.value])
              && (handoff.None? ==> cache == old(cache) && received == old(received))
      ensures body.Unreadable? || topicName !in subscriptions ==> deliveries == []
      ensures body.Read? && topicName in subscriptions ==>
                IsFanOut(deliveries, names, subscriptions[topicName], body.bytes, headers)
    {
      var handoff;
      handoff, deliveries, names := PostEventOnTopic(topicName, headers, body);
      if handoff.Some? {
        CacheEvent(handoff.value);
      }
    }

    /** `queryEvents`: the stored events on a hit, NotFound on a miss. A hit
        holds exactly the received events with that id, in arrival order. */
    method QueryEvents(correlationId: string) returns (r: QueryResult)
      requires Valid()
      ensures r.Found? <==> correlationId in cache
      ensures r.Found? ==> r.events == cache[correlationId]
      ensures r.Found? <==> Seen(received, correlationId)
      ensures r.Found? ==> r.events == Matching(received, correlationId) && |r.events| > 0
      ensures r.Found? ==> forall k :: 0 <= k < |r.events| ==> r.events[k].correlationId == correlationId
    {
      if correlationId in cache {
        r := Found(cache[correlationId]);
      } else {
        r := NotFound;
      }
      ConsumeFromEmpty(received, correlationId);
      MatchingNonEmpty(received, correlationId);
      ConsumeWellFormed(map[], received);
    }
  }

  /** Two publishes with the same correlation id to different topics; the
      query returns both events in publish order. */
  method TwoPublishesScenario(headers: Headers, first: seq<byte>, second: seq<byte>)
    requires CorrelationHeader in headers && headers[CorrelationHeader] == ["tx-7"]
  {
    var broker := new Broker();
    var d1, n1 := broker.Publish("orders.created", headers, Read(first));
    var d2, n2 := broker.Publish("orders.paid", headers, Read(second));
    assert d1 == [] && d2 == [];
    var r := broker.QueryEvents("tx-7");
    assert r == Found([Event("tx-7", "orders.created", headers, first), Event("tx-7", "orders.paid", headers, second)]);
    var miss := broker.QueryEvents("unknown-id");
    assert miss == NotFound;
  }
}
