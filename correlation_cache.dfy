/** The correlation cache as the single cache job sees it: correlation id ->
    the events received for that id, in arrival order. */
module CorrelationCache {
  import opened Types

  /** Correlation id -> the `Events` of its `CorrelationInfo`. */
  type Cache = map<string, seq<Event>>

  /** One step of the cache job: get or create the entry for the event's
      correlation id, then append the event to it. */
  function Append(cache: Cache, e: Event): (r: Cache)
    ensures r.Keys == cache.Keys + {e.correlationId}
    ensures e.correlationId in cache ==> r[e.correlationId] == cache[e.correlationId] + [e]
    ensures e.correlationId !in cache ==> r[e.correlationId] == [e]
    ensures forall c :: c in cache && c != e.correlationId ==> r[c] == cache[c]
  {
    var info := if e.correlationId in cache then cache[e.correlationId] else [];
    cache[e.correlationId := info + [e]]
  }

  /** The cache after the job has received `events` in order. */
  function Consume(cache: Cache, events: seq<Event>): Cache
  {
    if events == [] then cache
    else Append(Consume(cache, events[..|events| - 1]), events[|events| - 1])
  }

  /** Reference definition: the events whose correlation id is `c`, in the
      order they occur in `events`. */
  function Matching(events: seq<Event>, c: string): seq<Event>
  {
    if events == [] then []
    else
      var last := events[|events| - 1];
      Matching(events[..|events| - 1], c) + (if last.correlationId == c then [last] else [])
  }

  /** Some event in `events` carries correlation id `c`. */
  predicate Seen(events: seq<Event>, c: string)
  {
    exists i :: 0 <= i < |events| && events[i].correlationId == c
  }

  /** After consuming `events`, the entry for `c` exists exactly when it existed
      before or `c` occurred, and it is the old entry followed by the events
      for `c` in arrival order. */
  lemma {:induction false} ConsumeGroups(cache: Cache, events: seq<Event>, c: string)
    ensures c in Consume(cache, events) <==> c in cache || Seen(events, c)
    ensures c in Consume(cache, events) ==>
              Consume(cache, events)[c] == (if c in cache then cache[c] else []) + Matching(events, c)
  {
    if events != [] {
      var prefix, last := events[..|events| - 1], events[|events| - 1];
      ConsumeGroups(cache, prefix, c);
      assert Seen(events, c) <==> Seen(prefix, c) || last.correlationId == c by {
        if Seen(events, c) && last.correlationId != c {
          var i :| 0 <= i < |events| && events[i].correlationId == c;
          assert prefix[i] == events[i];
        }
        if Seen(prefix, c) {
          var i :| 0 <= i < |prefix| && prefix[i].correlationId == c;
          assert events[i] == prefix[i];
        }
      }
      var base := if c in cache then cache[c] else [];
      if last.correlationId == c {
        if c !in Consume(cache, prefix) {
          MatchingNonEmpty(prefix, c);
        }
        assert Matching(events, c) == Matching(prefix, c) + [last];
        assert base + Matching(prefix, c) + [last] == base + (Matching(prefix, c) + [last]);
      }
    }
  }

  /** From an empty cache: ids that never occurred have no entry, and every
      other id's entry is exactly its events in arrival order. */
  lemma ConsumeFromEmpty(events: seq<Event>, c: string)
    ensures c in Consume(map[], events) <==> Seen(events, c)
    ensures c in Consume(map[], events) ==> Consume(map[], events)[c] == Matching(events, c)
  {
    ConsumeGroups(map[], events, c);
  }

  /** `Matching` keeps exactly the events for `c`: nothing lost, nothing foreign. */
  lemma {:induction false} MatchingMembers(events: seq<Event>, c: string, e: Event)
    ensures e in Matching(events, c) <==> e in events && e.correlationId == c
  {
    if events != [] {
      var prefix := events[..|events| - 1];
      MatchingMembers(prefix, c, e);
      assert events == prefix + [events[|events| - 1]];
    }
  }

  /** `Matching` is non-empty exactly when `c` occurred. */
  lemma {:induction false} MatchingNonEmpty(events: seq<Event>, c: string)
    ensures |Matching(events, c)| > 0 <==> Seen(events, c)
  {
    if events != [] {
      var prefix := events[..|events| - 1];
      MatchingNonEmpty(prefix, c);
      if Seen(prefix, c) {
        var i :| 0 <= i < |prefix| && prefix[i].correlationId == c;
        assert events[i] == prefix[i];
      }
      if Seen(events, c) && events[|events| - 1].correlationId != c {
        var i :| 0 <= i < |events| && events[i].correlationId == c;
        assert prefix[i] == events[i];
      }
    }
  }

  /** The single-consumer invariant: every entry is non-empty and holds only
      events whose correlation id is its key. */
  ghost predicate WellFormed(cache: Cache)
  {
    forall c :: c in cache ==> |cache[c]| > 0 && forall k :: 0 <= k < |cache[c]| ==> cache[c][k].correlationId == c
  }

  /** Consuming any events keeps the cache well formed. */
  lemma {:induction false} ConsumeWellFormed(cache: Cache, events: seq<Event>)
    requires WellFormed(cache)
    ensures WellFormed(Consume(cache, events))
  {
    if events != [] {
      ConsumeWellFormed(cache, events[..|events| - 1]);
    }
  }
}
