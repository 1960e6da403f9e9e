/** The subscription registry: topic name -> (subscription name -> endpoint).
    Registration is an upsert; nothing is ever removed. */
module Registry {

  /** The subscriptions of one topic: subscription name -> endpoint. */
  type TopicSubscriptions = map<string, string>

  /** The whole registry, keyed by topic name. */
  type Subscriptions = map<string, TopicSubscriptions>

  /** The three fields of a registration request body, already decoded. */
  datatype Registration = Registration(topicName: string, name: string, endpoint: string)

  /** The registry after `name` under `topic` is bound to `endpoint`. A topic
      seen for the first time gets a fresh inner map. */
  function Register(subs: Subscriptions, topic: string, name: string, endpoint: string): (r: Subscriptions)
    ensures r.Keys == subs.Keys + {topic}
    ensures name in r[topic] && r[topic][name] == endpoint
    ensures topic !in subs ==> r[topic] == map[name := endpoint]
    ensures topic in subs ==> r[topic].Keys == subs[topic].Keys + {name}
    ensures topic in subs ==> forall n :: n in subs[topic] && n != name ==> r[topic][n] == subs[topic][n]
    ensures forall t :: t in subs && t != topic ==> r[t] == subs[t]
  {
    var inner := if topic in subs then subs[topic] else map[];
    subs[topic := inner[name := endpoint]]
  }

  /** Last writer wins: a second registration of the same (topic, name)
      replaces the first, as if the first had not happened. */
  lemma LastWriterWins(subs: Subscriptions, topic: string, name: string, first: string, second: string)
    ensures Register(Register(subs, topic, name, first), topic, name, second) == Register(subs, topic, name, second)
  {
    var once := Register(subs, topic, name, second);
    var twice := Register(Register(subs, topic, name, first), topic, name, second);
    assert twice.Keys == once.Keys;
    assert twice[topic] == once[topic];
  }

  /** The registry after a sequence of registration requests, in arrival order. */
  function RegisterAll(subs: Subscriptions, regs: seq<Registration>): Subscriptions
  {
    if regs == [] then subs
    else
      var last := regs[|regs| - 1];
      Register(RegisterAll(subs, regs[..|regs| - 1]), last.topicName, last.name, last.endpoint)
  }

  /** Registration never removes a topic or a subscription name. */
  lemma {:induction false} RegisterAllNeverRemoves(subs: Subscriptions, regs: seq<Registration>, topic: string, name: string)
    requires topic in subs && name in subs[topic]
    ensures topic in RegisterAll(subs, regs) && name in RegisterAll(subs, regs)[topic]
  {
    if regs != [] {
      RegisterAllNeverRemoves(subs, regs[..|regs| - 1], topic, name);
    }
  }

  /** The endpoint bound to (topic, name) is the one given by the last
      registration of that pair. */
  lemma {:induction false} RegisterAllLastWins(subs: Subscriptions, regs: seq<Registration>, i: nat)
    requires i < |regs|
    requires forall j :: i < j < |regs| ==> regs[j].topicName != regs[i].topicName || regs[j].name != regs[i].name
    ensures var r := RegisterAll(subs, regs);
            regs[i].topicName in r && regs[i].name in r[regs[i].topicName]
            && r[regs[i].topicName][regs[i].name] == regs[i].endpoint
  {
    if i < |regs| - 1 {
      RegisterAllLastWins(subs, regs[..|regs| - 1], i);
    }
  }

  /** A (topic, name) pair that no registration mentions keeps its entry. */
  lemma {:induction false} RegisterAllUntouched(subs: Subscriptions, regs: seq<Registration>, topic: string, name: string)
    requires topic in subs && name in subs[topic]
    requires forall j :: 0 <= j < |regs| ==> regs[j].topicName != topic || regs[j].name != name
    ensures topic in RegisterAll(subs, regs) && name in RegisterAll(subs, regs)[topic]
    ensures RegisterAll(subs, regs)[topic][name] == subs[topic][name]
  {
    if regs != [] {
      RegisterAllUntouched(subs, regs[..|regs| - 1], topic, name);
    }
  }

  /** The subscription names registered for `topic` by `regs`. */
  function NamesFor(regs: seq<Registration>, topic: string): set<string>
  {
    set j | 0 <= j < |regs| && regs[j].topicName == topic :: regs[j].name
  }

  /** Adding one registration at the end adds its name to the names of its topic. */
  lemma NamesForStep(prefix: seq<Registration>, last: Registration, topic: string)
    ensures NamesFor(prefix + [last], topic) == NamesFor(prefix, topic) + (if last.topicName == topic then {last.name} else {})
  {
    var regs := prefix + [last];
    forall n | n in NamesFor(regs, topic)
      ensures n in NamesFor(prefix, topic) + (if last.topicName == topic then {last.name} else {})
    {
      var j :| 0 <= j < |regs| && regs[j].topicName == topic && regs[j].name == n;
      if j < |prefix| {
        assert prefix[j] == regs[j];
      }
    }
    forall n | n in NamesFor(prefix, topic)
      ensures n in NamesFor(regs, topic)
    {
      var j :| 0 <= j < |prefix| && prefix[j].topicName == topic && prefix[j].name == n;
      assert regs[j] == prefix[j];
    }
    if last.topicName == topic {
      assert regs[|prefix|] == last;
    }
  }

  /** After a sequence of registrations, a topic is present iff it was before
      or some registration named it, and its subscription names are exactly the
      old ones together with every name registered for it, each once. */
  lemma {:induction false} RegisterAllNames(subs: Subscriptions, regs: seq<Registration>, topic: string)
    ensures var r := RegisterAll(subs, regs);
            topic in r <==> topic in subs || NamesFor(regs, topic) != {}
    ensures var r := RegisterAll(subs, regs);
            topic in r ==> r[topic].Keys == (if topic in subs then subs[topic].Keys else {}) + NamesFor(regs, topic)
  {
    if regs != [] {
      var prefix, last := regs[..|regs| - 1], regs[|regs| - 1];
      RegisterAllNames(subs, prefix, topic);
      assert regs == prefix + [last];
      NamesForStep(prefix, last, topic);
    }
  }
}
