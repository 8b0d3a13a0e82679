// Who is subscribed to a channel after any run of the hub, told from the actions alone.
module HubMembership {
  import opened Prelude
  import opened ChannelHub

  predicate InChannel<D>(h: Hub<D>, ws: Socket, key: string) {
    key in h.subscribers && ws in h.subscribers[key]
  }

  // ws subscribes to the channel stored under `key`.
  predicate Joins<D>(a: Action<D>, ws: Socket, key: string) {
    a.SubscribeTo? && a.ws == ws && a.orgId + ":" + a.name == key
  }

  // ws unsubscribes from it or disconnects, or a message sent to a channel that it is in by then
  // fails to reach it.
  ghost predicate Drops<D>(before: seq<Action<D>>, a: Action<D>, ws: Socket, key: string)
  {
    match a
    case SubscribeTo(_, _, _) => false
    case UnsubscribeFrom(w, orgId, name) => w == ws && orgId + ":" + name == key
    case Leave(w) => w == ws
    case Send(orgId, m, failing) => ws in failing && InChannel(Run(before), ws, orgId + ":" + m.channel)
  }

  // Its last subscription to the channel has not been followed by anything that drops it.
  ghost predicate Member<D>(actions: seq<Action<D>>, ws: Socket, key: string)
  {
    exists k :: 0 <= k < |actions| && MemberSince(actions, ws, key, k)
  }

  ghost predicate MemberSince<D>(actions: seq<Action<D>>, ws: Socket, key: string, k: nat)
    requires k < |actions|
  {
    Joins(actions[k], ws, key) && forall j :: k < j < |actions| ==> !Drops(actions[..j], actions[j], ws, key)
  }

  lemma MemberNext<D>(actions: seq<Action<D>>, ws: Socket, key: string)
    requires actions != []
    ensures Member(actions, ws, key) <==>
            Joins(Last(actions), ws, key) || (Member(Front(actions), ws, key) && !Drops(Front(actions), Last(actions), ws, key))
  {
    var before, n := Front(actions), |actions| - 1;
    assert actions[..n] == before;
    forall k | 0 <= k < n
      ensures MemberSince(actions, ws, key, k) <==> MemberSince(before, ws, key, k) && !Drops(before, Last(actions), ws, key)
    {
      assert forall j :: k < j < n ==> actions[..j] == before[..j] && actions[j] == before[j];
      assert actions[n] == Last(actions);
    }
    if Member(actions, ws, key) {
      var k :| 0 <= k < |actions| && MemberSince(actions, ws, key, k);
      assert k < n || k == n;
    }
    if Joins(Last(actions), ws, key) {
      assert MemberSince(actions, ws, key, n);
    }
    if Member(before, ws, key) && !Drops(before, Last(actions), ws, key) {
      var k :| 0 <= k < n && MemberSince(before, ws, key, k);
      assert MemberSince(actions, ws, key, k);
    }
  }

  // One action, seen from one socket and one channel.
  lemma StepMember<D>(h: Hub<D>, a: Action<D>, ws: Socket, key: string)
    requires Mirror(h)
    ensures InChannel(Step(h, a), ws, key) <==>
            match a
            case SubscribeTo(w, orgId, name) => InChannel(h, ws, key) || (w == ws && orgId + ":" + name == key)
            case UnsubscribeFrom(w, orgId, name) => InChannel(h, ws, key) && !(w == ws && orgId + ":" + name == key)
            case Leave(w) => InChannel(h, ws, key) && w != ws
            case Send(orgId, m, failing) => InChannel(h, ws, key) && !(ws in failing && InChannel(h, ws, orgId + ":" + m.channel))
  {
  }

  // After every run in which each socket keeps to one organisation, a socket is in a channel's
  // set exactly when it subscribed and nothing has dropped it since.
  lemma {:induction false} MembershipIff<D>(actions: seq<Action<D>>, orgOf: Socket -> string, ws: Socket, key: string)
    requires Faithful(actions, orgOf)
    ensures InChannel(Run(actions), ws, key) <==> Member(actions, ws, key)
  {
    if actions != [] {
      var before, a := Front(actions), Last(actions);
      assert forall b :: b in before ==> b in actions;
      RunMirror(before, orgOf);
      MembershipIff(before, orgOf, ws, key);
      StepMember(Run(before), a, ws, key);
      MemberNext(actions, ws, key);
    }
  }

  // A message is counted as received by the members of its channel that do not fail.
  lemma SubscriberReceives<D>(actions: seq<Action<D>>, orgOf: Socket -> string, orgId: string, name: string, failing: set<Socket>)
    requires Faithful(actions, orgOf)
    ensures forall ws :: ws in GetOr(Run(actions).subscribers, orgId + ":" + name, {}) - failing <==>
                         Member(actions, ws, orgId + ":" + name) && ws !in failing
  {
    forall ws
      ensures ws in GetOr(Run(actions).subscribers, orgId + ":" + name, {}) <==> Member(actions, ws, orgId + ":" + name)
    {
      MembershipIff(actions, orgOf, ws, orgId + ":" + name);
    }
  }
}
