// backend/channels.py: the subscriber registry, the connection registry and the bounded
// history of each channel.
module ChannelHub {
  import opened Prelude

  type Socket = nat  // identity of a WebSocket object

  datatype Connection = Connection(orgId: string, channels: set<string>)

  datatype Message<D> = Message(channel: string, data: D, timestamp: string)

  const MAX_RECENT: nat := 100

  // defaultdict: reading or changing a key creates it, so keys with an empty set stay.
  datatype Hub<D> = Hub(subscribers: map<string, set<Socket>>,
                        connections: map<Socket, Connection>,
                        recent: map<string, seq<Message<D>>>)

  function ChannelKey(orgId: string, name: string): string {
    orgId + ":" + name
  }

  lemma ChannelKeyInjective(orgA: string, a: string, orgB: string, b: string)
    requires ':' !in orgA && ':' !in orgB && ChannelKey(orgA, a) == ChannelKey(orgB, b)
    ensures orgA == orgB && a == b
  {
    var ka, kb := ChannelKey(orgA, a), ChannelKey(orgB, b);
    assert ka[|orgA|] == ':' && kb[|orgB|] == ':';
    assert forall i :: 0 <= i < |orgA| ==> ka[i] == orgA[i];
    assert forall i :: 0 <= i < |orgB| ==> kb[i] == orgB[i];
    assert |orgA| == |orgB|;
    assert orgA == ka[..|orgA|] && orgB == kb[..|orgB|];
    assert a == ka[|orgA| + 1..] && b == kb[|orgB| + 1..];
  }

  // ---- What each operation does ----

  function Subscribe<D>(h: Hub<D>, ws: Socket, orgId: string, name: string): Hub<D> {
    var key := ChannelKey(orgId, name);
    var c := GetOr(h.connections, ws, Connection(orgId, {}));
    h.(subscribers := h.subscribers[key := GetOr(h.subscribers, key, {}) + {ws}],
       connections := h.connections[ws := c.(channels := c.channels + {name})])
  }

  function Unsubscribe<D>(h: Hub<D>, ws: Socket, orgId: string, name: string): Hub<D> {
    var key := ChannelKey(orgId, name);
    h.(subscribers := h.subscribers[key := GetOr(h.subscribers, key, {}) - {ws}],
       connections := if ws in h.connections
                      then h.connections[ws := h.connections[ws].(channels := h.connections[ws].channels - {name})]
                      else h.connections)
  }

  function KeysOf(c: Connection): set<string> {
    set name | name in c.channels :: ChannelKey(c.orgId, name)
  }

  // Discarding one socket from the sets of the given keys.
  function Discard(subs: map<string, set<Socket>>, keys: set<string>, ws: Socket): map<string, set<Socket>> {
    map k | k in subs.Keys + keys :: GetOr(subs, k, {}) - (if k in keys then {ws} else {})
  }

  lemma DiscardNone(subs: map<string, set<Socket>>, ws: Socket)
    ensures Discard(subs, {}, ws) == subs
  {
    assert forall k :: k in subs ==> subs[k] - {} == subs[k];
  }

  lemma DiscardNext(subs: map<string, set<Socket>>, keys: set<string>, key: string, ws: Socket)
    ensures var d := Discard(subs, keys, ws);
      d[key := GetOr(d, key, {}) - {ws}] == Discard(subs, keys + {key}, ws)
  {
    var d := Discard(subs, keys, ws);
    var d' := Discard(subs, keys + {key}, ws);
    assert d[key := GetOr(d, key, {}) - {ws}].Keys == d'.Keys;
    forall k | k in d'
      ensures d'[k] == if k == key then GetOr(d, key, {}) - {ws} else d[k]
    {
    }
  }

  function Disconnect<D>(h: Hub<D>, ws: Socket): Hub<D> {
    if ws !in h.connections then h
    else h.(connections := h.connections - {ws},
            subscribers := Discard(h.subscribers, KeysOf(h.connections[ws]), ws))
  }

  function Remember<D>(h: Hub<D>, key: string, m: Message<D>): Hub<D> {
    h.(recent := h.recent[key := LastN(GetOr(h.recent, key, []) + [m], MAX_RECENT)])
  }

  // ---- The registries ----

  // A socket is in a key's set exactly when its connection lists the channel.
  ghost predicate Mirror<D>(h: Hub<D>) {
    && (forall ws :: ws in h.connections ==> ':' !in h.connections[ws].orgId)
    && (forall ws, k :: k in h.subscribers && ws in h.subscribers[k] ==>
          ws in h.connections && k in KeysOf(h.connections[ws]))
    && (forall ws, k :: ws in h.connections && k in KeysOf(h.connections[ws]) ==>
          k in h.subscribers && ws in h.subscribers[k])
  }

  // A socket always speaks for one organisation, and organisation ids contain no colon.
  ghost predicate SameOrg<D>(h: Hub<D>, ws: Socket, orgId: string) {
    ':' !in orgId && (ws in h.connections ==> h.connections[ws].orgId == orgId)
  }

  lemma KeysOfExact(c: Connection, orgId: string, name: string)
    requires ':' !in c.orgId && ':' !in orgId
    ensures ChannelKey(orgId, name) in KeysOf(c) <==> c.orgId == orgId && name in c.channels
  {
    if ChannelKey(orgId, name) in KeysOf(c) {
      var n :| n in c.channels && ChannelKey(orgId, name) == ChannelKey(c.orgId, n);
      ChannelKeyInjective(orgId, name, c.orgId, n);
    }
  }

  lemma MirrorExact<D>(h: Hub<D>, ws: Socket, orgId: string, name: string)
    requires Mirror(h) && ':' !in orgId
    ensures ws in GetOr(h.subscribers, ChannelKey(orgId, name), {}) <==>
            ws in h.connections && h.connections[ws].orgId == orgId && name in h.connections[ws].channels
  {
    if ws in h.connections {
      KeysOfExact(h.connections[ws], orgId, name);
    }
  }

  lemma SubscribeMirror<D>(h: Hub<D>, ws: Socket, orgId: string, name: string)
    requires Mirror(h) && SameOrg(h, ws, orgId)
    ensures Mirror(Subscribe(h, ws, orgId, name))
  {
    var c := GetOr(h.connections, ws, Connection(orgId, {}));
    assert KeysOf(c.(channels := c.channels + {name})) == KeysOf(c) + {ChannelKey(orgId, name)};
  }

  lemma UnsubscribeMirror<D>(h: Hub<D>, ws: Socket, orgId: string, name: string)
    requires Mirror(h) && SameOrg(h, ws, orgId)
    ensures Mirror(Unsubscribe(h, ws, orgId, name))
  {
    if ws in h.connections {
      var c := h.connections[ws];
      KeysWithout(c, name);
    }
  }

  lemma KeysWithout(c: Connection, name: string)
    requires ':' !in c.orgId
    ensures KeysOf(c.(channels := c.channels - {name})) == KeysOf(c) - {ChannelKey(c.orgId, name)}
  {
    forall n | n in c.channels && ChannelKey(c.orgId, n) == ChannelKey(c.orgId, name)
      ensures n == name
    {
      ChannelKeyInjective(c.orgId, n, c.orgId, name);
    }
  }

  // Removing sockets altogether.
  function Forget<D>(h: Hub<D>, gone: set<Socket>): Hub<D> {
    h.(connections := h.connections - gone,
       subscribers := map k | k in h.subscribers :: h.subscribers[k] - gone)
  }

  // Disconnecting cleans a socket out of every key, not only the keys it walks through,
  // even if one of them was cleaned beforehand.
  lemma DisconnectForgets<D>(h: Hub<D>, ws: Socket, key: string)
    requires Mirror(h) && key in h.subscribers && ws in h.subscribers[key]
    ensures Disconnect(h.(subscribers := h.subscribers[key := h.subscribers[key] - {ws}]), ws) == Forget(h, {ws})
  {
    var d := Disconnect(h.(subscribers := h.subscribers[key := h.subscribers[key] - {ws}]), ws);
    assert d.subscribers.Keys == h.subscribers.Keys;
    forall k | k in h.subscribers
      ensures d.subscribers[k] == h.subscribers[k] - {ws}
    {
    }
  }

  lemma ForgetMirror<D>(h: Hub<D>, gone: set<Socket>)
    requires Mirror(h)
    ensures Mirror(Forget(h, gone))
  {
  }

  lemma ForgetMore<D>(h: Hub<D>, gone: set<Socket>, ws: Socket)
    ensures Forget(Forget(h, gone), {ws}) == Forget(h, gone + {ws})
  {
    assert (h.connections - gone) - {ws} == h.connections - (gone + {ws});
    forall k | k in h.subscribers
      ensures (h.subscribers[k] - gone) - {ws} == h.subscribers[k] - (gone + {ws})
    {
    }
  }

  lemma ForgetNone<D>(h: Hub<D>)
    ensures Forget(h, {}) == h
  {
    assert forall k :: k in h.subscribers ==> h.subscribers[k] - {} == h.subscribers[k];
    assert h.connections - {} == h.connections;
  }

  lemma DisconnectMirror<D>(h: Hub<D>, ws: Socket)
    requires Mirror(h)
    ensures Mirror(Disconnect(h, ws)) && ws !in Disconnect(h, ws).connections
  {
  }

  // ---- The module's state and operations ----

  class ChannelManager<D> {
    var subscribers: map<string, set<Socket>>
    var connections: map<Socket, Connection>
    var recent: map<string, seq<Message<D>>>

    ghost function State(): Hub<D>
      reads this
    {
      Hub(subscribers, connections, recent)
    }

    constructor ()
      ensures State() == Hub(map[], map[], map[]) && Mirror(State())
    {
      subscribers, connections, recent := map[], map[], map[];
    }

    method SubscribeSocket(ws: Socket, orgId: string, name: string)
      requires Mirror(State()) && SameOrg(State(), ws, orgId)
      modifies this
      ensures State() == Subscribe(old(State()), ws, orgId, name) && Mirror(State())
      ensures forall w, k :: w in GetOr(subscribers, k, {}) <==>
                w in GetOr(old(subscribers), k, {}) || (w == ws && k == orgId + ":" + name)
      ensures var before := GetOr(old(connections), ws, Connection(orgId, {}));
        connections == old(connections)[ws := Connection(before.orgId, before.channels + {name})] && recent == old(recent)
    {
      SubscribeMirror(State(), ws, orgId, name);
      var key := ChannelKey(orgId, name);
      subscribers := subscribers[key := GetOr(subscribers, key, {}) + {ws}];
      if ws !in connections {
        connections := connections[ws := Connection(orgId, {})];
      }
      connections := connections[ws := connections[ws].(channels := connections[ws].channels + {name})];
    }

    method UnsubscribeSocket(ws: Socket, orgId: string, name: string)
      requires Mirror(State()) && SameOrg(State(), ws, orgId)
      modifies this
      ensures State() == Unsubscribe(old(State()), ws, orgId, name) && Mirror(State())
      ensures forall w, k :: w in GetOr(subscribers, k, {}) <==>
                w in GetOr(old(subscribers), k, {}) && !(w == ws && k == orgId + ":" + name)
      ensures connections.Keys == old(connections).Keys && recent == old(recent)
      ensures forall w :: w in connections && w != ws ==> connections[w] == old(connections)[w]
      ensures ws in connections ==>
                connections[ws] == Connection(old(connections)[ws].orgId, old(connections)[ws].channels - {name})
    {
      UnsubscribeMirror(State(), ws, orgId, name);
      var key := ChannelKey(orgId, name);
      subscribers := subscribers[key := GetOr(subscribers, key, {}) - {ws}];
      if ws in connections {
        connections := connections[ws := connections[ws].(channels := connections[ws].channels - {name})];
      }
    }

    method DisconnectSocket(ws: Socket)
      modifies this
      ensures State() == Disconnect(old(State()), ws)
      ensures Mirror(old(State())) ==> Mirror(State())
      ensures Mirror(old(State())) ==> forall w, k :: w in GetOr(subscribers, k, {}) <==> w in GetOr(old(subscribers), k, {}) && w != ws
      ensures connections == old(connections) - {ws} && recent == old(recent)
    {
      if Mirror(State()) {
        DisconnectMirror(State(), ws);
      }
      if ws in connections {
        var info := connections[ws];
        connections := connections - {ws};
        var todo := info.channels;
        ghost var done: set<string> := {};
        DiscardNone(subscribers, ws);
        assert KeysOf(info.(channels := {})) == {};
        while todo != {}
          invariant done + todo == info.channels
          invariant subscribers == Discard(old(subscribers), KeysOf(info.(channels := done)), ws)
          invariant connections == old(connections) - {ws} && recent == old(recent)
          decreases todo
        {
          var ch :| ch in todo;
          var key := ChannelKey(info.orgId, ch);
          DiscardNext(old(subscribers), KeysOf(info.(channels := done)), key, ws);
          assert KeysOf(info.(channels := done + {ch})) == KeysOf(info.(channels := done)) + {key};
          subscribers := subscribers[key := GetOr(subscribers, key, {}) - {ws}];
          todo, done := todo - {ch}, done + {ch};
        }
        assert done == info.channels;
      }
    }

    // The last loop of publish: sockets whose send raised leave the hub altogether.
    method DropDead(key: string, dead: set<Socket>)
      requires Mirror(State()) && dead <= GetOr(subscribers, key, {})
      modifies this
      ensures State() == Forget(old(State()), dead) && Mirror(State())
    {
      var todo := dead;
      ghost var h, done: set<Socket> := State(), {};
      ForgetNone(h);
      while todo != {}
        invariant done + todo == dead && done !! todo
        invariant State() == Forget(h, done) && Mirror(State())
        decreases todo
      {
        var ws :| ws in todo;
        DisconnectForgets(State(), ws, key);
        ForgetMirror(State(), {ws});
        ForgetMore(h, done, ws);
        subscribers := subscribers[key := subscribers[key] - {ws}];
        DisconnectSocket(ws);
        todo, done := todo - {ws}, done + {ws};
      }
      assert done == dead;
    }

    // The broadcast is one step; `failing` are the sockets whose send raises.
    // Returns the number of remaining subscribers.
    method Publish(orgId: string, name: string, data: D, timestamp: string, failing: set<Socket>) returns (count: nat)
      requires Mirror(State())
      modifies this
      ensures State() == PublishStep(old(State()), orgId, Message(name, data, timestamp), failing) && Mirror(State())
      ensures count == |GetOr(old(subscribers), ChannelKey(orgId, name), {}) - failing|
    {
      var key := ChannelKey(orgId, name);
      recent := recent[key := GetOr(recent, key, []) + [Message(name, data, timestamp)]];
      if |recent[key]| > MAX_RECENT {
        recent := recent[key := LastN(recent[key], MAX_RECENT)];
      }
      assert State() == Remember(old(State()), key, Message(name, data, timestamp));
      ghost var members := GetOr(subscribers, key, {});
      DropDead(key, GetOr(subscribers, key, {}) * failing);
      assert members - members * failing == members - failing;
      count := |GetOr(subscribers, key, {})|;
    }

    // The slice [-limit:]: a limit of zero returns everything, a negative one drops from the front.
    method GetRecent(orgId: string, name: string, limit: int) returns (messages: seq<Message<D>>)
      ensures var all := GetOr(recent, ChannelKey(orgId, name), []);
        && (limit > 0 ==> messages == LastN(all, limit))
        && (limit <= 0 ==> messages == LastN(all, if -limit <= |all| then |all| + limit else 0))
    {
      messages := GetOr(recent, ChannelKey(orgId, name), []);
      var from := if limit > 0 then |messages| - limit else -limit;
      messages := if from <= 0 then messages else if from <= |messages| then messages[from..] else [];
    }

    method GetStats() returns (totalSubscribers: nat, totalChannels: nat, totalConnections: nat)
      ensures totalSubscribers == SumSizes(subscribers)
      ensures totalChannels == |subscribers| && totalConnections == |connections|
    {
      totalSubscribers := 0;
      var todo := subscribers.Keys;
      ghost var done := {};
      assert Pairs(Only(subscribers, {})) == {};
      while todo != {}
        invariant done + todo == subscribers.Keys && done !! todo
        invariant totalSubscribers == |Pairs(Only(subscribers, done))|
        decreases todo
      {
        var k :| k in todo;
        PairsOneMore(subscribers, done, k);
        totalSubscribers := totalSubscribers + |subscribers[k]|;
        todo, done := todo - {k}, done + {k};
      }
      assert Only(subscribers, done) == subscribers;
      SumIsPairs(subscribers);
      totalChannels, totalConnections := |subscribers|, |connections|;
    }
  }

  // ---- Counting subscriptions two ways ----

  ghost function SumSizes<K, V>(m: map<K, set<V>>): nat
    decreases |m|
  {
    if m == map[] then 0 else |m[Pick(m)]| + SumSizes(m - {Pick(m)})
  }

  ghost function Pairs<K, V>(m: map<K, set<V>>): set<(K, V)> {
    set k, v | k in m && v in m[k] :: (k, v)
  }

  ghost function Only<K, V>(m: map<K, V>, keys: set<K>): map<K, V> {
    map k | k in m && k in keys :: m[k]
  }

  ghost function Image<A(!new), B>(s: set<A>, f: A -> B): set<B> {
    set a | a in s :: f(a)
  }

  // The image of a set under an injective function has as many elements.
  lemma ImageSize<A(!new), B>(s: set<A>, f: A -> B)
    requires forall a, b :: a in s && b in s && f(a) == f(b) ==> a == b
    ensures |Image(s, f)| == |s|
  {
    if s != {} {
      var x :| x in s;
      ImageSize(s - {x}, f);
      assert Image(s, f) == Image(s - {x}, f) + {f(x)};
      assert f(x) !in Image(s - {x}, f);
    }
  }

  lemma PairsOneMore<K(!new), V(!new)>(m: map<K, set<V>>, done: set<K>, k: K)
    requires k in m && k !in done
    ensures |Pairs(Only(m, done + {k}))| == |Pairs(Only(m, done))| + |m[k]|
  {
    var f := (v: V) => (k, v);
    var a, b := Pairs(Only(m, done)), Image(m[k], f);
    ImageSize(m[k], f);
    forall p | p in Pairs(Only(m, done + {k}))
      ensures p in a || p in b
    {
      if p.0 == k {
        assert f(p.1) == p;
      }
    }
    assert Pairs(Only(m, done + {k})) == a + b;
    assert a !! b;
  }

  lemma SumIsPairs<K(!new), V(!new)>(m: map<K, set<V>>)
    ensures SumSizes(m) == |Pairs(m)|
    decreases |m|
  {
    if m == map[] {
      assert Pairs(m) == {};
    } else {
      var k := Pick(m);
      var rest := m.Keys - {k};
      SumIsPairs(m - {k});
      assert m - {k} == Only(m, rest);
      assert m == Only(m, rest + {k});
      PairsOneMore(m, rest, k);
    }
  }

  ghost function ChannelsOf(connections: map<Socket, Connection>): map<Socket, set<string>> {
    map ws | ws in connections :: connections[ws].channels
  }

  // total_subscribers is the number of channels listed over all connections.
  lemma SubscribersCountChannels<D>(h: Hub<D>)
    requires Mirror(h)
    ensures SumSizes(h.subscribers) == SumSizes(ChannelsOf(h.connections))
  {
    var listed := Pairs(ChannelsOf(h.connections));
    var f := (p: (Socket, string)) =>
      (ChannelKey(if p.0 in h.connections then h.connections[p.0].orgId else "", p.1), p.0);
    forall p, q | p in listed && q in listed && f(p) == f(q)
      ensures p == q
    {
      ChannelKeyInjective(h.connections[p.0].orgId, p.1, h.connections[q.0].orgId, q.1);
    }
    ImageSize(listed, f);
    var image := Image(listed, f);
    forall k, ws
      ensures (k, ws) in image <==> (k, ws) in Pairs(h.subscribers)
    {
      if (k, ws) in Pairs(h.subscribers) {
        var name :| name in h.connections[ws].channels && k == ChannelKey(h.connections[ws].orgId, name);
        assert (ws, name) in listed && f((ws, name)) == (k, ws);
      }
      if (k, ws) in image {
        var p :| p in listed && f(p) == (k, ws);
        assert k in KeysOf(h.connections[ws]);
      }
    }
    assert image == Pairs(h.subscribers);
    SumIsPairs(h.subscribers);
    SumIsPairs(ChannelsOf(h.connections));
  }

  // ---- Whole runs ----

  function PublishStep<D>(h: Hub<D>, orgId: string, m: Message<D>, failing: set<Socket>): Hub<D> {
    var key := ChannelKey(orgId, m.channel);
    Forget(Remember(h, key, m), GetOr(h.subscribers, key, {}) * failing)
  }

  datatype Action<D> =
    | SubscribeTo(ws: Socket, orgId: string, name: string)
    | UnsubscribeFrom(ws: Socket, orgId: string, name: string)
    | Leave(ws: Socket)
    | Send(orgId: string, message: Message<D>, failing: set<Socket>)

  function Step<D>(h: Hub<D>, a: Action<D>): Hub<D> {
    match a
    case SubscribeTo(ws, orgId, name) => Subscribe(h, ws, orgId, name)
    case UnsubscribeFrom(ws, orgId, name) => Unsubscribe(h, ws, orgId, name)
    case Leave(ws) => Disconnect(h, ws)
    case Send(orgId, m, failing) => PublishStep(h, orgId, m, failing)
  }

  function Run<D>(actions: seq<Action<D>>): Hub<D> {
    if actions == [] then Hub(map[], map[], map[]) else Step(Run(Front(actions)), Last(actions))
  }

  // Each socket acts for one fixed organisation, as the WebSocket endpoint arranges.
  ghost predicate Faithful<D>(actions: seq<Action<D>>, orgOf: Socket -> string) {
    && (forall ws :: ':' !in orgOf(ws))
    && forall a :: a in actions && (a.SubscribeTo? || a.UnsubscribeFrom?) ==> a.orgId == orgOf(a.ws)
  }

  lemma {:induction false} RunMirror<D>(actions: seq<Action<D>>, orgOf: Socket -> string)
    requires Faithful(actions, orgOf)
    ensures var h := Run(actions); Mirror(h) && forall ws :: ws in h.connections ==> h.connections[ws].orgId == orgOf(ws)
  {
    if actions != [] {
      var before, a := Front(actions), Last(actions);
      assert a in actions && forall b :: b in before ==> b in actions;
      RunMirror(before, orgOf);
      match a
      case SubscribeTo(ws, orgId, name) => SubscribeMirror(Run(before), ws, orgId, name);
      case UnsubscribeFrom(ws, orgId, name) => UnsubscribeMirror(Run(before), ws, orgId, name);
      case Leave(ws) => DisconnectMirror(Run(before), ws);
      case Send(orgId, m, failing) =>
        var key := ChannelKey(orgId, m.channel);
        ForgetMirror(Remember(Run(before), key, m), GetOr(Run(before).subscribers, key, {}) * failing);
    }
  }

  // After any run: membership and connection records say the same, and the totals agree.
  lemma RegistriesAgree<D>(actions: seq<Action<D>>, orgOf: Socket -> string, ws: Socket, orgId: string, name: string)
    requires Faithful(actions, orgOf) && ':' !in orgId
    ensures var h := Run(actions);
      && (ws in GetOr(h.subscribers, ChannelKey(orgId, name), {}) <==>
          ws in h.connections && h.connections[ws].orgId == orgId && name in h.connections[ws].channels)
      && SumSizes(h.subscribers) == SumSizes(ChannelsOf(h.connections))
  {
    RunMirror(actions, orgOf);
    MirrorExact(Run(actions), ws, orgId, name);
    SubscribersCountChannels(Run(actions));
  }

  // Everything published to a key, in order.
  function Published<D>(actions: seq<Action<D>>, key: string): seq<Message<D>> {
    if actions == [] then []
    else
      var a := Last(actions);
      Published(Front(actions), key) +
      (if a.Send? && ChannelKey(a.orgId, a.message.channel) == key then [a.message] else [])
  }

  // The history of a channel is the last 100 messages published to it.
  lemma {:induction false} RecentIsLastPublished<D>(actions: seq<Action<D>>, key: string)
    ensures GetOr(Run(actions).recent, key, []) == LastN(Published(actions, key), 100)
  {
    if actions != [] {
      RecentIsLastPublished(Front(actions), key);
    }
  }
}
