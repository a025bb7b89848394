/** Where the routes lead, how long they live, and what the counters add up to. */
module TrafficInvariants {
  import opened Text
  import opened Wire
  import opened Rendezvous
  import opened RendezvousInvariants
  import opened PairingInvariants

  /** A route leads nowhere or to its token's partner, and its address is the latest one
      the token was heard from. No route has been silent since before the sweep's window. */
  ghost predicate RoutesOk(relays: map<Bytes, Route>, partner: map<Bytes, Bytes>, heard: map<Bytes, Addr>, now: int,
                           swept: int) {
    && swept <= now
    && forall t | t in relays ::
         && |t| == TOKEN_LEN
         && (relays[t].peer == [] || (t in partner && relays[t].peer == partner[t]))
         && (relays[t].addr.None? || (t in heard && relays[t].addr.value == heard[t]))
         && swept - RELAY_TTL <= relays[t].seen <= now
  }

  function CountPaired(store: seq<Session>): nat {
    if store == [] then 0
    else (if store[|store| - 1].paired then 1 else 0) + CountPaired(store[..|store| - 1])
  }
  /** Every datagram is accounted for, and so is every packet and byte counted on a route,
      whether the route is still there or was reclaimed. */
  ghost predicate Balanced(stats: Stats, live: Load, past: Past) {
    && stats.udpPackets == stats.udpInvalid + stats.reflections + stats.relayedPkts + stats.droppedPkts
    && live.packets + past.reclaimed.packets == stats.relayedPkts + stats.droppedPkts
    && live.bytes + past.reclaimed.bytes == stats.relayedBytes + past.droppedBytes
  }

  ghost predicate Counted(st: State) {
    && st.stats.peersJoined == |st.peers|
    && st.stats.pairs == CountPaired(st.store)
  }

  ghost predicate TrafficOk(st: State) {
    && RoutesOk(st.relays, st.past.partner, st.past.heard, st.now, st.past.swept)
    && Balanced(st.stats, Total(st.relays), st.past)
    && Counted(st)
  }

  // --- Sums over the table -----------------------------------------------------------

  /** The sum does not depend on the order in which the routes are visited. */
  lemma {:induction false} TotalWithout(relays: map<Bytes, Route>, t: Bytes)
    requires t in relays
    ensures Total(relays) == LoadOf(relays[t]).Plus(Total(relays - {t}))
    decreases |relays|
  {
    var u := SomeToken(relays);
    if u != t {
      TotalWithout(relays - {u}, t);
      TotalWithout(relays - {t}, u);
      assert relays - {u} - {t} == relays - {t} - {u};
    }
  }

  ghost function Part(relays: map<Bytes, Route>, gone: set<Bytes>): map<Bytes, Route> {
    map t | t in relays && t in gone :: relays[t]
  }

  lemma WithoutGone(relays: map<Bytes, Route>, gone: set<Bytes>, t: Bytes)
    requires t in relays && t in gone
    ensures Part(relays, gone) - {t} == Part(relays - {t}, gone)
    ensures relays - gone == relays - {t} - gone
  {}

  lemma WithoutKept(relays: map<Bytes, Route>, gone: set<Bytes>, t: Bytes)
    requires t in relays && t !in gone
    ensures Part(relays, gone) == Part(relays - {t}, gone)
    ensures relays - gone - {t} == relays - {t} - gone
  {}

  lemma PlusRegroups(a: Load, b: Load, c: Load, d: Load)
    requires a == b.Plus(c)
    ensures d.Plus(a) == d.Plus(b).Plus(c) == b.Plus(d.Plus(c))
  {}

  lemma PlusCancels(a: Load, b: Load, c: Load)
    requires a.Plus(c) == b.Plus(c)
    ensures a == b
  {}

  lemma PlusCarries(a: Load, b: Load, more: Load, before: Load)
    requires a.Plus(before) == b.Plus(more.Plus(before))
    ensures a == b.Plus(more)
  {}

  lemma TotalSplitAt(relays: map<Bytes, Route>, gone: set<Bytes>, t: Bytes)
    requires t in relays
    requires Splits(relays - {t}, gone)
    ensures Splits(relays, gone)
  {
    var load := LoadOf(relays[t]);
    assert Total(relays) == load.Plus(Total(relays - {t})) by { TotalWithout(relays, t); }
    if t in gone {
      assert relays - gone == relays - {t} - gone by { WithoutGone(relays, gone, t); }
      assert Total(Part(relays, gone)) == load.Plus(Total(Part(relays - {t}, gone))) by {
        WithoutGone(relays, gone, t);
        TotalWithout(Part(relays, gone), t);
      }
    } else {
      assert Part(relays, gone) == Part(relays - {t}, gone) by { WithoutKept(relays, gone, t); }
      assert Total(relays - gone) == load.Plus(Total(relays - {t} - gone)) by {
        WithoutKept(relays, gone, t);
        TotalWithout(relays - gone, t);
      }
    }
    PlusRegroups(Total(relays - {t}), Total(relays - {t} - gone), Total(Part(relays - {t}, gone)), load);
  }

  ghost predicate Splits(relays: map<Bytes, Route>, gone: set<Bytes>) {
    Total(relays) == Total(relays - gone).Plus(Total(Part(relays, gone)))
  }

  lemma NothingSplits(a: map<Bytes, Route>, b: map<Bytes, Route>, c: map<Bytes, Route>)
    requires a == map[] && b == a && c == a
    ensures Total(a) == Total(b).Plus(Total(c))
  {}

  lemma NoParts(relays: map<Bytes, Route>, gone: set<Bytes>)
    requires relays == map[]
    ensures relays - gone == relays && Part(relays, gone) == relays
  {}

  /** Traffic is divided between the routes that stay and those that go. */
  lemma {:induction false} TotalSplit(relays: map<Bytes, Route>, gone: set<Bytes>)
    ensures Splits(relays, gone)
    decreases |relays|
  {
    if relays == map[] {
      NoParts(relays, gone);
      NothingSplits(relays, relays - gone, Part(relays, gone));
    } else {
      var t := SomeToken(relays);
      TotalSplit(relays - {t}, gone);
      TotalSplitAt(relays, gone, t);
    }
  }

  lemma TotalUpdate(relays: map<Bytes, Route>, t: Bytes, route: Route)
    ensures var before := if t in relays then LoadOf(relays[t]) else NoLoad();
            Total(relays[t := route]).Plus(before) == Total(relays).Plus(LoadOf(route))
  {
    TotalWithout(relays[t := route], t);
    assert relays[t := route] - {t} == relays - {t};
    if t in relays { TotalWithout(relays, t); } else { assert relays - {t} == relays; }
  }

  lemma PairRouteTotal(relays: map<Bytes, Route>, token: Bytes, peer: Bytes, code: string, role: Role, now: int)
    ensures Total(PairRoute(relays, token, peer, code, role, now)) == Total(relays)
  {
    var route := PairRoute(relays, token, peer, code, role, now)[token];
    TotalUpdate(relays, token, route);
    PlusCancels(Total(relays[token := route]), Total(relays), LoadOf(route));
  }

  lemma PairRoutesTotal(relays: map<Bytes, Route>, host: Bytes, client: Bytes, code: string, now: int)
    ensures Total(PairRoutes(relays, host, client, code, now)) == Total(relays)
  {
    PairRouteTotal(relays, host, client, code, Host, now);
    PairRouteTotal(PairRoute(relays, host, client, code, Host, now), client, host, code, Client, now);
  }

  // --- Steps -------------------------------------------------------------------------

  lemma PairRoutesOk(relays: map<Bytes, Route>, partner: map<Bytes, Bytes>, heard: map<Bytes, Addr>, now: int,
                     swept: int,
                     host: Bytes, client: Bytes, code: string)
    requires RoutesOk(relays, partner, heard, now, swept)
    requires |host| == TOKEN_LEN && |client| == TOKEN_LEN && host != client
    requires host !in partner && client !in partner
    ensures RoutesOk(PairRoutes(relays, host, client, code, now), Partnered(partner, host, client), heard, now, swept)
  {}

  lemma DatagramRoutes(st: State, from: Addr, d: Bytes)
    requires RoutesOk(st.relays, st.past.partner, st.past.heard, st.now, st.past.swept)
    ensures var st1 := Datagram(st, from, d);
            RoutesOk(st1.relays, st1.past.partner, st1.past.heard, st1.now, st1.past.swept)
  {
    if ParseProbe(d).Some? {
      var Probe(token, payload) := ParseProbe(d).value;
      var route := Touched(st, token, from, payload);
      var relays, heard := st.relays[token := route], st.past.heard[token := from];
      assert RoutesOk(relays, st.past.partner, heard, st.now, st.past.swept);
    }
  }

  lemma TotalGrows(relays: map<Bytes, Route>, t: Bytes, route: Route, before: Load, more: Load)
    requires before == if t in relays then LoadOf(relays[t]) else NoLoad()
    requires LoadOf(route) == more.Plus(before)
    ensures Total(relays[t := route]) == Total(relays).Plus(more)
  {
    assert Total(relays[t := route]).Plus(before) == Total(relays).Plus(more.Plus(before)) by {
      TotalUpdate(relays, t, route);
    }
    PlusCarries(Total(relays[t := route]), Total(relays), more, before);
  }

  /** What a datagram adds to the traffic of its route. */
  function Carried(payload: Bytes): Load {
    Load(if payload == [] then 0 else 1, |payload|)
  }

  lemma TouchedLoad(st: State, token: Bytes, from: Addr, payload: Bytes, before: Load)
    requires before == if token in st.relays then LoadOf(st.relays[token]) else NoLoad()
    ensures LoadOf(Touched(st, token, from, payload)) == Carried(payload).Plus(before)
  {}

  lemma TouchedTotal(st: State, token: Bytes, from: Addr, payload: Bytes, relays: map<Bytes, Route>)
    requires relays == st.relays[token := Touched(st, token, from, payload)]
    ensures Total(relays) == Total(st.relays).Plus(Carried(payload))
  {
    var before := if token in st.relays then LoadOf(st.relays[token]) else NoLoad();
    TouchedLoad(st, token, from, payload, before);
    TotalGrows(st.relays, token, Touched(st, token, from, payload), before, Carried(payload));
  }

  lemma DatagramBalanced(st: State, from: Addr, d: Bytes)
    requires Balanced(st.stats, Total(st.relays), st.past)
    ensures var st1 := Datagram(st, from, d); Balanced(st1.stats, Total(st1.relays), st1.past)
  {
    if ParseProbe(d).Some? {
      TouchedTotal(st, ParseProbe(d).value.token, from, ParseProbe(d).value.payload, Datagram(st, from, d).relays);
    }
  }

  lemma DatagramTraffic(st: State, from: Addr, d: Bytes)
    requires TrafficOk(st)
    ensures TrafficOk(Datagram(st, from, d))
  {
    DatagramRoutes(st, from, d);
    DatagramBalanced(st, from, d);
  }

  lemma ReclaimTraffic(st: State, gone: set<Bytes>)
    requires TrafficOk(st)
    ensures TrafficOk(Reclaim(st, gone))
  {
    TotalSplit(st.relays, gone);
  }

  lemma SweepTraffic(st: State)
    requires TrafficOk(st)
    ensures TrafficOk(Sweep(st))
  {
    ReclaimTraffic(st, Expired(st.relays, st.now, RELAY_TTL));
  }

  lemma {:induction false} CountPairedUpdate(store: seq<Session>, s: nat, sess: Session)
    requires s < |store|
    ensures CountPaired(store[s := sess]) + (if store[s].paired then 1 else 0)
            == CountPaired(store) + (if sess.paired then 1 else 0)
  {
    var last := |store| - 1;
    if s < last {
      assert store[s := sess][..last] == store[..last][s := sess];
      CountPairedUpdate(store[..last], s, sess);
    } else {
      assert store[s := sess][..last] == store[..last];
    }
  }

  lemma StoreForPaired(st: State, code: string, role: Role, p: nat)
    requires code in st.sessions ==> st.sessions[code] < |st.store|
    ensures CountPaired(WithMember(StoreFor(st, code), SessionFor(st, code), role, p)) == CountPaired(st.store)
  {
    var store, s := StoreFor(st, code), SessionFor(st, code);
    assert code !in st.sessions ==> store[..|st.store|] == st.store;
    CountPairedUpdate(store, s, store[s].With(role, Some(p)));
  }

  lemma JoinTraffic(st: State, first: First, token: Bytes, relayAddr: string)
    requires Linked(st) && TrafficOk(st)
    ensures TrafficOk(Join(st, first, token, relayAddr))
  {
    if JoinError(st, first).None? {
      StoreForPaired(st, first.code, first.role.value, |st.peers|);
    }
  }

  lemma LeaveTraffic(st: State, p: nat)
    requires p < |st.peers| && st.peers[p].session < |st.store| && TrafficOk(st)
    ensures TrafficOk(Leave(st, p))
  {
    var s := st.peers[p].session;
    CountPairedUpdate(st.store, s, Leave(st, p).store[s]);
  }

  lemma PairTraffic(st: State, s: nat, h: nat, c: nat)
    requires s < |st.store| && h < |st.peers| && c < |st.peers| && !st.store[s].paired && TrafficOk(st)
    requires |st.peers[h].token| == |st.peers[c].token| == TOKEN_LEN && st.peers[h].token != st.peers[c].token
    requires st.peers[h].token !in st.past.partner && st.peers[c].token !in st.past.partner
    ensures TrafficOk(Pair(st, s, h, c))
  {
    var host, client, code := st.peers[h].token, st.peers[c].token, st.store[s].code;
    PairRoutesOk(st.relays, st.past.partner, st.past.heard, st.now, st.past.swept, host, client, code);
    PairRoutesTotal(st.relays, host, client, code, st.now);
    CountPairedUpdate(st.store, s, st.store[s].(paired := true));
  }

  lemma TryPairTraffic(st: State, p: nat)
    requires Linked(st) && PairingOk(st) && p < |st.peers| && TrafficOk(st)
    ensures TrafficOk(TryPair(st, p))
  {
    var s := st.peers[p].session;
    if CanPair(st.store[s], Settle(st.peers, p)) {
      var h, c := st.store[s].host.value, st.store[s].client.value;
      PairPartners(st.store, st.peers, st.past.issued, st.past.partner, s);
      PairTraffic(st.(peers := Settle(st.peers, p)), s, h, c);
    }
  }

  lemma DeleteSessionTraffic(st: State, code: string)
    requires Linked(st) && TrafficOk(st)
    ensures TrafficOk(DeleteSession(st, code))
  {
    if code in st.sessions {
      ReclaimTraffic(st, TokensOf(st.store[st.sessions[code]], st.peers));
    }
  }

  lemma PruneTraffic(st: State, age: string)
    requires TrafficOk(st)
    ensures TrafficOk(Prune(st, age))
  {
    if PruneWindow(age).Some? {
      ReclaimTraffic(st, Expired(st.relays, st.now, PruneWindow(age).value));
    }
  }

  lemma RelayStepTraffic(st: State, step: Step)
    requires Linked(st) && TrafficOk(st) && Enabled(st, step) && OnlyTraffic(step)
    ensures TrafficOk(Next(st, step))
  {
    match step
    case DoDatagram(from, d) => DatagramTraffic(st, from, d);
    case DoSweep => SweepTraffic(st);
    case DoPrune(age) => PruneTraffic(st, age);
    case DoDeleteRelay(token) => ReclaimTraffic(st, RelayPair(st.relays, token));
    case DoWait(dt) =>
  }

  lemma ReadyTraffic(st: State, p: nat, offer: Offer)
    requires p < |st.peers| && TrafficOk(st)
    ensures TrafficOk(MarkReady(st, p, offer))
  {}

  lemma NextTraffic(st: State, step: Step)
    requires Linked(st) && PairingOk(st) && TrafficOk(st) && Enabled(st, step)
    ensures TrafficOk(Next(st, step))
  {
    match step
    case DoJoin(first, token, relayAddr) => JoinTraffic(st, first, token, relayAddr);
    case DoReady(p, offer) => ReadyTraffic(st, p, offer);
    case DoTryPair(p) => TryPairTraffic(st, p);
    case DoLeave(p) => LeaveTraffic(st, p);
    case DoDeleteSession(code) => DeleteSessionTraffic(st, code);
    case _ => RelayStepTraffic(st, step);
  }
}
