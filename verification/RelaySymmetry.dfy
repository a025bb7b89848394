/** When the two sides of a relayed pair point at each other, and what makes them stop. */
module RelaySymmetry {
  import opened Text
  import opened Wire
  import opened Durations
  import opened Rendezvous
  import opened RendezvousInvariants
  import opened PairingInvariants
  import opened TrafficInvariants
  import opened RendezvousRuns
  import opened PairedRun

  /** A route that is pointed at points back. */
  ghost predicate Strict(relays: map<Bytes, Route>) {
    forall a | a in relays && relays[a].peer in relays :: relays[relays[a].peer].peer == a
  }

  /** A datagram brings back a route that was reclaimed while its partner's was kept. */
  ghost predicate RevivesHalf(relays: map<Bytes, Route>, step: Step) {
    && step.DoDatagram? && ParseProbe(step.d).Some?
    && ParseProbe(step.d).value.token !in relays
    && exists a :: a in relays && relays[a].peer == ParseProbe(step.d).value.token
  }

  lemma ReclaimStrict(relays: map<Bytes, Route>, gone: set<Bytes>)
    requires Strict(relays)
    ensures Strict(relays - gone)
  {}

  lemma TouchStrict(relays: map<Bytes, Route>, token: Bytes, route: Route)
    requires Strict(relays) && [] !in relays && token != []
    requires route.peer == if token in relays then relays[token].peer else []
    ensures Strict(relays[token := route])
            <==> !(token !in relays && exists a :: a in relays && relays[a].peer == token)
  {
    var relays1 := relays[token := route];
    if a :| token !in relays && a in relays && relays[a].peer == token {
      assert relays1[a].peer == token && relays1[token].peer != a;
    }
  }

  lemma PairStrict(relays: map<Bytes, Route>, partner: map<Bytes, Bytes>, heard: map<Bytes, Addr>, issued: set<Bytes>,
                   now: int, swept: int, host: Bytes, client: Bytes, code: string)
    requires Strict(relays) && RoutesOk(relays, partner, heard, now, swept) && PartnersOk(partner, issued)
    requires host !in partner && client !in partner && host != client && host != [] && client != []
    ensures Strict(PairRoutes(relays, host, client, code, now))
  {
    var relays1 := PairRoutes(relays, host, client, code, now);
    forall a | a in relays1 && relays1[a].peer in relays1 ensures relays1[relays1[a].peer].peer == a {
      if a != host && a != client {
        assert relays1[a] == relays[a];
        assert relays[a].peer != host && relays[a].peer != client;
      }
    }
  }

  lemma DatagramKeepsStrict(st: State, from: Addr, d: Bytes)
    requires TrafficOk(st) && Strict(st.relays)
    ensures Strict(Datagram(st, from, d).relays) <==> !RevivesHalf(st.relays, DoDatagram(from, d))
  {
    assert [] !in st.relays;
    if ParseProbe(d).Some? {
      var probe := ParseProbe(d).value;
      TouchStrict(st.relays, probe.token, Touched(st, probe.token, from, probe.payload));
    }
  }

  lemma TryPairKeepsStrict(st: State, p: nat)
    requires Linked(st) && PairingOk(st) && TrafficOk(st) && p < |st.peers| && Strict(st.relays)
    ensures Strict(TryPair(st, p).relays)
  {
    var s := st.peers[p].session;
    if CanPair(st.store[s], Settle(st.peers, p)) {
      var h, c := st.store[s].host.value, st.store[s].client.value;
      PairPartners(st.store, st.peers, st.past.issued, st.past.partner, s);
      PairStrict(st.relays, st.past.partner, st.past.heard, st.past.issued, st.now, st.past.swept,
                 st.peers[h].token, st.peers[c].token, st.store[s].code);
    }
  }

  lemma PruneKeepsStrict(st: State, age: string)
    requires Strict(st.relays)
    ensures Strict(Prune(st, age).relays)
  {
    if PruneWindow(age).Some? {
      ReclaimStrict(st.relays, Expired(st.relays, st.now, PruneWindow(age).value));
    }
  }

  /** Of all steps exactly this one ends the symmetry of the pairs. */
  lemma SymmetryKeptIff(st: State, step: Step)
    requires Linked(st) && PairingOk(st) && TrafficOk(st) && Enabled(st, step) && Strict(st.relays)
    ensures Strict(Next(st, step).relays) <==> !RevivesHalf(st.relays, step)
  {
    match step
    case DoDatagram(from, d) => DatagramKeepsStrict(st, from, d);
    case DoTryPair(p) => TryPairKeepsStrict(st, p);
    case DoSweep => ReclaimStrict(st.relays, Expired(st.relays, st.now, RELAY_TTL));
    case DoPrune(age) => PruneKeepsStrict(st, age);
    case DoDeleteRelay(token) => ReclaimStrict(st.relays, RelayPair(st.relays, token));
    case DoDeleteSession(code) => if code in st.sessions { DeleteKeepsStrict(st, code); }
    case _ =>
  }

  lemma DeleteKeepsStrict(st: State, code: string)
    requires Linked(st) && code in st.sessions && Strict(st.relays)
    ensures Strict(DeleteSession(st, code).relays)
  {
    var sess := st.store[st.sessions[code]];
    assert MemberLinked(sess.host, st.sessions[code], Host, st.peers);
    assert MemberLinked(sess.client, st.sessions[code], Client, st.peers);
    ReclaimStrict(st.relays, TokensOf(sess, st.peers));
  }

  /** No step of the run revives half a pair. */
  ghost predicate NeverRevives(st: State, steps: seq<Step>)
    requires Linked(st) && Feasible(st, steps)
    decreases |steps|
  {
    steps == []
    || (!RevivesHalf(st.relays, steps[0]) && (NextLinked(st, steps[0]); NeverRevives(Next(st, steps[0]), steps[1..])))
  }

  /** So the pairs are symmetric throughout every run without such a step. */
  lemma {:induction false} SymmetricUnlessRevived(st: State, steps: seq<Step>)
    requires Linked(st) && PairingOk(st) && TrafficOk(st) && Strict(st.relays)
    requires Feasible(st, steps) && NeverRevives(st, steps)
    ensures Strict(After(st, steps).relays)
    decreases |steps|
  {
    if steps != [] {
      SymmetryKeptIff(st, steps[0]);
      NextPairing(st, steps[0]);
      NextTraffic(st, steps[0]);
      SymmetricUnlessRevived(Next(st, steps[0]), steps[1..]);
    }
  }

  // --- An example --------------------------------------------------------------------

  /** The routes while one side keeps sending. */
  ghost predicate OneSends(st: State, t0: Bytes, t1: Bytes, heard: int, now: int) {
    && st.relays.Keys == {t0, t1} && st.relays[t0].peer == t1 && st.relays[t1].peer == t0
    && st.relays[t0].seen == heard && st.relays[t1].seen == 0 && st.now == now
  }

  ghost predicate HalfGone(st: State, t0: Bytes, t1: Bytes) {
    st.relays.Keys == {t0} && st.relays[t0].peer == t1
  }

  lemma Sends(st: State, t: Bytes, from: Addr)
    requires |t| == TOKEN_LEN
    ensures Datagram(st, from, Frame(t, [])).relays == st.relays[t := Touched(st, t, from, [])]
  {
    ParseInvertsFrame(Frame(t, []), t, []);
  }

  lemma SilentSideGoes(st: State, t0: Bytes, t1: Bytes)
    requires OneSends(st, t0, t1, 2 * MINUTE, 4 * MINUTE) && t0 != t1
    ensures HalfGone(Sweep(st), t0, t1)
  {
    assert Expired(st.relays, st.now, RELAY_TTL) == {t1};
  }

  /** It happens: two peers are paired, one of them stays silent for four minutes and its route is
      swept, then it sends again. Its partner's route still leads to it, its own leads nowhere. */
  lemma HalfAPair(t0: Bytes, t1: Bytes, from: Addr) returns (steps: seq<Step>)
    requires |t0| == |t1| == TOKEN_LEN && t0 != t1
    ensures Run(0, steps) && t0 in Reached(0, steps).relays && t1 in Reached(0, steps).relays
    ensures Reached(0, steps).relays[t0].peer == t1 && Reached(0, steps).relays[t1].peer == []
  {
    steps := ReachTogether(t0, t1);
    var wait, first, second := DoWait(2 * MINUTE), DoDatagram(from, Frame(t0, [])), DoDatagram(from, Frame(t1, []));
    Extend(0, steps, wait);
    steps := steps + [wait];
    Sends(Reached(0, steps), t0, from);
    Extend(0, steps, first);
    steps := steps + [first];
    Extend(0, steps, wait);
    steps := steps + [wait];
    assert OneSends(Reached(0, steps), t0, t1, 2 * MINUTE, 4 * MINUTE);
    SilentSideGoes(Reached(0, steps), t0, t1);
    Extend(0, steps, DoSweep);
    steps := steps + [DoSweep];
    Sends(Reached(0, steps), t1, from);
    Extend(0, steps, second);
    steps := steps + [second];
  }
}
