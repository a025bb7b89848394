/** Whole runs of the rendezvous server: any number of steps, in any order the environment
    can produce. */
module RendezvousRuns {
  import opened Text
  import opened Wire
  import opened Durations
  import opened Rendezvous
  import opened RendezvousInvariants
  import opened PairingInvariants
  import opened MessageInvariants
  import opened TrafficInvariants

  ghost predicate Sound(st: State) {
    Linked(st) && PairingOk(st) && MessagesOk(st.peers, st.past.partner) && TrafficOk(st)
  }

  lemma InitLinked(now: int)
    ensures RegistryOk(Init(now)) && PairingOk(Init(now))
  {}

  lemma InitSound(now: int)
    ensures Sound(Init(now)) && RegistryOk(Init(now))
  {
    InitLinked(now);
    assert MessagesOk(Init(now).peers, Init(now).past.partner);
    assert TrafficOk(Init(now));
  }

  lemma NextSound(st: State, step: Step)
    requires Sound(st) && Enabled(st, step)
    ensures Sound(Next(st, step))
  {
    NextPairing(st, step);
    NextMessages(st, step);
    NextTraffic(st, step);
  }

  /** The steps can be taken one after the other. */
  ghost predicate Feasible(st: State, steps: seq<Step>)
    requires Linked(st)
    decreases |steps|
  {
    steps == [] || (Enabled(st, steps[0]) && (NextLinked(st, steps[0]); Feasible(Next(st, steps[0]), steps[1..])))
  }

  ghost function After(st: State, steps: seq<Step>): (st1: State)
    requires Linked(st) && Feasible(st, steps)
    ensures Linked(st1)
    decreases |steps|
  {
    if steps == [] then st else (NextLinked(st, steps[0]); After(Next(st, steps[0]), steps[1..]))
  }

  lemma {:induction false} SoundAfter(st: State, steps: seq<Step>)
    requires Sound(st) && Feasible(st, steps)
    ensures Sound(After(st, steps))
    decreases |steps|
  {
    if steps != [] {
      NextSound(st, steps[0]);
      SoundAfter(Next(st, steps[0]), steps[1..]);
    }
  }

  /** A run of a server that was started at some time. */
  ghost predicate Run(now: int, steps: seq<Step>) {
    InitLinked(now);
    Feasible(Init(now), steps)
  }

  ghost function Reached(now: int, steps: seq<Step>): (st: State)
    requires Run(now, steps)
    ensures Linked(st)
  {
    InitLinked(now);
    After(Init(now), steps)
  }

  /** Everything the steps keep holds wherever a run can get to. */
  lemma ReachedSound(now: int, steps: seq<Step>)
    requires Run(now, steps)
    ensures Sound(Reached(now, steps))
  {
    InitSound(now);
    SoundAfter(Init(now), steps);
  }

  // --- Routes ------------------------------------------------------------------------

  lemma TryPairKeepsPartners(st: State, p: nat, a: Bytes)
    requires Linked(st) && PairingOk(st) && p < |st.peers| && a in st.past.partner
    ensures a in TryPair(st, p).past.partner && TryPair(st, p).past.partner[a] == st.past.partner[a]
  {
    var s := st.peers[p].session;
    if CanPair(st.store[s], Settle(st.peers, p)) {
      PairPartners(st.store, st.peers, st.past.issued, st.past.partner, s);
    }
  }

  lemma NextKeepsPartners(st: State, step: Step, a: Bytes)
    requires Linked(st) && PairingOk(st) && Enabled(st, step) && a in st.past.partner
    ensures a in Next(st, step).past.partner && Next(st, step).past.partner[a] == st.past.partner[a]
  {
    if step.DoTryPair? {
      TryPairKeepsPartners(st, step.p, a);
    } else {
      OnlyPairingAddsPartners(st, step);
    }
  }

  /** Whoever is paired stays paired with the same token, whatever happens afterwards. */
  lemma {:induction false} PartnersForever(st: State, steps: seq<Step>, a: Bytes)
    requires Sound(st) && Feasible(st, steps) && a in st.past.partner
    ensures a in After(st, steps).past.partner && After(st, steps).past.partner[a] == st.past.partner[a]
    decreases |steps|
  {
    if steps != [] {
      NextSound(st, steps[0]);
      NextKeepsPartners(st, steps[0], a);
      PartnersForever(Next(st, steps[0]), steps[1..], a);
    }
  }

  /** Where relay routes lead, under any mix of datagrams, sweeps, prunes and deletes. A
      reclaimed route can come back without its pairing, so the two directions of a pair need
      not both exist; but a route never leads to anybody except its token's one partner. */
  lemma RouteTargets(now: int, steps: seq<Step>)
    requires Run(now, steps)
    ensures var st := Reached(now, steps); var partner := st.past.partner;
            && [] !in st.relays
            && (forall a | a in partner :: partner[a] != a && partner[a] in partner && partner[partner[a]] == a)
            && (forall a | a in st.relays && st.relays[a].peer != [] ::
                  a in partner && st.relays[a].peer == partner[a])
            && (forall a | a in st.relays && st.relays[a].peer in st.relays ::
                  st.relays[st.relays[a].peer].peer in {a, []})
  {
    ReachedSound(now, steps);
    var st := Reached(now, steps);
    forall a | a in st.relays && st.relays[a].peer in st.relays ensures st.relays[st.relays[a].peer].peer in {a, []} {
      var b := st.relays[a].peer;
      assert |b| == TOKEN_LEN;
    }
  }

  /** The datagrams a step writes. */
  ghost function NewlySent(st: State, st1: State): seq<Packet> {
    if |st.past.sent| <= |st1.past.sent| then st1.past.sent[|st.past.sent|..] else []
  }

  /** The answer to a datagram that carries a token: the observed address if it has no payload;
      otherwise the payload is forwarded exactly when the sender's route leads to a route with a
      known address. It then goes to the address the partner was last heard from, unchanged and
      under the sender's token. */
  ghost predicate Answers(st: State, from: Addr, token: Bytes, payload: Bytes, out: seq<Packet>) {
    if payload == [] then out == [Packet(from, "RTAD" + from.text)]
    else if token in st.relays && st.relays[token].peer in st.relays && st.relays[st.relays[token].peer].addr.Some? then
      && token in st.past.partner && st.past.partner[token] in st.past.heard
      && out == [Packet(st.past.heard[st.past.partner[token]], "RT01" + token + payload)]
    else out == []
  }

  lemma DatagramAnswers(st: State, from: Addr, token: Bytes, payload: Bytes)
    requires |token| == TOKEN_LEN && PartnersOk(st.past.partner, st.past.issued)
    requires RoutesOk(st.relays, st.past.partner, st.past.heard, st.now, st.past.swept)
    ensures Answers(st, from, token, payload, NewlySent(st, Datagram(st, from, Frame(token, payload))))
  {
    ParseInvertsFrame(Frame(token, payload), token, payload);
    assert [] !in st.relays && [] !in st.past.partner;
    var st1 := Datagram(st, from, Frame(token, payload));
    assert token in st.relays ==> Touched(st, token, from, payload).peer == st.relays[token].peer;
    assert NewlySent(st, st1) == st1.past.sent[|st.past.sent|..];
  }

  /** The server answers so in every state it can be in. */
  lemma Forwarding(now: int, steps: seq<Step>, from: Addr, token: Bytes, payload: Bytes)
    requires Run(now, steps) && |token| == TOKEN_LEN
    ensures var st := Reached(now, steps);
            Answers(st, from, token, payload, NewlySent(st, Datagram(st, from, Frame(token, payload))))
  {
    ReachedSound(now, steps);
    DatagramAnswers(Reached(now, steps), from, token, payload);
  }

  /** A datagram that does not carry the magic and a whole token is only counted. */
  lemma InvalidIgnored(st: State, from: Addr, d: Bytes)
    requires forall token: Bytes, payload: Bytes :: |token| == 16 ==> d != "RT01" + token + payload
    ensures Datagram(st, from, d)
            == st.(stats := st.stats.(udpPackets := st.stats.udpPackets + 1, udpInvalid := st.stats.udpInvalid + 1))
  {
    if ParseProbe(d).Some? {
      var probe := ParseProbe(d).value;
      ParseInvertsFrame(d, probe.token, probe.payload);
    }
  }

  /** Every datagram is counted in exactly one way, and the traffic shown on the routes, kept
      or reclaimed, is the traffic relayed plus the traffic dropped. */
  lemma Conservation(now: int, steps: seq<Step>)
    requires Run(now, steps)
    ensures var st := Reached(now, steps); var stats, live, past := st.stats, Total(st.relays), st.past;
            && stats.udpPackets == stats.udpInvalid + stats.reflections + stats.relayedPkts + stats.droppedPkts
            && live.packets + past.reclaimed.packets == stats.relayedPkts + stats.droppedPkts
            && live.bytes + past.reclaimed.bytes == stats.relayedBytes + past.droppedBytes
            && stats.peersJoined == |st.peers| && stats.pairs == CountPaired(st.store)
  {
    ReachedSound(now, steps);
  }

  /** No route has been silent for longer than the TTL plus the time since the last sweep: with
      a sweep every minute and a TTL of three minutes, not for more than four minutes. */
  lemma SilenceBound(now: int, steps: seq<Step>, t: Bytes)
    requires Run(now, steps) && t in Reached(now, steps).relays
    ensures var st := Reached(now, steps);
            && st.relays[t].seen <= st.now
            && st.now - st.relays[t].seen <= RELAY_TTL + (st.now - st.past.swept)
            && (st.now - st.past.swept <= SWEEP_PERIOD ==> st.now - st.relays[t].seen <= 4 * MINUTE)
  {
    ReachedSound(now, steps);
  }

  // --- The registry ------------------------------------------------------------------

  ghost predicate NoDeletes(steps: seq<Step>) {
    forall i | 0 <= i < |steps| :: !steps[i].DoDeleteSession?
  }

  ghost predicate AllOpen(st: State) {
    forall p | 0 <= p < |st.peers| :: st.peers[p].open
  }

  lemma NextAllOpen(st: State, step: Step)
    requires Linked(st) && Enabled(st, step) && AllOpen(st) && !step.DoDeleteSession?
    ensures AllOpen(Next(st, step))
  {
    match step
    case DoTryPair(p) => TryPairKeepsPlaces(st, p);
    case DoJoin(_, _, _) =>
    case DoReady(_, _) =>
    case DoLeave(_) =>
    case _ => TrafficLeavesSignaling(st, step);
  }

  lemma {:induction false} RegistryAfter(st: State, steps: seq<Step>)
    requires RegistryOk(st) && AllOpen(st) && Feasible(st, steps) && NoDeletes(steps)
    ensures RegistryOk(After(st, steps)) && AllOpen(After(st, steps))
    decreases |steps|
  {
    if steps != [] {
      assert !(steps[0].DoLeave? && StaleLeave(st, steps[0].p));
      NextRegistered(st, steps[0]);
      NextAllOpen(st, steps[0]);
      RegistryAfter(Next(st, steps[0]), steps[1..]);
    }
  }

  ghost predicate Connected(peers: seq<Peer>, code: string, p: nat) {
    p < |peers| && peers[p].active && peers[p].code == code
  }

  /** In every run, a registered code has a connected peer in its session. */
  lemma RegisteredHasPeer(sessions: map<string, nat>, store: seq<Session>, peers: seq<Peer>, code: string)
    returns (p: nat)
    requires CodesLinked(sessions, store) && MembersLinked(store, peers) && PeersLinked(store, peers)
    requires code in sessions
    ensures Connected(peers, code, p) && peers[p].session == sessions[code]
  {
    var s := sessions[code];
    assert MemberLinked(store[s].host, s, Host, peers) && MemberLinked(store[s].client, s, Client, peers);
    p := if store[s].host.Some? then store[s].host.value else store[s].client.value;
  }

  /** The code is registered exactly while somebody is connected under it, and everybody
      connected under it is in the registered session. */
  ghost predicate RegistryShows(sessions: map<string, nat>, peers: seq<Peer>, code: string) {
    && (code in sessions <==> exists p: nat :: Connected(peers, code, p))
    && forall p: nat | Connected(peers, code, p) :: peers[p].session == sessions[code]
  }

  lemma RegistryMeans(sessions: map<string, nat>, store: seq<Session>, peers: seq<Peer>, code: string)
    requires CodesLinked(sessions, store) && MembersLinked(store, peers) && PeersLinked(store, peers)
    requires Registered(sessions, peers) && forall p | 0 <= p < |peers| :: peers[p].open
    ensures RegistryShows(sessions, peers, code)
  {
    if code in sessions {
      var p := RegisteredHasPeer(sessions, store, peers, code);
    }
  }

  /** In a run in which no administrator deletes a session, the registry matches the connections. */
  lemma RegistryExact(now: int, steps: seq<Step>, code: string)
    requires Run(now, steps) && NoDeletes(steps)
    ensures RegistryShows(Reached(now, steps).sessions, Reached(now, steps).peers, code)
  {
    InitSound(now);
    RegistryAfter(Init(now), steps);
    var st := Reached(now, steps);
    RegistryMeans(st.sessions, st.store, st.peers, code);
  }

  lemma FeasibleCons(st: State, step: Step, steps: seq<Step>)
    requires Linked(st) && Enabled(st, step) && Linked(Next(st, step)) && Feasible(Next(st, step), steps)
    ensures Feasible(st, [step] + steps) && After(st, [step] + steps) == After(Next(st, step), steps)
  {
    assert ([step] + steps)[1..] == steps;
  }

  lemma {:induction false} FeasibleSnoc(st: State, steps: seq<Step>, step: Step)
    requires Linked(st) && Feasible(st, steps) && Enabled(After(st, steps), step)
    ensures Feasible(st, steps + [step]) && After(st, steps + [step]) == Next(After(st, steps), step)
    decreases |steps|
  {
    if steps == [] {
      NextLinked(st, step);
      FeasibleCons(st, step, []);
      assert steps + [step] == [step] + [];
    } else {
      NextLinked(st, steps[0]);
      FeasibleSnoc(Next(st, steps[0]), steps[1..], step);
      FeasibleCons(st, steps[0], steps[1..] + [step]);
      assert steps + [step] == [steps[0]] + (steps[1..] + [step]);
    }
  }

  /** A run can go on with any step that is enabled where it ended. */
  lemma Extend(now: int, steps: seq<Step>, step: Step)
    requires Run(now, steps) && Enabled(Reached(now, steps), step)
    ensures Run(now, steps + [step]) && Reached(now, steps + [step]) == Next(Reached(now, steps), step)
  {
    InitSound(now);
    FeasibleSnoc(Init(now), steps, step);
  }

  lemma JoinNewCode(st: State, code: string, role: Role, token: Bytes)
    requires Linked(st) && code != "" && code !in st.sessions
    ensures var st1 := Join(st, Hello(code, Some(role)), token, "");
            && st1.sessions == st.sessions[code := |st.store|]
            && st1.store == st.store + [NewSession(code).With(role, Some(|st.peers|))]
            && |st1.peers| == |st.peers| + 1 && st1.peers[..|st.peers|] == st.peers
            && st1.past.issued == st.past.issued + {token}
            && st1.peers[|st.peers|].session == |st.store| && st1.peers[|st.peers|].role == role
            && Connected(st1.peers, code, |st.peers|)
            && st1.peers[|st.peers|].open && !st1.peers[|st.peers|].matching
  {}

  lemma LeaveAlone(st: State, p: nat)
    requires p < |st.peers| && st.peers[p].session < |st.store|
    requires var s := st.peers[p].session;
             st.store[s] == NewSession(st.store[s].code).With(st.peers[p].role, Some(p))
    ensures Leave(st, p).sessions == st.sessions - {st.peers[p].code}
    ensures Leave(st, p).past == st.past && |Leave(st, p).store| == |st.store|
    ensures |Leave(st, p).peers| == |st.peers|
    ensures forall q | 0 <= q < |st.peers| && q != p :: Leave(st, p).peers[q] == st.peers[q]
  {
  }

  /** A host is waiting alone in the session registered under "c", and the code's previous
      host, whose session was deleted, has not left yet. */
  ghost predicate Superseded(st: State, t1: Bytes) {
    && |st.peers| == 2 && |st.store| == 2 && st.sessions == map["c" := 1]
    && st.peers[0].session == 0 && st.store[0] == NewSession("c").With(Host, Some(0)) && st.peers[0].role == Host
    && st.peers[0].code == "c" && st.peers[0].active && !st.peers[0].matching
    && Connected(st.peers, "c", 1) && st.peers[1].role == Host && st.peers[1].open && st.peers[1].session == 1
    && t1 in st.past.issued
  }

  /** The session of a host was deleted and the host has not left yet. */
  ghost predicate Abandoned(st: State) {
    && |st.peers| == 1 && |st.store| == 1 && st.sessions == map[]
    && st.peers[0].session == 0 && st.store[0] == NewSession("c").With(Host, Some(0)) && st.peers[0].role == Host
    && st.peers[0].code == "c" && st.peers[0].active && !st.peers[0].matching
  }

  ghost predicate Alone(st: State) {
    && |st.peers| == 1 && |st.store| == 1 && st.sessions == map["c" := 0]
    && st.peers[0].session == 0 && st.store[0] == NewSession("c").With(Host, Some(0)) && st.peers[0].role == Host
    && st.peers[0].code == "c" && st.peers[0].active && !st.peers[0].matching
  }

  lemma FreshRun(now: int)
    ensures Run(now, []) && Reached(now, []) == Init(now)
  {}

  lemma FirstJoin(now: int, t0: Bytes)
    ensures Alone(Join(Init(now), Hello("c", Some(Host)), t0, ""))
    ensures Join(Init(now), Hello("c", Some(Host)), t0, "").past.issued == {t0}
  {}

  lemma ReachAlone(t0: Bytes) returns (steps: seq<Step>)
    requires |t0| == TOKEN_LEN
    ensures Run(0, steps) && Alone(Reached(0, steps)) && Reached(0, steps).past.issued == {t0}
  {
    FreshRun(0);
    FirstJoin(0, t0);
    var join := DoJoin(Hello("c", Some(Host)), t0, "");
    Extend(0, [], join);
    steps := [] + [join];
  }

  lemma ReachAbandoned(t0: Bytes) returns (steps: seq<Step>)
    requires |t0| == TOKEN_LEN
    ensures Run(0, steps) && Abandoned(Reached(0, steps)) && Reached(0, steps).past.issued == {t0}
  {
    steps := ReachAlone(t0);
    DeletedAlone(Reached(0, steps));
    Extend(0, steps, DoDeleteSession("c"));
    steps := steps + [DoDeleteSession("c")];
  }

  lemma DeletedAlone(st: State)
    requires Linked(st) && st.sessions == map["c" := 0] && |st.peers| == 1
    ensures var st1 := DeleteSession(st, "c");
            && st1.sessions == map[] && st1.store == st.store && st1.past.issued == st.past.issued
            && |st1.peers| == 1 && (st1.peers[0] == st.peers[0] || st1.peers[0] == HangUp(st.peers[0]))
  {
    DeleteSessionHangsUp(st, "c");
  }

  lemma ReachSuperseded(t0: Bytes, t1: Bytes, t2: Bytes) returns (steps: seq<Step>)
    requires |t0| == |t1| == TOKEN_LEN && t0 != t1 && t2 !in {t0, t1}
    ensures Run(0, steps) && Superseded(Reached(0, steps), t1) && t2 !in Reached(0, steps).past.issued
  {
    var host := Hello("c", Some(Host));
    steps := ReachAbandoned(t0);
    var st := Reached(0, steps);
    JoinNewCode(st, "c", Host, t1);
    Extend(0, steps, DoJoin(host, t1, ""));
    steps := steps + [DoJoin(host, t1, "")];
    assert Reached(0, steps).peers[0] == Reached(0, steps).peers[..1][0] == st.peers[0];
  }

  /** With a delete the registry can go wrong: the handler of a session that was deleted
      unregisters the code's new session when it leaves, and the client that joins next
      is put into a third session, away from the host that is waiting under the same code. */
  lemma DeleteCanSplitACode(t0: Bytes, t1: Bytes, t2: Bytes) returns (steps: seq<Step>)
    requires |t0| == |t1| == |t2| == TOKEN_LEN && t0 != t1 && t2 !in {t0, t1}
    ensures Run(0, steps)
    ensures var peers := Reached(0, steps).peers;
            && Connected(peers, "c", 1) && peers[1].role == Host && peers[1].open
            && Connected(peers, "c", 2) && peers[2].role == Client && peers[2].open
            && peers[1].session != peers[2].session
  {
    steps := ReachSuperseded(t0, t1, t2);
    var client := Hello("c", Some(Client));
    var st := Reached(0, steps);
    LeaveAlone(st, 0);
    Extend(0, steps, DoLeave(0));
    steps := steps + [DoLeave(0)];
    JoinNewCode(Leave(st, 0), "c", Client, t2);
    Extend(0, steps, DoJoin(client, t2, ""));
    steps := steps + [DoJoin(client, t2, "")];
    assert Reached(0, steps).peers[1] == Reached(0, steps).peers[..2][1];
  }

  // --- The repair --------------------------------------------------------------------

  /** Leave with an identity check: the code is unregistered only if it still names the
      session that became empty. */
  function LeaveChecked(st: State, p: nat): State
    requires p < |st.peers| && st.peers[p].session < |st.store|
  {
    var code := st.peers[p].code;
    if code in st.sessions && st.sessions[code] != st.peers[p].session
    then Leave(st, p).(sessions := st.sessions)
    else Leave(st, p)
  }

  lemma StillLinked(sessions: map<string, nat>, store: seq<Session>, peers: seq<Peer>, p: nat, sess: Session)
    requires CodesLinked(sessions, store) && PeersLinked(store, peers) && Registered(sessions, peers)
    requires p < |peers| && peers[p].code in sessions && sessions[peers[p].code] != peers[p].session
    ensures CodesLinked(sessions, store[peers[p].session := sess])
    ensures Registered(sessions, peers[p := peers[p].(active := false)])
  {
    forall c | c in sessions && sessions[c] == peers[p].session ensures c == peers[p].code {}
  }

  lemma StaleLeaveChecked(st: State, p: nat)
    requires RegistryOk(st) && Enabled(st, DoLeave(p))
    requires st.peers[p].code in st.sessions && st.sessions[st.peers[p].code] != st.peers[p].session
    ensures RegistryOk(LeaveChecked(st, p))
  {
    LeaveLinked(st, p);
    var sess := st.store[st.peers[p].session].With(st.peers[p].role, None);
    StillLinked(st.sessions, st.store, st.peers, p, sess);
    UnseatOpen(st.sessions, st.store, st.peers, p);
  }

  lemma LeaveCheckedRegistered(st: State, p: nat)
    requires RegistryOk(st) && Enabled(st, DoLeave(p))
    ensures RegistryOk(LeaveChecked(st, p))
    ensures !StaleLeave(st, p) ==> LeaveChecked(st, p) == Leave(st, p)
  {
    if st.peers[p].code in st.sessions && st.sessions[st.peers[p].code] != st.peers[p].session {
      StaleLeaveChecked(st, p);
    } else {
      LeaveRegistered(st, p);
    }
  }

  ghost function NextChecked(st: State, step: Step): (st1: State)
    requires RegistryOk(st) && Enabled(st, step)
    ensures RegistryOk(st1)
  {
    if step.DoLeave? then LeaveCheckedRegistered(st, step.p); LeaveChecked(st, step.p)
    else NextRegistered(st, step); Next(st, step)
  }

  /** With the check, every run keeps the registry right, deletes included. */
  ghost predicate FeasibleChecked(st: State, steps: seq<Step>)
    requires RegistryOk(st)
    decreases |steps|
  {
    steps == [] || (Enabled(st, steps[0]) && FeasibleChecked(NextChecked(st, steps[0]), steps[1..]))
  }

  ghost function AfterChecked(st: State, steps: seq<Step>): (st1: State)
    requires RegistryOk(st) && FeasibleChecked(st, steps)
    ensures RegistryOk(st1)
    decreases |steps|
  {
    if steps == [] then st else AfterChecked(NextChecked(st, steps[0]), steps[1..])
  }

  // --- Pairing -----------------------------------------------------------------------

  /** This step makes session s pair. */
  ghost predicate Pairs(st: State, step: Step, s: nat)
    requires Linked(st) && Enabled(st, step)
  {
    step.DoTryPair? && st.peers[step.p].session == s && CanPair(st.store[s], Settle(st.peers, step.p))
  }

  ghost function TimesPaired(st: State, steps: seq<Step>, s: nat): nat
    requires Sound(st) && Feasible(st, steps)
    decreases |steps|
  {
    if steps == [] then 0
    else
      NextSound(st, steps[0]);
      (if Pairs(st, steps[0], s) then 1 else 0) + TimesPaired(Next(st, steps[0]), steps[1..], s)
  }

  lemma TryPairPairs(st: State, p: nat, s: nat)
    requires SessionInRange(st, p) && s < |st.store|
    ensures s < |TryPair(st, p).store|
    ensures TryPair(st, p).store[s].paired
            == (st.store[s].paired || (st.peers[p].session == s && CanPair(st.store[s], Settle(st.peers, p))))
  {}

  lemma JoinKeepsPaired(st: State, first: First, token: Bytes, relayAddr: string, s: nat)
    requires Linked(st) && s < |st.store|
    ensures s < |Join(st, first, token, relayAddr).store|
    ensures Join(st, first, token, relayAddr).store[s].paired == st.store[s].paired
  {}

  lemma NextKeepsPaired(st: State, step: Step, s: nat)
    requires Linked(st) && Enabled(st, step) && s < |st.store|
    ensures s < |Next(st, step).store|
    ensures Next(st, step).store[s].paired == (st.store[s].paired || Pairs(st, step, s))
  {
    match step
    case DoTryPair(p) => TryPairPairs(st, p, s);
    case DoJoin(first, token, relayAddr) => JoinKeepsPaired(st, first, token, relayAddr, s);
    case DoReady(_, _) =>
    case DoLeave(_) =>
    case DoDeleteSession(_) =>
    case _ => TrafficLeavesSignaling(st, step);
  }

  /** A session pairs at most once, however often its peers become ready, leave or join again. */
  lemma {:induction false} PairsAtMostOnce(st: State, steps: seq<Step>, s: nat)
    requires Sound(st) && Feasible(st, steps)
    ensures TimesPaired(st, steps, s) <= 1
    ensures s < |st.store| && st.store[s].paired ==> TimesPaired(st, steps, s) == 0
    decreases |steps|
  {
    if steps != [] {
      NextSound(st, steps[0]);
      if s < |st.store| { NextKeepsPaired(st, steps[0], s); }
      PairsAtMostOnce(Next(st, steps[0]), steps[1..], s);
    }
  }

  /** Two peers that are present and ready in one session: the session has paired, unless one
      of their handlers is still on its way to do it. If both were introduced at all, they
      were introduced to each other. */
  lemma PresentPeers(now: int, steps: seq<Step>, s: nat)
    requires Run(now, steps) && s < |Reached(now, steps).store|
    requires Reached(now, steps).store[s].host.Some? && Reached(now, steps).store[s].client.Some?
    ensures var st := Reached(now, steps); var h, c := st.store[s].host.value, st.store[s].client.value;
            && h < |st.peers| && c < |st.peers|
            && (st.peers[h].ready && st.peers[c].ready && !st.peers[h].matching && !st.peers[c].matching
                ==> st.store[s].paired)
            && (st.peers[h].token in st.past.partner && st.peers[c].token in st.past.partner
                ==> st.past.partner[st.peers[h].token] == st.peers[c].token)
  {
    ReachedSound(now, steps);
    var st := Reached(now, steps);
    assert MemberLinked(st.store[s].host, s, Host, st.peers) && MemberLinked(st.store[s].client, s, Client, st.peers);
  }

  /** No step takes a peer away or makes it somebody else. */
  lemma SamePerson(st: State, step: Step, p: nat)
    requires Linked(st) && Enabled(st, step) && p < |st.peers|
    ensures |st.peers| <= |Next(st, step).peers|
    ensures var peer, peer1 := st.peers[p], Next(st, step).peers[p];
            && peer1.session == peer.session && peer1.token == peer.token && peer1.role == peer.role
            && (peer1.active ==> peer.active)
  {
    match step
    case DoJoin(_, _, _) =>
    case DoReady(_, _) =>
    case DoTryPair(q) => TryPairKeepsPlaces(st, q);
    case DoLeave(_) =>
    case DoDeleteSession(code) => if code in st.sessions { DeleteSessionHangsUp(st, code); }
    case _ => TrafficLeavesSignaling(st, step);
  }
}
