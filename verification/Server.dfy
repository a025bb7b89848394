/** The rendezvous server as the program has it: maps from codes to session objects and from
    tokens to routes, updated in place. Each method is one critical section of the server's
    mutex; its contract says which step of the state machine in Rendezvous it takes. */
module Server {
  import opened Text
  import opened Sorting
  import opened Wire
  import opened Rendezvous
  import opened RendezvousInvariants

  /** The parts of the state after a join. */
  ghost predicate JoinOf(st: State, code: string, role: Role, token: Bytes, relayAddr: string, st1: State) {
    var s := SessionFor(st, code);
    && s < |StoreFor(st, code)|
    && st1.sessions == st.sessions[code := s] && st1.store == WithMember(StoreFor(st, code), s, role, |st.peers|)
    && st1.peers == st.peers + [Send(Newcomer(role, code, s, token), [Reflected(token, relayAddr)])]
    && st1.relays == st.relays && st1.past.sent == st.past.sent
    && st1.stats == st.stats.(peersJoined := st.stats.peersJoined + 1)
  }

  lemma JoinedState(st: State, first: First, token: Bytes, relayAddr: string)
    requires Linked(st) && JoinError(st, first).None?
    ensures Linked(Join(st, first, token, relayAddr))
    ensures JoinOf(st, first.code, first.role.value, token, relayAddr, Join(st, first, token, relayAddr))
  {
    JoinLinked(st, first, token, relayAddr);
  }

  /** The parts of the state after a leave. */
  ghost predicate LeftOf(st: State, p: nat, s: nat, st1: State) {
    && p < |st.peers| && s < |st.store|
    && var role, code := st.peers[p].role, st.peers[p].code;
       var sess := st.store[s].With(role, None);
    && st1.sessions == (if sess.Empty() then st.sessions - {code} else st.sessions)
    && st1.store == st.store[s := sess] && st1.peers == st.peers[p := st.peers[p].(active := false)]
    && st1.relays == st.relays && st1.stats == st.stats && st1.past.sent == st.past.sent
  }

  lemma LeftState(st: State, p: nat) returns (s: nat)
    requires Linked(st) && Enabled(st, DoLeave(p))
    ensures Linked(Leave(st, p)) && s == st.peers[p].session && LeftOf(st, p, s, Leave(st, p))
    ensures s < |st.store| && st.store[s].Member(st.peers[p].role) == Some(p)
  {
    LeaveLinked(st, p);
    s := st.peers[p].session;
    assert Seated(st.store[s], st.peers[p].role, p);
  }

  /** The parts of the state after an attempt to pair. */
  ghost predicate TriedOf(st: State, s: nat, peers: seq<Peer>, now: int, st1: State)
    requires s < |st.store| && InRange(st.store[s], peers)
  {
    var sess := st.store[s];
    && st1.sessions == st.sessions && st1.past.sent == st.past.sent
    && if CanPair(sess, peers) then
         var h, c := sess.host.value, sess.client.value;
         && st1.store == st.store[s := sess.(paired := true)] && st1.peers == Introduce(peers, h, c)
         && st1.relays == PairRoutes(st.relays, peers[h].token, peers[c].token, sess.code, now)
         && st1.stats == st.stats.(pairs := st.stats.pairs + 1)
       else st1.store == st.store && st1.peers == peers && st1.relays == st.relays && st1.stats == st.stats
  }

  lemma PairedState(st: State, p: nat) returns (s: nat)
    requires Linked(st) && p < |st.peers|
    ensures SessionInRange(st, p) && s == st.peers[p].session
    ensures Linked(TryPair(st, p)) && TriedOf(st, s, Settle(st.peers, p), st.now, TryPair(st, p))
    ensures MemberLinked(st.store[s].host, s, Host, Settle(st.peers, p))
    ensures MemberLinked(st.store[s].client, s, Client, Settle(st.peers, p))
  {
    s := st.peers[p].session;
    assert MemberLinked(st.store[s].host, s, Host, st.peers) && MemberLinked(st.store[s].client, s, Client, st.peers);
    TryPairLinked(st, p);
    TryPairKeepsPlaces(st, p);
  }

  lemma DeletedState(st: State, code: string) returns (s: nat)
    requires Linked(st) && code in st.sessions
    ensures var st1 := DeleteSession(st, code);
            && Linked(st1) && s == st.sessions[code] < |st.store| && InRange(st.store[s], st.peers)
            && st1.sessions == st.sessions - {code} && st1.store == st.store
            && st1.peers == HangUpOn(HangUpOn(st.peers, st.store[s].host), st.store[s].client)
            && st1.relays == st.relays - TokensOf(st.store[s], st.peers)
            && st1.stats == st.stats && st1.past.sent == st.past.sent
  {
    DeleteSessionLinked(st, code);
    s := st.sessions[code];
    assert MemberLinked(st.store[s].host, s, Host, st.peers) && MemberLinked(st.store[s].client, s, Client, st.peers);
  }

  lemma AppendedSend(peers: seq<Peer>, peer: Peer, msgs: seq<Message>)
    ensures (peers + [peer])[|peers| := Send(peer, msgs)] == peers + [Send(peer, msgs)]
  {}

  class PeerConn {
    ghost const id: nat
    const role: Role
    const code: string
    const token: Bytes
    const session: Meeting
    var offer: Offer
    var ready: bool
    var open: bool
    var outbox: seq<Message>

    constructor (ghost id: nat, role: Role, code: string, token: Bytes, session: Meeting)
      ensures this.id == id && this.role == role && this.code == code && this.token == token && this.session == session
      ensures offer == NoOffer() && !ready && open && outbox == []
    {
      this.id, this.role, this.code, this.token, this.session := id, role, code, token, session;
      offer, ready, open, outbox := NoOffer(), false, true, [];
    }

    method Send(m: Message)
      modifies this`outbox
      ensures outbox == old(outbox) + if open then [m] else []
    {
      if open { outbox := outbox + [m]; }
    }
  }

  /** The peers that presented one code. */
  class Meeting {
    ghost const id: nat
    const code: string
    var peers: map<Role, PeerConn>
    var paired: bool

    constructor (ghost id: nat, code: string)
      ensures this.id == id && this.code == code && peers == map[] && !paired
    {
      this.id, this.code, peers, paired := id, code, map[], false;
    }
  }

  class RendezvousServer {
    var sessions: map<string, Meeting>
    var relays: map<Bytes, Route>
    var stats: Stats
    /** Datagrams written to the UDP socket. */
    var udpOut: seq<Packet>

    /** The abstract state, and every session and peer object ever made, in order. */
    ghost var model: State
    ghost var meetings: seq<Meeting>
    ghost var conns: seq<PeerConn>

    ghost predicate Valid()
      reads this, meetings, conns
    {
      Linked(model) && Represents(model)
    }

    /** The concrete state agrees with an abstract one. */
    ghost predicate Represents(st: State)
      reads this, meetings, conns
    {
      && relays == st.relays && stats == st.stats && udpOut == st.past.sent
      && ObjectsMatch(meetings, conns, st.store, st.peers) && RegistryMatches(sessions, meetings, st.sessions)
    }

    static ghost predicate ObjectsMatch(meetings: seq<Meeting>, conns: seq<PeerConn>, store: seq<Session>,
                              peers: seq<Peer>)
      reads meetings, conns
    {
      MeetingsMatch(meetings, conns, store) && ConnsMatch(meetings, conns, peers)
    }

    static ghost predicate MeetingsMatch(meetings: seq<Meeting>, conns: seq<PeerConn>, store: seq<Session>)
      reads meetings
    {
      |meetings| == |store| && forall s | 0 <= s < |meetings| :: MeetingMatches(meetings[s], s, store[s], conns)
    }

    static ghost predicate ConnsMatch(meetings: seq<Meeting>, conns: seq<PeerConn>, peers: seq<Peer>)
      reads conns
    {
      |conns| == |peers| && forall p | 0 <= p < |conns| :: ConnMatches(conns[p], p, peers[p], meetings)
    }

    static ghost predicate RegistryMatches(registry: map<string, Meeting>, meetings: seq<Meeting>, codes: map<string,
                              nat>) {
      && registry.Keys == codes.Keys
      && forall c | c in registry :: codes[c] < |meetings| && registry[c] == meetings[codes[c]]
    }

    static ghost predicate MeetingMatches(meeting: Meeting, s: nat, sess: Session, conns: seq<PeerConn>)
      reads meeting
    {
      && meeting.id == s && meeting.code == sess.code && meeting.paired == sess.paired
      && SideMatches(meeting.peers, Host, sess.host, conns) && SideMatches(meeting.peers, Client, sess.client, conns)
    }

    static ghost predicate SideMatches(peers: map<Role, PeerConn>, role: Role, member: Option<nat>,
                              conns: seq<PeerConn>) {
      && (role in peers <==> member.Some?)
      && (role in peers ==> member.value < |conns| && peers[role] == conns[member.value])
    }

    static ghost predicate ConnMatches(conn: PeerConn, p: nat, peer: Peer, meetings: seq<Meeting>)
      reads conn
    {
      && conn.id == p && peer.session < |meetings| && conn.session == meetings[peer.session]
      && conn.role == peer.role && conn.code == peer.code && conn.token == peer.token
      && conn.offer == peer.offer && conn.ready == peer.ready && conn.open == peer.open
      && conn.outbox == peer.outbox
    }

    constructor (now: int)
      ensures Valid() && model == Init(now)
    {
      sessions, relays, stats, udpOut := map[], map[], Stats(0, 0, 0, 0, 0, 0, 0, 0), [];
      model, meetings, conns := Init(now), [], [];
    }

    /** A new session object; nobody else refers to it yet. */
    method Open(code: string, ghost store: seq<Session>, ghost peers: seq<Peer>) returns (sess: Meeting)
      requires ObjectsMatch(meetings, conns, store, peers)
      modifies this`meetings
      ensures meetings == old(meetings) + [sess] && fresh(sess) && sess.id == |store| && sess.code == code
      ensures ObjectsMatch(meetings, conns, store + [NewSession(code)], peers)
    {
      sess := new Meeting(|meetings|, code);
      meetings := meetings + [sess];
    }

    /** The session registered under a code; made and registered if there is none. */
    method FindOrOpen(code: string) returns (sess: Meeting)
      requires ObjectsMatch(meetings, conns, model.store, model.peers)
      requires RegistryMatches(sessions, meetings, model.sessions)
      requires code in model.sessions ==>
                 model.sessions[code] < |model.store| && model.store[model.sessions[code]].code == code
      modifies this`meetings, this`sessions
      ensures ObjectsMatch(meetings, conns, StoreFor(model, code), model.peers)
      ensures RegistryMatches(sessions, meetings, model.sessions[code := SessionFor(model, code)])
      ensures sess.id == SessionFor(model, code) < |meetings| && meetings[sess.id] == sess && sess.code == code
      ensures sess in old(meetings) || fresh(sess)
    {
      if code in sessions {
        sess := sessions[code];
        assert MeetingMatches(sess, model.sessions[code], model.store[model.sessions[code]], conns);
      } else {
        sess := Open(code, model.store, model.peers);
        sessions := sessions[code := sess];
      }
    }

    /** A new connection object that belongs to a session. */
    method AddConn(sess: Meeting, role: Role, token: Bytes, ghost store: seq<Session>, ghost peers: seq<Peer>)
      returns (pc: PeerConn)
      requires MeetingsMatch(meetings, conns, store) && ConnsMatch(meetings, conns, peers)
      requires sess.id < |meetings| && meetings[sess.id] == sess
      modifies this`conns
      ensures conns == old(conns) + [pc] && fresh(pc) && pc.id == |peers|
      ensures MeetingsMatch(meetings, conns, store)
      ensures ConnsMatch(meetings, conns, peers + [Newcomer(role, sess.code, sess.id, token)])
    {
      pc := new PeerConn(|conns|, role, sess.code, token, sess);
      conns := conns + [pc];
    }

    /** It takes its role's place there. */
    method TakePlace(sess: Meeting, pc: PeerConn, ghost store: seq<Session>)
      requires MeetingsMatch(meetings, conns, store)
      requires sess.id < |meetings| && meetings[sess.id] == sess && Known(pc)
      modifies sess`peers
      ensures MeetingsMatch(meetings, conns, WithMember(store, sess.id, pc.role, pc.id))
    {
      sess.peers := sess.peers[pc.role := pc];
    }

    /** Write messages to one connection. */
    method Deliver(pc: PeerConn, msgs: seq<Message>, ghost peers: seq<Peer>)
      requires ConnsMatch(meetings, conns, peers) && Known(pc)
      modifies pc`outbox
      ensures ConnsMatch(meetings, conns, peers[pc.id := Send(peers[pc.id], msgs)])
    {
      assert ConnMatches(pc, pc.id, peers[pc.id], meetings);
      for i := 0 to |msgs|
        invariant pc.outbox == Send(peers[pc.id], msgs[..i]).outbox
      {
        assert msgs[..i + 1] == msgs[..i] + [msgs[i]];
        pc.Send(msgs[i]);
      }
      assert msgs[..|msgs|] == msgs;
    }

    /** What is wrong with a first frame, if anything. */
    method Check(first: First) returns (problem: Option<string>)
      requires MeetingsMatch(meetings, conns, model.store) && RegistryMatches(sessions, meetings, model.sessions)
      ensures problem == JoinError(model, first)
    {
      if first.NotHello? { return Some("expected hello"); }
      if first.code == "" || first.role.None? { return Some("missing code or role"); }
      var code, role := first.code, first.role.value;
      if code in sessions {
        assert MeetingMatches(sessions[code], model.sessions[code], model.store[model.sessions[code]], conns);
        if role in sessions[code].peers {
          return Some("a " + role.Name() + " is already connected for this code");
        }
      }
      return None;
    }

    /** A first frame arrives. The token is fresh; the caller made it. */
    method Register(first: First, token: Bytes, relayAddr: string) returns (r: Result<PeerConn>)
      requires Valid()
      modifies this, meetings
      ensures Valid() && model == Join(old(model), first, token, relayAddr)
      ensures JoinError(old(model), first) == (if r.Err? then Some(r.error) else None)
      ensures r.Ok? ==> conns == old(conns) + [r.value] && fresh(r.value)
    {
      var problem := Check(first);
      if problem.Some? { return Err(problem.value); }
      JoinedState(model, first, token, relayAddr);
      var pc := Admit(first.code, first.role.value, token, relayAddr, Join(model, first, token, relayAddr));
      return Ok(pc);
    }

    /** Put a new connection into its session. */
    method Admit(code: string, role: Role, token: Bytes, relayAddr: string, ghost after: State) returns (pc: PeerConn)
      requires Represents(model)
      requires code in model.sessions ==>
                 model.sessions[code] < |model.store| && model.store[model.sessions[code]].code == code
      requires JoinOf(model, code, role, token, relayAddr, after)
      modifies this`sessions, this`meetings, this`conns, this`stats, this`model, meetings
      ensures model == after && Represents(after)
      ensures conns == old(conns) + [pc] && fresh(pc)
    {
      var sess := FindOrOpen(code);
      pc := AdmitTo(sess, role, token, relayAddr, StoreFor(model, code), after);
    }

    method AdmitTo(sess: Meeting, role: Role, token: Bytes, relayAddr: string, ghost store: seq<Session>,
                   ghost after: State)
      returns (pc: PeerConn)
      requires ObjectsMatch(meetings, conns, store, model.peers) && RegistryMatches(sessions, meetings, after.sessions)
      requires sess.id < |meetings| && meetings[sess.id] == sess
      requires relays == after.relays && udpOut == after.past.sent
      requires after.stats == stats.(peersJoined := stats.peersJoined + 1)
      requires after.store == WithMember(store, sess.id, role, |model.peers|)
      requires after.peers == model.peers + [Send(Newcomer(role, sess.code, sess.id, token),
                                                  [Reflected(token, relayAddr)])]
      modifies this`conns, this`stats, this`model, sess`peers
      ensures model == after && Represents(after)
      ensures conns == old(conns) + [pc] && fresh(pc)
    {
      pc := Greet(sess, role, token, relayAddr, store, model.peers);
      model := after;
    }

    /** Seat a new connection and tell it its token. */
    method Greet(sess: Meeting, role: Role, token: Bytes, relayAddr: string, ghost store: seq<Session>,
                 ghost peers: seq<Peer>)
      returns (pc: PeerConn)
      requires MeetingsMatch(meetings, conns, store) && ConnsMatch(meetings, conns, peers)
      requires sess.id < |meetings| && meetings[sess.id] == sess
      modifies this`conns, this`stats, sess`peers
      ensures conns == old(conns) + [pc] && fresh(pc)
      ensures MeetingsMatch(meetings, conns, WithMember(store, sess.id, role, |peers|))
      ensures ConnsMatch(meetings, conns,
                         peers + [Send(Newcomer(role, sess.code, sess.id, token), [Reflected(token, relayAddr)])])
      ensures stats == old(stats).(peersJoined := old(stats).peersJoined + 1)
    {
      pc := Enter(sess, role, token, store, peers);
      stats := stats.(peersJoined := stats.peersJoined + 1);
      AppendedSend(peers, Newcomer(role, sess.code, sess.id, token), [Reflected(token, relayAddr)]);
      Deliver(pc, [Reflected(token, relayAddr)], peers + [Newcomer(role, sess.code, sess.id, token)]);
    }

    method Enter(sess: Meeting, role: Role, token: Bytes, ghost store: seq<Session>, ghost peers: seq<Peer>)
      returns (pc: PeerConn)
      requires MeetingsMatch(meetings, conns, store) && ConnsMatch(meetings, conns, peers)
      requires sess.id < |meetings| && meetings[sess.id] == sess
      modifies this`conns, sess`peers
      ensures conns == old(conns) + [pc] && fresh(pc) && pc.id == |peers|
      ensures MeetingsMatch(meetings, conns, WithMember(store, sess.id, role, |peers|))
      ensures ConnsMatch(meetings, conns, peers + [Newcomer(role, sess.code, sess.id, token)])
    {
      pc := AddConn(sess, role, token, store, peers);
      assert ConnMatches(pc, pc.id, (peers + [Newcomer(role, sess.code, sess.id, token)])[pc.id], meetings);
      TakePlace(sess, pc, store);
    }

    ghost predicate Known(pc: PeerConn)
      reads this
    {
      pc.id < |conns| && conns[pc.id] == pc
    }

    /** The read loop of a connection gets a Ready message. */
    method StoreReady(pc: PeerConn, offer: Offer)
      requires Valid() && Known(pc) && Enabled(model, DoReady(pc.id, offer))
      modifies this`model, pc
      ensures Valid() && model == MarkReady(old(model), pc.id, offer)
      ensures pc.offer == offer && pc.ready
    {
      ReadyLinked(model, pc.id, offer);
      model := MarkReady(model, pc.id, offer);
      pc.offer := offer;
      pc.ready := true;
    }

    /** Set up a route towards a partner, keeping what was known of the token's traffic. */
    method WireRoute(token: Bytes, peer: Bytes, code: string, role: Role, now: int)
      modifies this`relays
      ensures token in relays
              && relays[token].peer == peer && relays[token].code == code && relays[token].role == Some(role)
      ensures token in old(relays) ==> SameTraffic(relays[token], old(relays)[token])
      ensures token !in old(relays) ==> SameTraffic(relays[token], NewRoute(now))
      ensures relays - {token} == old(relays) - {token}
    {
      var route := if token in relays then relays[token] else NewRoute(now);
      relays := relays[token := route.(peer := peer, code := code, role := Some(role))];
    }

    /** Tell two peers about each other and let them start. */
    method TellBoth(host: PeerConn, client: PeerConn, ghost peers: seq<Peer>)
      requires ConnsMatch(meetings, conns, peers) && Known(host) && Known(client) && host != client
      requires host.role == Host && client.role == Client
      modifies host`outbox, client`outbox
      ensures ConnsMatch(meetings, conns, Introduce(peers, host.id, client.id))
    {
      assert ConnMatches(host, host.id, peers[host.id], meetings);
      assert ConnMatches(client, client.id, peers[client.id], meetings);
      Deliver(host, [Paired(client.offer.public, client.offer.locals, Client, "", host.token), Go], peers);
      ghost var peers1 := peers[host.id := Send(peers[host.id], Introduction(peers[host.id], peers[client.id]))];
      Deliver(client, [Paired(host.offer.public, host.offer.locals, Host, host.offer.fingerprint, client.token), Go],
              peers1);
    }

    /** Both sides of a session are present and ready, and it has not paired before. */
    method ReadyToPair(sess: Meeting, ghost rec: Session, ghost peers: seq<Peer>) returns (ready: bool)
      requires MeetingMatches(sess, sess.id, rec, conns) && ConnsMatch(meetings, conns, peers) && InRange(rec, peers)
      ensures ready == CanPair(rec, peers)
    {
      if Host !in sess.peers || Client !in sess.peers || sess.paired { return false; }
      var host, client := sess.peers[Host], sess.peers[Client];
      assert ConnMatches(host, rec.host.value, peers[rec.host.value], meetings);
      assert ConnMatches(client, rec.client.value, peers[rec.client.value], meetings);
      return host.ready && client.ready;
    }

    /** Wire the routes of two peers to each other and tell them. */
    method Announce(host: PeerConn, client: PeerConn, code: string, now: int, ghost peers: seq<Peer>)
      requires ConnsMatch(meetings, conns, peers) && Known(host) && Known(client) && host != client
      requires host.role == Host && client.role == Client
      modifies this`relays, this`stats, host`outbox, client`outbox
      ensures ConnsMatch(meetings, conns, Introduce(peers, host.id, client.id))
      ensures relays == PairRoutes(old(relays), host.token, client.token, code, now)
      ensures stats == old(stats).(pairs := old(stats).pairs + 1)
    {
      ghost var before := relays;
      WireRoute(host.token, client.token, code, Host, now);
      PointedIsPaired(before, relays, host.token, client.token, code, Host, now);
      ghost var between := relays;
      WireRoute(client.token, host.token, code, Client, now);
      PointedIsPaired(between, relays, client.token, host.token, code, Client, now);
      stats := stats.(pairs := stats.pairs + 1);
      TellBoth(host, client, peers);
    }

    /** The two sides of a session are connections with the ids, roles and tokens it names. */
    lemma SidesKnown(sess: Meeting, rec: Session, peers: seq<Peer>)
      requires MeetingMatches(sess, sess.id, rec, conns) && ConnsMatch(meetings, conns, peers) && InRange(rec, peers)
      requires rec.host.Some? && peers[rec.host.value].role == Host
      requires rec.client.Some? && peers[rec.client.value].role == Client
      ensures Host in sess.peers && Client in sess.peers && sess.code == rec.code
      ensures var host, client := sess.peers[Host], sess.peers[Client];
              && Known(host) && host.id == rec.host.value && host.role == Host
              && host.token == peers[rec.host.value].token
              && Known(client) && client.id == rec.client.value && client.role == Client
              && client.token == peers[rec.client.value].token
    {
      assert ConnMatches(sess.peers[Host], rec.host.value, peers[rec.host.value], meetings);
      assert ConnMatches(sess.peers[Client], rec.client.value, peers[rec.client.value], meetings);
    }

    /** The pairing itself: mark the session, wire the routes, tell the peers. */
    method PairObjects(sess: Meeting, host: PeerConn, client: PeerConn, ghost s: nat, now: int, ghost peers: seq<Peer>)
      requires MeetingsMatch(meetings, conns, model.store) && ConnsMatch(meetings, conns, peers)
      requires Known(host) && Known(client) && host != client && host.role == Host && client.role == Client
      requires s < |meetings| && meetings[s] == sess
      modifies this`relays, this`stats, sess`paired, host`outbox, client`outbox
      ensures MeetingsMatch(meetings, conns, model.store[s := model.store[s].(paired := true)])
      ensures ConnsMatch(meetings, conns, Introduce(peers, host.id, client.id))
      ensures relays == PairRoutes(old(relays), host.token, client.token, sess.code, now)
      ensures stats == old(stats).(pairs := old(stats).pairs + 1)
    {
      MarkPaired(sess, s, model.store);
      Announce(host, client, sess.code, now, peers);
    }

    method MarkPaired(sess: Meeting, ghost s: nat, ghost store: seq<Session>)
      requires MeetingsMatch(meetings, conns, store) && s < |meetings| && meetings[s] == sess
      modifies sess`paired
      ensures MeetingsMatch(meetings, conns, store[s := store[s].(paired := true)])
    {
      sess.paired := true;
    }

    static lemma SettledMatches(meetings: seq<Meeting>, conns: seq<PeerConn>, peers: seq<Peer>, p: nat)
      requires ConnsMatch(meetings, conns, peers) && p < |peers|
      ensures ConnsMatch(meetings, conns, Settle(peers, p))
    {
    }

    /** Pair the session of a connection if it can be paired. */
    method PairIfReady(pc: PeerConn, ghost s: nat, now: int, ghost peers: seq<Peer>, ghost after: State)
      requires MeetingsMatch(meetings, conns, model.store) && ConnsMatch(meetings, conns, peers)
      requires Known(pc) && s < |meetings| && meetings[s] == pc.session && InRange(model.store[s], peers)
      requires MemberLinked(model.store[s].host, s, Host, peers)
      requires MemberLinked(model.store[s].client, s, Client, peers)
      requires relays == model.relays && stats == model.stats && TriedOf(model, s, peers, now, after)
      modifies this`relays, this`stats, pc.session`paired, conns`outbox
      ensures ObjectsMatch(meetings, conns, after.store, after.peers)
      ensures relays == after.relays && stats == after.stats
    {
      assert MeetingMatches(pc.session, s, model.store[s], conns);
      var ready := ReadyToPair(pc.session, model.store[s], peers);
      if ready {
        SidesKnown(pc.session, model.store[s], peers);
        PairObjects(pc.session, pc.session.peers[Host], pc.session.peers[Client], s, now, peers);
      }
    }

    method PairHere(pc: PeerConn, ghost s: nat, now: int, ghost peers: seq<Peer>, ghost after: State)
      requires Represents(model) && Known(pc) && s < |meetings| && meetings[s] == pc.session
      requires ConnsMatch(meetings, conns, peers) && InRange(model.store[s], peers)
      requires MemberLinked(model.store[s].host, s, Host, peers)
      requires MemberLinked(model.store[s].client, s, Client, peers)
      requires TriedOf(model, s, peers, now, after)
      modifies this`relays, this`stats, pc.session`paired, conns`outbox
      ensures Represents(after)
    {
      PairIfReady(pc, s, now, peers, after);
    }

    /** The handler of a ready connection sees whether its session can be paired. */
    method TryPair(pc: PeerConn, now: int)
      requires Valid() && Known(pc) && model.peers[pc.id].matching && now >= model.now
      modifies this`model, this`relays, this`stats, pc.session`paired, conns`outbox
      ensures Valid() && model == Rendezvous.TryPair(Waited(old(model), now), pc.id)
    {
      model := Waited(model, now);
      ghost var s := PairedState(model, pc.id);
      assert ConnMatches(pc, pc.id, model.peers[pc.id], meetings);
      SettledMatches(meetings, conns, model.peers, pc.id);
      PairHere(pc, s, now, Settle(model.peers, pc.id), Rendezvous.TryPair(model, pc.id));
      model := Rendezvous.TryPair(model, pc.id);
    }

    static lemma NobodyLeft(peers: map<Role, PeerConn>)
      ensures |peers| == 0 <==> Host !in peers && Client !in peers
    {
      if |peers| == 0 {
        assert peers == map[];
      } else {
        var r :| r in peers.Keys;
        assert r == Host || r == Client;
      }
    }

    /** Give up a place; say whether anybody is left. */
    method GiveUpPlace(pc: PeerConn, ghost s: nat) returns (empty: bool)
      requires ObjectsMatch(meetings, conns, model.store, model.peers) && Known(pc)
      requires s < |meetings| && meetings[s] == pc.session && model.store[s].Member(pc.role) == Some(pc.id)
      modifies pc.session`peers
      ensures ObjectsMatch(meetings, conns, model.store[s := model.store[s].With(pc.role, None)], model.peers)
      ensures empty == model.store[s].With(pc.role, None).Empty()
    {
      var sess := pc.session;
      assert MeetingMatches(sess, s, model.store[s], conns);
      sess.peers := sess.peers - {pc.role};
      NobodyLeft(sess.peers);
      empty := |sess.peers| == 0;
    }

    lemma InItsPlace(pc: PeerConn, s: nat)
      requires MeetingsMatch(meetings, conns, model.store) && Known(pc)
      requires s < |meetings| && meetings[s] == pc.session && model.store[s].Member(pc.role) == Some(pc.id)
      ensures pc.role in pc.session.peers && pc.session.peers[pc.role] == pc
    {
      assert MeetingMatches(pc.session, s, model.store[s], conns);
    }

    /** Take a connection out of its session, and the session out of the registry if it was the last. */
    method Unregister(pc: PeerConn, ghost s: nat)
      requires ObjectsMatch(meetings, conns, model.store, model.peers) && Known(pc)
      requires RegistryMatches(sessions, meetings, model.sessions)
      requires s < |meetings| && meetings[s] == pc.session && model.store[s].Member(pc.role) == Some(pc.id)
      modifies this`sessions, pc.session`peers
      ensures var sess := model.store[s].With(pc.role, None);
              && ObjectsMatch(meetings, conns, model.store[s := sess], model.peers)
              && RegistryMatches(sessions, meetings,
                                 if sess.Empty() then model.sessions - {pc.code} else model.sessions)
    {
      InItsPlace(pc, s);
      if pc.role in pc.session.peers && pc.session.peers[pc.role] == pc {
        var empty := GiveUpPlace(pc, s);
        Forget(pc.code, empty, model.sessions);
      }
    }

    method Forget(code: string, empty: bool, ghost codes: map<string, nat>)
      requires RegistryMatches(sessions, meetings, codes)
      modifies this`sessions
      ensures RegistryMatches(sessions, meetings, if empty then codes - {code} else codes)
    {
      if empty {
        sessions := sessions - {code};
      }
    }

    static lemma InactiveMatches(meetings: seq<Meeting>, conns: seq<PeerConn>, peers: seq<Peer>, p: nat)
      requires ConnsMatch(meetings, conns, peers) && p < |peers|
      ensures ConnsMatch(meetings, conns, peers[p := peers[p].(active := false)])
    {
    }

    method LeavePlace(pc: PeerConn, ghost s: nat, ghost after: State)
      requires Represents(model) && Known(pc) && s < |meetings| && LeftOf(model, pc.id, s, after)
      requires meetings[s] == pc.session && model.store[s].Member(pc.role) == Some(pc.id)
      requires pc.role == model.peers[pc.id].role && pc.code == model.peers[pc.id].code
      modifies this`sessions, pc.session`peers
      ensures Represents(after)
    {
      Unregister(pc, s);
      InactiveMatches(meetings, conns, model.peers, pc.id);
    }

    /** The same, in the abstract state as well. */
    method LeaveAs(pc: PeerConn, ghost s: nat, ghost after: State)
      requires Represents(model) && Known(pc) && s < |meetings| && LeftOf(model, pc.id, s, after)
      requires meetings[s] == pc.session && model.store[s].Member(pc.role) == Some(pc.id)
      requires pc.role == model.peers[pc.id].role && pc.code == model.peers[pc.id].code
      modifies this`model, this`sessions, pc.session`peers
      ensures model == after && Represents(model)
    {
      LeavePlace(pc, s, after);
      model := after;
    }

    /** A handler returns and removes its connection. */
    method HandlerLeaves(pc: PeerConn)
      requires Valid() && Known(pc) && Enabled(model, DoLeave(pc.id))
      modifies this`model, this`sessions, pc.session`peers
      ensures Valid() && model == Leave(old(model), pc.id)
    {
      assert ConnMatches(pc, pc.id, model.peers[pc.id], meetings);
      ghost var s := LeftState(model, pc.id);
      LeaveAs(pc, s, Leave(model, pc.id));
    }

    /** The two states differ at most in the relay's part. */
    static ghost predicate SameSignaling(st: State, st1: State) {
      st1.sessions == st.sessions && st1.store == st.store && st1.peers == st.peers
    }

    /** Remember where a token was heard from; find out where its payload goes. */
    method Touch(token: Bytes, from: Addr, payload: Bytes, now: int) returns (to: Option<Addr>)
      requires relays == model.relays && now == model.now
      modifies this`relays
      ensures var route := Touched(model, token, from, payload);
              && relays == model.relays[token := route]
              && to == if route.peer in relays then relays[route.peer].addr else None
      ensures HeardFrom(old(relays), relays, token, from, now)
    {
      var route := if token in relays then relays[token] else NewRoute(now);
      route := route.(addr := Some(from), seen := now);
      if |payload| > 0 {
        route := route.(packets := route.packets + 1, bytes := route.bytes + |payload|);
      }
      relays := relays[token := route];
      to := if route.peer in relays then relays[route.peer].addr else None;
    }

    /** Count, answer, forward or drop one datagram. */
    method HandleDatagram(from: Addr, d: Bytes, now: int)
      requires relays == model.relays && stats == model.stats && udpOut == model.past.sent && now == model.now
      modifies this`relays, this`stats, this`udpOut
      ensures var after := Datagram(model, from, d);
              relays == after.relays && stats == after.stats && udpOut == after.past.sent
      ensures |d| >= 20 && d[..4] == "RT01" ==> HeardFrom(old(relays), relays, d[4..20], from, now)
    {
      stats := stats.(udpPackets := stats.udpPackets + 1);
      if |d| < HDR_LEN || d[..4] != MAGIC {
        stats := stats.(udpInvalid := stats.udpInvalid + 1);
        return;
      }
      var token, payload := d[4..HDR_LEN], d[HDR_LEN..];
      var to := Touch(token, from, payload, now);
      if |payload| == 0 {
        stats := stats.(reflections := stats.reflections + 1);
        udpOut := udpOut + [Packet(from, MAGIC_ADDR + from.text)];
      } else if to.None? {
        stats := stats.(droppedPkts := stats.droppedPkts + 1);
      } else {
        udpOut := udpOut + [Packet(to.value, MAGIC + token + payload)];
        stats := stats.(relayedPkts := stats.relayedPkts + 1, relayedBytes := stats.relayedBytes + |payload|);
      }
    }

    /** One datagram is read off the UDP socket. */
    method ServeDatagram(from: Addr, d: Bytes, now: int)
      requires Valid() && now >= model.now
      modifies this`model, this`relays, this`stats, this`udpOut
      ensures Valid() && model == Datagram(Waited(old(model), now), from, d)
      ensures |d| >= 20 && d[..4] == "RT01" ==> HeardFrom(old(relays), relays, d[4..20], from, now)
    {
      model := Waited(model, now);
      ghost var after := Datagram(model, from, d);
      assert SameSignaling(model, after) by { TrafficLeavesSignaling(model, DoDatagram(from, d)); }
      HandleDatagram(from, d, now);
      model := after;
    }

    /** Delete every route that has been idle for longer than the window. */
    method DropIdle(window: int, now: int) returns (removed: seq<Bytes>)
      modifies this`relays
      ensures relays == old(relays) - Expired(old(relays), now, window)
      ensures multiset(removed) == multiset(Expired(old(relays), now, window))
    {
      removed := [];
      var todo := relays.Keys;
      ghost var gone: set<Bytes> := {};
      ghost var idle := Expired(relays, now, window);
      while todo != {}
        invariant todo <= old(relays).Keys
        invariant forall t :: t in gone <==> t in idle && t !in todo
        invariant relays == old(relays) - gone && multiset(removed) == multiset(gone)
        decreases |todo|
      {
        var t :| t in todo;
        todo := todo - {t};
        if now - relays[t].seen > window {
          relays := relays - {t};
          removed := removed + [t];
          gone := gone + {t};
        }
      }
      assert gone == idle;
    }

    /** The minute's tick of the background sweep. */
    method GcRelay(now: int)
      requires Valid() && now >= model.now
      modifies this`model, this`relays
      ensures Valid() && model == Sweep(Waited(old(model), now))
      ensures OnlyIdleGone(old(relays), relays, now, RELAY_TTL)
    {
      model := Waited(model, now);
      var _ := DropIdle(RELAY_TTL, now);
      model := Sweep(model);
    }

    /** Delete the idle routes and list them in order. */
    method PruneIdle(window: int, now: int) returns (r: seq<Bytes>)
      modifies this`relays
      ensures relays == old(relays) - Expired(old(relays), now, window)
      ensures SortedBy(Itself, r) && multiset(r) == multiset(Expired(old(relays), now, window))
    {
      r := DropIdle(window, now);
      SortSorts(Itself, r);
      r := Sort(Itself, r);
    }

    /** An administrator prunes idle routes; the answer lists what was removed, in order. */
    method PruneRelays(age: string, now: int) returns (r: Result<seq<Bytes>>)
      requires Valid() && now >= model.now
      modifies this`model, this`relays
      ensures Valid() && model == Prune(Waited(old(model), now), age)
      ensures r.Ok? <==> PruneWindow(age).Some?
      ensures r.Ok? ==> OnlyIdleGone(old(relays), relays, now, PruneWindow(age).value)
      ensures r.Ok? ==> SortedBy(Itself, r.value)
      ensures r.Ok? ==> multiset(r.value) == multiset(Expired(old(relays), now, PruneWindow(age).value))
    {
      model := Waited(model, now);
      var window := PruneWindow(age);
      if window.None? { return Err("idle_for must be one of 1m, 5m, 15m, 1h, 6h, 24h"); }
      var removed := PruneIdle(window.value, now);
      assert SameSignaling(model, Prune(model, age));
      model := Prune(model, age);
      return Ok(removed);
    }

    /** An administrator deletes a route, and with it the one it points at. */
    method DropRelay(token: Bytes) returns (found: bool)
      requires Valid()
      modifies this`model, this`relays
      ensures Valid() && model == DeleteRelay(old(model), token)
      ensures found == (token in old(relays))
    {
      ghost var after := DeleteRelay(model, token);
      if token !in relays {
        assert relays - {} == relays;
        model := after;
        return false;
      }
      var route := relays[token];
      relays := relays - {token};
      if route.peer != [] {
        relays := relays - {route.peer};
      }
      model := after;
      return true;
    }

    /** Drop the route of one side of a session, if there is anybody on that side. */
    method DropRouteOf(sess: Meeting, role: Role, ghost member: Option<nat>)
      requires ConnsMatch(meetings, conns, model.peers) && SideMatches(sess.peers, role, member, conns)
      modifies this`relays
      ensures relays == old(relays) - (if member.Some? then {model.peers[member.value].token} else {})
    {
      if role in sess.peers {
        assert ConnMatches(sess.peers[role], member.value, model.peers[member.value], meetings);
        relays := relays - {sess.peers[role].token};
      } else {
        assert relays - {} == relays;
      }
    }

    /** Send the error to one side and close its socket. */
    method CloseSide(sess: Meeting, role: Role, ghost member: Option<nat>, ghost peers: seq<Peer>)
      requires ConnsMatch(meetings, conns, peers) && SideMatches(sess.peers, role, member, conns)
      modifies conns`outbox, conns`open
      ensures ConnsMatch(meetings, conns, HangUpOn(peers, member))
    {
      if role in sess.peers {
        var pc := sess.peers[role];
        assert ConnMatches(pc, member.value, peers[member.value], meetings);
        Deliver(pc, [SessionClosed()], peers);
        CloseSocket(pc, peers[member.value := Send(peers[member.value], [SessionClosed()])]);
      }
    }

    method CloseSocket(pc: PeerConn, ghost peers: seq<Peer>)
      requires ConnsMatch(meetings, conns, peers) && Known(pc)
      modifies pc`open
      ensures ConnsMatch(meetings, conns, peers[pc.id := peers[pc.id].(open := false)])
    {
      pc.open := false;
    }

    method DropRoutes(sess: Meeting, ghost rec: Session)
      requires ConnsMatch(meetings, conns, model.peers) && InRange(rec, model.peers)
      requires SideMatches(sess.peers, Host, rec.host, conns) && SideMatches(sess.peers, Client, rec.client, conns)
      modifies this`relays
      ensures relays == old(relays) - TokensOf(rec, model.peers)
    {
      DropRouteOf(sess, Host, rec.host);
      DropRouteOf(sess, Client, rec.client);
    }

    method CloseBoth(sess: Meeting, ghost rec: Session)
      requires ConnsMatch(meetings, conns, model.peers) && InRange(rec, model.peers)
      requires SideMatches(sess.peers, Host, rec.host, conns) && SideMatches(sess.peers, Client, rec.client, conns)
      modifies conns`outbox, conns`open
      ensures ConnsMatch(meetings, conns, HangUpOn(HangUpOn(model.peers, rec.host), rec.client))
    {
      CloseSide(sess, Host, rec.host, model.peers);
      CloseSide(sess, Client, rec.client, HangUpOn(model.peers, rec.host));
    }

    /** Close a session: reclaim its routes, forget its code, disconnect whoever is in it. The
        session object itself stays with the handlers that still hold it. */
    method CloseMeeting(sess: Meeting, code: string, ghost rec: Session)
      requires ConnsMatch(meetings, conns, model.peers) && InRange(rec, model.peers)
      requires SideMatches(sess.peers, Host, rec.host, conns) && SideMatches(sess.peers, Client, rec.client, conns)
      modifies this`sessions, this`relays, conns`outbox, conns`open
      ensures relays == old(relays) - TokensOf(rec, model.peers)
      ensures sessions == old(sessions) - {code}
      ensures ConnsMatch(meetings, conns, HangUpOn(HangUpOn(model.peers, rec.host), rec.client))
    {
      DropRoutes(sess, rec);
      sessions := sessions - {code};
      CloseBoth(sess, rec);
    }

    method CloseCode(code: string, ghost s: nat, ghost after: State)
      requires Represents(model) && code in sessions && s == model.sessions[code]
      requires s < |model.store| && InRange(model.store[s], model.peers)
      requires after.sessions == model.sessions - {code} && after.store == model.store
      requires after.peers == HangUpOn(HangUpOn(model.peers, model.store[s].host), model.store[s].client)
      requires after.relays == model.relays - TokensOf(model.store[s], model.peers)
      requires after.stats == model.stats && after.past.sent == model.past.sent
      modifies this`sessions, this`relays, conns`outbox, conns`open
      ensures Represents(after)
    {
      assert MeetingMatches(sessions[code], s, model.store[s], conns);
      CloseMeeting(sessions[code], code, model.store[s]);
    }

    /** The same, in the abstract state as well. */
    method CloseAs(code: string, ghost s: nat, ghost after: State)
      requires Represents(model) && code in sessions && s == model.sessions[code]
      requires s < |model.store| && InRange(model.store[s], model.peers)
      requires after.sessions == model.sessions - {code} && after.store == model.store
      requires after.peers == HangUpOn(HangUpOn(model.peers, model.store[s].host), model.store[s].client)
      requires after.relays == model.relays - TokensOf(model.store[s], model.peers)
      requires after.stats == model.stats && after.past.sent == model.past.sent
      modifies this`sessions, this`relays, this`model, conns`outbox, conns`open
      ensures model == after && Represents(model)
    {
      CloseCode(code, s, after);
      model := after;
    }

    /** An administrator deletes a session. */
    method DropSession(code: string) returns (found: bool)
      requires Valid()
      modifies this`model, this`sessions, this`relays, conns`outbox, conns`open
      ensures Valid() && model == DeleteSession(old(model), code)
      ensures found == (code in old(sessions))
    {
      if code !in sessions { return false; }
      ghost var s := DeletedState(model, code);
      CloseAs(code, s, DeleteSession(model, code));
      return true;
    }
  }

  /** Where and when a token was heard, and what was counted for it. */
  ghost predicate SameTraffic(a: Route, b: Route) {
    a.addr == b.addr && a.first == b.first && a.seen == b.seen && a.packets == b.packets && a.bytes == b.bytes
  }

  /** A route that is pointed at a partner without losing anything is what pairing asks for. */
  lemma PointedIsPaired(before: map<Bytes, Route>, after: map<Bytes, Route>, token: Bytes, peer: Bytes, code: string,
                        role: Role, now: int)
    requires token in after && after[token].peer == peer && after[token].code == code && after[token].role == Some(role)
    requires SameTraffic(after[token], if token in before then before[token] else NewRoute(now))
    requires after - {token} == before - {token}
    ensures after == PairRoute(before, token, peer, code, role, now)
  {
    forall t ensures t in after <==> t in PairRoute(before, token, peer, code, role, now) {
      if t != token { assert t in after - {token} <==> t in before - {token}; }
    }
    forall t | t in after ensures after[t] == PairRoute(before, token, peer, code, role, now)[t] {
      if t != token { assert (after - {token})[t] == (before - {token})[t]; }
    }
  }

  /** The server knows that this token was at this address just now, and nothing new of the others. */
  ghost predicate HeardFrom(before: map<Bytes, Route>, after: map<Bytes, Route>, token: Bytes, from: Addr, now: int) {
    && token in after && after[token].addr == Some(from) && after[token].seen == now
    && after - {token} == before - {token}
  }

  /** The server as it is when the clock shows this time. */
  function Waited(st: State, now: int): State {
    st.(now := now)
  }

  function Itself(token: Bytes): string { token }

  /** The routes that were silent for longer than this are gone, the others are as they were. */
  ghost predicate OnlyIdleGone(before: map<Bytes, Route>, after: map<Bytes, Route>, now: int, window: int) {
    forall t ::
      && (t in after <==> t in before && now - before[t].seen <= window)
      && (t in after ==> after[t] == before[t])
  }
}
