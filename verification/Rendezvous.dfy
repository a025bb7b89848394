/** The rendezvous and relay server as a state machine: one step for each critical section
    of the server's mutex, together with the messages that section leads to.

    Session and peer objects are identified by the order in which they were created, so a
    handler that still holds an object after the code was registered anew is represented
    as it is in the program. The fields gathered in `Past` are history: no step reads them,
    they only record what happened. */
module Rendezvous {
  import opened Text
  import opened Wire
  import opened Durations

  const RELAY_TTL := 3 * MINUTE
  const SWEEP_PERIOD := MINUTE

  datatype Role = Host | Client {
    function Other(): Role { if Host? then Client else Host }
    function Name(): string { if Host? then "host" else "client" }
  }

  datatype Message =
    | Reflected(relayToken: Bytes, relayAddr: string)
    | Paired(peerAddr: string, peerLocals: seq<string>, peerRole: Role, fingerprint: string, token: Bytes)
    | Go
    | Error(text: string)

  /** The first frame on a signaling connection. */
  datatype First = NotHello | Hello(code: string, role: Option<Role>)

  /** What a peer reports about itself in a Ready message. */
  datatype Offer = Offer(public: string, locals: seq<string>, fingerprint: string)

  function NoOffer(): Offer { Offer("", [], "") }

  /** One signaling connection that registered. `matching` is set while its read loop is
      between storing a Ready message and the critical section of tryPair; `active` until
      its handler has left; `open` until the server closes the socket. */
  datatype Peer = Peer(
    role: Role, code: string, session: nat, token: Bytes,
    offer: Offer, ready: bool, matching: bool, active: bool, open: bool,
    outbox: seq<Message>, offers: set<Offer>)

  /** The peers that presented one code, at most one for each role. */
  datatype Session = Session(code: string, host: Option<nat>, client: Option<nat>, paired: bool) {
    function Member(role: Role): Option<nat> { if role.Host? then host else client }
    function With(role: Role, member: Option<nat>): Session {
      if role.Host? then this.(host := member) else this.(client := member)
    }
    predicate Empty() { host.None? && client.None? }
  }

  datatype Route = Route(
    peer: Bytes, code: string, role: Option<Role>, addr: Option<Addr>,
    first: int, seen: int, packets: nat, bytes: nat)

  datatype Stats = Stats(
    peersJoined: nat, pairs: nat, reflections: nat, relayedPkts: nat, relayedBytes: nat,
    droppedPkts: nat, udpPackets: nat, udpInvalid: nat)

  /** A number of datagrams and the number of payload bytes in them. */
  datatype Load = Load(packets: nat, bytes: nat) {
    function Plus(that: Load): Load { Load(packets + that.packets, bytes + that.bytes) }
  }

  function NoLoad(): Load { Load(0, 0) }

  datatype Past = Past(
    issued: set<Bytes>,            // every relay token handed out
    partner: map<Bytes, Bytes>,    // the tokens that were ever paired with each other
    heard: map<Bytes, Addr>,       // where each token's latest datagram came from
    reclaimed: Load,               // traffic counted on routes that are gone
    droppedBytes: nat,
    sent: seq<Packet>,             // datagrams the server wrote
    swept: int)                    // the time of the latest sweep

  datatype State = State(
    sessions: map<string, nat>, store: seq<Session>, peers: seq<Peer>,
    relays: map<Bytes, Route>, stats: Stats, now: int, past: Past)

  function Init(now: int): State {
    State(map[], [], [], map[], Stats(0, 0, 0, 0, 0, 0, 0, 0), now,
          Past({}, map[], map[], NoLoad(), 0, [], now))
  }

  /** Sessions, members and peers refer to each other consistently. */
  ghost predicate Linked(st: State) {
    && CodesLinked(st.sessions, st.store)
    && MembersLinked(st.store, st.peers)
    && PeersLinked(st.store, st.peers)
  }

  /** A registered code names a session of that code which has a member. */
  ghost predicate CodesLinked(sessions: map<string, nat>, store: seq<Session>) {
    forall c | c in sessions ::
      && sessions[c] < |store|
      && store[sessions[c]].code == c
      && !store[sessions[c]].Empty()
  }

  ghost predicate MembersLinked(store: seq<Session>, peers: seq<Peer>) {
    forall s | 0 <= s < |store| ::
      MemberLinked(store[s].host, s, Host, peers) && MemberLinked(store[s].client, s, Client, peers)
  }

  ghost predicate MemberLinked(member: Option<nat>, s: nat, role: Role, peers: seq<Peer>) {
    member.Some? ==> member.value < |peers| && peers[member.value].session == s && peers[member.value].role == role
  }

  /** A peer is active exactly while it holds its role's place in its session. */
  ghost predicate PeersLinked(store: seq<Session>, peers: seq<Peer>) {
    forall p | 0 <= p < |peers| ::
      && peers[p].session < |store|
      && store[peers[p].session].code == peers[p].code
      && (peers[p].active <==> Seated(store[peers[p].session], peers[p].role, p))
      && (peers[p].matching ==> peers[p].active && peers[p].ready)
  }

  ghost predicate Seated(sess: Session, role: Role, p: nat) {
    sess.Member(role) == Some(p)
  }

  // --- Signaling ---------------------------------------------------------------------

  function JoinError(st: State, first: First): Option<string>
    requires forall c | c in st.sessions :: st.sessions[c] < |st.store|
  {
    if first.NotHello? then Some("expected hello")
    else if first.code == "" || first.role.None? then Some("missing code or role")
    else if first.code in st.sessions && st.store[st.sessions[first.code]].Member(first.role.value).Some? then
      Some("a " + first.role.value.Name() + " is already connected for this code")
    else None
  }

  /** The session a newcomer is put into: the registered one, or a new one at the end of the store. */
  function SessionFor(st: State, code: string): nat {
    if code in st.sessions then st.sessions[code] else |st.store|
  }

  function NewSession(code: string): Session { Session(code, None, None, false) }

  function StoreFor(st: State, code: string): seq<Session> {
    if code in st.sessions then st.store else st.store + [NewSession(code)]
  }

  function WithMember(store: seq<Session>, s: nat, role: Role, p: nat): seq<Session>
    requires s < |store|
  {
    store[s := store[s].With(role, Some(p))]
  }

  function Newcomer(role: Role, code: string, s: nat, token: Bytes): Peer {
    Peer(role, code, s, token, NoOffer(), false, false, true, true, [], {})
  }

  function Join(st: State, first: First, token: Bytes, relayAddr: string): State
    requires forall c | c in st.sessions :: st.sessions[c] < |st.store|
  {
    if JoinError(st, first).Some? then st
    else
      var code, role := first.code, first.role.value;
      var s := SessionFor(st, code);
      st.(sessions := st.sessions[code := s],
          store := WithMember(StoreFor(st, code), s, role, |st.peers|),
          peers := st.peers + [Send(Newcomer(role, code, s, token), [Reflected(token, relayAddr)])],
          stats := st.stats.(peersJoined := st.stats.peersJoined + 1),
          past := st.past.(issued := st.past.issued + {token}))
  }

  function Send(peer: Peer, msgs: seq<Message>): Peer {
    if peer.open then peer.(outbox := peer.outbox + msgs) else peer
  }

  /** The read loop stores a Ready message. */
  function MarkReady(st: State, p: nat, offer: Offer): State
    requires p < |st.peers|
  {
    var peer := st.peers[p].(offer := offer, ready := true, matching := true,
                             offers := st.peers[p].offers + {offer});
    st.(peers := st.peers[p := peer])
  }

  function PairRoute(relays: map<Bytes, Route>, token: Bytes, peer: Bytes, code: string, role: Role, now: int)
    : map<Bytes, Route>
  {
    var route := if token in relays then relays[token] else NewRoute(now);
    relays[token := route.(peer := peer, code := code, role := Some(role))]
  }

  /** Both sides are present and ready, and this session has not paired before. */
  predicate CanPair(sess: Session, peers: seq<Peer>)
    requires InRange(sess, peers)
  {
    && sess.host.Some? && sess.client.Some? && !sess.paired
    && peers[sess.host.value].ready && peers[sess.client.value].ready
  }

  predicate InRange(sess: Session, peers: seq<Peer>) {
    && (sess.host.Some? ==> sess.host.value < |peers|)
    && (sess.client.Some? ==> sess.client.value < |peers|)
  }

  /** Each side is told where the other one is; only the client learns a fingerprint. */
  function Introduction(to: Peer, other: Peer): seq<Message> {
    [Paired(other.offer.public, other.offer.locals, other.role,
            if to.role.Client? then other.offer.fingerprint else "", to.token), Go]
  }

  function Introduce(peers: seq<Peer>, h: nat, c: nat): seq<Peer>
    requires h < |peers| && c < |peers|
  {
    peers[h := Send(peers[h], Introduction(peers[h], peers[c]))]
         [c := Send(peers[c], Introduction(peers[c], peers[h]))]
  }

  function PairRoutes(relays: map<Bytes, Route>, host: Bytes, client: Bytes, code: string, now: int): map<Bytes,
                      Route> {
    PairRoute(PairRoute(relays, host, client, code, Host, now), client, host, code, Client, now)
  }

  function Partnered(partner: map<Bytes, Bytes>, a: Bytes, b: Bytes): map<Bytes, Bytes> {
    partner[a := b][b := a]
  }

  function Pair(st: State, s: nat, h: nat, c: nat): State
    requires s < |st.store| && h < |st.peers| && c < |st.peers|
  {
    st.(store := st.store[s := st.store[s].(paired := true)],
        relays := PairRoutes(st.relays, st.peers[h].token, st.peers[c].token, st.store[s].code, st.now),
        peers := Introduce(st.peers, h, c),
        stats := st.stats.(pairs := st.stats.pairs + 1),
        past := st.past.(partner := Partnered(st.past.partner, st.peers[h].token, st.peers[c].token)))
  }

  function Settle(peers: seq<Peer>, p: nat): seq<Peer>
    requires p < |peers|
  {
    peers[p := peers[p].(matching := false)]
  }

  /** The indices that tryPair follows are in range. */
  ghost predicate SessionInRange(st: State, p: nat) {
    p < |st.peers| && st.peers[p].session < |st.store| && InRange(st.store[st.peers[p].session], st.peers)
  }

  /** The critical section of tryPair, entered by the handler of peer p. */
  ghost function TryPair(st: State, p: nat): State
    requires SessionInRange(st, p)
  {
    var st1 := st.(peers := Settle(st.peers, p));
    var s := st.peers[p].session;
    if CanPair(st.store[s], st1.peers) then Pair(st1, s, st.store[s].host.value, st.store[s].client.value) else st1
  }

  /** A handler returns. The registration is removed under the code, whichever session object
      the code names by then. */
  function Leave(st: State, p: nat): State
    requires p < |st.peers| && st.peers[p].session < |st.store|
  {
    var peer := st.peers[p];
    var sess := st.store[peer.session];
    var st1 := st.(peers := st.peers[p := peer.(active := false)]);
    if sess.Member(peer.role) == Some(p) then
      var sess1 := sess.With(peer.role, None);
      st1.(store := st.store[peer.session := sess1],
           sessions := if sess1.Empty() then st.sessions - {peer.code} else st.sessions)
    else st1
  }

  // --- UDP ---------------------------------------------------------------------------

  function NewRoute(now: int): Route { Route([], "", None, None, now, now, 0, 0) }

  /** The route of a token after a datagram with this payload came from this address. */
  function Touched(st: State, token: Bytes, from: Addr, payload: Bytes): Route {
    var route := if token in st.relays then st.relays[token] else NewRoute(st.now);
    var carried := if payload == [] then 0 else 1;
    route.(addr := Some(from), seen := st.now, packets := route.packets + carried, bytes := route.bytes + |payload|)
  }

  function Datagram(st: State, from: Addr, d: Bytes): State {
    var stats := st.stats.(udpPackets := st.stats.udpPackets + 1);
    match ParseProbe(d)
    case None => st.(stats := stats.(udpInvalid := stats.udpInvalid + 1))
    case Some(Probe(token, payload)) =>
      var route := Touched(st, token, from, payload);
      var relays := st.relays[token := route];
      var to := if route.peer in relays then relays[route.peer].addr else None;
      var past := st.past.(heard := st.past.heard[token := from]);
      if payload == [] then
        st.(relays := relays, stats := stats.(reflections := stats.reflections + 1),
            past := past.(sent := past.sent + [Packet(from, MAGIC_ADDR + from.text)]))
      else if to.None? then
        st.(relays := relays, stats := stats.(droppedPkts := stats.droppedPkts + 1),
            past := past.(droppedBytes := past.droppedBytes + |payload|))
      else
        st.(relays := relays,
            stats := stats.(relayedPkts := stats.relayedPkts + 1, relayedBytes := stats.relayedBytes + |payload|),
            past := past.(sent := past.sent + [Packet(to.value, Frame(token, payload))]))
  }

  // --- Reclaiming routes -------------------------------------------------------------

  function Expired(relays: map<Bytes, Route>, now: int, window: int): set<Bytes> {
    set t | t in relays && now - relays[t].seen > window
  }

  ghost function SomeToken(relays: map<Bytes, Route>): (t: Bytes)
    requires relays != map[]
    ensures t in relays
  {
    var t :| t in relays; t
  }

  function LoadOf(route: Route): Load {
    Load(route.packets, route.bytes)
  }

  /** The traffic counted on all routes of a table. */
  ghost function Total(relays: map<Bytes, Route>): Load
    decreases |relays|
  {
    if relays == map[] then NoLoad()
    else
      var t := SomeToken(relays);
      LoadOf(relays[t]).Plus(Total(relays - {t}))
  }

  ghost function Reclaim(st: State, gone: set<Bytes>): State {
    st.(relays := st.relays - gone,
        past := st.past.(reclaimed := st.past.reclaimed.Plus(
                           Total(map t | t in st.relays && t in gone :: st.relays[t]))))
  }

  ghost function Sweep(st: State): State {
    var st1 := Reclaim(st, Expired(st.relays, st.now, RELAY_TTL));
    st1.(past := st1.past.(swept := st.now))
  }

  /** The idle windows the prune endpoint accepts. */
  function PruneWindow(age: string): Option<int> {
    match age
    case "1m" => Some(MINUTE)
    case "5m" => Some(5 * MINUTE)
    case "15m" => Some(15 * MINUTE)
    case "1h" => Some(HOUR)
    case "6h" => Some(6 * HOUR)
    case "24h" => Some(24 * HOUR)
    case _ => None
  }

  ghost function Prune(st: State, age: string): State {
    if PruneWindow(age).None? then st
    else Reclaim(st, Expired(st.relays, st.now, PruneWindow(age).value))
  }

  /** The tokens the delete endpoint removes: the one named, and the one it points at. */
  function RelayPair(relays: map<Bytes, Route>, token: Bytes): set<Bytes> {
    if token !in relays then {}
    else {token} + (if relays[token].peer != [] then {relays[token].peer} else {})
  }

  ghost function DeleteRelay(st: State, token: Bytes): State {
    Reclaim(st, RelayPair(st.relays, token))
  }

  function SessionClosed(): Message { Error("session closed by the server") }

  function HangUp(peer: Peer): Peer {
    Send(peer, [SessionClosed()]).(open := false)
  }

  ghost function DeleteSession(st: State, code: string): State
    requires Linked(st)
  {
    if code !in st.sessions then st
    else
      var sess := st.store[st.sessions[code]];
      var st1 := Reclaim(st, TokensOf(sess, st.peers));
      st1.(sessions := st.sessions - {code}, peers := HangUpOn(HangUpOn(st.peers, sess.host), sess.client))
  }

  function TokensOf(sess: Session, peers: seq<Peer>): set<Bytes>
    requires InRange(sess, peers)
  {
    (if sess.host.Some? then {peers[sess.host.value].token} else {})
    + (if sess.client.Some? then {peers[sess.client.value].token} else {})
  }

  function HangUpOn(peers: seq<Peer>, member: Option<nat>): (peers1: seq<Peer>)
    requires member.Some? ==> member.value < |peers|
    ensures |peers1| == |peers|
  {
    if member.Some? then peers[member.value := HangUp(peers[member.value])] else peers
  }

  // --- Runs --------------------------------------------------------------------------

  datatype Step =
    | DoJoin(first: First, token: Bytes, relayAddr: string)
    | DoReady(p: nat, offer: Offer)
    | DoTryPair(p: nat)
    | DoLeave(p: nat)
    | DoDatagram(from: Addr, d: Bytes)
    | DoSweep
    | DoPrune(age: string)
    | DoDeleteRelay(token: Bytes)
    | DoDeleteSession(code: string)
    | DoWait(dt: nat)

  /** What the environment may do: a fresh token has never been issued before, and each
      handler runs its own read loop in order. Everything else may happen at any time. */
  ghost predicate Enabled(st: State, step: Step) {
    match step
    case DoJoin(_, token, _) => |token| == TOKEN_LEN && token !in st.past.issued
    case DoReady(p, _) => p < |st.peers| && st.peers[p].active && !st.peers[p].matching
    case DoTryPair(p) => p < |st.peers| && st.peers[p].matching
    case DoLeave(p) => p < |st.peers| && st.peers[p].active && !st.peers[p].matching
    case _ => true
  }

  ghost function Next(st: State, step: Step): State
    requires Linked(st) && Enabled(st, step)
  {
    match step
    case DoJoin(first, token, relayAddr) => Join(st, first, token, relayAddr)
    case DoReady(p, offer) => MarkReady(st, p, offer)
    case DoTryPair(p) => TryPair(st, p)
    case DoLeave(p) => Leave(st, p)
    case DoDatagram(from, d) => Datagram(st, from, d)
    case DoSweep => Sweep(st)
    case DoPrune(age) => Prune(st, age)
    case DoDeleteRelay(token) => DeleteRelay(st, token)
    case DoDeleteSession(code) => DeleteSession(st, code)
    case DoWait(dt) => st.(now := st.now + dt)
  }
}
