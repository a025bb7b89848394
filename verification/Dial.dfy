/** The peer's side of the handshake: what it makes of the messages the server sends it. */
module Dial {
  import opened Text
  import opened Wire
  import opened Rendezvous
  import opened MessageInvariants
  import opened RendezvousRuns
  import opened Handshakes
  import opened Reports
  import Punch
  import RelayPath

  const NO_ADDRESS := "server did not provide peer address"

  /** What a peer knows when it starts to punch. */
  datatype Negotiated = Negotiated(
    relayToken: Bytes, relayAddr: string, peerAddr: string, peerLocals: seq<string>, fingerprint: string) {
    /** The partner's reflected address comes first, its own addresses after it. */
    function Candidates(): seq<string> { [peerAddr] + peerLocals }
  }

  predicate Stops(m: Message) { m.Go? || m.Error? }

  /** The message at i is the one that ends the wait. */
  ghost predicate EndsWait(inbox: seq<Message>, i: nat) {
    1 <= i < |inbox| && Stops(inbox[i]) && forall j | 1 <= j < i :: !Stops(inbox[j])
  }

  predicate GoodGreeting(m: Message) {
    m.Reflected? && m.relayToken != [] && m.relayAddr != ""
  }

  /** The latest introduction among some messages. */
  function LastPaired(msgs: seq<Message>): Option<Message> {
    if msgs == [] then None
    else if msgs[|msgs| - 1].Paired? then Some(msgs[|msgs| - 1])
    else LastPaired(msgs[..|msgs| - 1])
  }

  /** The result of a wait that ended with Go. */
  function Conclude(greeting: Message, paired: Option<Message>): Result<Negotiated>
    requires greeting.Reflected? && (paired.Some? ==> paired.value.Paired?)
  {
    if paired.None? || paired.value.peerAddr == "" then Err(NO_ADDRESS)
    else
      var p := paired.value;
      Ok(Negotiated(greeting.relayToken, greeting.relayAddr, p.peerAddr, p.peerLocals, p.fingerprint))
  }

  /** How the result follows from the messages that arrived before the connection ended, from the
      answer to the reflection probes, and from whether Ready could be sent. */
  ghost predicate Negotiates(inbox: seq<Message>, public: Result<Bytes>, sent: bool, r: Result<Negotiated>) {
    if inbox == [] then r == Err("connection closed")
    else if inbox[0].Error? then r == Err(inbox[0].text)
    else if !GoodGreeting(inbox[0]) then r == Err("unexpected server response during reflection")
    else if public.Err? then r == Err(public.error)
    else if !sent then r == Err("write failed")
    else
      && (forall i: nat | EndsWait(inbox, i) && inbox[i].Error? :: r == Err(inbox[i].text))
      && (forall i: nat | EndsWait(inbox, i) && inbox[i].Go? ::
            (LastPaired(inbox[1..i]).Some? ==> LastPaired(inbox[1..i]).value.Paired?)
            && r == Conclude(inbox[0], LastPaired(inbox[1..i])))
      && ((forall i: nat :: !EndsWait(inbox, i)) ==> r == Err("connection closed"))
  }

  lemma NextPaired(inbox: seq<Message>, n: nat)
    requires 1 <= n < |inbox|
    ensures LastPaired(inbox[1..n + 1]) == if inbox[n].Paired? then Some(inbox[n]) else LastPaired(inbox[1..n])
  {
    var msgs := inbox[1..n + 1];
    assert msgs[|msgs| - 1] == inbox[n] && msgs[..|msgs| - 1] == inbox[1..n];
  }

  /** The wait ended with Go, and this is the latest introduction before it. */
  ghost predicate DecidedBy(inbox: seq<Message>, i: nat, k: nat) {
    && 1 <= k < i < |inbox| && inbox[i].Go? && (forall j | 1 <= j < i :: !inbox[j].Go? && !inbox[j].Error?)
    && inbox[k].Paired? && (forall j | k < j < i :: !inbox[j].Paired?)
  }

  lemma {:induction false} LastPairedAt(msgs: seq<Message>) returns (k: nat)
    requires LastPaired(msgs).Some?
    ensures k < |msgs| && msgs[k].Paired? && LastPaired(msgs) == Some(msgs[k])
    ensures forall j | k < j < |msgs| :: !msgs[j].Paired?
  {
    if msgs[|msgs| - 1].Paired? { k := |msgs| - 1; } else { k := LastPairedAt(msgs[..|msgs| - 1]); }
  }

  lemma {:induction false} LastPairedIs(msgs: seq<Message>, k: nat)
    requires k < |msgs| && msgs[k].Paired? && forall j | k < j < |msgs| :: !msgs[j].Paired?
    ensures LastPaired(msgs) == Some(msgs[k])
  {
    if k < |msgs| - 1 { LastPairedIs(msgs[..|msgs| - 1], k); }
  }

  lemma DecidedConcludes(inbox: seq<Message>, i: nat, k: nat)
    requires DecidedBy(inbox, i, k)
    ensures EndsWait(inbox, i) && LastPaired(inbox[1..i]) == Some(inbox[k])
  {
    assert inbox[1..i][k - 1] == inbox[k];
    assert forall j | k - 1 < j < |inbox[1..i]| :: inbox[1..i][j] == inbox[1 + j];
    LastPairedIs(inbox[1..i], k - 1);
  }

  /** What Dial needs to get to the punching: a greeting with a token and a relay; its public address;
      Ready sent; then Go, without an error or another Go before it, and the latest introduction before
      it with an address. It then goes on with the token and the relay of the greeting and with what the
      introduction says. */
  lemma NegotiatedIff(inbox: seq<Message>, public: Result<Bytes>, sent: bool, r: Result<Negotiated>)
    requires Negotiates(inbox, public, sent, r)
    ensures r.Ok? <==> && inbox != [] && inbox[0].Reflected? && inbox[0].relayToken != "" && inbox[0].relayAddr != ""
                       && public.Ok? && sent
                       && exists i: nat, k: nat :: DecidedBy(inbox, i, k) && inbox[k].peerAddr != ""
    ensures forall i: nat, k: nat | r.Ok? && DecidedBy(inbox, i, k) ::
              r.value == Negotiated(inbox[0].relayToken, inbox[0].relayAddr,
                                    inbox[k].peerAddr, inbox[k].peerLocals, inbox[k].fingerprint)
  {
    forall i: nat, k: nat | DecidedBy(inbox, i, k)
      ensures EndsWait(inbox, i) && LastPaired(inbox[1..i]) == Some(inbox[k])
    {
      DecidedConcludes(inbox, i, k);
    }
    if r.Ok? {
      var i: nat :| EndsWait(inbox, i);
      var k := LastPairedAt(inbox[1..i]);
      assert forall j | 1 <= j < i :: inbox[1..i][j - 1] == inbox[j];
      assert DecidedBy(inbox, i, k + 1);
    }
  }

  /** Read the greeting, find out the public address, report ready, then wait for Paired and Go. */
  method Negotiate(inbox: seq<Message>, public: Result<Bytes>, sent: bool) returns (r: Result<Negotiated>)
    ensures Negotiates(inbox, public, sent, r)
  {
    if inbox == [] { return Err("connection closed"); }
    var greeting := inbox[0];
    if greeting.Error? { return Err(greeting.text); }
    if !GoodGreeting(greeting) { return Err("unexpected server response during reflection"); }
    if public.Err? { return Err(public.error); }
    if !sent { return Err("write failed"); }
    var paired: Option<Message> := None;
    var n := 1;
    while true
      invariant 1 <= n <= |inbox|
      invariant forall j | 1 <= j < n :: !Stops(inbox[j])
      invariant paired == LastPaired(inbox[1..n]) && (paired.Some? ==> paired.value.Paired?)
      decreases |inbox| - n
    {
      if n == |inbox| { return Err("connection closed"); }
      var m := inbox[n];
      if m.Error? {
        assert EndsWait(inbox, n);
        return Err(m.text);
      }
      if m.Go? {
        assert EndsWait(inbox, n);
        break;
      }
      NextPaired(inbox, n);
      if m.Paired? { paired := Some(m); }
      n := n + 1;
    }
    return Conclude(greeting, paired);
  }

  lemma IntroducedThenGo(inbox: seq<Message>, public: Bytes, r: Result<Negotiated>)
    requires |inbox| >= 3 && inbox[0].Reflected? && inbox[1].Paired? && inbox[2] == Go
    requires Negotiates(inbox, Ok(public), true, r)
    ensures r == if GoodGreeting(inbox[0]) then Conclude(inbox[0], Some(inbox[1]))
                 else Err("unexpected server response during reflection")
  {
    assert EndsWait(inbox, 2);
    assert inbox[1..2] == [inbox[1]];
    assert LastPaired(inbox[1..2]) == Some(inbox[1]);
  }

  lemma NotYetIntroduced(inbox: seq<Message>, public: Result<Bytes>, sent: bool, r: Result<Negotiated>)
    requires |inbox| <= 2 && Negotiates(inbox, public, sent, r) && (inbox != [] ==> inbox[0].Reflected?)
    requires |inbox| == 2 ==> inbox[1].Paired? || inbox[1] == SessionClosed()
    requires public.Err? ==> public.error != NO_ADDRESS
    ensures r.Err? && r.error != NO_ADDRESS
  {
    if |inbox| == 2 && inbox[1] == SessionClosed() { assert EndsWait(inbox, 1); }
  }

  /** Some peer reported these addresses, and for a client this fingerprint, in one Ready message. */
  ghost predicate Reported(peers: seq<Peer>, q: nat, role: Role, candidates: seq<string>, fingerprint: string) {
    q < |peers| && exists o :: o in peers[q].offers && candidates == [o.public] + o.locals
                               && (role == Client ==> o.fingerprint == fingerprint)
  }

  lemma ConcludedFrom(peers: seq<Peer>, partner: map<Bytes, Bytes>, p: nat, q: nat, n: nat, r: Result<Negotiated>)
    requires p < |peers| && HandshakeSoFar(peers, partner, p) && IntroducedTo(peers, partner, p, q)
    requires 3 <= n <= |peers[p].outbox| && |Told(peers[p])| == 3
    requires r == Conclude(peers[p].outbox[0], Some(peers[p].outbox[1]))
    ensures if r.Ok? then r.value.relayToken == peers[p].token
                          && Reported(peers, q, peers[p].role, r.value.Candidates(), r.value.fingerprint)
            else exists o :: o in peers[q].offers && o.public == ""
  {
    assert Delivered(peers[p], peers[q]);
  }

  /** Together with the server: whatever part of its messages reaches a peer, Dial gets to the
      punching only if the peer was introduced, and then with its own token and with the addresses
      that its one partner reported. A peer without a partner never gets there. Dial fails for want
      of an address only if the partner reported no public one, and if nothing else fails and the
      whole introduction arrived, that is all that can stop it. */
  lemma DialAfterHandshake(peers: seq<Peer>, partner: map<Bytes, Bytes>, p: nat, n: nat,
                           public: Result<Bytes>, sent: bool, r: Result<Negotiated>)
    requires p < |peers| && HandshakeSoFar(peers, partner, p)
    requires n <= |peers[p].outbox| && Negotiates(peers[p].outbox[..n], public, sent, r)
    requires public.Err? ==> public.error != NO_ADDRESS
    ensures r.Ok? ==> n >= 3 && r.value.relayToken == peers[p].token
                      && exists q: nat :: IntroducedTo(peers, partner, p, q)
                           && Reported(peers, q, peers[p].role, r.value.Candidates(), r.value.fingerprint)
    ensures peers[p].token !in partner ==> r.Err?
    ensures r == Err(NO_ADDRESS) ==>
              exists q: nat :: IntroducedTo(peers, partner, p, q) && exists o :: o in peers[q].offers && o.public == ""
    ensures n == 3 && |Told(peers[p])| == 3 && GoodGreeting(peers[p].outbox[0]) && public.Ok? && sent ==>
              (r.Ok? <==> peers[p].outbox[1].Paired? && peers[p].outbox[1].peerAddr != "")
  {
    var peer, inbox := peers[p], peers[p].outbox[..n];
    if n >= 3 && |Told(peer)| == 3 {
      if public.Ok? && sent && GoodGreeting(inbox[0]) {
        IntroducedThenGo(inbox, public.value, r);
        var q: nat :| IntroducedTo(peers, partner, p, q);
        ConcludedFrom(peers, partner, p, q, n, r);
      }
    } else {
      NotYetIntroduced(inbox, public, sent, r);
    }
  }

  lemma AlreadyIntroduced(peers: seq<Peer>, partner: map<Bytes, Bytes>, p: nat, n: nat,
                          public: Result<Bytes>, sent: bool, r: Result<Negotiated>)
    requires p < |peers| && HandshakeSoFar(peers, partner, p)
    requires n <= |peers[p].outbox| && Negotiates(peers[p].outbox[..n], public, sent, r) && r.Ok?
    ensures n >= 3 && |Told(peers[p])| == 3 && Told(peers[p]) <= peers[p].outbox
    ensures r == Conclude(Told(peers[p])[0], Some(Told(peers[p])[1]))
  {
    var inbox := peers[p].outbox[..n];
    var failed := if public.Err? then Err("no reflection") else public;
    if n < 3 || |Told(peers[p])| != 3 {
      NotYetIntroduced(inbox, failed, sent, r);
    } else {
      IntroducedThenGo(inbox, public.value, r);
    }
  }

  /** Over the steps of any run: if Dial gets to the punching it does so with the peer's own token, the
      relay address it was given when it joined, and exactly what the latest Ready message of the partner
      said before the step that introduced the two; for a client that includes the fingerprint. */
  lemma DialAfterRun(now: int, steps: seq<Step>, p: nat, n: nat, public: Result<Bytes>, sent: bool,
                     r: Result<Negotiated>)
    returns (joined: nat, introduced: nat, q: nat)
    requires Run(now, steps) && p < |Reached(now, steps).peers| && n <= |Reached(now, steps).peers[p].outbox|
    requires Negotiates(Reached(now, steps).peers[p].outbox[..n], public, sent, r) && r.Ok?
    ensures var peers := Reached(now, steps).peers;
            && JoinedAt(now, steps, joined, peers[p], p)
            && IntroducedAt(now, steps, introduced, peers, p, q)
            && var o := LastReady(steps[..introduced], q).value;
               r.value == Negotiated(steps[joined].token, steps[joined].relayAddr, o.public, o.locals,
                                     if steps[joined].first.role == Some(Client) then o.fingerprint else "")
  {
    var st := Reached(now, steps);
    Handshake(now, steps, p);
    AlreadyIntroduced(st.peers, st.past.partner, p, n, public, sent, r);
    joined := Greeted(now, steps, p);
    introduced, q := PairedCarries(now, steps, p);
    assert Told(st.peers[p])[1] == Told(st.peers[p])[1..][0];
  }

  // --- The path ----------------------------------------------------------------------

  datatype Path = Direct(peer: Addr) | Relayed(conn: RelayPath.RelayConn)

  /** The hole punch is tried first, unless the relay is forced; if no candidate answers the relay is
      used, which is where the server said it is and knows the peer by its token. */
  method Establish(n: Negotiated, forceRelay: bool, resolve: Punch.Resolver, arrivals: seq<Option<Punch.Inbound>>,
                   sock: RelayPath.Socket)
    returns (r: Result<Path>)
    ensures var candidates := Punch.Resolved([n.peerAddr] + n.peerLocals, resolve);
            if !forceRelay && exists i: nat :: Punch.FirstAnswer(candidates, arrivals, i) then
              forall i: nat | Punch.FirstAnswer(candidates, arrivals, i) :: r == Ok(Direct(arrivals[i].value.from))
            else
              && (r.Ok? <==> resolve(n.relayAddr).Some? && |n.relayToken| == 16)
              && (r.Ok? ==> && r.value.Relayed? && r.value.conn.sock == sock
                            && r.value.conn.server == resolve(n.relayAddr).value && r.value.conn.token == n.relayToken)
  {
    if !forceRelay {
      var peer, _ := Punch.Punch(n.Candidates(), resolve, arrivals);
      if peer.Ok? { return Ok(Direct(peer.value)); }
    }
    var conn := RelayPath.NewRelayConn(sock, resolve(n.relayAddr), n.relayToken);
    if conn.Err? { return Err(conn.error); }
    return Ok(Relayed(conn.value));
  }
}
