/** What a peer has been told by the server in any run. */
module Handshakes {
  import opened Text
  import opened Rendezvous
  import opened RendezvousInvariants
  import opened PairingInvariants
  import opened MessageInvariants
  import opened RendezvousRuns

  // --- Partners are peers ------------------------------------------------------------

  ghost predicate Holds(peers: seq<Peer>, token: Bytes, p: nat) {
    p < |peers| && peers[p].token == token
  }

  /** Every token that was ever paired belongs to a peer. */
  ghost predicate PartnersKnown(peers: seq<Peer>, partner: map<Bytes, Bytes>) {
    forall a | a in partner :: exists p: nat :: Holds(peers, a, p)
  }

  lemma StillKnown(peers: seq<Peer>, peers1: seq<Peer>, partner: map<Bytes, Bytes>)
    requires PartnersKnown(peers, partner) && |peers| <= |peers1|
    requires forall p | 0 <= p < |peers| :: peers1[p].token == peers[p].token
    ensures PartnersKnown(peers1, partner)
  {
    forall a | a in partner ensures exists p: nat :: Holds(peers1, a, p) {
      var p: nat :| Holds(peers, a, p);
      assert Holds(peers1, a, p);
    }
  }

  lemma NewlyKnown(peers: seq<Peer>, partner: map<Bytes, Bytes>, h: nat, c: nat)
    requires PartnersKnown(peers, partner) && h < |peers| && c < |peers|
    ensures PartnersKnown(peers, Partnered(partner, peers[h].token, peers[c].token))
  {
    assert Holds(peers, peers[h].token, h) && Holds(peers, peers[c].token, c);
  }

  lemma NextPartnersKnown(st: State, step: Step)
    requires Linked(st) && Enabled(st, step) && PartnersKnown(st.peers, st.past.partner)
    ensures PartnersKnown(Next(st, step).peers, Next(st, step).past.partner)
  {
    var st1 := Next(st, step);
    forall p: nat | p < |st.peers| ensures |st.peers| <= |st1.peers| && st1.peers[p].token == st.peers[p].token {
      SamePerson(st, step, p);
    }
    assert |st.peers| <= |st1.peers| by {
      if st.peers != [] { SamePerson(st, step, 0); }
    }
    if step.DoTryPair? {
      var sess := st.store[st.peers[step.p].session];
      if CanPair(sess, Settle(st.peers, step.p)) {
        NewlyKnown(st.peers, st.past.partner, sess.host.value, sess.client.value);
      }
    } else {
      OnlyPairingAddsPartners(st, step);
    }
    StillKnown(st.peers, st1.peers, st1.past.partner);
  }

  lemma {:induction false} KnownAfter(st: State, steps: seq<Step>)
    requires Linked(st) && Feasible(st, steps) && PartnersKnown(st.peers, st.past.partner)
    ensures PartnersKnown(After(st, steps).peers, After(st, steps).past.partner)
    decreases |steps|
  {
    if steps != [] {
      NextLinked(st, steps[0]);
      NextPartnersKnown(st, steps[0]);
      KnownAfter(Next(st, steps[0]), steps[1..]);
    }
  }

  // --- Messages ----------------------------------------------------------------------

  /** The messages a peer was sent, without the error that came when its socket was closed. */
  function Told(peer: Peer): seq<Message> {
    if peer.open || peer.outbox == [] then peer.outbox else peer.outbox[..|peer.outbox| - 1]
  }

  /** Peer q is the partner of peer p, and what p was told about its partner came from q. */
  ghost predicate IntroducedTo(peers: seq<Peer>, partner: map<Bytes, Bytes>, p: nat, q: nat)
    requires p < |peers|
  {
    peers[p].token in partner && Holds(peers, partner[peers[p].token], q) && Delivered(peers[p], peers[q])
  }

  /** A peer has been sent its token; then, in one go, the introduction and the order to start;
      and an error at the end if the server closed the socket. It has a partner exactly if there is
      a peer to which it was introduced: the addresses it was told are ones that peer reported in a
      Ready message, and the fingerprint a client gets came with them. */
  ghost predicate HandshakeSoFar(peers: seq<Peer>, partner: map<Bytes, Bytes>, p: nat)
    requires p < |peers|
  {
    var peer, msgs := peers[p], Told(peers[p]);
    && (peer.outbox == msgs || peer.outbox == msgs + [SessionClosed()])
    && (Script(peer, msgs, false) || (Script(peer, msgs, true) && peer.token in partner))
    && (peer.open ==> (|msgs| == 3 <==> peer.token in partner))
    && (peer.token in partner <==> exists q: nat :: IntroducedTo(peers, partner, p, q))
  }

  lemma IntroductionMade(peers: seq<Peer>, partner: map<Bytes, Bytes>, issued: set<Bytes>, p: nat)
    requires IntroductionsOk(peers, partner) && PartnersKnown(peers, partner) && PartnersOk(partner, issued)
    requires p < |peers| && peers[p].token in partner
    ensures exists q: nat :: IntroducedTo(peers, partner, p, q)
  {
    var q: nat :| Holds(peers, partner[peers[p].token], q);
    assert IntroducedTo(peers, partner, p, q);
  }

  lemma ScriptKept(peer: Peer, partner: map<Bytes, Bytes>)
    requires OutboxOk(peer, partner)
    ensures var msgs := Told(peer);
            && (peer.outbox == msgs || peer.outbox == msgs + [SessionClosed()])
            && (Script(peer, msgs, false) || (Script(peer, msgs, true) && peer.token in partner))
            && (peer.open ==> (|msgs| == 3 <==> peer.token in partner))
  {
    if !peer.open { assert peer.outbox == Told(peer) + [SessionClosed()]; }
  }

  lemma HandshakeKept(peers: seq<Peer>, partner: map<Bytes, Bytes>, issued: set<Bytes>, p: nat)
    requires MessagesOk(peers, partner) && PartnersKnown(peers, partner) && PartnersOk(partner, issued) && p < |peers|
    ensures HandshakeSoFar(peers, partner, p)
  {
    assert OutboxOk(peers[p], partner);
    ScriptKept(peers[p], partner);
    if peers[p].token in partner {
      IntroductionMade(peers, partner, issued, p);
    }
  }

  /** So it is for every peer in every run. */
  lemma Handshake(now: int, steps: seq<Step>, p: nat)
    requires Run(now, steps) && p < |Reached(now, steps).peers|
    ensures HandshakeSoFar(Reached(now, steps).peers, Reached(now, steps).past.partner, p)
  {
    ReachedSound(now, steps);
    InitLinked(now);
    KnownAfter(Init(now), steps);
    var st := Reached(now, steps);
    HandshakeKept(st.peers, st.past.partner, st.past.issued, p);
  }
}
