/** What each peer has been told. */
module MessageInvariants {
  import opened Text
  import opened Rendezvous
  import opened RendezvousInvariants
  import opened PairingInvariants

  /** The messages of the handshake, apart from the final error. */
  ghost predicate Script(peer: Peer, msgs: seq<Message>, introduced: bool) {
    && |msgs| == (if introduced then 3 else 1)
    && msgs[0].Reflected? && msgs[0].relayToken == peer.token
    && (introduced ==>
          && msgs[1].Paired? && msgs[1].token == peer.token && msgs[1].peerRole == peer.role.Other()
          && msgs[2] == Go)
  }

  /** What a peer has been sent: Reflected, then Paired and Go together once it is introduced;
      and after the server closed the socket, the error as the last message. */
  ghost predicate OutboxOk(peer: Peer, partner: map<Bytes, Bytes>) {
    if peer.open then Script(peer, peer.outbox, peer.token in partner)
    else
      && peer.outbox != [] && peer.outbox[|peer.outbox| - 1] == SessionClosed()
      && var msgs := peer.outbox[..|peer.outbox| - 1];
         Script(peer, msgs, |msgs| == 3) && (|msgs| == 3 ==> peer.token in partner)
  }

  /** Paired passes on addresses that the partner itself sent in one of its Ready messages,
      and to the client the fingerprint from the same message. */
  ghost predicate Delivered(peer: Peer, source: Peer) {
    |peer.outbox| >= 3 ==>
      && peer.outbox[1].Paired?
      && exists o :: o in source.offers && o.public == peer.outbox[1].peerAddr && o.locals == peer.outbox[1].peerLocals
                     && (peer.role == Client ==> o.fingerprint == peer.outbox[1].fingerprint)
  }

  ghost predicate MessagesOk(peers: seq<Peer>, partner: map<Bytes, Bytes>) {
    OutboxesOk(peers, partner) && OffersOk(peers) && IntroductionsOk(peers, partner)
  }

  ghost predicate OutboxesOk(peers: seq<Peer>, partner: map<Bytes, Bytes>) {
    forall p | 0 <= p < |peers| :: OutboxOk(peers[p], partner)
  }

  ghost predicate OffersOk(peers: seq<Peer>) {
    forall p | 0 <= p < |peers| && peers[p].ready :: peers[p].offer in peers[p].offers
  }

  ghost predicate IntroductionsOk(peers: seq<Peer>, partner: map<Bytes, Bytes>) {
    forall p, q | 0 <= p < |peers| && 0 <= q < |peers| && peers[p].token in partner
                  && partner[peers[p].token] == peers[q].token :: Delivered(peers[p], peers[q])
  }

  /** Every peer keeps its token, role, messages and offers, or only gains offers. */
  ghost predicate SameMessages(peers: seq<Peer>, peers1: seq<Peer>) {
    && |peers1| == |peers|
    && forall p | 0 <= p < |peers| ::
         && peers1[p].token == peers[p].token && peers1[p].role == peers[p].role && peers1[p].open == peers[p].open
         && peers1[p].outbox == peers[p].outbox && peers[p].offers <= peers1[p].offers
         && (peers1[p].ready ==> peers1[p].offer in peers1[p].offers)
  }

  lemma SameMessagesOk(peers: seq<Peer>, peers1: seq<Peer>, partner: map<Bytes, Bytes>)
    requires MessagesOk(peers, partner) && SameMessages(peers, peers1)
    ensures MessagesOk(peers1, partner)
  {
    forall p, q | 0 <= p < |peers1| && 0 <= q < |peers1| && peers1[p].token in partner
                  && partner[peers1[p].token] == peers1[q].token
      ensures Delivered(peers1[p], peers1[q])
    {
      assert Delivered(peers[p], peers[q]);
    }
  }

  lemma JoinMessages(peers: seq<Peer>, partner: map<Bytes, Bytes>, issued: set<Bytes>, peer: Peer)
    requires MessagesOk(peers, partner) && PartnersOk(partner, issued)
    requires peer.open && |peer.outbox| == 1 && peer.outbox[0].Reflected? && peer.outbox[0].relayToken == peer.token
    requires !peer.ready && peer.token !in issued
    ensures MessagesOk(peers + [peer], partner)
  {}

  lemma HungUpMessages(peers: seq<Peer>, peers1: seq<Peer>, partner: map<Bytes, Bytes>, sess: Session)
    requires MessagesOk(peers, partner) && HungUp(sess, peers, peers1)
    ensures MessagesOk(peers1, partner)
  {
    forall p | 0 <= p < |peers| ensures OutboxOk(peers1[p], partner) {
      assert OutboxOk(peers[p], partner);
      if peers1[p] != peers[p] && peers[p].open {
        assert peers1[p].outbox[..|peers1[p].outbox| - 1] == peers[p].outbox;
      }
    }
    forall p, q | 0 <= p < |peers1| && 0 <= q < |peers1| && peers1[p].token in partner
                  && partner[peers1[p].token] == peers1[q].token
      ensures Delivered(peers1[p], peers1[q])
    {
      assert Delivered(peers[p], peers[q]) && OutboxOk(peers[p], partner);
    }
  }

  /** Introducing two peers that had no partners. */
  lemma IntroduceOutboxes(peers: seq<Peer>, partner: map<Bytes, Bytes>, h: nat, c: nat)
    requires h < |peers| && c < |peers| && h != c && peers[h].role == Host && peers[c].role == Client
    requires OutboxesOk(peers, partner)
    requires forall p, q | 0 <= p < q < |peers| :: peers[p].token != peers[q].token
    requires peers[h].token !in partner && peers[c].token !in partner
    ensures OutboxesOk(Introduce(peers, h, c), Partnered(partner, peers[h].token, peers[c].token))
  {
    var peers1, partner1 := Introduce(peers, h, c), Partnered(partner, peers[h].token, peers[c].token);
    forall p | 0 <= p < |peers| ensures OutboxOk(peers1[p], partner1) {
      assert OutboxOk(peers[p], partner);
    }
  }

  lemma IntroduceDelivers(to: Peer, other: Peer, partner: map<Bytes, Bytes>)
    requires OutboxOk(to, partner) && to.token !in partner && other.role == to.role.Other()
    requires other.ready && other.offer in other.offers
    ensures Delivered(Send(to, Introduction(to, other)), other)
  {
    if to.open {
      assert Send(to, Introduction(to, other)).outbox[1] == Introduction(to, other)[0];
    }
  }

  /** The two new partners received each other's offer, everybody else is as before. */
  lemma IntroducedDelivered(peers: seq<Peer>, peers1: seq<Peer>, partner: map<Bytes, Bytes>, issued: set<Bytes>,
                            h: nat, c: nat, p: nat, q: nat)
    requires TokensOk(peers, issued) && PartnersOk(partner, issued)
    requires h < |peers| && c < |peers| && h != c && |peers1| == |peers| && p < |peers| && q < |peers|
    requires peers1[p] == if p == h || p == c then peers1[p] else peers[p]
    requires peers1[q] == peers[q].(outbox := peers1[q].outbox)
    requires peers[h].token !in partner && peers[c].token !in partner
    requires Delivered(peers1[h], peers[c]) && Delivered(peers1[c], peers[h])
    requires peers[p].token in partner && partner[peers[p].token] == peers[q].token ==> Delivered(peers[p], peers[q])
    requires var partner1 := Partnered(partner, peers[h].token, peers[c].token);
             peers[p].token in partner1 && partner1[peers[p].token] == peers[q].token
    ensures Delivered(peers1[p], peers1[q])
  {
    if p == h { assert q == c; }
    else if p == c { assert q == h; }
  }

  lemma IntroduceIntroductions(peers: seq<Peer>, partner: map<Bytes, Bytes>, issued: set<Bytes>, h: nat, c: nat)
    requires IntroductionsOk(peers, partner) && TokensOk(peers, issued) && PartnersOk(partner, issued)
    requires h < |peers| && c < |peers| && h != c
    requires peers[h].token !in partner && peers[c].token !in partner
    requires Delivered(Introduce(peers, h, c)[h], peers[c]) && Delivered(Introduce(peers, h, c)[c], peers[h])
    ensures IntroductionsOk(Introduce(peers, h, c), Partnered(partner, peers[h].token, peers[c].token))
  {
    var peers1, partner1 := Introduce(peers, h, c), Partnered(partner, peers[h].token, peers[c].token);
    IntroduceKeeps(peers, h, c);
    forall p, q | 0 <= p < |peers1| && 0 <= q < |peers1| && peers1[p].token in partner1
                  && partner1[peers1[p].token] == peers1[q].token
      ensures Delivered(peers1[p], peers1[q])
    {
      IntroducedDelivered(peers, peers1, partner, issued, h, c, p, q);
    }
  }

  lemma IntroduceOffers(peers: seq<Peer>, h: nat, c: nat)
    requires OffersOk(peers) && h < |peers| && c < |peers|
    ensures OffersOk(Introduce(peers, h, c))
  {
    IntroduceKeeps(peers, h, c);
  }

  lemma IntroduceMessages(peers: seq<Peer>, partner: map<Bytes, Bytes>, issued: set<Bytes>, h: nat, c: nat)
    requires MessagesOk(peers, partner) && TokensOk(peers, issued) && PartnersOk(partner, issued)
    requires h < |peers| && c < |peers| && h != c && peers[h].role == Host && peers[c].role == Client
    requires peers[h].ready && peers[c].ready && peers[h].token !in partner && peers[c].token !in partner
    ensures MessagesOk(Introduce(peers, h, c), Partnered(partner, peers[h].token, peers[c].token))
  {
    IntroduceOffers(peers, h, c);
    IntroduceOutboxes(peers, partner, h, c);
    IntroduceDelivers(peers[h], peers[c], partner);
    IntroduceDelivers(peers[c], peers[h], partner);
    IntroduceIntroductions(peers, partner, issued, h, c);
  }

  lemma SettleMessages(peers: seq<Peer>, partner: map<Bytes, Bytes>, issued: set<Bytes>, p: nat)
    requires p < |peers| && MessagesOk(peers, partner) && TokensOk(peers, issued)
    ensures MessagesOk(Settle(peers, p), partner) && TokensOk(Settle(peers, p), issued)
  {
    SameMessagesOk(peers, Settle(peers, p), partner);
  }

  lemma TryPairMessages(st: State, p: nat)
    requires Linked(st) && PairingOk(st) && p < |st.peers| && MessagesOk(st.peers, st.past.partner)
    ensures MessagesOk(TryPair(st, p).peers, TryPair(st, p).past.partner)
  {
    var s, peers1 := st.peers[p].session, Settle(st.peers, p);
    SettleMessages(st.peers, st.past.partner, st.past.issued, p);
    if CanPair(st.store[s], peers1) {
      var h, c := st.store[s].host.value, st.store[s].client.value;
      PairPartners(st.store, st.peers, st.past.issued, st.past.partner, s);
      IntroduceMessages(peers1, st.past.partner, st.past.issued, h, c);
    }
  }

  lemma JoinStepMessages(st: State, first: First, token: Bytes, relayAddr: string)
    requires Linked(st) && PairingOk(st) && Enabled(st, DoJoin(first, token, relayAddr))
    requires MessagesOk(st.peers, st.past.partner)
    ensures MessagesOk(Join(st, first, token, relayAddr).peers, st.past.partner)
  {
    if JoinError(st, first).None? {
      JoinMessages(st.peers, st.past.partner, st.past.issued, Join(st, first, token, relayAddr).peers[|st.peers|]);
    }
  }

  lemma LeaveMessages(st: State, p: nat)
    requires p < |st.peers| && st.peers[p].session < |st.store| && MessagesOk(st.peers, st.past.partner)
    ensures MessagesOk(Leave(st, p).peers, st.past.partner)
  {
    SameMessagesOk(st.peers, Leave(st, p).peers, st.past.partner);
  }

  lemma ReadyMessages(st: State, p: nat, offer: Offer)
    requires p < |st.peers| && MessagesOk(st.peers, st.past.partner)
    ensures MessagesOk(MarkReady(st, p, offer).peers, st.past.partner)
  {
    SameMessagesOk(st.peers, MarkReady(st, p, offer).peers, st.past.partner);
  }

  lemma DeleteSessionMessages(st: State, code: string)
    requires Linked(st) && MessagesOk(st.peers, st.past.partner)
    ensures MessagesOk(DeleteSession(st, code).peers, st.past.partner)
    ensures DeleteSession(st, code).past.partner == st.past.partner
  {
    if code in st.sessions {
      DeleteSessionHangsUp(st, code);
      HungUpMessages(st.peers, DeleteSession(st, code).peers, st.past.partner, st.store[st.sessions[code]]);
    }
  }

  lemma NextMessages(st: State, step: Step)
    requires Linked(st) && PairingOk(st) && Enabled(st, step) && MessagesOk(st.peers, st.past.partner)
    ensures MessagesOk(Next(st, step).peers, Next(st, step).past.partner)
  {
    match step
    case DoJoin(first, token, relayAddr) => JoinStepMessages(st, first, token, relayAddr);
    case DoReady(p, offer) => ReadyMessages(st, p, offer);
    case DoTryPair(p) => TryPairMessages(st, p);
    case DoLeave(p) => LeaveMessages(st, p);
    case DoDeleteSession(code) => DeleteSessionMessages(st, code);
    case _ => TrafficLeavesSignaling(st, step);
  }
}
