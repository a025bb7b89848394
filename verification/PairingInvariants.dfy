/** Who is paired with whom, what the peers were told, and where the routes lead. */
module PairingInvariants {
  import opened Text
  import opened Wire
  import opened Rendezvous
  import opened RendezvousInvariants

  /** Each peer has a token of its own, of the length the wire format expects. */
  ghost predicate TokensOk(peers: seq<Peer>, issued: set<Bytes>) {
    && (forall p | 0 <= p < |peers| :: peers[p].token in issued && |peers[p].token| == TOKEN_LEN)
    && (forall p, q | 0 <= p < q < |peers| :: peers[p].token != peers[q].token)
  }

  /** The partner relation is symmetric and irreflexive. */
  ghost predicate PartnersOk(partner: map<Bytes, Bytes>, issued: set<Bytes>) {
    forall a | a in partner ::
      && |a| == TOKEN_LEN && a in issued
      && partner[a] != a && partner[a] in partner && partner[partner[a]] == a
  }

  /** Only peers of a paired session have partners, and within one session
      the introduced peers are each other's partners. */
  ghost predicate Introduced(store: seq<Session>, peers: seq<Peer>, partner: map<Bytes, Bytes>)
    requires PeersLinked(store, peers)
  {
    && (forall p | 0 <= p < |peers| && peers[p].token in partner :: store[peers[p].session].paired)
    && (forall p, q | 0 <= p < |peers| && 0 <= q < |peers| && p != q && peers[p].session == peers[q].session
                      && peers[p].token in partner && peers[q].token in partner ::
          partner[peers[p].token] == peers[q].token && peers[p].role != peers[q].role)
  }

  /** A session with both sides present and ready is paired, or a handler is about to see to it. */
  ghost predicate PairingDone(store: seq<Session>, peers: seq<Peer>) {
    forall s | 0 <= s < |store| && InRange(store[s], peers) && CanPair(store[s], peers) ::
      peers[store[s].host.value].matching || peers[store[s].client.value].matching
  }

  ghost predicate PairingOk(st: State)
    requires Linked(st)
  {
    && TokensOk(st.peers, st.past.issued)
    && PartnersOk(st.past.partner, st.past.issued)
    && Introduced(st.store, st.peers, st.past.partner)
    && PairingDone(st.store, st.peers)
  }

  // --- Steps that introduce nobody ---------------------------------------------------

  /** The peers keep who they are; the ones that are new have no partner. */
  ghost predicate SamePeople(peers: seq<Peer>, peers1: seq<Peer>, partner: map<Bytes, Bytes>) {
    && |peers| <= |peers1|
    && (forall p | 0 <= p < |peers| ::
          peers1[p].session == peers[p].session && peers1[p].role == peers[p].role && peers1[p].token == peers[p].token)
    && (forall p | |peers| <= p < |peers1| :: peers1[p].token !in partner)
  }

  ghost predicate PairedStays(store: seq<Session>, store1: seq<Session>) {
    |store| <= |store1| && forall s | 0 <= s < |store| :: store[s].paired ==> store1[s].paired
  }

  lemma IntroducedStays(store: seq<Session>, store1: seq<Session>, peers: seq<Peer>, peers1: seq<Peer>,
                        partner: map<Bytes, Bytes>)
    requires PeersLinked(store, peers) && PeersLinked(store1, peers1)
    requires SamePeople(peers, peers1, partner) && PairedStays(store, store1)
    requires Introduced(store, peers, partner)
    ensures Introduced(store1, peers1, partner)
  {}

  lemma SeatPairing(store: seq<Session>, peers: seq<Peer>, partner: map<Bytes, Bytes>, s: nat, peer: Peer)
    requires MembersLinked(store, peers) && PairingDone(store, peers)
    requires s < |store| && peer.session == s && !peer.ready
    ensures PairedStays(store, WithMember(store, s, peer.role, |peers|))
    ensures PairingDone(WithMember(store, s, peer.role, |peers|), peers + [peer])
  {
    forall t | 0 <= t < |store| ensures InRange(store[t], peers) {
      assert MemberLinked(store[t].host, t, Host, peers) && MemberLinked(store[t].client, t, Client, peers);
    }
  }

  lemma JoinTokens(peers: seq<Peer>, peer: Peer, issued: set<Bytes>, partner: map<Bytes, Bytes>)
    requires TokensOk(peers, issued) && PartnersOk(partner, issued)
    requires |peer.token| == TOKEN_LEN && peer.token !in issued
    ensures TokensOk(peers + [peer], issued + {peer.token}) && PartnersOk(partner, issued + {peer.token})
    ensures peer.token !in partner
  {}

  lemma JoinPairing(st: State, first: First, token: Bytes, relayAddr: string)
    requires Linked(st) && PairingOk(st) && Enabled(st, DoJoin(first, token, relayAddr))
    ensures Linked(Join(st, first, token, relayAddr)) && PairingOk(Join(st, first, token, relayAddr))
  {
    JoinLinked(st, first, token, relayAddr);
    if JoinError(st, first).None? {
      var st1 := Join(st, first, token, relayAddr);
      StoreForLinked(st, first.code);
      JoinTokens(st.peers, st1.peers[|st.peers|], st.past.issued, st.past.partner);
      SeatPairing(StoreFor(st, first.code), st.peers, st.past.partner, SessionFor(st, first.code),
                  st1.peers[|st.peers|]);
      IntroducedStays(st.store, st1.store, st.peers, st1.peers, st.past.partner);
    }
  }

  lemma ReadyPairing(st: State, p: nat, offer: Offer)
    requires Linked(st) && PairingOk(st) && Enabled(st, DoReady(p, offer))
    ensures Linked(MarkReady(st, p, offer)) && PairingOk(MarkReady(st, p, offer))
  {
    ReadyLinked(st, p, offer);
    IntroducedStays(st.store, st.store, st.peers, MarkReady(st, p, offer).peers, st.past.partner);
  }

  lemma UnseatPairing(store: seq<Session>, peers: seq<Peer>, p: nat)
    requires MembersLinked(store, peers) && PairingDone(store, peers) && p < |peers| && peers[p].session < |store|
    ensures var store1 := store[peers[p].session := store[peers[p].session].With(peers[p].role, None)];
            PairedStays(store, store1) && PairingDone(store1, peers[p := peers[p].(active := false)])
  {}

  lemma LeavePairing(st: State, p: nat)
    requires Linked(st) && PairingOk(st) && Enabled(st, DoLeave(p))
    ensures Linked(Leave(st, p)) && PairingOk(Leave(st, p))
  {
    LeaveLinked(st, p);
    UnseatPairing(st.store, st.peers, p);
    IntroducedStays(st.store, Leave(st, p).store, st.peers, Leave(st, p).peers, st.past.partner);
  }

  lemma HungUpPeople(peers: seq<Peer>, peers1: seq<Peer>, issued: set<Bytes>, partner: map<Bytes, Bytes>, sess: Session)
    requires HungUp(sess, peers, peers1) && TokensOk(peers, issued)
    ensures SamePeople(peers, peers1, partner) && TokensOk(peers1, issued)
  {}

  lemma HungUpDone(store: seq<Session>, peers: seq<Peer>, peers1: seq<Peer>, sess: Session)
    requires HungUp(sess, peers, peers1) && PairingDone(store, peers)
    ensures PairingDone(store, peers1)
  {}

  lemma DeleteSessionPairing(st: State, code: string)
    requires Linked(st) && PairingOk(st)
    ensures Linked(DeleteSession(st, code)) && PairingOk(DeleteSession(st, code))
  {
    DeleteSessionLinked(st, code);
    if code in st.sessions {
      DeleteSessionHangsUp(st, code);
      var peers1, sess := DeleteSession(st, code).peers, st.store[st.sessions[code]];
      HungUpPeople(st.peers, peers1, st.past.issued, st.past.partner, sess);
      HungUpDone(st.store, st.peers, peers1, sess);
      IntroducedStays(st.store, st.store, st.peers, peers1, st.past.partner);
    }
  }

  // --- Pairing -----------------------------------------------------------------------

  lemma PartneredOk(partner: map<Bytes, Bytes>, issued: set<Bytes>, a: Bytes, b: Bytes)
    requires PartnersOk(partner, issued) && a !in partner && b !in partner && a != b
    requires |a| == TOKEN_LEN && |b| == TOKEN_LEN && a in issued && b in issued
    ensures PartnersOk(Partnered(partner, a, b), issued)
  {}

  /** An unpaired session's members have no partners yet, so pairing them gives nobody a second one. */
  lemma PairPartners(store: seq<Session>, peers: seq<Peer>, issued: set<Bytes>, partner: map<Bytes, Bytes>, s: nat)
    requires MembersLinked(store, peers) && PeersLinked(store, peers)
    requires TokensOk(peers, issued) && PartnersOk(partner, issued) && Introduced(store, peers, partner)
    requires s < |store| && store[s].host.Some? && store[s].client.Some? && !store[s].paired
    ensures var h, c := store[s].host.value, store[s].client.value;
            && h < |peers| && c < |peers| && peers[h].role == Host && peers[c].role == Client
            && peers[h].token !in partner && peers[c].token !in partner && peers[h].token != peers[c].token
            && PartnersOk(Partnered(partner, peers[h].token, peers[c].token), issued)
  {
    var h, c := store[s].host.value, store[s].client.value;
    assert MemberLinked(store[s].host, s, Host, peers) && MemberLinked(store[s].client, s, Client, peers);
    PartneredOk(partner, issued, peers[h].token, peers[c].token);
  }

  lemma PairMarks(store: seq<Session>, peers: seq<Peer>, partner: map<Bytes, Bytes>, s: nat, h: nat, c: nat, p: nat)
    requires s < |store| && h < |peers| && c < |peers| && peers[h].session == peers[c].session == s
    requires p < |peers| && peers[p].session < |store|
    requires forall q | 0 <= q < |peers| && q != p :: peers[q].token != peers[p].token
    requires peers[p].token in partner ==> store[peers[p].session].paired
    requires peers[p].token in Partnered(partner, peers[h].token, peers[c].token)
    ensures store[s := store[s].(paired := true)][peers[p].session].paired
  {
    if peers[p].token !in partner { assert p == h || p == c; }
  }

  lemma PairIntroduced(store: seq<Session>, peers: seq<Peer>, issued: set<Bytes>, partner: map<Bytes, Bytes>,
                       s: nat, h: nat, c: nat)
    requires PeersLinked(store, peers) && TokensOk(peers, issued) && PartnersOk(partner, issued)
    requires Introduced(store, peers, partner)
    requires s < |store| && !store[s].paired && h < |peers| && c < |peers|
    requires peers[h].session == peers[c].session == s && peers[h].role != peers[c].role
    ensures PeersLinked(store[s := store[s].(paired := true)], peers)
    ensures Introduced(store[s := store[s].(paired := true)], peers, Partnered(partner, peers[h].token, peers[c].token))
  {
    var partner1 := Partnered(partner, peers[h].token, peers[c].token);
    forall p | 0 <= p < |peers| && peers[p].token in partner1
      ensures store[s := store[s].(paired := true)][peers[p].session].paired
    {
      PairMarks(store, peers, partner, s, h, c, p);
    }
    forall p | 0 <= p < |peers| && peers[p].token in partner1 ensures peers[p].token in partner || p == h || p == c {}
  }

  lemma SamePlacesIntroduced(store: seq<Session>, peers: seq<Peer>, peers1: seq<Peer>, issued: set<Bytes>,
                             partner: map<Bytes, Bytes>)
    requires SamePlaces(store, store, peers, peers1)
    requires PeersLinked(store, peers) && PeersLinked(store, peers1)
    requires TokensOk(peers, issued) && Introduced(store, peers, partner)
    ensures TokensOk(peers1, issued) && Introduced(store, peers1, partner)
  {}

  /** After the critical section the session of p has paired, or there was nothing to pair. */
  lemma SettledDone(store: seq<Session>, store1: seq<Session>, peers: seq<Peer>, peers1: seq<Peer>, p: nat)
    requires MembersLinked(store, peers) && PairingDone(store, peers)
    requires SamePlaces(store, store1, peers, peers1) && PairedStays(store, store1)
    requires p < |peers| && peers[p].session < |store|
    requires forall q | 0 <= q < |peers| && q != p :: peers1[q].matching == peers[q].matching
    requires InRange(store1[peers[p].session], peers) && !CanPair(store1[peers[p].session], peers)
    ensures PairingDone(store1, peers1)
  {
    forall s | 0 <= s < |store1| && InRange(store1[s], peers1) && CanPair(store1[s], peers1)
      ensures peers1[store1[s].host.value].matching || peers1[store1[s].client.value].matching
    {
      assert MemberLinked(store[s].host, s, Host, peers) && MemberLinked(store[s].client, s, Client, peers);
    }
  }

  lemma TryPairSettles(st: State, p: nat)
    requires SessionInRange(st, p)
    ensures var st1 := TryPair(st, p); var s := st.peers[p].session;
            PairedStays(st.store, st1.store) && InRange(st1.store[s], st.peers) && !CanPair(st1.store[s], st.peers)
  {}

  lemma TryPairDone(st: State, p: nat)
    requires Linked(st) && PairingDone(st.store, st.peers) && p < |st.peers|
    ensures PairingDone(TryPair(st, p).store, TryPair(st, p).peers)
  {
    TryPairKeepsPlaces(st, p);
    TryPairSettles(st, p);
    SettledDone(st.store, TryPair(st, p).store, st.peers, TryPair(st, p).peers, p);
  }

  lemma TryPairIntroduced(st: State, p: nat)
    requires Linked(st) && PairingOk(st) && p < |st.peers|
    ensures var st1 := TryPair(st, p);
            && Linked(st1) && TokensOk(st1.peers, st1.past.issued)
            && PartnersOk(st1.past.partner, st1.past.issued) && Introduced(st1.store, st1.peers, st1.past.partner)
  {
    var st1, s := TryPair(st, p), st.peers[p].session;
    TryPairLinked(st, p);
    TryPairKeepsPlaces(st, p);
    if CanPair(st.store[s], Settle(st.peers, p)) {
      PairPartners(st.store, st.peers, st.past.issued, st.past.partner, s);
      PairIntroduced(st.store, st.peers, st.past.issued, st.past.partner, s, st.store[s].host.value,
                     st.store[s].client.value);
    }
    SamePlacesIntroduced(st1.store, st.peers, st1.peers, st.past.issued, st1.past.partner);
  }

  lemma TryPairPairing(st: State, p: nat)
    requires Linked(st) && PairingOk(st) && p < |st.peers|
    ensures Linked(TryPair(st, p)) && PairingOk(TryPair(st, p))
  {
    TryPairDone(st, p);
    TryPairIntroduced(st, p);
  }

  lemma NextPairing(st: State, step: Step)
    requires Linked(st) && PairingOk(st) && Enabled(st, step)
    ensures Linked(Next(st, step)) && PairingOk(Next(st, step))
  {
    match step
    case DoJoin(first, token, relayAddr) => JoinPairing(st, first, token, relayAddr);
    case DoReady(p, offer) => ReadyPairing(st, p, offer);
    case DoTryPair(p) => TryPairPairing(st, p);
    case DoLeave(p) => LeavePairing(st, p);
    case DoDeleteSession(code) => DeleteSessionPairing(st, code);
    case _ => TrafficLeavesSignaling(st, step);
  }
}
