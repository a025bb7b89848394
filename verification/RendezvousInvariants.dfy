/** What every step of the rendezvous server keeps. */
module RendezvousInvariants {
  import opened Text
  import opened Rendezvous

  // --- Sessions, members and peers ---------------------------------------------------

  lemma StoreForLinked(st: State, code: string)
    requires Linked(st)
    ensures CodesLinked(st.sessions, StoreFor(st, code)) && MembersLinked(StoreFor(st, code), st.peers)
    ensures PeersLinked(StoreFor(st, code), st.peers)
    ensures SessionFor(st, code) < |StoreFor(st, code)| && StoreFor(st, code)[SessionFor(st, code)].code == code
  {}

  /** A new peer takes an empty place. */
  lemma SeatLinked(sessions: map<string, nat>, store: seq<Session>, peers: seq<Peer>, s: nat, peer: Peer)
    requires CodesLinked(sessions, store) && MembersLinked(store, peers) && PeersLinked(store, peers)
    requires s < |store| && peer.session == s && peer.code == store[s].code && store[s].Member(peer.role).None?
    requires peer.active && !peer.matching
    ensures var store1 := WithMember(store, s, peer.role, |peers|);
            && CodesLinked(sessions[peer.code := s], store1)
            && MembersLinked(store1, peers + [peer])
            && PeersLinked(store1, peers + [peer])
  {}

  lemma JoinLinked(st: State, first: First, token: Bytes, relayAddr: string)
    requires Linked(st)
    ensures Linked(Join(st, first, token, relayAddr))
  {
    if JoinError(st, first).None? {
      var code := first.code;
      StoreForLinked(st, code);
      var peer := Join(st, first, token, relayAddr).peers[|st.peers|];
      SeatLinked(st.sessions, StoreFor(st, code), st.peers, SessionFor(st, code), peer);
    }
  }

  /** Pairing changes nobody's place in a session. */
  ghost predicate SamePlaces(store: seq<Session>, store1: seq<Session>, peers: seq<Peer>, peers1: seq<Peer>) {
    && |store1| == |store| && |peers1| == |peers|
    && (forall s | 0 <= s < |store| :: store1[s] == store[s].(paired := store1[s].paired))
    && (forall q | 0 <= q < |peers| ::
          peers1[q] == peers[q].(matching := peers1[q].matching, outbox := peers1[q].outbox))
  }

  lemma SamePlacesLinked(sessions: map<string, nat>, store: seq<Session>, store1: seq<Session>,
                         peers: seq<Peer>, peers1: seq<Peer>)
    requires CodesLinked(sessions, store) && MembersLinked(store, peers) && PeersLinked(store, peers)
    requires SamePlaces(store, store1, peers, peers1)
    requires forall q | 0 <= q < |peers| :: peers1[q].matching ==> peers[q].matching
    ensures CodesLinked(sessions, store1) && MembersLinked(store1, peers1) && PeersLinked(store1, peers1)
  {}

  lemma IntroduceKeeps(peers: seq<Peer>, h: nat, c: nat)
    requires h < |peers| && c < |peers|
    ensures forall q | 0 <= q < |peers| ::
      Introduce(peers, h, c)[q] == peers[q].(outbox := Introduce(peers, h, c)[q].outbox)
  {}

  /** What one pass through tryPair leaves behind. */
  lemma TryPairKeepsPlaces(st: State, p: nat)
    requires SessionInRange(st, p)
    ensures var st1 := TryPair(st, p);
            && SamePlaces(st.store, st1.store, st.peers, st1.peers)
            && st1.sessions == st.sessions && st1.past.issued == st.past.issued
            && (forall q | 0 <= q < |st.peers| :: st1.peers[q].matching == (st.peers[q].matching && q != p))
  {
    var sess, peers1 := st.store[st.peers[p].session], Settle(st.peers, p);
    if CanPair(sess, peers1) {
      IntroduceKeeps(peers1, sess.host.value, sess.client.value);
    }
  }

  lemma TryPairLinked(st: State, p: nat)
    requires Linked(st) && p < |st.peers|
    ensures Linked(TryPair(st, p))
  {
    TryPairKeepsPlaces(st, p);
    SamePlacesLinked(st.sessions, st.store, TryPair(st, p).store, st.peers, TryPair(st, p).peers);
  }

  /** A peer gives up its place. */
  lemma UnseatLinked(sessions: map<string, nat>, store: seq<Session>, peers: seq<Peer>, p: nat)
    requires CodesLinked(sessions, store) && MembersLinked(store, peers) && PeersLinked(store, peers)
    requires p < |peers| && peers[p].active && !peers[p].matching
    ensures var s := peers[p].session;
            var sess1 := store[s].With(peers[p].role, None);
            var store1, peers1 := store[s := sess1], peers[p := peers[p].(active := false)];
            && CodesLinked(if sess1.Empty() then sessions - {peers[p].code} else sessions, store1)
            && MembersLinked(store1, peers1)
            && PeersLinked(store1, peers1)
  {
    forall c | c in sessions && sessions[c] == peers[p].session ensures c == peers[p].code {}
  }

  lemma LeaveLinked(st: State, p: nat)
    requires Linked(st) && Enabled(st, DoLeave(p))
    ensures Linked(Leave(st, p))
  {
    UnseatLinked(st.sessions, st.store, st.peers, p);
  }

  /** The peers after the members of one session were disconnected. */
  ghost predicate HungUp(sess: Session, peers: seq<Peer>, peers1: seq<Peer>) {
    && |peers1| == |peers|
    && forall i | 0 <= i < |peers| ::
         peers1[i] == if sess.host == Some(i) || sess.client == Some(i) then HangUp(peers[i]) else peers[i]
  }

  lemma HungUpLinked(store: seq<Session>, peers: seq<Peer>, peers1: seq<Peer>, sess: Session)
    requires MembersLinked(store, peers) && PeersLinked(store, peers) && HungUp(sess, peers, peers1)
    ensures MembersLinked(store, peers1) && PeersLinked(store, peers1)
  {}

  /** What deleting a session does to the signaling state. */
  lemma DeleteSessionHangsUp(st: State, code: string)
    requires Linked(st) && code in st.sessions
    ensures var st1 := DeleteSession(st, code);
            && HungUp(st.store[st.sessions[code]], st.peers, st1.peers)
            && st1.sessions == st.sessions - {code} && st1.store == st.store
            && st1.past.issued == st.past.issued && st1.past.partner == st.past.partner
  {
    var sess := st.store[st.sessions[code]];
    assert MemberLinked(sess.host, st.sessions[code], Host, st.peers);
    assert MemberLinked(sess.client, st.sessions[code], Client, st.peers);
  }

  lemma DeleteSessionLinked(st: State, code: string)
    requires Linked(st)
    ensures Linked(DeleteSession(st, code))
  {
    if code in st.sessions {
      DeleteSessionHangsUp(st, code);
      HungUpLinked(st.store, st.peers, DeleteSession(st, code).peers, st.store[st.sessions[code]]);
    }
  }

  lemma ReadyLinked(st: State, p: nat, offer: Offer)
    requires Linked(st) && Enabled(st, DoReady(p, offer))
    ensures Linked(MarkReady(st, p, offer))
  {}

  /** The steps that do not concern signaling. */
  ghost predicate OnlyTraffic(step: Step) {
    step.DoDatagram? || step.DoSweep? || step.DoPrune? || step.DoDeleteRelay? || step.DoWait?
  }

  lemma TrafficLeavesSignaling(st: State, step: Step)
    requires Linked(st) && Enabled(st, step) && OnlyTraffic(step)
    ensures var st1 := Next(st, step);
            st1.sessions == st.sessions && st1.store == st.store && st1.peers == st.peers
            && st1.past.issued == st.past.issued && st1.past.partner == st.past.partner
  {}

  lemma OnlyPairingAddsPartners(st: State, step: Step)
    requires Linked(st) && Enabled(st, step) && !step.DoTryPair?
    ensures Next(st, step).past.partner == st.past.partner
  {
    match step
    case DoJoin(_, _, _) =>
    case DoReady(_, _) =>
    case DoLeave(_) =>
    case DoDeleteSession(_) =>
    case _ => TrafficLeavesSignaling(st, step);
  }

  lemma NextLinked(st: State, step: Step)
    requires Linked(st) && Enabled(st, step)
    ensures Linked(Next(st, step))
  {
    match step
    case DoJoin(first, token, relayAddr) => JoinLinked(st, first, token, relayAddr);
    case DoReady(p, offer) => ReadyLinked(st, p, offer);
    case DoTryPair(p) => TryPairLinked(st, p);
    case DoLeave(p) => LeaveLinked(st, p);
    case DoDeleteSession(code) => DeleteSessionLinked(st, code);
    case _ => TrafficLeavesSignaling(st, step);
  }

  // --- The registry ------------------------------------------------------------------

  /** Members of a registered session have not been disconnected by the server. */
  ghost predicate RegisteredOpen(sessions: map<string, nat>, store: seq<Session>, peers: seq<Peer>) {
    forall c | c in sessions :: sessions[c] < |store| ==>
      MemberOpen(store[sessions[c]].host, peers) && MemberOpen(store[sessions[c]].client, peers)
  }

  ghost predicate MemberOpen(member: Option<nat>, peers: seq<Peer>) {
    member.Some? && member.value < |peers| ==> peers[member.value].open
  }

  /** Every connected peer sits in the session registered under its code. */
  ghost predicate Registered(sessions: map<string, nat>, peers: seq<Peer>) {
    forall p | 0 <= p < |peers| && peers[p].active && peers[p].open ::
      peers[p].code in sessions && sessions[peers[p].code] == peers[p].session
  }

  ghost predicate RegistryOk(st: State) {
    Linked(st) && RegisteredOpen(st.sessions, st.store, st.peers) && Registered(st.sessions, st.peers)
  }

  /** The last member of a session that is no longer registered leaves while its code is
      registered for another one. */
  ghost predicate StaleLeave(st: State, p: nat)
    requires p < |st.peers| && st.peers[p].session < |st.store|
  {
    var peer := st.peers[p];
    && st.store[peer.session].Member(peer.role.Other()).None?
    && peer.code in st.sessions && st.sessions[peer.code] != peer.session
  }

  lemma SeatRegistered(sessions: map<string, nat>, store: seq<Session>, peers: seq<Peer>, peer: Peer)
    requires CodesLinked(sessions, store) && MembersLinked(store, peers)
    requires RegisteredOpen(sessions, store, peers) && Registered(sessions, peers)
    requires peer.session < |store| && store[peer.session].code == peer.code && peer.open
    requires peer.code in sessions ==> sessions[peer.code] == peer.session
    requires peer.code !in sessions ==> store[peer.session].Empty()
    ensures var sessions1 := sessions[peer.code := peer.session];
            && RegisteredOpen(sessions1, WithMember(store, peer.session, peer.role, |peers|), peers + [peer])
            && Registered(sessions1, peers + [peer])
  {}

  lemma JoinRegistered(st: State, first: First, token: Bytes, relayAddr: string)
    requires RegistryOk(st)
    ensures RegistryOk(Join(st, first, token, relayAddr))
  {
    JoinLinked(st, first, token, relayAddr);
    if JoinError(st, first).None? {
      StoreForLinked(st, first.code);
      var peer := Join(st, first, token, relayAddr).peers[|st.peers|];
      SeatRegistered(st.sessions, StoreFor(st, first.code), st.peers, peer);
    }
  }

  /** Forgetting the code of a stale leave forgets somebody else. */
  lemma StaleLeaveForgets(sessions: map<string, nat>, store: seq<Session>, peers: seq<Peer>, p: nat)
    requires CodesLinked(sessions, store) && MembersLinked(store, peers) && PeersLinked(store, peers)
    requires RegisteredOpen(sessions, store, peers)
    requires p < |peers| && peers[p].code in sessions && sessions[peers[p].code] != peers[p].session
    ensures !Registered(sessions - {peers[p].code}, peers[p := peers[p].(active := false)])
  {
    var sess := store[sessions[peers[p].code]];
    var q := if sess.host.Some? then sess.host.value else sess.client.value;
    assert peers[p := peers[p].(active := false)][q] == peers[q];
  }

  lemma LastLeaveRegistered(sessions: map<string, nat>, store: seq<Session>, peers: seq<Peer>, p: nat)
    requires PeersLinked(store, peers) && Registered(sessions, peers)
    requires p < |peers| && peers[p].active && store[peers[p].session].Member(peers[p].role.Other()).None?
    requires peers[p].code in sessions ==> sessions[peers[p].code] == peers[p].session
    ensures Registered(sessions - {peers[p].code}, peers[p := peers[p].(active := false)])
  {
    forall q | 0 <= q < |peers| && q != p && peers[q].active && peers[q].open
      ensures peers[q].code != peers[p].code
    {
      assert Seated(store[peers[q].session], peers[q].role, q) && Seated(store[peers[p].session], peers[p].role, p);
    }
  }

  lemma UnseatOpen(sessions: map<string, nat>, store: seq<Session>, peers: seq<Peer>, p: nat)
    requires CodesLinked(sessions, store) && MembersLinked(store, peers) && RegisteredOpen(sessions, store, peers)
    requires p < |peers| && peers[p].session < |store|
    ensures var s := peers[p].session;
            var store1 := store[s := store[s].With(peers[p].role, None)];
            var peers1 := peers[p := peers[p].(active := false)];
            RegisteredOpen(sessions, store1, peers1) && RegisteredOpen(sessions - {peers[p].code}, store1, peers1)
  {}

  /** Removing the registration by code is right exactly when the leave is not stale. */
  lemma LeaveRegistered(st: State, p: nat)
    requires RegistryOk(st) && Enabled(st, DoLeave(p))
    ensures RegistryOk(Leave(st, p)) <==> !StaleLeave(st, p)
  {
    LeaveLinked(st, p);
    UnseatOpen(st.sessions, st.store, st.peers, p);
    if StaleLeave(st, p) {
      StaleLeaveForgets(st.sessions, st.store, st.peers, p);
    } else if st.store[st.peers[p].session].Member(st.peers[p].role.Other()).None? {
      LastLeaveRegistered(st.sessions, st.store, st.peers, p);
    }
  }

  lemma ClosedRegistered(sessions: map<string, nat>, store: seq<Session>, peers: seq<Peer>, code: string,
                         peers1: seq<Peer>)
    requires CodesLinked(sessions, store) && PeersLinked(store, peers) && Registered(sessions, peers)
    requires code in sessions && HungUp(store[sessions[code]], peers, peers1)
    ensures Registered(sessions - {code}, peers1)
  {
    forall p | 0 <= p < |peers| && peers1[p].active && peers1[p].open ensures peers[p].code != code {
      assert Seated(store[peers[p].session], peers[p].role, p);
    }
  }

  lemma OthersOpen(sessions: map<string, nat>, store: seq<Session>, peers: seq<Peer>, code: string, peers1: seq<Peer>)
    requires CodesLinked(sessions, store) && MembersLinked(store, peers) && RegisteredOpen(sessions, store, peers)
    requires code in sessions && HungUp(store[sessions[code]], peers, peers1)
    ensures RegisteredOpen(sessions - {code}, store, peers1)
  {
    assert MemberLinked(store[sessions[code]].host, sessions[code], Host, peers);
    assert MemberLinked(store[sessions[code]].client, sessions[code], Client, peers);
    forall c | c in sessions && c != code
      ensures MemberOpen(store[sessions[c]].host, peers1) && MemberOpen(store[sessions[c]].client, peers1)
    {
      assert MemberLinked(store[sessions[c]].host, sessions[c], Host, peers);
      assert MemberLinked(store[sessions[c]].client, sessions[c], Client, peers);
    }
  }

  lemma DeleteSessionRegistered(st: State, code: string)
    requires RegistryOk(st)
    ensures RegistryOk(DeleteSession(st, code))
  {
    DeleteSessionLinked(st, code);
    if code in st.sessions {
      DeleteSessionHangsUp(st, code);
      ClosedRegistered(st.sessions, st.store, st.peers, code, DeleteSession(st, code).peers);
      OthersOpen(st.sessions, st.store, st.peers, code, DeleteSession(st, code).peers);
    }
  }

  lemma SamePlacesRegistered(sessions: map<string, nat>, store: seq<Session>, store1: seq<Session>,
                             peers: seq<Peer>, peers1: seq<Peer>)
    requires SamePlaces(store, store1, peers, peers1)
    requires RegisteredOpen(sessions, store, peers) && Registered(sessions, peers)
    ensures RegisteredOpen(sessions, store1, peers1) && Registered(sessions, peers1)
  {}

  lemma TryPairRegistered(st: State, p: nat)
    requires RegistryOk(st) && p < |st.peers|
    ensures RegistryOk(TryPair(st, p))
  {
    TryPairLinked(st, p);
    TryPairKeepsPlaces(st, p);
    SamePlacesRegistered(st.sessions, st.store, TryPair(st, p).store, st.peers, TryPair(st, p).peers);
  }

  lemma ReadyRegistered(st: State, p: nat, offer: Offer)
    requires RegistryOk(st) && Enabled(st, DoReady(p, offer))
    ensures RegistryOk(MarkReady(st, p, offer))
  {
    ReadyLinked(st, p, offer);
  }

  /** The registry stays right across every step except a stale leave, which always breaks it. */
  lemma NextRegistered(st: State, step: Step)
    requires RegistryOk(st) && Enabled(st, step)
    ensures RegistryOk(Next(st, step)) <==> !(step.DoLeave? && StaleLeave(st, step.p))
  {
    match step
    case DoJoin(first, token, relayAddr) => JoinRegistered(st, first, token, relayAddr);
    case DoReady(p, offer) => ReadyRegistered(st, p, offer);
    case DoTryPair(p) => TryPairRegistered(st, p);
    case DoLeave(p) => LeaveRegistered(st, p);
    case DoDeleteSession(code) => DeleteSessionRegistered(st, code);
    case _ => TrafficLeavesSignaling(st, step);
  }
}
