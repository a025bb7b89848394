/** A run in which a host and a client meet and are paired, for the results that need an example. */
module PairedRun {
  import opened Text
  import opened Wire
  import opened Rendezvous
  import opened RendezvousRuns

  ghost predicate PeerIs(peer: Peer, role: Role, token: Bytes, ready: bool, matching: bool) {
    && peer.role == role && peer.code == "c" && peer.session == 0 && peer.token == token
    && peer.active && peer.open && peer.ready == ready && peer.matching == matching
  }

  /** A host waits alone. */
  ghost predicate Alone(st: State, t0: Bytes) {
    && st.sessions == map["c" := 0] && st.store == [Session("c", Some(0), None, false)]
    && |st.peers| == 1 && PeerIs(st.peers[0], Host, t0, false, false)
    && st.relays == map[] && st.now == 0 && st.past.issued == {t0} && st.past.partner == map[]
  }

  /** Both are there; the flags say how far each of them got with its Ready message. */
  ghost predicate Met(st: State, t0: Bytes, t1: Bytes, ready0: bool, matching0: bool, ready1: bool, matching1: bool) {
    && st.sessions == map["c" := 0] && st.store == [Session("c", Some(0), Some(1), false)]
    && |st.peers| == 2 && PeerIs(st.peers[0], Host, t0, ready0, matching0)
    && PeerIs(st.peers[1], Client, t1, ready1, matching1)
    && st.relays == map[] && st.now == 0 && st.past.issued == {t0, t1} && st.past.partner == map[]
  }

  /** They have been paired. */
  ghost predicate Together(st: State, t0: Bytes, t1: Bytes) {
    && st.sessions == map["c" := 0] && st.store == [Session("c", Some(0), Some(1), true)]
    && |st.peers| == 2 && PeerIs(st.peers[0], Host, t0, true, false) && PeerIs(st.peers[1], Client, t1, true, false)
    && st.relays.Keys == {t0, t1} && st.relays[t0].peer == t1 && st.relays[t1].peer == t0
    && st.relays[t0].seen == 0 && st.relays[t1].seen == 0
    && st.now == 0 && st.past.issued == {t0, t1}
  }

  lemma JoinFirst(t0: Bytes)
    ensures Alone(Join(Init(0), Hello("c", Some(Host)), t0, ""), t0)
  {}

  lemma JoinSecond(st: State, t0: Bytes, t1: Bytes)
    requires Alone(st, t0)
    ensures JoinError(st, Hello("c", Some(Client))).None?
    ensures Met(Join(st, Hello("c", Some(Client)), t1, ""), t0, t1, false, false, false, false)
  {}

  lemma HostReady(st: State, t0: Bytes, t1: Bytes, offer: Offer)
    requires Met(st, t0, t1, false, false, false, false)
    ensures Met(MarkReady(st, 0, offer), t0, t1, true, true, false, false)
  {}

  lemma HostTries(st: State, t0: Bytes, t1: Bytes)
    requires Met(st, t0, t1, true, true, false, false)
    ensures SessionInRange(st, 0) && Met(TryPair(st, 0), t0, t1, true, false, false, false)
  {}

  lemma ClientReady(st: State, t0: Bytes, t1: Bytes, offer: Offer)
    requires Met(st, t0, t1, true, false, false, false)
    ensures Met(MarkReady(st, 1, offer), t0, t1, true, false, true, true)
  {}

  lemma ClientTries(st: State, t0: Bytes, t1: Bytes)
    requires Met(st, t0, t1, true, false, true, true) && t0 != t1
    ensures SessionInRange(st, 1) && Together(TryPair(st, 1), t0, t1)
  {}

  lemma ReachMet(t0: Bytes, t1: Bytes) returns (steps: seq<Step>)
    requires |t0| == |t1| == TOKEN_LEN && t0 != t1
    ensures Run(0, steps) && Met(Reached(0, steps), t0, t1, false, false, false, false)
  {
    FreshRun(0);
    JoinFirst(t0);
    var host, client := DoJoin(Hello("c", Some(Host)), t0, ""), DoJoin(Hello("c", Some(Client)), t1, "");
    Extend(0, [], host);
    JoinSecond(Reached(0, [] + [host]), t0, t1);
    Extend(0, [] + [host], client);
    steps := [] + [host] + [client];
  }

  lemma ReachReady(t0: Bytes, t1: Bytes) returns (steps: seq<Step>)
    requires |t0| == |t1| == TOKEN_LEN && t0 != t1
    ensures Run(0, steps) && Met(Reached(0, steps), t0, t1, true, false, false, false)
  {
    steps := ReachMet(t0, t1);
    HostReady(Reached(0, steps), t0, t1, NoOffer());
    Extend(0, steps, DoReady(0, NoOffer()));
    steps := steps + [DoReady(0, NoOffer())];
    HostTries(Reached(0, steps), t0, t1);
    Extend(0, steps, DoTryPair(0));
    steps := steps + [DoTryPair(0)];
  }

  lemma ReachTogether(t0: Bytes, t1: Bytes) returns (steps: seq<Step>)
    requires |t0| == |t1| == TOKEN_LEN && t0 != t1
    ensures Run(0, steps) && Together(Reached(0, steps), t0, t1)
  {
    steps := ReachReady(t0, t1);
    ClientReady(Reached(0, steps), t0, t1, NoOffer());
    Extend(0, steps, DoReady(1, NoOffer()));
    steps := steps + [DoReady(1, NoOffer())];
    ClientTries(Reached(0, steps), t0, t1);
    Extend(0, steps, DoTryPair(1));
    steps := steps + [DoTryPair(1)];
  }
}
