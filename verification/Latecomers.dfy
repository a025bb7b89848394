/** A session pairs once and for all: who joins before that is introduced, who joins after is not. */
module Latecomers {
  import opened Text
  import opened Wire
  import opened Rendezvous
  import opened RendezvousInvariants
  import opened PairingInvariants
  import opened MessageInvariants
  import opened RendezvousRuns
  import opened PairedRun

  /** A peer of a session that paired without it. */
  ghost predicate Late(st: State, p: nat) {
    && p < |st.peers| && st.peers[p].session < |st.store|
    && st.store[st.peers[p].session].paired && st.peers[p].token !in st.past.partner
  }

  /** A peer that, as long as it stays, has a partner once its session has paired. */
  ghost predicate InTime(st: State, p: nat) {
    && p < |st.peers| && st.peers[p].session < |st.store|
    && (st.peers[p].active && st.store[st.peers[p].session].paired ==> st.peers[p].token in st.past.partner)
  }

  // --- Late for ever -----------------------------------------------------------------

  /** Pairing session s concerns nobody in another session. */
  lemma OthersUnconcerned(store: seq<Session>, peers: seq<Peer>, issued: set<Bytes>, partner: map<Bytes, Bytes>,
                          s: nat, p: nat)
    requires MembersLinked(store, peers) && TokensOk(peers, issued) && p < |peers| && peers[p].token !in partner
    requires s < |store| && store[s].host.Some? && store[s].client.Some? && peers[p].session != s
    ensures var h, c := store[s].host.value, store[s].client.value;
            h < |peers| && c < |peers| && peers[p].token !in Partnered(partner, peers[h].token, peers[c].token)
  {
    assert MemberLinked(store[s].host, s, Host, peers) && MemberLinked(store[s].client, s, Client, peers);
  }

  lemma TryPairLate(st: State, q: nat, p: nat)
    requires Linked(st) && PairingOk(st) && q < |st.peers| && Late(st, p)
    ensures Late(TryPair(st, q), p)
  {
    var s := st.peers[q].session;
    TryPairKeepsPlaces(st, q);
    TryPairPairs(st, q, st.peers[p].session);
    if CanPair(st.store[s], Settle(st.peers, q)) {
      OthersUnconcerned(st.store, st.peers, st.past.issued, st.past.partner, s, p);
    }
  }

  lemma NextLate(st: State, step: Step, p: nat)
    requires Linked(st) && PairingOk(st) && Enabled(st, step) && Late(st, p)
    ensures Late(Next(st, step), p)
  {
    if step.DoTryPair? {
      TryPairLate(st, step.p, p);
    } else {
      SamePerson(st, step, p);
      NextKeepsPaired(st, step, st.peers[p].session);
      OnlyPairingAddsPartners(st, step);
    }
  }

  lemma {:induction false} LateForever(st: State, steps: seq<Step>, p: nat)
    requires Linked(st) && PairingOk(st) && Feasible(st, steps) && Late(st, p)
    ensures Late(After(st, steps), p)
    decreases |steps|
  {
    if steps != [] {
      NextPairing(st, steps[0]);
      NextLate(st, steps[0], p);
      LateForever(Next(st, steps[0]), steps[1..], p);
    }
  }

  // --- In time for ever --------------------------------------------------------------

  /** A session that pairs gives a partner to everybody in it. */
  lemma PairingReaches(store: seq<Session>, peers: seq<Peer>, partner: map<Bytes, Bytes>, s: nat, p: nat)
    requires MembersLinked(store, peers) && PeersLinked(store, peers) && p < |peers| && peers[p].session == s
    requires s < |store| && store[s].host.Some? && store[s].client.Some? && peers[p].active
    ensures var h, c := store[s].host.value, store[s].client.value;
            h < |peers| && c < |peers| && peers[p].token in Partnered(partner, peers[h].token, peers[c].token)
  {
    assert MemberLinked(store[s].host, s, Host, peers) && MemberLinked(store[s].client, s, Client, peers);
    assert Seated(store[s], peers[p].role, p);
  }

  lemma TryPairInTime(st: State, q: nat, p: nat)
    requires Linked(st) && PairingOk(st) && q < |st.peers| && InTime(st, p)
    ensures InTime(TryPair(st, q), p)
  {
    var s := st.peers[q].session;
    TryPairKeepsPlaces(st, q);
    TryPairPairs(st, q, st.peers[p].session);
    if CanPair(st.store[s], Settle(st.peers, q)) {
      if st.peers[p].token in st.past.partner {
        TryPairKeepsPartners(st, q, st.peers[p].token);
      } else if st.peers[p].active && st.peers[p].session == s {
        PairingReaches(st.store, st.peers, st.past.partner, s, p);
      }
    }
  }

  lemma NextInTime(st: State, step: Step, p: nat)
    requires Linked(st) && PairingOk(st) && Enabled(st, step) && InTime(st, p)
    ensures InTime(Next(st, step), p)
  {
    if step.DoTryPair? {
      TryPairInTime(st, step.p, p);
    } else {
      SamePerson(st, step, p);
      NextKeepsPaired(st, step, st.peers[p].session);
      OnlyPairingAddsPartners(st, step);
    }
  }

  lemma {:induction false} InTimeForever(st: State, steps: seq<Step>, p: nat)
    requires Linked(st) && PairingOk(st) && Feasible(st, steps) && InTime(st, p)
    ensures InTime(After(st, steps), p)
    decreases |steps|
  {
    if steps != [] {
      NextPairing(st, steps[0]);
      NextInTime(st, steps[0], p);
      InTimeForever(Next(st, steps[0]), steps[1..], p);
    }
  }

  // --- The one moment that decides ---------------------------------------------------

  /** Somebody who says hello now would be put into a session that has paired. */
  predicate PairedAlready(st: State, first: First) {
    && first.Hello? && first.code in st.sessions && st.sessions[first.code] < |st.store|
    && st.store[st.sessions[first.code]].paired
  }

  lemma JoinedLate(st: State, first: First, token: Bytes, relayAddr: string)
    requires Linked(st) && PartnersOk(st.past.partner, st.past.issued) && token !in st.past.issued
    requires JoinError(st, first).None? && PairedAlready(st, first)
    ensures Late(Join(st, first, token, relayAddr), |st.peers|)
  {}

  lemma JoinedInTime(st: State, first: First, token: Bytes, relayAddr: string)
    requires Linked(st) && JoinError(st, first).None? && !PairedAlready(st, first)
    ensures InTime(Join(st, first, token, relayAddr), |st.peers|)
  {}

  lemma OnlyToken(peers: seq<Peer>, partner: map<Bytes, Bytes>, p: nat)
    requires MessagesOk(peers, partner) && p < |peers| && peers[p].token !in partner && peers[p].open
    ensures |peers[p].outbox| == 1 && peers[p].outbox[0].Reflected?
  {
    assert OutboxOk(peers[p], partner);
  }

  lemma InTheEnd(st: State, first: First, token: Bytes, relayAddr: string, steps: seq<Step>)
    requires Sound(st) && Enabled(st, DoJoin(first, token, relayAddr)) && JoinError(st, first).None?
    requires Linked(Join(st, first, token, relayAddr)) && Feasible(Join(st, first, token, relayAddr), steps)
    ensures var st1 := After(Join(st, first, token, relayAddr), steps);
            Sound(st1) && if PairedAlready(st, first) then Late(st1, |st.peers|) else InTime(st1, |st.peers|)
  {
    var st0 := Join(st, first, token, relayAddr);
    NextSound(st, DoJoin(first, token, relayAddr));
    SoundAfter(st0, steps);
    if PairedAlready(st, first) {
      JoinedLate(st, first, token, relayAddr);
      LateForever(st0, steps, |st.peers|);
    } else {
      JoinedInTime(st, first, token, relayAddr);
      InTimeForever(st0, steps, |st.peers|);
    }
  }

  /** Whoever is still there in a session that has paired has a partner if and only if the session
      had not paired when it joined: the `paired` mark is never taken back. A peer that takes the
      place of one that left after the pairing waits for ever, and as long as its socket is open all
      it gets is its token. */
  lemma IntroducedIff(now: int, before: seq<Step>, first: First, token: Bytes, relayAddr: string, steps: seq<Step>)
    requires Run(now, before) && Enabled(Reached(now, before), DoJoin(first, token, relayAddr))
    requires JoinError(Reached(now, before), first).None?
    requires var st := Join(Reached(now, before), first, token, relayAddr); Linked(st) && Feasible(st, steps)
    ensures var p, late := |Reached(now, before).peers|, PairedAlready(Reached(now, before), first);
            var st := After(Join(Reached(now, before), first, token, relayAddr), steps);
            && p < |st.peers| && st.peers[p].session < |st.store|
            && (st.peers[p].active && st.store[st.peers[p].session].paired ==>
                  (st.peers[p].token in st.past.partner <==> !late))
            && (late ==> st.peers[p].token !in st.past.partner)
            && (late && st.peers[p].open ==> |st.peers[p].outbox| == 1 && st.peers[p].outbox[0].Reflected?)
  {
    ReachedSound(now, before);
    var p := |Reached(now, before).peers|;
    InTheEnd(Reached(now, before), first, token, relayAddr, steps);
    var st := After(Join(Reached(now, before), first, token, relayAddr), steps);
    if st.peers[p].open && st.peers[p].token !in st.past.partner {
      OnlyToken(st.peers, st.past.partner, p);
    }
  }

  // --- An example --------------------------------------------------------------------

  /** The host has left after the pairing, and the client is still there. */
  ghost predicate HostGone(st: State, t0: Bytes, t1: Bytes) {
    && st.sessions == map["c" := 0] && st.store == [Session("c", None, Some(1), true)]
    && |st.peers| == 2 && PeerIs(st.peers[1], Client, t1, true, false)
    && st.past.issued == {t0, t1}
  }

  /** A new host has come, and it is as ready as the client. */
  ghost predicate BothWaiting(st: State, t1: Bytes, t2: Bytes, matching: bool) {
    && st.store == [Session("c", Some(2), Some(1), true)]
    && |st.peers| == 3 && PeerIs(st.peers[1], Client, t1, true, false) && PeerIs(st.peers[2], Host, t2, true, matching)
  }

  lemma HostLeaves(st: State, t0: Bytes, t1: Bytes)
    requires Together(st, t0, t1)
    ensures HostGone(Leave(st, 0), t0, t1)
  {}

  lemma HostReturns(st: State, t0: Bytes, t1: Bytes, t2: Bytes)
    requires HostGone(st, t0, t1)
    ensures JoinError(st, Hello("c", Some(Host))).None? && PairedAlready(st, Hello("c", Some(Host)))
    ensures var st1 := Join(st, Hello("c", Some(Host)), t2, "");
            |st1.peers| == 3 && st1.peers[2].active && !st1.peers[2].matching
            && BothWaiting(MarkReady(st1, 2, NoOffer()), t1, t2, true)
  {}

  lemma NothingToPair(st: State, t1: Bytes, t2: Bytes)
    requires BothWaiting(st, t1, t2, true)
    ensures SessionInRange(st, 2) && BothWaiting(TryPair(st, 2), t1, t2, false)
  {}

  lemma ReachHostGone(t0: Bytes, t1: Bytes) returns (steps: seq<Step>)
    requires |t0| == |t1| == TOKEN_LEN && t0 != t1
    ensures Run(0, steps) && HostGone(Reached(0, steps), t0, t1)
  {
    steps := ReachTogether(t0, t1);
    HostLeaves(Reached(0, steps), t0, t1);
    Extend(0, steps, DoLeave(0));
    steps := steps + [DoLeave(0)];
  }

  lemma ReturnsLate(st: State, t0: Bytes, t1: Bytes, t2: Bytes, host: First)
    requires HostGone(st, t0, t1) && Linked(st) && PartnersOk(st.past.partner, st.past.issued)
    requires |t2| == TOKEN_LEN && t2 !in {t0, t1} && host == Hello("c", Some(Host))
    ensures Enabled(st, DoJoin(host, t2, "")) && Late(Join(st, host, t2, ""), 2)
  {
    HostReturns(st, t0, t1, t2);
    JoinedLate(st, host, t2, "");
  }

  lemma ReachReturned(t0: Bytes, t1: Bytes, t2: Bytes, before: seq<Step>, host: First) returns (steps: seq<Step>)
    requires |t2| == TOKEN_LEN && t2 !in {t0, t1} && host == Hello("c", Some(Host))
    requires Run(0, before) && HostGone(Reached(0, before), t0, t1)
    ensures Run(0, steps) && Late(Reached(0, steps), 2)
    ensures Reached(0, steps) == Join(Reached(0, before), host, t2, "")
  {
    var st := Reached(0, before);
    assert PartnersOk(st.past.partner, st.past.issued) by { ReachedSound(0, before); }
    ReturnsLate(st, t0, t1, t2, host);
    Extend(0, before, DoJoin(host, t2, ""));
    steps := before + [DoJoin(host, t2, "")];
  }

  /** It happens: a run after which a host and a client are in one session, both ready, and nothing
      is on its way to introduce the host to anybody, now or later. */
  lemma WaitingForEver(t0: Bytes, t1: Bytes, t2: Bytes) returns (before: seq<Step>, steps: seq<Step>)
    requires |t0| == |t1| == |t2| == TOKEN_LEN && t0 != t1 && t2 !in {t0, t1}
    ensures Run(0, before) && PairedAlready(Reached(0, before), Hello("c", Some(Host)))
    ensures Run(0, steps) && BothWaiting(Reached(0, steps), t1, t2, false) && Late(Reached(0, steps), 2)
  {
    before := ReachHostGone(t0, t1);
    HostReturns(Reached(0, before), t0, t1, t2);
    steps := ReachReturned(t0, t1, t2, before, Hello("c", Some(Host)));
    LateStep(steps, DoReady(2, NoOffer()));
    steps := steps + [DoReady(2, NoOffer())];
    NothingToPair(Reached(0, steps), t1, t2);
    LateStep(steps, DoTryPair(2));
    steps := steps + [DoTryPair(2)];
  }

  lemma LateStep(steps: seq<Step>, step: Step)
    requires Run(0, steps) && Enabled(Reached(0, steps), step) && Late(Reached(0, steps), 2)
    ensures Run(0, steps + [step]) && Reached(0, steps + [step]) == Next(Reached(0, steps), step)
    ensures Late(Reached(0, steps + [step]), 2)
  {
    Extend(0, steps, step);
    assert PairingOk(Reached(0, steps)) by { ReachedSound(0, steps); }
    NextLate(Reached(0, steps), step, 2);
  }
}
