/** What the server passes on, traced back to the steps of the run: who may join, what was reported,
    and what everybody is told. */
module Reports {
  import opened Text
  import opened Rendezvous
  import opened RendezvousInvariants
  import opened PairingInvariants
  import opened MessageInvariants
  import opened RendezvousRuns
  import opened RouteLifetimes
  import opened Handshakes

  // --- Joining -----------------------------------------------------------------------

  /** Somebody of this role is connected in the session registered under this code. */
  ghost predicate Taken(st: State, code: string, role: Role) {
    exists p: nat :: MemberOf(st, code, p) && st.peers[p].role == role
  }

  lemma TakenIff(st: State, code: string, role: Role)
    requires Linked(st) && code in st.sessions
    ensures st.store[st.sessions[code]].Member(role).Some? <==> Taken(st, code, role)
  {
    var s := st.sessions[code];
    assert MemberLinked(st.store[s].host, s, Host, st.peers);
    assert MemberLinked(st.store[s].client, s, Client, st.peers);
    if st.store[s].Member(role).Some? {
      var p := st.store[s].Member(role).value;
      assert Seated(st.store[s], role, p) && MemberOf(st, code, p);
    }
    if Taken(st, code, role) {
      var p: nat :| MemberOf(st, code, p) && st.peers[p].role == role;
      assert Seated(st.store[s], role, p);
    }
  }

  /** A new peer, as it is right after it joined. */
  ghost predicate Fresh(peer: Peer, first: First, token: Bytes, relayAddr: string) {
    && first == Hello(peer.code, Some(peer.role)) && peer.token == token
    && peer.active && peer.open && !peer.ready && peer.outbox == [Reflected(token, relayAddr)]
  }

  /** A connection joins if and only if its first frame is a hello with a code and a role that nobody
      has taken; otherwise nothing changes, and it is told which of these was missing. Whoever joins
      gets its token, in the session of its code. */
  lemma JoinsIff(now: int, steps: seq<Step>, first: First, token: Bytes, relayAddr: string)
    requires Run(now, steps) && Enabled(Reached(now, steps), DoJoin(first, token, relayAddr))
    ensures var st := Reached(now, steps); var st1 := Join(st, first, token, relayAddr);
            && (first.Hello? && first.code != "" && first.role.Some? && !Taken(st, first.code, first.role.value)
                <==> |st1.peers| == |st.peers| + 1)
            && (|st1.peers| == |st.peers| + 1 ==>
                  && st1.peers[..|st.peers|] == st.peers && Fresh(st1.peers[|st.peers|], first, token, relayAddr)
                  && MemberOf(st1, first.code, |st.peers|)
                  && (first.code in st.sessions ==> st1.sessions == st.sessions)
                  && (first.code !in st.sessions ==> st1.sessions[first.code] == |st.store|))
            && (|st1.peers| != |st.peers| + 1 ==> st1 == st)
            && (first.NotHello? ==> JoinError(st, first) == Some("expected hello"))
            && (first.Hello? && (first.code == "" || first.role.None?) ==>
                  JoinError(st, first) == Some("missing code or role"))
            && (first.Hello? && first.code != "" && first.role.Some? && Taken(st, first.code, first.role.value) ==>
                  JoinError(st, first) == Some("a " + (if first.role.value.Host? then "host" else "client")
                                               + " is already connected for this code"))
  {
    var st := Reached(now, steps);
    if first.Hello? && first.role.Some? && first.code in st.sessions {
      TakenIff(st, first.code, first.role.value);
    }
  }

  // --- What was reported -------------------------------------------------------------

  /** The latest Ready message of a peer in a run. */
  function LastReady(steps: seq<Step>, q: nat): Option<Offer> {
    if steps == [] then None
    else
      var last := steps[|steps| - 1];
      if last.DoReady? && last.p == q then Some(last.offer) else LastReady(steps[..|steps| - 1], q)
  }

  /** The peer has on record what it last reported, if it did, and every report it made. */
  ghost predicate OnRecord(peers: seq<Peer>, steps: seq<Step>, q: nat) {
    if q < |peers| then
      && (peers[q].ready <==> LastReady(steps, q).Some?)
      && (peers[q].ready ==> peers[q].offer == LastReady(steps, q).value)
      && (forall o :: o in peers[q].offers <==> DoReady(q, o) in steps)
    else LastReady(steps, q).None? && forall o :: DoReady(q, o) !in steps
  }

  lemma NewReports(st: State, step: Step, q: nat)
    requires Linked(st) && Enabled(st, step)
    ensures |st.peers| <= |Next(st, step).peers|
    ensures |st.peers| <= q < |Next(st, step).peers| ==>
              !Next(st, step).peers[q].ready && Next(st, step).peers[q].offers == {}
  {
    match step
    case DoJoin(_, _, _) =>
    case DoReady(_, _) =>
    case DoTryPair(p) => TryPairKeepsPlaces(st, p);
    case DoLeave(_) =>
    case DoDeleteSession(code) => if code in st.sessions { DeleteSessionHangsUp(st, code); }
    case _ => TrafficLeavesSignaling(st, step);
  }

  predicate SameReports(peer: Peer, peer1: Peer) {
    peer1.ready == peer.ready && peer1.offer == peer.offer && peer1.offers == peer.offers
  }

  lemma OthersReports(st: State, step: Step, q: nat)
    requires Linked(st) && Enabled(st, step) && !step.DoReady? && q < |st.peers| && q < |Next(st, step).peers|
    ensures SameReports(st.peers[q], Next(st, step).peers[q])
  {
    match step
    case DoJoin(_, _, _) =>
    case DoTryPair(p) => TryPairKeepsPlaces(st, p);
    case DoLeave(_) =>
    case DoDeleteSession(code) => if code in st.sessions { DeleteSessionHangsUp(st, code); }
    case _ => TrafficLeavesSignaling(st, step);
  }

  lemma NextReports(st: State, step: Step, q: nat)
    requires Linked(st) && Enabled(st, step) && q < |st.peers| && q < |Next(st, step).peers|
    ensures var peer, peer1 := st.peers[q], Next(st, step).peers[q];
            if step.DoReady? && step.p == q
            then peer1.ready && peer1.offer == step.offer && peer1.offers == peer.offers + {step.offer}
            else SameReports(peer, peer1)
  {
    if !step.DoReady? { OthersReports(st, step, q); }
  }

  /** In every run. */
  lemma {:induction false} ReadyStored(now: int, steps: seq<Step>, q: nat)
    requires Run(now, steps)
    ensures OnRecord(Reached(now, steps).peers, steps, q)
    decreases |steps|
  {
    if steps != [] {
      var before, last := steps[..|steps| - 1], steps[|steps| - 1];
      assert steps == before + [last];
      LastStep(now, before, last);
      ReadyStored(now, before, q);
      NewReports(Reached(now, before), last, q);
      if q < |Reached(now, before).peers| { NextReports(Reached(now, before), last, q); }
      assert forall o :: DoReady(q, o) in steps <==> DoReady(q, o) in before || DoReady(q, o) == last;
    }
  }

  // --- What was passed on ------------------------------------------------------------

  /** One step introduced peer p to peer q, of the other role in its session. Peer p was told exactly
      what q had last reported before that step, and got its own token and the order to start; the
      fingerprint goes to a client only. */
  ghost predicate IntroducedAt(now: int, steps: seq<Step>, i: nat, peers: seq<Peer>, p: nat, q: nat) {
    && i < |steps| && steps[i].DoTryPair? && Run(now, steps[..i])
    && p < |peers| && q < |peers| && p < |Reached(now, steps[..i]).peers|
    && peers[q].session == peers[p].session && peers[q].role != peers[p].role
    && LastReady(steps[..i], p).Some? && LastReady(steps[..i], q).Some?
    && |Told(Reached(now, steps[..i]).peers[p])| == 1 && |Told(peers[p])| == 3
    && var o := LastReady(steps[..i], q).value;
       Told(peers[p])[1..] == [Paired(o.public, o.locals, peers[q].role,
                                      if peers[p].role == Client then o.fingerprint else "", peers[p].token), Go]
  }

  /** What a step does to the messages of one peer: nothing, or it introduces the peer to a ready one of
      the other role in the session. */
  ghost predicate TellsFrom(st: State, step: Step, st1: State, p: nat, q: nat)
    requires p < |st.peers| && p < |st1.peers|
  {
    && step.DoTryPair? && q < |st.peers| && q != p && st.peers[p].ready && st.peers[q].ready
    && st.peers[q].session == st.peers[p].session && st.peers[q].role != st.peers[p].role
    && Told(st1.peers[p]) == Told(st.peers[p]) + Introduction(st.peers[p], st.peers[q])
  }

  lemma TryPairTells(st: State, x: nat, p: nat)
    requires Linked(st) && x < |st.peers| && p < |st.peers|
    requires st.peers[p].open || st.peers[p].outbox != []
    ensures |TryPair(st, x).peers| == |st.peers|
    ensures var st1 := TryPair(st, x);
            || Told(st1.peers[p]) == Told(st.peers[p])
            || exists q: nat :: TellsFrom(st, DoTryPair(x), st1, p, q)
  {
    var sess, peers1, st1 := st.store[st.peers[x].session], Settle(st.peers, x), TryPair(st, x);
    TryPairKeepsPlaces(st, x);
    if CanPair(sess, peers1) && (sess.host == Some(p) || sess.client == Some(p)) {
      var h, c := sess.host.value, sess.client.value;
      var q := if p == h then c else h;
      assert MemberLinked(sess.host, st.peers[x].session, Host, st.peers);
      assert MemberLinked(sess.client, st.peers[x].session, Client, st.peers);
      assert Introduction(peers1[p], peers1[q]) == Introduction(st.peers[p], st.peers[q]);
      assert st1.peers[p].outbox == Send(peers1[p], Introduction(peers1[p], peers1[q])).outbox;
      if st.peers[p].open { assert TellsFrom(st, DoTryPair(x), st1, p, q); }
    }
  }

  lemma HangUpTellsNothing(peer: Peer)
    ensures Told(HangUp(peer)) == Told(peer)
  {
    if peer.open { assert HangUp(peer).outbox[..|HangUp(peer).outbox| - 1] == peer.outbox; }
  }

  lemma NextTells(st: State, step: Step, p: nat)
    requires Linked(st) && Enabled(st, step) && p < |Next(st, step).peers|
    requires p < |st.peers| ==> st.peers[p].open || st.peers[p].outbox != []
    ensures p < |st.peers| ==>
              || Told(Next(st, step).peers[p]) == Told(st.peers[p])
              || exists q: nat :: TellsFrom(st, step, Next(st, step), p, q)
    ensures p >= |st.peers| ==> step.DoJoin? && |Told(Next(st, step).peers[p])| == 1
  {
    match step
    case DoJoin(_, _, _) =>
    case DoReady(_, _) =>
    case DoTryPair(x) =>
      TryPairKeepsPlaces(st, x);
      TryPairTells(st, x, p);
    case DoLeave(_) =>
    case DoDeleteSession(code) =>
      if code in st.sessions {
        DeleteSessionHangsUp(st, code);
        HangUpTellsNothing(st.peers[p]);
      }
    case _ => TrafficLeavesSignaling(st, step);
  }

  lemma ToldBefore(peers: seq<Peer>, partner: map<Bytes, Bytes>, p: nat)
    requires OutboxesOk(peers, partner) && p < |peers|
    ensures peers[p].open || peers[p].outbox != []
    ensures |Told(peers[p])| == 1 || |Told(peers[p])| == 3
  {
    assert OutboxOk(peers[p], partner);
  }

  lemma StillIntroduced(now: int, before: seq<Step>, last: Step, i: nat, p: nat, q: nat)
    requires Run(now, before + [last]) && Run(now, before)
    requires IntroducedAt(now, before, i, Reached(now, before).peers, p, q)
    requires var peers1 := Reached(now, before + [last]).peers;
             p < |peers1| && Told(peers1[p]) == Told(Reached(now, before).peers[p])
    ensures IntroducedAt(now, before + [last], i, Reached(now, before + [last]).peers, p, q)
  {
    LastStep(now, before, last);
    SamePerson(Reached(now, before), last, p);
    SamePerson(Reached(now, before), last, q);
    assert (before + [last])[..i] == before[..i];
  }

  lemma NowIntroduced(now: int, before: seq<Step>, last: Step, p: nat, q: nat)
    requires Run(now, before + [last]) && Run(now, before)
    requires p < |Reached(now, before).peers| && p < |Reached(now, before + [last]).peers|
    requires TellsFrom(Reached(now, before), last, Reached(now, before + [last]), p, q)
    requires |Told(Reached(now, before).peers[p])| == 1
    ensures IntroducedAt(now, before + [last], |before|, Reached(now, before + [last]).peers, p, q)
  {
    LastStep(now, before, last);
    assert (before + [last])[..|before|] == before;
    ReadyStored(now, before, p);
    ReadyStored(now, before, q);
    SamePerson(Reached(now, before), last, p);
    SamePerson(Reached(now, before), last, q);
  }

  /** Over the steps of every run: whoever has been introduced was so in one step, to a peer of the other
      role, and was told the public and local addresses, and as a client the fingerprint, of that
      peer's latest Ready message before that step. */
  lemma {:induction false} PairedCarries(now: int, steps: seq<Step>, p: nat) returns (i: nat, q: nat)
    requires Run(now, steps) && p < |Reached(now, steps).peers| && |Told(Reached(now, steps).peers[p])| == 3
    ensures IntroducedAt(now, steps, i, Reached(now, steps).peers, p, q)
    decreases |steps|
  {
    assert steps != [];
    var before, last := steps[..|steps| - 1], steps[|steps| - 1];
    assert steps == before + [last];
    LastStep(now, before, last);
    var st, st1 := Reached(now, before), Reached(now, steps);
    assert OutboxesOk(st.peers, st.past.partner) by { ReachedSound(now, before); }
    if p < |st.peers| { ToldBefore(st.peers, st.past.partner, p); }
    NextTells(st, last, p);
    if Told(st1.peers[p]) == Told(st.peers[p]) {
      i, q := PairedCarries(now, before, p);
      StillIntroduced(now, before, last, i, p, q);
    } else {
      i, q :| TellsFrom(st, last, st1, p, q) && i == |before|;
      NowIntroduced(now, before, last, p, q);
    }
  }

  /** Peer p is the one that joined in step i. */
  ghost predicate JoinedAt(now: int, steps: seq<Step>, i: nat, peer: Peer, p: nat) {
    && i < |steps| && steps[i].DoJoin? && Run(now, steps[..i]) && |Reached(now, steps[..i]).peers| == p
    && steps[i].first == Hello(peer.code, Some(peer.role)) && steps[i].token == peer.token
    && Told(peer) != [] && Told(peer)[0] == Reflected(steps[i].token, steps[i].relayAddr)
  }

  lemma NextPlace(st: State, step: Step, p: nat)
    requires Linked(st) && Enabled(st, step) && p < |st.peers|
    ensures p < |Next(st, step).peers| && Next(st, step).peers[p].code == st.peers[p].code
    ensures Next(st, step).peers[p].role == st.peers[p].role && Next(st, step).peers[p].token == st.peers[p].token
  {
    match step
    case DoJoin(_, _, _) =>
    case DoReady(_, _) =>
    case DoTryPair(x) => TryPairKeepsPlaces(st, x);
    case DoLeave(_) =>
    case DoDeleteSession(code) => if code in st.sessions { DeleteSessionHangsUp(st, code); }
    case _ => TrafficLeavesSignaling(st, step);
  }

  lemma NextGreeting(st: State, step: Step, p: nat)
    requires Linked(st) && OutboxesOk(st.peers, st.past.partner) && Enabled(st, step)
    requires p < |st.peers| && p < |Next(st, step).peers|
    ensures Told(st.peers[p]) != [] && Told(Next(st, step).peers[p]) != []
    ensures Told(Next(st, step).peers[p])[0] == Told(st.peers[p])[0]
  {
    ToldBefore(st.peers, st.past.partner, p);
    NextTells(st, step, p);
  }

  lemma StillJoined(now: int, before: seq<Step>, last: Step, i: nat, p: nat)
    requires Run(now, before + [last]) && Run(now, before) && p < |Reached(now, before).peers|
    requires JoinedAt(now, before, i, Reached(now, before).peers[p], p)
    ensures p < |Reached(now, before + [last]).peers|
    ensures JoinedAt(now, before + [last], i, Reached(now, before + [last]).peers[p], p)
  {
    LastStep(now, before, last);
    var st := Reached(now, before);
    NextPlace(st, last, p);
    assert OutboxesOk(st.peers, st.past.partner) by { ReachedSound(now, before); }
    NextGreeting(st, last, p);
    assert (before + [last])[..i] == before[..i];
  }

  lemma JoinedPeer(st: State, first: First, token: Bytes, relayAddr: string, p: nat)
    requires Linked(st) && |st.peers| <= p < |Join(st, first, token, relayAddr).peers|
    ensures p == |st.peers|
    ensures var peer := Join(st, first, token, relayAddr).peers[p];
            && first == Hello(peer.code, Some(peer.role)) && token == peer.token
            && Told(peer) == [Reflected(token, relayAddr)]
  {
  }

  lemma JoinGreets(st: State, step: Step, p: nat)
    requires Linked(st) && Enabled(st, step) && |st.peers| <= p < |Next(st, step).peers|
    ensures step.DoJoin? && p == |st.peers|
    ensures var peer := Next(st, step).peers[p];
            && step.first == Hello(peer.code, Some(peer.role)) && step.token == peer.token
            && Told(peer) == [Reflected(step.token, step.relayAddr)]
  {
    NextTells(st, step, p);
    JoinedPeer(st, step.first, step.token, step.relayAddr, p);
  }

  lemma NowJoined(now: int, before: seq<Step>, last: Step, p: nat)
    requires Run(now, before + [last]) && Run(now, before)
    requires |Reached(now, before).peers| <= p < |Reached(now, before + [last]).peers|
    ensures JoinedAt(now, before + [last], |before|, Reached(now, before + [last]).peers[p], p)
  {
    LastStep(now, before, last);
    JoinGreets(Reached(now, before), last, p);
    assert (before + [last])[..|before|] == before;
  }

  /** Everybody was first told its own token and the address of the relay, as they were when it joined. */
  lemma {:induction false} Greeted(now: int, steps: seq<Step>, p: nat) returns (i: nat)
    requires Run(now, steps) && p < |Reached(now, steps).peers|
    ensures JoinedAt(now, steps, i, Reached(now, steps).peers[p], p)
    decreases |steps|
  {
    assert steps != [];
    var before, last := steps[..|steps| - 1], steps[|steps| - 1];
    assert steps == before + [last];
    LastStep(now, before, last);
    if p < |Reached(now, before).peers| {
      i := Greeted(now, before, p);
      StillJoined(now, before, last, i, p);
    } else {
      i := |before|;
      NowJoined(now, before, last, p);
    }
  }

  // --- Who is introduced -------------------------------------------------------------

  /** The two sides of session s are there, and both have reported. */
  ghost predicate BothReported(st: State, steps: seq<Step>, s: nat, h: nat, c: nat) {
    && h < |st.peers| && st.peers[h].active && st.peers[h].session == s && st.peers[h].role == Host
    && c < |st.peers| && st.peers[c].active && st.peers[c].session == s && st.peers[c].role == Client
    && LastReady(steps, h).Some? && LastReady(steps, c).Some?
  }

  lemma CanPairIff(st: State, steps: seq<Step>, x: nat)
    requires Linked(st) && x < |st.peers| && forall q: nat :: OnRecord(st.peers, steps, q)
    ensures var s := st.peers[x].session;
            CanPair(st.store[s], Settle(st.peers, x))
            <==> !st.store[s].paired && exists h: nat, c: nat :: BothReported(st, steps, s, h, c)
    ensures var s := st.peers[x].session;
            CanPair(st.store[s], Settle(st.peers, x)) ==>
              BothReported(st, steps, s, st.store[s].host.value, st.store[s].client.value)
  {
    var s := st.peers[x].session;
    var sess := st.store[s];
    assert MemberLinked(sess.host, s, Host, st.peers) && MemberLinked(sess.client, s, Client, st.peers);
    if CanPair(sess, Settle(st.peers, x)) {
      var h, c := sess.host.value, sess.client.value;
      assert Seated(sess, Host, h) && Seated(sess, Client, c);
      assert OnRecord(st.peers, steps, h) && OnRecord(st.peers, steps, c);
      assert BothReported(st, steps, s, h, c);
    }
    if !sess.paired && exists h: nat, c: nat :: BothReported(st, steps, s, h, c) {
      var h: nat, c: nat :| BothReported(st, steps, s, h, c);
      assert Seated(sess, Host, h) && Seated(sess, Client, c);
      assert OnRecord(st.peers, steps, h) && OnRecord(st.peers, steps, c);
    }
  }

  /** A route leads to this token, for this code and role. */
  ghost predicate Leads(relays: map<Bytes, Route>, token: Bytes, peer: Bytes, code: string, role: Role) {
    token in relays && relays[token].peer == peer && relays[token].code == code && relays[token].role == Some(role)
  }

  lemma PairingLeads(st: State, x: nat, h: nat, c: nat)
    requires Linked(st) && TokensOk(st.peers, st.past.issued) && x < |st.peers|
    requires var sess := st.store[st.peers[x].session];
             CanPair(sess, Settle(st.peers, x)) && sess.host == Some(h) && sess.client == Some(c)
    ensures h < |st.peers| && c < |st.peers|
    ensures var code, a, b := st.peers[x].code, st.peers[h].token, st.peers[c].token;
            && Leads(TryPair(st, x).relays, a, b, code, Host) && Leads(TryPair(st, x).relays, b, a, code, Client)
            && forall t | t in st.relays && t != a && t != b ::
                 t in TryPair(st, x).relays && TryPair(st, x).relays[t] == st.relays[t]
  {
    var sess := st.store[st.peers[x].session];
    assert MemberLinked(sess.host, st.peers[x].session, Host, st.peers);
    assert MemberLinked(sess.client, st.peers[x].session, Client, st.peers);
  }

  /** In every run tryPair introduces two peers if and only if both sides of the session are there and
      have reported, and it never did so before. Then the two routes lead to each other, and no other
      route changes; if not, no counter and no route changes. */
  lemma PairsIff(now: int, steps: seq<Step>, x: nat)
    requires Run(now, steps) && Enabled(Reached(now, steps), DoTryPair(x))
    ensures var st, st1 := Reached(now, steps), TryPair(Reached(now, steps), x);
            var s, code := st.peers[x].session, st.peers[x].code;
            && (st1.stats.pairs == st.stats.pairs + 1
                <==> !st.store[s].paired && exists h: nat, c: nat :: BothReported(st, steps, s, h, c))
            && (st1.stats.pairs == st.stats.pairs + 1 ==>
                  exists h: nat, c: nat :: BothReported(st, steps, s, h, c)
                    && Leads(st1.relays, st.peers[h].token, st.peers[c].token, code, Host)
                    && Leads(st1.relays, st.peers[c].token, st.peers[h].token, code, Client)
                    && forall t | t in st.relays && t != st.peers[h].token && t != st.peers[c].token ::
                         t in st1.relays && st1.relays[t] == st.relays[t])
            && (st1.stats.pairs != st.stats.pairs + 1 ==> st1.stats == st.stats && st1.relays == st.relays)
  {
    ReachedSound(now, steps);
    forall q: nat ensures OnRecord(Reached(now, steps).peers, steps, q) { ReadyStored(now, steps, q); }
    var st := Reached(now, steps);
    var sess := st.store[st.peers[x].session];
    CanPairIff(st, steps, x);
    if CanPair(sess, Settle(st.peers, x)) {
      PairingLeads(st, x, sess.host.value, sess.client.value);
      assert BothReported(st, steps, st.peers[x].session, sess.host.value, sess.client.value);
    }
  }

  // --- Leaving and deleting ----------------------------------------------------------

  /** Peer p has lost its socket, after one last message. */
  ghost predicate ToldClosed(peer: Peer, peer1: Peer) {
    && !peer1.open && peer1.active == peer.active
    && peer1.outbox == peer.outbox + if peer.open then [Error("session closed by the server")] else []
  }

  /** Deleting a session forgets its code; whoever is in it is told so and loses its socket, and nobody
      else notices. */
  lemma SessionDeleted(now: int, steps: seq<Step>, code: string)
    requires Run(now, steps)
    ensures var st := Reached(now, steps); var st1 := DeleteSession(st, code);
            && st1.sessions.Keys == st.sessions.Keys - {code} && |st1.peers| == |st.peers|
            && (forall c | c in st1.sessions :: st1.sessions[c] == st.sessions[c])
            && forall p: nat | p < |st.peers| ::
                 if MemberOf(st, code, p) then ToldClosed(st.peers[p], st1.peers[p]) else st1.peers[p] == st.peers[p]
  {
    var st := Reached(now, steps);
    if code in st.sessions {
      DeleteSessionHangsUp(st, code);
      var sess := st.store[st.sessions[code]];
      assert MemberLinked(sess.host, st.sessions[code], Host, st.peers);
      assert MemberLinked(sess.client, st.sessions[code], Client, st.peers);
      forall p: nat | p < |st.peers| ensures sess.host == Some(p) || sess.client == Some(p) <==> MemberOf(st, code, p) {
        assert Seated(st.store[st.peers[p].session], st.peers[p].role, p) <==> st.peers[p].active;
      }
    }
  }

  /** A peer that leaves gives up its place and nothing else; its code is forgotten if and only if nobody
      is left in its session. */
  lemma Left(now: int, steps: seq<Step>, p: nat)
    requires Run(now, steps) && Enabled(Reached(now, steps), DoLeave(p))
    ensures var st := Reached(now, steps); var st1, peer := Leave(st, p), st.peers[p];
            && st1.peers == st.peers[p := peer.(active := false)] && st1.relays == st.relays && st1.stats == st.stats
            && (forall c | c in st.sessions && c != peer.code :: c in st1.sessions && st1.sessions[c] == st.sessions[c])
            && (forall c | c in st1.sessions :: c in st.sessions && st1.sessions[c] == st.sessions[c])
            && (peer.code in st.sessions ==>
                  (peer.code !in st1.sessions
                   <==> forall q: nat | q < |st.peers| && q != p && st.peers[q].active ::
                          st.peers[q].session != peer.session))
  {
    var st := Reached(now, steps);
    var peer := st.peers[p];
    var sess := st.store[peer.session];
    assert Seated(sess, peer.role, p);
    assert MemberLinked(sess.host, peer.session, Host, st.peers);
    assert MemberLinked(sess.client, peer.session, Client, st.peers);
    if q: nat :| q < |st.peers| && q != p && st.peers[q].active && st.peers[q].session == peer.session {
      assert Seated(sess, st.peers[q].role, q);
    }
    var other := sess.Member(peer.role.Other());
    if other.Some? { assert Seated(sess, peer.role.Other(), other.value) && other.value != p; }
  }
}
