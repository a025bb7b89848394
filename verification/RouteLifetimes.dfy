/** How long a route lives: what renews it, what removes it, and what each datagram counts as. */
module RouteLifetimes {
  import opened Text
  import opened Wire
  import opened Rendezvous
  import opened RendezvousInvariants
  import opened PairingInvariants
  import opened TrafficInvariants
  import opened RendezvousRuns

  // --- Cutting runs ------------------------------------------------------------------

  lemma {:induction false} SplitAfter(st: State, a: seq<Step>, b: seq<Step>)
    requires Linked(st) && Feasible(st, a + b)
    ensures Feasible(st, a) && Feasible(After(st, a), b) && After(st, a + b) == After(After(st, a), b)
    decreases |a|
  {
    if a == [] {
      assert [] + b == b;
    } else {
      assert (a + b)[1..] == a[1..] + b;
      NextLinked(st, a[0]);
      SplitAfter(Next(st, a[0]), a[1..], b);
    }
  }

  lemma SplitRun(now: int, a: seq<Step>, b: seq<Step>)
    requires Run(now, a + b)
    ensures Run(now, a) && Feasible(Reached(now, a), b) && Reached(now, a + b) == After(Reached(now, a), b)
  {
    InitLinked(now);
    SplitAfter(Init(now), a, b);
  }

  lemma OneStep(st: State, step: Step)
    requires Linked(st) && Feasible(st, [step])
    ensures Enabled(st, step) && After(st, [step]) == Next(st, step)
  {
    NextLinked(st, step);
    assert [step][1..] == [];
  }

  lemma LastOf(st: State, before: seq<Step>, last: Step)
    requires Linked(st) && Feasible(st, before + [last])
    ensures Feasible(st, before) && Enabled(After(st, before), last)
    ensures After(st, before + [last]) == Next(After(st, before), last)
  {
    SplitAfter(st, before, [last]);
    OneStep(After(st, before), last);
  }

  /** The last step of a run was taken where the others had led. */
  lemma LastStep(now: int, before: seq<Step>, last: Step)
    requires Run(now, before + [last])
    ensures Run(now, before) && Enabled(Reached(now, before), last)
    ensures Reached(now, before + [last]) == Next(Reached(now, before), last)
  {
    InitLinked(now);
    LastOf(Init(now), before, last);
  }

  // --- One datagram ------------------------------------------------------------------

  lemma HeaderRead(token: Bytes, payload: Bytes)
    requires |token| == 16
    ensures ParseProbe("RT01" + token + payload) == Some(Probe(token, payload))
  {
    ParseInvertsFrame("RT01" + token + payload, token, payload);
  }

  /** Whatever it carries, a datagram of a token tells the server where the token is and renews its
      route, which goes on leading where it led; no other route is touched. */
  lemma Renewed(now: int, steps: seq<Step>, from: Addr, token: Bytes, payload: Bytes)
    requires Run(now, steps) && |token| == 16
    ensures var st, step := Reached(now, steps), DoDatagram(from, "RT01" + token + payload);
            && Run(now, steps + [step])
            && var st1 := Reached(now, steps + [step]);
               && st1.now == st.now && st1.relays.Keys == st.relays.Keys + {token}
               && st1.relays[token].addr == Some(from) && st1.relays[token].seen == st.now
               && st1.relays[token].peer == (if token in st.relays then st.relays[token].peer else "")
               && st1.relays[token].first == (if token in st.relays then st.relays[token].first else st.now)
               && forall t | t in st.relays && t != token :: st1.relays[t] == st.relays[t]
  {
    HeaderRead(token, payload);
    Extend(now, steps, DoDatagram(from, "RT01" + token + payload));
  }

  /** The counters of the server after a datagram of some token, if it was forwarded or not. */
  ghost predicate CountedAs(stats: Stats, stats1: Stats, payload: Bytes, forwarded: bool) {
    && stats1.peersJoined == stats.peersJoined && stats1.pairs == stats.pairs && stats1.udpInvalid == stats.udpInvalid
    && stats1.udpPackets == stats.udpPackets + 1
    && stats1.reflections == stats.reflections + (if payload == [] then 1 else 0)
    && stats1.relayedPkts == stats.relayedPkts + (if forwarded then 1 else 0)
    && stats1.relayedBytes == stats.relayedBytes + (if forwarded then |payload| else 0)
    && stats1.droppedPkts == stats.droppedPkts + (if payload != [] && !forwarded then 1 else 0)
  }

  /** A probe counts as a reflection; payload counts as relayed if something was sent on and as dropped
      otherwise, and in either case as traffic of the sender's route. */
  lemma DatagramCounted(now: int, steps: seq<Step>, from: Addr, token: Bytes, payload: Bytes)
    requires Run(now, steps) && |token| == 16
    ensures var st := Reached(now, steps);
            var st1 := Datagram(st, from, "RT01" + token + payload);
            && CountedAs(st.stats, st1.stats, payload, payload != [] && NewlySent(st, st1) != [])
            && token in st1.relays
            && st1.relays[token].packets == (if token in st.relays then st.relays[token].packets else 0)
                                            + (if payload != [] then 1 else 0)
            && st1.relays[token].bytes == (if token in st.relays then st.relays[token].bytes else 0) + |payload|
  {
    HeaderRead(token, payload);
    var st := Reached(now, steps);
    var st1 := Datagram(st, from, "RT01" + token + payload);
    assert NewlySent(st, st1) == st1.past.sent[|st.past.sent|..];
  }

  // --- What happens to the others ----------------------------------------------------

  /** A datagram of this token. */
  ghost predicate Speaks(step: Step, token: Bytes) {
    step.DoDatagram? && IsPrefix("RT01" + token, step.d)
  }

  lemma SpeaksMeans(d: Bytes, token: Bytes)
    requires |token| == 16
    ensures IsPrefix("RT01" + token, d) <==> ParseProbe(d).Some? && ParseProbe(d).value.token == token
  {
    var header: Bytes := "RT01" + token;
    if IsPrefix(header, d) {
      assert d == header + d[20..];
      HeaderRead(token, d[20..]);
    }
    if ParseProbe(d).Some? && ParseProbe(d).value.token == token {
      assert d[..20] == d[..4] + d[4..20];
    }
  }

  /** A route says the same about its own traffic. */
  ghost predicate SameHistory(a: Route, b: Route) {
    a.addr == b.addr && a.first == b.first && a.seen == b.seen && a.packets == b.packets && a.bytes == b.bytes
  }

  /** The two relay tables agree on a token, except perhaps on where its route leads. */
  ghost predicate Untouched(relays: map<Bytes, Route>, relays1: map<Bytes, Route>, token: Bytes) {
    token in relays && token in relays1 ==> SameHistory(relays[token], relays1[token])
  }

  lemma TryPairUntouched(st: State, p: nat, token: Bytes)
    requires Linked(st) && p < |st.peers|
    ensures Untouched(st.relays, TryPair(st, p).relays, token)
    ensures token in st.relays ==> token in TryPair(st, p).relays
  {}

  /** Only its own datagrams change anything about a route's address, times and counts, and only they
      and a pairing change anything about it at all. */
  lemma NextUntouched(st: State, step: Step, token: Bytes)
    requires Linked(st) && Enabled(st, step) && |token| == 16 && !Speaks(step, token)
    ensures Untouched(st.relays, Next(st, step).relays, token)
    ensures !step.DoTryPair? && token in st.relays && token in Next(st, step).relays ==>
              Next(st, step).relays[token] == st.relays[token]
  {
    match step
    case DoDatagram(from, d) => SpeaksMeans(d, token);
    case DoTryPair(p) => TryPairUntouched(st, p, token);
    case _ =>
  }

  /** Only joins, pairings and datagrams are counted. */
  lemma NothingElseCounts(st: State, step: Step)
    requires Linked(st) && Enabled(st, step) && !step.DoJoin? && !step.DoTryPair? && !step.DoDatagram?
    ensures Next(st, step).stats == st.stats
  {
  }

  // --- What removes a route ----------------------------------------------------------

  /** How long a token has not been heard from, in minutes of nanoseconds, is more than this. */
  predicate IdleBeyond(idle: int, minutes: int) {
    idle > minutes * 60_000_000_000
  }

  /** Peer p is connected in the session that is registered under this code. */
  ghost predicate MemberOf(st: State, code: string, p: nat) {
    code in st.sessions && p < |st.peers| && st.peers[p].active && st.peers[p].session == st.sessions[code]
  }

  /** A step takes a route away: a sweep after three minutes of silence; a prune after the time it names;
      a delete of the relay or of one that leads to it; a delete of the session its peer is in. */
  ghost predicate Removes(st: State, step: Step, token: Bytes)
    requires token in st.relays
  {
    var idle := st.now - st.relays[token].seen;
    match step
    case DoSweep => IdleBeyond(idle, 3)
    case DoPrune(age) =>
      || (age == "1m" && IdleBeyond(idle, 1))
      || (age == "5m" && IdleBeyond(idle, 5))
      || (age == "15m" && IdleBeyond(idle, 15))
      || (age == "1h" && IdleBeyond(idle, 60))
      || (age == "6h" && IdleBeyond(idle, 360))
      || (age == "24h" && IdleBeyond(idle, 1440))
    case DoDeleteRelay(t) => t == token || (t in st.relays && st.relays[t].peer == token)
    case DoDeleteSession(code) => exists p: nat :: MemberOf(st, code, p) && st.peers[p].token == token
    case _ => false
  }

  lemma PruneRemoves(st: State, age: string, token: Bytes)
    requires token in st.relays
    ensures token !in Prune(st, age).relays <==> Removes(st, DoPrune(age), token)
  {
    if PruneWindow(age).None? {
      assert age !in {"1m", "5m", "15m", "1h", "6h", "24h"};
    }
  }

  lemma MembersTokens(sessions: map<string, nat>, store: seq<Session>, peers: seq<Peer>, code: string, token: Bytes)
    requires CodesLinked(sessions, store) && MembersLinked(store, peers) && PeersLinked(store, peers)
    requires code in sessions
    ensures InRange(store[sessions[code]], peers)
    ensures token in TokensOf(store[sessions[code]], peers)
            <==> exists p: nat :: p < |peers| && peers[p].active && peers[p].session == sessions[code]
                                  && peers[p].token == token
  {
    var s := sessions[code];
    assert MemberLinked(store[s].host, s, Host, peers) && MemberLinked(store[s].client, s, Client, peers);
    if p: nat :| p < |peers| && peers[p].active && peers[p].session == s && peers[p].token == token {
      assert Seated(store[s], peers[p].role, p);
    }
    if token in TokensOf(store[s], peers) {
      var p := if store[s].host.Some? && peers[store[s].host.value].token == token then store[s].host.value
               else store[s].client.value;
      assert Seated(store[s], peers[p].role, p);
    }
  }

  lemma DeleteSessionRemoves(st: State, code: string, token: Bytes)
    requires Linked(st) && token in st.relays
    ensures token !in DeleteSession(st, code).relays <==> Removes(st, DoDeleteSession(code), token)
  {
    if code in st.sessions {
      MembersTokens(st.sessions, st.store, st.peers, code, token);
      forall p: nat ensures MemberOf(st, code, p) && st.peers[p].token == token
                            <==> p < |st.peers| && st.peers[p].active && st.peers[p].session == st.sessions[code]
                                 && st.peers[p].token == token {}
    }
  }

  /** Nothing else takes a route away. */
  lemma RemovedIff(st: State, step: Step, token: Bytes)
    requires Linked(st) && Enabled(st, step) && token in st.relays && token != []
    ensures token !in Next(st, step).relays <==> Removes(st, step, token)
  {
    match step
    case DoPrune(age) => PruneRemoves(st, age, token);
    case DoDeleteSession(code) => DeleteSessionRemoves(st, code, token);
    case DoTryPair(p) => TryPairUntouched(st, p, token);
    case _ =>
  }

  // --- What makes a route ------------------------------------------------------------

  lemma TryPairMakes(st: State, p: nat, token: Bytes)
    requires Linked(st) && PairingOk(st) && p < |st.peers| && token !in st.relays && token !in st.past.partner
    ensures token in TryPair(st, p).relays <==> token in TryPair(st, p).past.partner
    ensures token in TryPair(st, p).relays ==>
              SameHistory(TryPair(st, p).relays[token], Route("", "", None, None, st.now, st.now, 0, 0))
  {}

  lemma PairedTwice(st: State, p: nat, token: Bytes)
    requires Linked(st) && PairingOk(st) && p < |st.peers| && token in st.past.partner && token !in st.relays
    ensures token !in TryPair(st, p).relays
  {
    var s := st.peers[p].session;
    if CanPair(st.store[s], Settle(st.peers, p)) {
      PairPartners(st.store, st.peers, st.past.issued, st.past.partner, s);
    }
  }

  /** A route comes into being with its token's first datagram, or when its token gets a partner; in
      the second case it has no address and its time runs from then. */
  lemma MadeIff(st: State, step: Step, token: Bytes)
    requires Linked(st) && PairingOk(st) && Enabled(st, step) && |token| == 16 && token !in st.relays
    ensures token in Next(st, step).relays
            <==> Speaks(step, token) || (token in Next(st, step).past.partner && token !in st.past.partner)
    ensures token in Next(st, step).relays && !Speaks(step, token) ==>
              SameHistory(Next(st, step).relays[token], Route("", "", None, None, st.now, st.now, 0, 0))
  {
    if step.DoTryPair? {
      if token in st.past.partner { PairedTwice(st, step.p, token); } else { TryPairMakes(st, step.p, token); }
    } else {
      OnlyPairingAddsPartners(st, step);
      if step.DoDatagram? { SpeaksMeans(step.d, token); }
    }
  }

  // --- Over runs ---------------------------------------------------------------------

  /** The time that passes in the waits among some steps. */
  function Elapsed(steps: seq<Step>): nat {
    if steps == [] then 0
    else
      var last := steps[|steps| - 1];
      Elapsed(steps[..|steps| - 1]) + if last.DoWait? then last.dt else 0
  }

  lemma Unsnoc(st: State, steps: seq<Step>, before: seq<Step>, last: Step)
    requires Linked(st) && Feasible(st, steps) && steps == before + [last]
    ensures Feasible(st, before) && Enabled(After(st, before), last)
    ensures After(st, steps) == Next(After(st, before), last)
  {
    LastOf(st, before, last);
  }

  /** An administrator's step. */
  predicate Administers(step: Step) {
    step.DoPrune? || step.DoDeleteRelay? || step.DoDeleteSession?
  }

  /** No prune or delete removes the token's route. */
  ghost predicate Spared(st: State, steps: seq<Step>, token: Bytes)
    requires Linked(st) && Feasible(st, steps)
    decreases |steps|
  {
    if steps == [] then true
    else
      var before, last := steps[..|steps| - 1], steps[|steps| - 1];
      Unsnoc(st, steps, before, last);
      && Spared(st, before, token)
      && (Administers(last) && token in After(st, before).relays ==> token in Next(After(st, before), last).relays)
  }

  /** Every sweep comes at most three minutes after the token was last heard from, which was this long
      before the first of the steps. */
  ghost predicate SweptInTime(steps: seq<Step>, silent: int) {
    forall i | 0 <= i < |steps| && steps[i].DoSweep? :: silent + Elapsed(steps[..i]) <= 180_000_000_000
  }

  ghost predicate Quiet(steps: seq<Step>, token: Bytes) {
    forall i | 0 <= i < |steps| :: !Speaks(steps[i], token)
  }

  lemma NextNow(st: State, step: Step)
    requires Linked(st) && Enabled(st, step)
    ensures Next(st, step).now == st.now + if step.DoWait? then step.dt else 0
  {
  }

  lemma AgesOnce(st: State, step: Step, token: Bytes)
    requires Linked(st) && Enabled(st, step) && |token| == 16 && token in st.relays && !Speaks(step, token)
    requires Administers(step) ==> token in Next(st, step).relays
    requires step.DoSweep? ==> st.now - st.relays[token].seen <= 180_000_000_000
    ensures token in Next(st, step).relays && SameHistory(st.relays[token], Next(st, step).relays[token])
  {
    RemovedIff(st, step, token);
    NextUntouched(st, step, token);
  }

  /** As long as its token is silent a route only grows older. */
  lemma {:induction false} Ages(st: State, steps: seq<Step>, token: Bytes)
    requires Linked(st) && Feasible(st, steps) && |token| == 16 && token in st.relays
    requires Quiet(steps, token) && Spared(st, steps, token) && SweptInTime(steps, st.now - st.relays[token].seen)
    ensures var st1 := After(st, steps);
            && token in st1.relays && SameHistory(st.relays[token], st1.relays[token])
            && st1.now == st.now + Elapsed(steps)
    decreases |steps|
  {
    if steps != [] {
      var before, last := steps[..|steps| - 1], steps[|steps| - 1];
      Unsnoc(st, steps, before, last);
      assert forall i | 0 <= i < |before| :: before[..i] == steps[..i] && before[i] == steps[i];
      Ages(st, before, token);
      AgesOnce(After(st, before), last, token);
      NextNow(After(st, before), last);
    }
  }

  lemma {:induction false} ElapsedGrows(steps: seq<Step>, i: nat)
    requires i <= |steps|
    ensures Elapsed(steps[..i]) <= Elapsed(steps)
    decreases |steps| - i
  {
    if i < |steps| {
      assert steps[..i + 1][..i] == steps[..i];
      ElapsedGrows(steps, i + 1);
    } else {
      assert steps[..i] == steps;
    }
  }

  /** The run up to and including a datagram of the token. */
  ghost predicate HeardLast(now: int, heard: seq<Step>, from: Addr, token: Bytes) {
    && Run(now, heard) && heard != [] && |token| == 16
    && Speaks(heard[|heard| - 1], token) && heard[|heard| - 1].from == from
  }

  lemma HeardRoute(now: int, heard: seq<Step>, from: Addr, token: Bytes)
    requires HeardLast(now, heard, from, token)
    ensures var st := Reached(now, heard);
            token in st.relays && st.relays[token].addr == Some(from) && st.relays[token].seen == st.now
  {
    var n := |heard| - 1;
    var before, d := heard[..n], heard[n].d;
    assert heard == before + [DoDatagram(from, d)];
    LastStep(now, before, DoDatagram(from, d));
    SpeaksMeans(d, token);
    ParseInvertsFrame(d, token, ParseProbe(d).value.payload);
    Renewed(now, before, from, token, ParseProbe(d).value.payload);
  }

  /** From a token's latest datagram on, whatever it carried: as long as no prune or delete removes its
      route, the route is kept, with the address that datagram came from, through every sweep that comes
      within three minutes; it is certainly still there if at most three minutes have passed. */
  lemma RouteKept(now: int, heard: seq<Step>, from: Addr, token: Bytes, more: seq<Step>)
    requires HeardLast(now, heard, from, token) && Feasible(Reached(now, heard), more)
    requires Quiet(more, token) && Spared(Reached(now, heard), more, token)
    ensures var st := After(Reached(now, heard), more);
            SweptInTime(more, 0) ==>
              && token in st.relays && st.relays[token].addr == Some(from)
              && st.relays[token].seen == st.now - Elapsed(more)
    ensures Elapsed(more) <= 180_000_000_000 ==> SweptInTime(more, 0)
  {
    HeardRoute(now, heard, from, token);
    if SweptInTime(more, 0) { Ages(Reached(now, heard), more, token); }
    forall i | 0 <= i < |more| ensures Elapsed(more[..i]) <= Elapsed(more) { ElapsedGrows(more, i); }
  }

  /** The next sweep then removes the route if and only if the waits since that datagram add up to more
      than three minutes, and a prune if and only if they add up to more than the time it names. */
  lemma SilentRouteSwept(now: int, heard: seq<Step>, from: Addr, token: Bytes, more: seq<Step>, age: string)
    requires HeardLast(now, heard, from, token) && Feasible(Reached(now, heard), more)
    requires Quiet(more, token) && Spared(Reached(now, heard), more, token) && SweptInTime(more, 0)
    ensures var st := After(Reached(now, heard), more);
            && (token in Sweep(st).relays <==> Elapsed(more) <= 180_000_000_000)
            && (token in Prune(st, age).relays
                <==> && (age == "1m" ==> Elapsed(more) <= 60_000_000_000)
                     && (age == "5m" ==> Elapsed(more) <= 300_000_000_000)
                     && (age == "15m" ==> Elapsed(more) <= 900_000_000_000)
                     && (age == "1h" ==> Elapsed(more) <= 3600_000_000_000)
                     && (age == "6h" ==> Elapsed(more) <= 21600_000_000_000)
                     && (age == "24h" ==> Elapsed(more) <= 86400_000_000_000))
  {
    RouteKept(now, heard, from, token, more);
    var st := After(Reached(now, heard), more);
    RemovedIff(st, DoSweep, token);
    PruneRemoves(st, age, token);
  }
}
