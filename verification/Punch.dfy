/** Hole punching: the loop each peer runs, and what any number of such loops can conclude
    over a network that loses, repeats and reorders datagrams but does not forge them. */
module Punch {
  import opened Text
  import opened Wire

  function Hello(): Bytes { "RTPUNCH" }
  function Ack(): Bytes { "RTPUNCH-ACK" }

  // --- Candidates --------------------------------------------------------------------

  type Resolver = string -> Option<Addr>

  predicate Usable(c: string, resolve: Resolver) {
    c != "" && resolve(c).Some?
  }

  /** The usable addresses in the order in which they are first offered. */
  function Resolved(candidates: seq<string>, resolve: Resolver): seq<Addr> {
    if candidates == [] then []
    else
      var last := candidates[|candidates| - 1];
      var before := Resolved(candidates[..|candidates| - 1], resolve);
      if Usable(last, resolve) && resolve(last).value !in before then before + [resolve(last).value] else before
  }

  ghost predicate Offered(candidates: seq<string>, resolve: Resolver, a: Addr) {
    exists i :: 0 <= i < |candidates| && Usable(candidates[i], resolve) && resolve(candidates[i]).value == a
  }

  lemma OfferedLast(candidates: seq<string>, resolve: Resolver, a: Addr)
    requires candidates != []
    ensures var last := candidates[|candidates| - 1];
            Offered(candidates, resolve, a)
            <==> || Offered(candidates[..|candidates| - 1], resolve, a)
                 || (Usable(last, resolve) && resolve(last).value == a)
  {
    var before := candidates[..|candidates| - 1];
    if Offered(before, resolve, a) {
      var i :| 0 <= i < |before| && Usable(before[i], resolve) && resolve(before[i]).value == a;
      assert candidates[i] == before[i];
    }
    if Offered(candidates, resolve, a) {
      var i :| 0 <= i < |candidates| && Usable(candidates[i], resolve) && resolve(candidates[i]).value == a;
      assert i < |before| ==> before[i] == candidates[i];
    }
  }

  /** Every usable address is there once, and nothing else is. */
  lemma {:induction false} ResolvedOnce(candidates: seq<string>, resolve: Resolver)
    ensures var out := Resolved(candidates, resolve);
            && (forall i, j | 0 <= i < j < |out| :: out[i] != out[j])
            && (forall a :: a in out <==> Offered(candidates, resolve, a))
  {
    if candidates != [] {
      ResolvedOnce(candidates[..|candidates| - 1], resolve);
      forall a ensures a in Resolved(candidates, resolve) <==> Offered(candidates, resolve, a) {
        OfferedLast(candidates, resolve, a);
      }
    }
  }

  /** The addresses offered first are tried first. */
  lemma {:induction false} ResolvedInOrder(candidates: seq<string>, n: nat, resolve: Resolver)
    requires n <= |candidates|
    ensures Resolved(candidates[..n], resolve) <= Resolved(candidates, resolve)
  {
    if n < |candidates| {
      ResolvedInOrder(candidates[..|candidates| - 1], n, resolve);
      assert candidates[..|candidates| - 1][..n] == candidates[..n];
    } else {
      assert candidates[..n] == candidates;
    }
  }

  method ResolveCandidates(candidates: seq<string>, resolve: Resolver) returns (r: Result<seq<Addr>>)
    ensures r == if Resolved(candidates, resolve) == [] then Err("no usable peer addresses to punch to")
                 else Ok(Resolved(candidates, resolve))
  {
    var out: seq<Addr> := [];
    var seen: set<Addr> := {};
    for i := 0 to |candidates|
      invariant out == Resolved(candidates[..i], resolve)
      invariant seen == set a | a in out
    {
      assert candidates[..i + 1][..i] == candidates[..i];
      var c := candidates[i];
      if c == "" { continue; }
      var addr := resolve(c);
      if addr.None? { continue; }
      if addr.value in seen { continue; }
      seen := seen + {addr.value};
      out := out + [addr.value];
    }
    assert candidates[..|candidates|] == candidates;
    if |out| == 0 { return Err("no usable peer addresses to punch to"); }
    return Ok(out);
  }

  method MatchCandidate(peers: seq<Addr>, from: Addr) returns (match_: Option<Addr>)
    ensures match_ == if from in peers then Some(from) else None
  {
    for i := 0 to |peers|
      invariant from !in peers[..i]
    {
      if from == peers[i] { return Some(peers[i]); }
    }
    assert peers[..|peers|] == peers;
    return None;
  }

  // --- The loop ----------------------------------------------------------------------

  /** The state of one loop, with everything it has sent. */
  datatype Loop = Loop(peers: seq<Addr>, heard: set<Addr>, won: Option<Addr>, sent: seq<Packet>)

  function Start(peers: seq<Addr>): Loop { Loop(peers, {}, None, []) }

  datatype Inbound = Inbound(from: Addr, body: Bytes)

  /** The probes at the start of a round. */
  function Probes(peers: seq<Addr>, heard: set<Addr>): seq<Packet> {
    if peers == [] then []
    else
      var last := peers[|peers| - 1];
      var hello := Probes(peers[..|peers| - 1], heard) + [Packet(last, Hello())];
      hello + if last in heard then [Packet(last, Ack())] else []
  }

  function Probed(l: Loop): Loop {
    l.(sent := l.sent + Probes(l.peers, l.heard))
  }

  /** A datagram counts only if it comes from a candidate. A hello is acknowledged at once; an
      ack ends the loop, after a few more acks for the other side. */
  function Received(l: Loop, d: Inbound): Loop {
    if d.from !in l.peers then l
    else if d.body == Hello() then l.(heard := l.heard + {d.from}, sent := l.sent + [Packet(d.from, Ack())])
    else if d.body == Ack() then
      l.(won := Some(d.from), sent := l.sent + [Packet(d.from, Ack()), Packet(d.from, Ack()), Packet(d.from, Ack())])
    else l
  }

  function Round(l: Loop, arrival: Option<Inbound>): Loop {
    if arrival.None? then Probed(l) else Received(Probed(l), arrival.value)
  }

  /** Rounds until a candidate answers or the deadline has passed: each element of `arrivals` is
      what one read produced, None if it timed out. */
  function Rounds(l: Loop, arrivals: seq<Option<Inbound>>): Loop
    decreases |arrivals|
  {
    if arrivals == [] || l.won.Some? then l else Rounds(Round(l, arrivals[0]), arrivals[1..])
  }

  method SendProbes(peers: seq<Addr>, heard: set<Addr>) returns (out: seq<Packet>)
    ensures out == Probes(peers, heard)
  {
    out := [];
    for i := 0 to |peers|
      invariant out == Probes(peers[..i], heard)
    {
      assert peers[..i + 1][..i] == peers[..i];
      out := out + [Packet(peers[i], Hello())];
      if peers[i] in heard {
        out := out + [Packet(peers[i], Ack())];
      }
    }
    assert peers[..|peers|] == peers;
  }

  lemma {:induction false} RoundsSnoc(l: Loop, arrivals: seq<Option<Inbound>>, arrival: Option<Inbound>)
    requires Rounds(l, arrivals).won.None?
    ensures Rounds(l, arrivals + [arrival]) == Round(Rounds(l, arrivals), arrival)
    decreases |arrivals|
  {
    if arrivals == [] {
      assert ([] + [arrival])[1..] == [];
    } else {
      RoundsSnoc(Round(l, arrivals[0]), arrivals[1..], arrival);
      assert (arrivals + [arrival])[1..] == arrivals[1..] + [arrival];
    }
  }

  /** Once a candidate has answered, later arrivals change nothing. */
  lemma {:induction false} WonStays(l: Loop, arrivals: seq<Option<Inbound>>, n: nat)
    requires n <= |arrivals| && Rounds(l, arrivals[..n]).won.Some?
    ensures Rounds(l, arrivals) == Rounds(l, arrivals[..n])
    decreases n
  {
    if n > 0 && l.won.None? {
      assert arrivals[..n][1..] == arrivals[1..][..n - 1];
      WonStays(Round(l, arrivals[0]), arrivals[1..], n - 1);
    }
  }

  lemma NextRound(peers: seq<Addr>, arrivals: seq<Option<Inbound>>, n: nat, l: Loop)
    requires n < |arrivals| && Rounds(Start(peers), arrivals[..n]) == l && l.won.None?
    ensures Rounds(Start(peers), arrivals[..n + 1]) == Round(l, arrivals[n])
  {
    RoundsSnoc(Start(peers), arrivals[..n], arrivals[n]);
    assert arrivals[..n] + [arrivals[n]] == arrivals[..n + 1];
  }

  // --- What ends the loop, and what it sends -----------------------------------------

  /** Read number i produced an ack from a candidate. */
  ghost predicate Answered(peers: seq<Addr>, arrivals: seq<Option<Inbound>>, i: nat) {
    && i < |arrivals| && arrivals[i].Some?
    && arrivals[i].value.body == "RTPUNCH-ACK" && arrivals[i].value.from in peers
  }

  ghost predicate FirstAnswer(peers: seq<Addr>, arrivals: seq<Option<Inbound>>, i: nat) {
    Answered(peers, arrivals, i) && forall j: nat | j < i :: !Answered(peers, arrivals, j)
  }

  lemma {:induction false} SamePeers(l: Loop, arrivals: seq<Option<Inbound>>)
    ensures Rounds(l, arrivals).peers == l.peers
    decreases |arrivals|
  {
    if arrivals != [] && l.won.None? { SamePeers(Round(l, arrivals[0]), arrivals[1..]); }
  }

  lemma AnsweredBefore(peers: seq<Addr>, arrivals: seq<Option<Inbound>>, n: nat, i: nat)
    requires i < n <= |arrivals|
    ensures Answered(peers, arrivals[..n], i) <==> Answered(peers, arrivals, i)
  {
  }

  /** The first ack from a candidate wins, whatever else has arrived from anybody, and without one
      nobody wins. */
  lemma {:induction false} WonIff(peers: seq<Addr>, arrivals: seq<Option<Inbound>>)
    ensures var won := Rounds(Start(peers), arrivals).won;
            && (won.None? <==> forall i: nat :: !Answered(peers, arrivals, i))
            && (forall i: nat | FirstAnswer(peers, arrivals, i) :: won == Some(arrivals[i].value.from))
            && (won.Some? ==> exists i: nat :: FirstAnswer(peers, arrivals, i))
    decreases |arrivals|
  {
    if arrivals != [] {
      var n := |arrivals| - 1;
      WonIff(peers, arrivals[..n]);
      SamePeers(Start(peers), arrivals[..n]);
      forall i: nat | i < n ensures Answered(peers, arrivals[..n], i) <==> Answered(peers, arrivals, i) {
        AnsweredBefore(peers, arrivals, n, i);
      }
      if Rounds(Start(peers), arrivals[..n]).won.Some? {
        WonStays(Start(peers), arrivals, n);
        var i: nat :| FirstAnswer(peers, arrivals[..n], i);
        assert FirstAnswer(peers, arrivals, i);
      } else {
        NextRound(peers, arrivals, n, Rounds(Start(peers), arrivals[..n]));
        assert arrivals[..n + 1] == arrivals;
        if Answered(peers, arrivals, n) { assert FirstAnswer(peers, arrivals, n); }
      }
    }
  }

  /** How many hellos came from this address. */
  function HellosFrom(arrivals: seq<Option<Inbound>>, c: Addr): nat {
    if arrivals == [] then 0
    else
      var n := |arrivals| - 1;
      HellosFrom(arrivals[..n], c) + if arrivals[n] == Some(Inbound(c, "RTPUNCH")) then 1 else 0
  }

  /** How many rounds began after a hello from this address had come. */
  function RoundsHearing(arrivals: seq<Option<Inbound>>, c: Addr): nat {
    if arrivals == [] then 0
    else
      var n := |arrivals| - 1;
      RoundsHearing(arrivals[..n], c) + if HellosFrom(arrivals[..n], c) > 0 then 1 else 0
  }

  lemma {:induction false} ProbesCount(peers: seq<Addr>, heard: set<Addr>, c: Addr)
    ensures multiset(Probes(peers, heard))[Packet(c, Hello())] == multiset(peers)[c]
    ensures multiset(Probes(peers, heard))[Packet(c, Ack())] == if c in heard then multiset(peers)[c] else 0
  {
    if peers != [] {
      var n := |peers| - 1;
      assert peers == peers[..n] + [peers[n]];
      ProbesCount(peers[..n], heard, c);
    }
  }

  /** How many of the packets are this message to this address. */
  function Times(sent: seq<Packet>, c: Addr, body: Bytes): nat {
    multiset(sent)[Packet(c, body)]
  }

  lemma ProbedSends(l: Loop, c: Addr)
    requires multiset(l.peers)[c] == 1
    ensures Times(Probed(l).sent, c, Hello()) == Times(l.sent, c, Hello()) + 1
    ensures Times(Probed(l).sent, c, Ack()) == Times(l.sent, c, Ack()) + if c in l.heard then 1 else 0
  {
    ProbesCount(l.peers, l.heard, c);
  }

  lemma SendsMore(sent: seq<Packet>, more: seq<Packet>, c: Addr, body: Bytes)
    ensures Times(sent + more, c, body) == Times(sent, c, body) + Times(more, c, body)
  {
  }

  lemma ReceivedSends(l: Loop, d: Inbound, c: Addr)
    requires l.won.None? && c in l.peers
    ensures var l1 := Received(l, d);
            && (c in l1.heard <==> c in l.heard || d == Inbound(c, Hello()))
            && Times(l1.sent, c, Hello()) == Times(l.sent, c, Hello())
            && Times(l1.sent, c, Ack())
               == Times(l.sent, c, Ack()) + (if d == Inbound(c, Hello()) then 1 else 0)
                  + (if l1.won == Some(c) then 3 else 0)
  {
    var ack := Packet(d.from, Ack());
    SendsMore(l.sent, [ack], c, Ack());
    SendsMore(l.sent, [ack], c, Hello());
    SendsMore(l.sent, [ack, ack, ack], c, Ack());
    SendsMore(l.sent, [ack, ack, ack], c, Hello());
  }

  lemma RoundSends(l: Loop, arrival: Option<Inbound>, c: Addr)
    requires l.won.None? && multiset(l.peers)[c] == 1
    ensures var l1, d := Round(l, arrival), Inbound(c, Hello());
            && (c in l1.heard <==> c in l.heard || arrival == Some(d))
            && Times(l1.sent, c, Hello()) == Times(l.sent, c, Hello()) + 1
            && Times(l1.sent, c, Ack())
               == Times(l.sent, c, Ack()) + (if c in l.heard then 1 else 0)
                  + (if arrival == Some(d) then 1 else 0) + (if l1.won == Some(c) then 3 else 0)
  {
    ProbedSends(l, c);
    assert c in multiset(l.peers);
    if arrival.Some? { ReceivedSends(Probed(l), arrival.value, c); }
  }

  /** As long as nobody has answered. */
  lemma {:induction false} SentSoFar(peers: seq<Addr>, arrivals: seq<Option<Inbound>>, c: Addr)
    requires multiset(peers)[c] == 1 && Rounds(Start(peers), arrivals).won.None?
    ensures var l := Rounds(Start(peers), arrivals);
            && l.peers == peers && (c in l.heard <==> HellosFrom(arrivals, c) > 0)
            && Times(l.sent, c, Hello()) == |arrivals|
            && Times(l.sent, c, Ack()) == HellosFrom(arrivals, c) + RoundsHearing(arrivals, c)
    decreases |arrivals|
  {
    if arrivals != [] {
      var n := |arrivals| - 1;
      if Rounds(Start(peers), arrivals[..n]).won.Some? { WonStays(Start(peers), arrivals, n); }
      SentSoFar(peers, arrivals[..n], c);
      NextRound(peers, arrivals, n, Rounds(Start(peers), arrivals[..n]));
      assert arrivals[..n + 1] == arrivals;
      RoundSends(Rounds(Start(peers), arrivals[..n]), arrivals[n], c);
    }
  }

  /** The loop begins this many rounds. */
  ghost predicate Begins(peers: seq<Addr>, arrivals: seq<Option<Inbound>>, n: nat) {
    || (n > 0 && FirstAnswer(peers, arrivals, n - 1))
    || (n == |arrivals| && forall i: nat :: !Answered(peers, arrivals, i))
  }

  lemma LastRound(peers: seq<Addr>, arrivals: seq<Option<Inbound>>, n: nat, before: seq<Option<Inbound>>)
    requires n < |arrivals| && FirstAnswer(peers, arrivals, n) && before == arrivals[..n]
    ensures Rounds(Start(peers), before).won.None?
    ensures Rounds(Start(peers), arrivals) == Round(Rounds(Start(peers), before), arrivals[n])
  {
    WonIff(peers, before);
    forall i: nat ensures !Answered(peers, before, i) {
      if i < n { AnsweredBefore(peers, arrivals, n, i); }
    }
    NextRound(peers, arrivals, n, Rounds(Start(peers), before));
    SamePeers(Start(peers), before);
    WonStays(Start(peers), arrivals, n + 1);
  }

  lemma CountsAfter(arrivals: seq<Option<Inbound>>, n: nat, c: Addr)
    requires n < |arrivals|
    ensures var before := arrivals[..n];
            && HellosFrom(arrivals[..n + 1], c)
               == HellosFrom(before, c) + (if arrivals[n] == Some(Inbound(c, Hello())) then 1 else 0)
            && RoundsHearing(arrivals[..n + 1], c)
               == RoundsHearing(before, c) + (if HellosFrom(before, c) > 0 then 1 else 0)
  {
    assert arrivals[..n + 1][..n] == arrivals[..n];
  }

  /** What a candidate is sent: one hello in every round that is begun; and one ack for every hello that
      came from it, one at the start of every round after the first of these, and three if it is the
      one that answered. */
  lemma SentExactly(peers: seq<Addr>, arrivals: seq<Option<Inbound>>, n: nat, c: Addr)
    requires c in peers && (forall i, j | 0 <= i < j < |peers| :: peers[i] != peers[j]) && Begins(peers, arrivals, n)
    ensures var end := Rounds(Start(peers), arrivals);
            && Times(end.sent, c, "RTPUNCH") == n
            && Times(end.sent, c, "RTPUNCH-ACK")
               == HellosFrom(arrivals[..n], c) + RoundsHearing(arrivals[..n], c) + (if end.won == Some(c) then 3 else 0)
  {
    OnceEach(peers, c);
    if n > 0 && FirstAnswer(peers, arrivals, n - 1) {
      var before := arrivals[..n - 1];
      LastRound(peers, arrivals, n - 1, before);
      SentSoFar(peers, before, c);
      RoundSends(Rounds(Start(peers), before), arrivals[n - 1], c);
      CountsAfter(arrivals, n - 1, c);
    } else {
      assert arrivals[..n] == arrivals;
      WonIff(peers, arrivals);
      SentSoFar(peers, arrivals, c);
    }
  }

  lemma {:induction false} OnceEach(peers: seq<Addr>, c: Addr)
    requires forall i, j | 0 <= i < j < |peers| :: peers[i] != peers[j]
    ensures multiset(peers)[c] == if c in peers then 1 else 0
  {
    if peers != [] {
      var n := |peers| - 1;
      assert peers == peers[..n] + [peers[n]];
      OnceEach(peers[..n], c);
    }
  }

  lemma {:induction false} ProbesGo(peers: seq<Addr>, heard: set<Addr>)
    ensures forall k | k in Probes(peers, heard) :: k.to in peers && (k.body == Hello() || k.body == Ack())
  {
    if peers != [] { ProbesGo(peers[..|peers| - 1], heard); }
  }

  /** Nobody else is sent anything, and nothing else is sent. */
  lemma {:induction false} OnlyCandidates(l: Loop, arrivals: seq<Option<Inbound>>)
    requires forall k | k in l.sent :: k.to in l.peers && (k.body == "RTPUNCH" || k.body == "RTPUNCH-ACK")
    ensures forall k | k in Rounds(l, arrivals).sent ::
              k.to in l.peers && (k.body == "RTPUNCH" || k.body == "RTPUNCH-ACK")
    decreases |arrivals|
  {
    if arrivals != [] && l.won.None? {
      ProbesGo(l.peers, l.heard);
      OnlyCandidates(Round(l, arrivals[0]), arrivals[1..]);
    }
  }

  /** For the other side, in case it still waits for an answer. */
  method LastAcks(to: Addr) returns (out: seq<Packet>)
    ensures out == [Packet(to, Ack()), Packet(to, Ack()), Packet(to, Ack())]
  {
    out := [];
    for i := 0 to 3
      invariant out == [Packet(to, Ack()), Packet(to, Ack()), Packet(to, Ack())][..i]
    {
      out := out + [Packet(to, Ack())];
    }
  }

  /** Send probes and wait for a datagram, until a candidate answers. */
  method Race(peers: seq<Addr>, arrivals: seq<Option<Inbound>>) returns (won: Option<Addr>, sent: seq<Packet>)
    ensures var end := Rounds(Start(peers), arrivals); won == end.won && sent == end.sent
    ensures won.None? <==> forall i: nat :: !Answered(peers, arrivals, i)
    ensures forall i: nat | FirstAnswer(peers, arrivals, i) :: won == Some(arrivals[i].value.from)
  {
    WonIff(peers, arrivals);
    sent := [];
    var heard: set<Addr> := {};
    var n := 0;
    while n < |arrivals|
      invariant n <= |arrivals|
      invariant Rounds(Start(peers), arrivals[..n]) == Loop(peers, heard, None, sent)
    {
      NextRound(peers, arrivals, n, Loop(peers, heard, None, sent));
      var probes := SendProbes(peers, heard);
      sent := sent + probes;
      var arrival := arrivals[n];
      n := n + 1;
      if arrival.None? { continue; }
      var m := MatchCandidate(peers, arrival.value.from);
      if m.None? { continue; }
      if arrival.value.body == Hello() {
        heard := heard + {m.value};
        sent := sent + [Packet(m.value, Ack())];
      } else if arrival.value.body == Ack() {
        var acks := LastAcks(m.value);
        sent := sent + acks;
        WonStays(Start(peers), arrivals, n);
        return m, sent;
      }
    }
    assert arrivals[..|arrivals|] == arrivals;
    return None, sent;
  }

  /** Race every candidate and return the first that answers. */
  method Punch(candidates: seq<string>, resolve: Resolver, arrivals: seq<Option<Inbound>>)
    returns (r: Result<Addr>, sent: seq<Packet>)
    ensures Resolved(candidates, resolve) == [] ==> r.Err? && sent == []
    ensures Resolved(candidates, resolve) != [] ==>
              var end := Rounds(Start(Resolved(candidates, resolve)), arrivals);
              sent == end.sent && r == if end.won.Some? then Ok(end.won.value) else Err("hole punch timed out")
    ensures r.Ok? <==> exists i: nat :: FirstAnswer(Resolved(candidates, resolve), arrivals, i)
    ensures forall i: nat | FirstAnswer(Resolved(candidates, resolve), arrivals, i) :: r == Ok(arrivals[i].value.from)
  {
    var resolved := ResolveCandidates(candidates, resolve);
    if resolved.Err? { return Err(resolved.error), []; }
    var won;
    won, sent := Race(resolved.value, arrivals);
    WonIff(resolved.value, arrivals);
    return if won.Some? then Ok(won.value) else Err("hole punch timed out"), sent;
  }
}
