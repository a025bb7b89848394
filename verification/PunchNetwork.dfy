/** Any number of punch loops on one network. The network may lose, repeat, delay and reorder
    datagrams, and NATs may map addresses as they like, but a datagram shows the address of the
    party that sent it and only arrives where it was sent. */
module PunchNetwork {
  import opened Text
  import opened Wire
  import opened Punch

  /** One party running the loop: what each finished round received, and whether it has already
      sent the probes of the next one. */
  datatype Party = Party(peers: seq<Addr>, log: seq<Option<Inbound>>, probed: bool)

  function LoopOf(p: Party): Loop {
    var l := Rounds(Start(p.peers), p.log);
    if p.probed then Probed(l) else l
  }

  datatype Sent = Sent(sender: nat, packet: Packet)

  /** `others` is all traffic the loops did not send. */
  datatype Net = Net(parties: map<nat, Party>, others: set<Sent>)

  function Fresh(offers: map<nat, seq<Addr>>): Net {
    Net(map x | x in offers :: Party(offers[x], [], false), {})
  }

  predicate WasSent(n: Net, sender: nat, packet: Packet) {
    Sent(sender, packet) in n.others || (sender in n.parties && packet in LoopOf(n.parties[sender]).sent)
  }

  /** Which party an address belongs to. */
  type Owner = Addr -> nat

  ghost predicate MayArrive(owner: Owner, n: Net, x: nat, d: Inbound) {
    exists to :: owner(to) == x && WasSent(n, owner(d.from), Packet(to, d.body))
  }

  datatype Step =
    | Probe(party: nat)
    | Read(party: nat, arrival: Option<Inbound>)
    | Other(sender: nat, packet: Packet)

  /** A loop that has its answer does nothing more; a party running it sends other datagrams too,
      but no other hello or ack. */
  ghost predicate Enabled(owner: Owner, n: Net, s: Step) {
    match s
    case Probe(x) => x in n.parties && !n.parties[x].probed && LoopOf(n.parties[x]).won.None?
    case Read(x, arrival) =>
      x in n.parties && n.parties[x].probed && (arrival.Some? ==> MayArrive(owner, n, x, arrival.value))
    case Other(x, packet) => x in n.parties ==> packet.body != Hello() && packet.body != Ack()
  }

  function Next(n: Net, s: Step): Net {
    match s
    case Probe(x) =>
      if x !in n.parties then n else n.(parties := n.parties[x := n.parties[x].(probed := true)])
    case Read(x, arrival) =>
      if x !in n.parties then n
      else n.(parties := n.parties[x := n.parties[x].(log := n.parties[x].log + [arrival], probed := false)])
    case Other(x, packet) => n.(others := n.others + {Sent(x, packet)})
  }

  ghost predicate Feasible(owner: Owner, n: Net, steps: seq<Step>)
    decreases |steps|
  {
    steps == [] || (Enabled(owner, n, steps[0]) && Feasible(owner, Next(n, steps[0]), steps[1..]))
  }

  function After(n: Net, steps: seq<Step>): Net
    decreases |steps|
  {
    if steps == [] then n else After(Next(n, steps[0]), steps[1..])
  }

  // --- What one loop knows -----------------------------------------------------------

  predicate Got(log: seq<Option<Inbound>>, from: Addr, body: Bytes) {
    Some(Inbound(from, body)) in log
  }

  predicate Answerable(log: seq<Option<Inbound>>, a: Addr) {
    Got(log, a, Hello()) || Got(log, a, Ack())
  }

  /** Every ack that was sent answers a hello or an ack from there; the result is a candidate
      that sent an ack. */
  ghost predicate Honest(l: Loop, log: seq<Option<Inbound>>) {
    && (forall a :: a in l.heard ==> Got(log, a, Hello()))
    && (forall p :: p in l.sent && p.body == Ack() ==> Answerable(log, p.to))
    && (l.won.Some? ==> l.won.value in l.peers && Got(log, l.won.value, Ack()))
  }

  lemma {:induction false} ProbesOnlyAckHeard(peers: seq<Addr>, heard: set<Addr>)
    ensures forall p :: p in Probes(peers, heard) && p.body == Ack() ==> p.to in heard
  {
    if peers != [] {
      ProbesOnlyAckHeard(peers[..|peers| - 1], heard);
      assert |Hello()| != |Ack()|;
    }
  }

  lemma ProbedHonest(l: Loop, log: seq<Option<Inbound>>)
    requires Honest(l, log)
    ensures Honest(Probed(l), log)
  {
    ProbesOnlyAckHeard(l.peers, l.heard);
  }

  lemma ReceivedHonest(l: Loop, log: seq<Option<Inbound>>, arrival: Option<Inbound>)
    requires Honest(l, log)
    ensures Honest(if arrival.None? then l else Received(l, arrival.value), log + [arrival])
  {
    assert |Hello()| != |Ack()|;
    forall a, b | Got(log, a, b) ensures Got(log + [arrival], a, b) {
    }
    if arrival.Some? {
      assert (log + [arrival])[|log|] == Some(Inbound(arrival.value.from, arrival.value.body));
      assert Got(log + [arrival], arrival.value.from, arrival.value.body);
    }
  }

  lemma {:induction false} RoundsHonest(peers: seq<Addr>, log: seq<Option<Inbound>>)
    ensures Honest(Rounds(Start(peers), log), log)
    ensures Rounds(Start(peers), log).peers == peers
    decreases |log|
  {
    if log != [] {
      var earlier := log[..|log| - 1];
      var l := Rounds(Start(peers), earlier);
      assert log == earlier + [log[|log| - 1]];
      RoundsHonest(peers, earlier);
      if l.won.Some? {
        WonStays(Start(peers), log, |log| - 1);
        forall a, b | Got(earlier, a, b) ensures Got(log, a, b) {
        }
      } else {
        RoundsSnoc(Start(peers), earlier, log[|log| - 1]);
        ProbedHonest(l, earlier);
        ReceivedHonest(Probed(l), earlier, log[|log| - 1]);
      }
    }
  }

  lemma LoopHonest(p: Party)
    ensures Honest(LoopOf(p), p.log) && LoopOf(p).peers == p.peers
  {
    RoundsHonest(p.peers, p.log);
    ProbedHonest(Rounds(Start(p.peers), p.log), p.log);
  }

  // --- What holds of the network in every run ----------------------------------------

  /** A loop sends no more once it has its answer, and the rounds it has begun are not undone. */
  ghost predicate Running(n: Net) {
    forall x :: x in n.parties && n.parties[x].probed ==> Rounds(Start(n.parties[x].peers), n.parties[x].log).won.None?
  }

  ghost predicate Quiet(n: Net) {
    forall s :: s in n.others && s.sender in n.parties ==> s.packet.body != Hello() && s.packet.body != Ack()
  }

  /** Everything received was sent. */
  ghost predicate Unforged(owner: Owner, n: Net) {
    forall x, d :: x in n.parties && Some(d) in n.parties[x].log ==> MayArrive(owner, n, x, d)
  }

  /** A hello has got through from one of the two parties to the other. */
  ghost predicate Greeted(owner: Owner, n: Net, x: nat, y: nat)
    requires x in n.parties && y in n.parties
  {
    || (exists a :: owner(a) == y && Got(n.parties[x].log, a, Hello()))
    || (exists a :: owner(a) == x && Got(n.parties[y].log, a, Hello()))
  }

  ghost predicate AcksGrounded(owner: Owner, n: Net) {
    forall x, a :: x in n.parties && Got(n.parties[x].log, a, Ack()) && owner(a) in n.parties ==>
             Greeted(owner, n, x, owner(a))
  }

  ghost predicate NetOk(owner: Owner, n: Net) {
    Running(n) && Quiet(n) && Unforged(owner, n) && AcksGrounded(owner, n)
  }

  lemma SentGrowsRound(l: Loop, arrival: Option<Inbound>, p: Packet)
    requires p in Probed(l).sent
    ensures p in Round(l, arrival).sent
  {
  }

  /** No step takes back anything that was sent. */
  lemma NothingUnsent(owner: Owner, n: Net, s: Step, sender: nat, packet: Packet)
    requires Running(n) && Enabled(owner, n, s) && WasSent(n, sender, packet)
    ensures WasSent(Next(n, s), sender, packet)
  {
    if Sent(sender, packet) !in n.others && !s.Other? && s.party == sender {
      var p := n.parties[sender];
      if s.Read? {
        RoundsSnoc(Start(p.peers), p.log, s.arrival);
        SentGrowsRound(Rounds(Start(p.peers), p.log), s.arrival, packet);
      }
    }
  }

  lemma StillMayArrive(owner: Owner, n: Net, s: Step, x: nat, d: Inbound)
    requires Running(n) && Enabled(owner, n, s) && MayArrive(owner, n, x, d)
    ensures MayArrive(owner, Next(n, s), x, d)
  {
    var to :| owner(to) == x && WasSent(n, owner(d.from), Packet(to, d.body));
    NothingUnsent(owner, n, s, owner(d.from), Packet(to, d.body));
  }

  /** An ack that may arrive from another loop answers a hello or an ack which that loop received
      from one of this party's addresses. */
  lemma AckAnswers(owner: Owner, n: Net, x: nat, m: Addr) returns (a: Addr)
    requires Quiet(n) && MayArrive(owner, n, x, Inbound(m, Ack())) && owner(m) in n.parties
    ensures owner(a) == x && Answerable(n.parties[owner(m)].log, a)
  {
    a :| owner(a) == x && WasSent(n, owner(m), Packet(a, Ack()));
    LoopHonest(n.parties[owner(m)]);
  }

  lemma StillGreeted(owner: Owner, n: Net, s: Step, x: nat, y: nat)
    requires x in n.parties && y in n.parties && Greeted(owner, n, x, y)
    ensures x in Next(n, s).parties && y in Next(n, s).parties && Greeted(owner, Next(n, s), x, y)
  {
    var after := Next(n, s);
    if a :| owner(a) == y && Got(n.parties[x].log, a, Hello()) {
      assert Got(after.parties[x].log, a, Hello());
    } else {
      var a :| owner(a) == x && Got(n.parties[y].log, a, Hello());
      assert Got(after.parties[y].log, a, Hello());
    }
  }

  lemma NextUnforged(owner: Owner, n: Net, s: Step)
    requires NetOk(owner, n) && Enabled(owner, n, s)
    ensures Unforged(owner, Next(n, s))
  {
    var after := Next(n, s);
    forall x, d | x in after.parties && Some(d) in after.parties[x].log ensures MayArrive(owner, after, x, d) {
      if Some(d) in n.parties[x].log {
        assert MayArrive(owner, n, x, d);
      }
      StillMayArrive(owner, n, s, x, d);
    }
  }

  lemma AckGrounded(owner: Owner, n: Net, x: nat, m: Addr)
    requires Quiet(n) && AcksGrounded(owner, n)
    requires x in n.parties && owner(m) in n.parties && MayArrive(owner, n, x, Inbound(m, Ack()))
    ensures Greeted(owner, n, x, owner(m))
  {
    var a := AckAnswers(owner, n, x, m);
    if !Got(n.parties[owner(m)].log, a, Hello()) {
      assert Greeted(owner, n, owner(m), owner(a));
    }
  }

  lemma NextGrounded(owner: Owner, n: Net, s: Step)
    requires NetOk(owner, n) && Enabled(owner, n, s)
    ensures AcksGrounded(owner, Next(n, s))
  {
    var after := Next(n, s);
    forall x, a | x in after.parties && Got(after.parties[x].log, a, Ack()) && owner(a) in after.parties
      ensures Greeted(owner, after, x, owner(a))
    {
      if !Got(n.parties[x].log, a, Ack()) {
        AckGrounded(owner, n, x, a);
      }
      StillGreeted(owner, n, s, x, owner(a));
    }
  }

  lemma NextNetOk(owner: Owner, n: Net, s: Step)
    requires NetOk(owner, n) && Enabled(owner, n, s)
    ensures NetOk(owner, Next(n, s))
  {
    NextUnforged(owner, n, s);
    NextGrounded(owner, n, s);
  }

  lemma {:induction false} RunNetOk(owner: Owner, n: Net, steps: seq<Step>)
    requires NetOk(owner, n) && Feasible(owner, n, steps)
    ensures NetOk(owner, After(n, steps))
    decreases |steps|
  {
    if steps != [] {
      NextNetOk(owner, n, steps[0]);
      RunNetOk(owner, Next(n, steps[0]), steps[1..]);
    }
  }

  // --- What success means ------------------------------------------------------------

  lemma {:induction false} PeersFixed(owner: Owner, n: Net, steps: seq<Step>)
    ensures After(n, steps).parties.Keys == n.parties.Keys
    ensures forall x :: x in n.parties ==> After(n, steps).parties[x].peers == n.parties[x].peers
    decreases |steps|
  {
    if steps != [] {
      PeersFixed(owner, Next(n, steps[0]), steps[1..]);
    }
  }

  /** In every run, every ack a loop has ever sent answers a hello or ack it had received from there. */
  lemma AcksAnswer(owner: Owner, offers: map<nat, seq<Addr>>, steps: seq<Step>, y: nat, to: Addr)
    requires Feasible(owner, Fresh(offers), steps) && y in offers
    requires WasSent(After(Fresh(offers), steps), y, Packet(to, Ack()))
    ensures y in After(Fresh(offers), steps).parties && Answerable(After(Fresh(offers), steps).parties[y].log, to)
  {
    PeersFixed(owner, Fresh(offers), steps);
    RunNetOk(owner, Fresh(offers), steps);
    LoopHonest(After(Fresh(offers), steps).parties[y]);
  }

  /** A loop that has succeeded at `m` was offered `m` and received an ack from it. If the owner
      of `m` also runs the loop, it had received a hello or ack from this party, so datagrams
      have crossed in both directions, and at least one of them was a hello. */
  lemma SuccessIsMutual(owner: Owner, offers: map<nat, seq<Addr>>, steps: seq<Step>, x: nat, m: Addr)
    requires Feasible(owner, Fresh(offers), steps) && x in offers
    requires x in After(Fresh(offers), steps).parties && LoopOf(After(Fresh(offers), steps).parties[x]).won == Some(m)
    ensures m in offers[x]
    ensures var n := After(Fresh(offers), steps);
            && Got(n.parties[x].log, m, Ack())
            && MayArrive(owner, n, x, Inbound(m, Ack()))
            && (owner(m) in offers ==>
                  && owner(m) in n.parties
                  && (exists a :: owner(a) == x && Answerable(n.parties[owner(m)].log, a))
                  && Greeted(owner, n, x, owner(m)))
  {
    var n := After(Fresh(offers), steps);
    PeersFixed(owner, Fresh(offers), steps);
    RunNetOk(owner, Fresh(offers), steps);
    LoopHonest(n.parties[x]);
    assert MayArrive(owner, n, x, Inbound(m, Ack()));
    if owner(m) in offers {
      var a := AckAnswers(owner, n, x, m);
      assert Greeted(owner, n, x, owner(m));
    }
  }
}
