/** The hand-off of a connection from the goroutine that keeps it alive to any number of others
    that wait for it. */
module Reconnect {
  import opened Text
  import opened Durations

  /** What the mutex guards. Channels are identified by the order of their creation; the last one
      is the current one, and for each we keep whether it has been closed. */
  datatype Shared = Shared(conn: Option<nat>, closed: seq<bool>) {
    function Current(): nat { if closed == [] then 0 else |closed| - 1 }
    predicate CurrentOpen() { closed != [] && !closed[Current()] }
  }

  /** Closing a channel twice would panic, so this asks for an open one. */
  function SetConn(s: Shared, c: nat): Shared
    requires s.CurrentOpen()
  {
    Shared(Some(c), s.closed[s.Current() := true])
  }

  function ClearConn(s: Shared): Shared {
    Shared(None, s.closed + [false])
  }

  // --- The program -------------------------------------------------------------------

  class Channel {
    var closed: bool

    constructor ()
      ensures !closed
    {
      closed := false;
    }

    method Close()
      requires !closed
      modifies this
      ensures closed
    {
      closed := true;
    }
  }

  /** One turn of Run: the dial fails, perhaps because of a cancellation, and is waited out unless the
      wait is cut short; or it succeeds, and the connection is used until it is lost or until a
      cancellation. After the last turn Run is cancelled before it dials again. */
  datatype Turn = Failed(cancelled: bool, cut: bool) | Connected(conn: nat, stopped: bool) {
    predicate Ends() { if Failed? then cancelled || cut else stopped }
  }

  /** The waits that are begun by a run that starts with this backoff. */
  function Sleeps(turns: seq<Turn>, backoff: int): seq<int> {
    if turns == [] then []
    else if turns[0].Ends() then Waits(turns[0], backoff)
    else Waits(turns[0], backoff) + Sleeps(turns[1..], Following(turns[0], backoff))
  }

  /** The wait that is begun in a turn, if any. */
  function Waits(turn: Turn, backoff: int): seq<int> {
    if turn.Failed? && !turn.cancelled then [backoff] else []
  }

  /** The backoff after a turn. */
  function Following(turn: Turn, backoff: int): int {
    if turn.Failed? then Doubled(backoff) else MIN_BACKOFF
  }

  lemma SleepsNow(turns: seq<Turn>, i: nat, slept: seq<int>, backoff: int)
    requires i < |turns|
    ensures slept + Sleeps(turns[i..], backoff)
            == if turns[i].Ends() then slept + Waits(turns[i], backoff)
               else (slept + Waits(turns[i], backoff)) + Sleeps(turns[i + 1..], Following(turns[i], backoff))
  {
    var rest := turns[i..];
    assert rest != [] && rest[0] == turns[i] && rest[1..] == turns[i + 1..];
    assert Sleeps(rest, backoff)
           == if rest[0].Ends() then Waits(rest[0], backoff)
              else Waits(rest[0], backoff) + Sleeps(rest[1..], Following(rest[0], backoff));
  }

  class ConnManager {
    var conn: Option<nat>
    var ready: Channel
    ghost var channels: seq<Channel>

    ghost predicate Valid()
      reads this, channels
    {
      && channels != [] && ready == channels[|channels| - 1]
      && (forall i, j | 0 <= i < j < |channels| :: channels[i] != channels[j])
      && (ready.closed <==> conn.Some?)
    }

    ghost function View(): Shared
      reads this, channels
    {
      var chs := channels;
      Shared(conn, seq(|chs|, i requires 0 <= i < |chs| reads chs => chs[i].closed))
    }

    constructor ()
      ensures Valid() && fresh(channels) && View() == Shared(None, [false])
    {
      conn := None;
      var ch := new Channel();
      ready := ch;
      channels := [ch];
    }

    method Set(c: nat)
      requires Valid() && View().CurrentOpen()
      modifies this, ready
      ensures Valid() && channels == old(channels) && View() == SetConn(old(View()), c)
    {
      conn := Some(c);
      ready.Close();
    }

    method Clear()
      requires Valid()
      modifies this
      ensures Valid() && fresh(set ch | ch in channels && ch !in old(channels)) && old(channels) <= channels
      ensures View() == ClearConn(old(View()))
    {
      conn := None;
      ready := new Channel();
      channels := channels + [ready];
    }

    /** Hand a connection over, and take it back once it is lost or no longer wanted. */
    method Serve(c: nat)
      requires Valid() && conn.None?
      modifies this, ready
      ensures Valid() && conn.None? && fresh(set ch | ch in channels && ch !in old(channels))
      ensures View() == ClearConn(SetConn(old(View()), c))
    {
      Set(c);
      Clear();
    }

    /** One turn: what it waits, and the backoff for the next one. */
    method TakeTurn(turn: Turn, backoff: int) returns (slept: seq<int>, next: int)
      requires Valid() && conn.None?
      modifies this, ready
      ensures Valid() && conn.None? && fresh(set ch | ch in channels && ch !in old(channels))
      ensures slept == Waits(turn, backoff) && (!turn.Ends() ==> next == Following(turn, backoff))
    {
      slept, next := [], backoff;
      match turn {
        case Failed(cancelled, cut) =>
          if cancelled { return; }
          slept := [backoff];
          if cut { return; }
          next := next * 2;
          if next > MAX_BACKOFF {
            next := MAX_BACKOFF;
          }
        case Connected(c, stopped) =>
          next := MIN_BACKOFF;
          Serve(c);
      }
    }

    /** Keep the connection alive until cancelled. */
    method Run(turns: seq<Turn>) returns (slept: seq<int>)
      requires Valid() && conn.None?
      modifies this, channels
      ensures Valid() && conn.None? && slept == Sleeps(turns, MIN_BACKOFF)
    {
      slept := [];
      var backoff := MIN_BACKOFF;
      for i := 0 to |turns|
        invariant Valid() && conn.None? && fresh(set ch | ch in channels && ch !in old(channels))
        invariant Sleeps(turns, MIN_BACKOFF) == slept + Sleeps(turns[i..], backoff)
      {
        SleepsNow(turns, i, slept, backoff);
        var more, next := TakeTurn(turns[i], backoff);
        slept := slept + more;
        backoff := next;
        if turns[i].Ends() { return; }
      }
    }
  }

  /** While dials keep failing the waits are 1, 2, 4, 8 and from then on 15 seconds. */
  lemma {:induction false} SleepsFrom(turns: seq<Turn>, failures: nat)
    requires forall i | 0 <= i < |turns| :: turns[i] == Failed(false, false)
    ensures |Sleeps(turns, NthSleep(failures))| == |turns|
    ensures forall i | 0 <= i < |turns| :: Sleeps(turns, NthSleep(failures))[i] == NthSleep(failures + i)
  {
    if turns != [] {
      assert Doubled(NthSleep(failures)) == NthSleep(failures + 1);
      SleepsFrom(turns[1..], failures + 1);
    }
  }

  /** Every wait lies between one and fifteen seconds, and as long as nothing ends the run there is one
      for each failed dial. */
  lemma {:induction false} SleepsBounded(turns: seq<Turn>, backoff: int)
    requires MIN_BACKOFF <= backoff <= MAX_BACKOFF
    ensures forall i | 0 <= i < |Sleeps(turns, backoff)| :: MIN_BACKOFF <= Sleeps(turns, backoff)[i] <= MAX_BACKOFF
    ensures (forall i | 0 <= i < |turns| :: !turns[i].Ends())
            ==> |Sleeps(turns, backoff)| == multiset(turns)[Failed(false, false)]
  {
    if turns != [] {
      assert turns == [turns[0]] + turns[1..];
      SleepsBounded(turns[1..], if turns[0].Failed? then Doubled(backoff) else MIN_BACKOFF);
    }
  }

  /** Nothing happens after the turn that ends the run. */
  lemma {:induction false} SleepsEnd(turns: seq<Turn>, n: nat, backoff: int)
    requires n < |turns| && turns[n].Ends()
    ensures Sleeps(turns, backoff) == Sleeps(turns[..n + 1], backoff)
  {
    if n > 0 {
      assert turns[..n + 1][1..] == turns[1..][..n];
      SleepsEnd(turns[1..], n - 1, if turns[0].Failed? then Doubled(backoff) else MIN_BACKOFF);
    }
  }

  /** How many dials have failed in a row before turn n. */
  function FailuresBefore(turns: seq<Turn>, n: nat): nat
    requires n <= |turns|
  {
    if n == 0 || turns[n - 1].Connected? then 0 else FailuresBefore(turns, n - 1) + 1
  }

  /** The backoff after some turns. */
  function Backoff(turns: seq<Turn>, backoff: int): int {
    if turns == [] then backoff else Backoff(turns[1..], Following(turns[0], backoff))
  }

  lemma {:induction false} BackoffSnoc(turns: seq<Turn>, turn: Turn, backoff: int)
    ensures Backoff(turns + [turn], backoff) == Following(turn, Backoff(turns, backoff))
    decreases |turns|
  {
    if turns == [] {
      assert ([] + [turn])[1..] == [];
    } else {
      assert (turns + [turn])[1..] == turns[1..] + [turn];
      BackoffSnoc(turns[1..], turn, Following(turns[0], backoff));
    }
  }

  lemma {:induction false} SleepsSnoc(turns: seq<Turn>, turn: Turn, backoff: int)
    requires forall i | 0 <= i < |turns| :: !turns[i].Ends()
    ensures Sleeps(turns + [turn], backoff) == Sleeps(turns, backoff) + Waits(turn, Backoff(turns, backoff))
    decreases |turns|
  {
    if turns == [] {
      assert ([] + [turn])[1..] == [];
    } else {
      assert (turns + [turn])[1..] == turns[1..] + [turn];
      SleepsSnoc(turns[1..], turn, Following(turns[0], backoff));
    }
  }

  lemma {:induction false} BackoffCounts(turns: seq<Turn>, n: nat)
    requires n <= |turns|
    ensures Backoff(turns[..n], MIN_BACKOFF) == NthSleep(FailuresBefore(turns, n))
  {
    if n > 0 {
      BackoffCounts(turns, n - 1);
      assert turns[..n] == turns[..n - 1] + [turns[n - 1]];
      BackoffSnoc(turns[..n - 1], turns[n - 1], MIN_BACKOFF);
      assert Doubled(NthSleep(FailuresBefore(turns, n - 1))) == NthSleep(FailuresBefore(turns, n - 1) + 1);
    }
  }

  /** Turn by turn: a dial that fails is waited out, unless that was a cancellation, for the time that
      belongs to the failures since the last connection; a turn with a connection is not. */
  lemma SleepsTurn(turns: seq<Turn>, n: nat)
    requires n < |turns| && forall i | 0 <= i < n :: !turns[i].Ends()
    ensures Sleeps(turns[..n + 1], MIN_BACKOFF)
            == Sleeps(turns[..n], MIN_BACKOFF)
               + if turns[n].Failed? && !turns[n].cancelled then [NthSleep(FailuresBefore(turns, n))] else []
  {
    assert turns[..n + 1] == turns[..n] + [turns[n]];
    SleepsSnoc(turns[..n], turns[n], MIN_BACKOFF);
    BackoffCounts(turns, n);
  }

  // --- Every interleaving ------------------------------------------------------------

  datatype Runner = Dialing(backoff: int) | Sleeping(backoff: int) | Live(conn: nat) | Stopped

  /** A waiter remembers, for the proof, how many connections there had been when it looked. */
  datatype Waiter = Looking | Waiting(channel: nat, seen: nat) | Got(conn: nat) | GaveUp

  /** `conns` lists the connections that were handed over, `slept` the waits. */
  datatype System = System(shared: Shared, runner: Runner, waiters: map<nat, Waiter>, conns: seq<nat>, slept: seq<int>)

  datatype Step =
    | DialOk(conn: nat) | DialFails | Wakes | Loses | Stops
    | Asks(w: nat) | Looks(w: nat) | Resumes(w: nat) | Cancels(w: nat)

  function InitSystem(): System {
    System(Shared(None, [false]), Dialing(MIN_BACKOFF), map[], [], [])
  }

  predicate Enabled(sys: System, step: Step) {
    match step
    case DialOk(_) => sys.runner.Dialing?
    case DialFails => sys.runner.Dialing?
    case Wakes => sys.runner.Sleeping?
    case Loses => sys.runner.Live?
    case Stops => !sys.runner.Stopped?
    case Asks(w) => w !in sys.waiters
    case Looks(w) => w in sys.waiters && sys.waiters[w].Looking?
    case Resumes(w) =>
      w in sys.waiters && sys.waiters[w].Waiting?
      && sys.waiters[w].channel < |sys.shared.closed| && sys.shared.closed[sys.waiters[w].channel]
    case Cancels(w) => w in sys.waiters && sys.waiters[w].Waiting?
  }

  /** Handing over a connection is the one step that could panic. */
  predicate Safe(sys: System, step: Step) {
    step.DialOk? ==> sys.shared.CurrentOpen()
  }

  function Next(sys: System, step: Step): System
    requires Enabled(sys, step) && Safe(sys, step)
  {
    match step
    case DialOk(c) => sys.(shared := SetConn(sys.shared, c), runner := Live(c), conns := sys.conns + [c])
    case DialFails => sys.(runner := Sleeping(sys.runner.backoff), slept := sys.slept + [sys.runner.backoff])
    case Wakes => sys.(runner := Dialing(Doubled(sys.runner.backoff)))
    case Loses => sys.(shared := ClearConn(sys.shared), runner := Dialing(MIN_BACKOFF))
    case Stops =>
      if sys.runner.Live? then sys.(shared := ClearConn(sys.shared), runner := Stopped) else sys.(runner := Stopped)
    case Asks(w) => sys.(waiters := sys.waiters[w := Looking])
    case Looks(w) =>
      var conn := sys.shared.conn;
      var w1 := if conn.Some? then Got(conn.value) else Waiting(sys.shared.Current(), |sys.conns|);
      sys.(waiters := sys.waiters[w := w1])
    case Resumes(w) => sys.(waiters := sys.waiters[w := Looking])
    case Cancels(w) => sys.(waiters := sys.waiters[w := GaveUp])
  }

  ghost predicate SharedOk(s: Shared, conns: seq<nat>) {
    && s.closed != []
    && (forall i | 0 <= i < |s.closed| - 1 :: s.closed[i])
    && (s.CurrentOpen() <==> s.conn.None?)
    && |conns| == |s.closed| - (if s.CurrentOpen() then 1 else 0)
    && (s.conn.Some? ==> conns != [] && s.conn.value == conns[|conns| - 1])
  }

  ghost predicate RunnerOk(sys: System) {
    && (sys.runner.Live? <==> sys.shared.conn.Some?)
    && (sys.runner.Live? ==> sys.shared.conn == Some(sys.runner.conn))
    && (sys.runner.Dialing? || sys.runner.Sleeping? ==> MIN_BACKOFF <= sys.runner.backoff <= MAX_BACKOFF)
    && (forall i | 0 <= i < |sys.slept| :: MIN_BACKOFF <= sys.slept[i] <= MAX_BACKOFF)
  }

  ghost predicate WaiterOk(s: Shared, conns: seq<nat>, w: Waiter) {
    match w
    case Waiting(ch, seen) => ch < |s.closed| && seen == ch
    case Got(c) => c in conns
    case _ => true
  }

  ghost predicate SystemOk(sys: System) {
    && SharedOk(sys.shared, sys.conns)
    && RunnerOk(sys)
    && forall w | w in sys.waiters :: WaiterOk(sys.shared, sys.conns, sys.waiters[w])
  }

  lemma NextOk(sys: System, step: Step)
    requires SystemOk(sys) && Enabled(sys, step)
    ensures Safe(sys, step) && SystemOk(Next(sys, step))
  {
    var sys1 := Next(sys, step);
    forall w | w in sys1.waiters ensures WaiterOk(sys1.shared, sys1.conns, sys1.waiters[w]) {
      if w in sys.waiters { assert WaiterOk(sys.shared, sys.conns, sys.waiters[w]); }
    }
  }

  ghost predicate Feasible(sys: System, steps: seq<Step>)
    requires SystemOk(sys)
    decreases |steps|
  {
    if steps == [] then true
    else
      Enabled(sys, steps[0]) && (NextOk(sys, steps[0]); Feasible(Next(sys, steps[0]), steps[1..]))
  }

  ghost function After(sys: System, steps: seq<Step>): (r: System)
    requires SystemOk(sys) && Feasible(sys, steps)
    ensures SystemOk(r)
    decreases |steps|
  {
    if steps == [] then sys
    else
      NextOk(sys, steps[0]);
      After(Next(sys, steps[0]), steps[1..])
  }

  lemma InitOk()
    ensures SystemOk(InitSystem())
  {
  }

  ghost predicate Run(steps: seq<Step>) {
    InitOk(); Feasible(InitSystem(), steps)
  }

  ghost function Reached(steps: seq<Step>): System
    requires Run(steps)
  {
    InitOk(); After(InitSystem(), steps)
  }

  /** No run can close a channel twice. */
  lemma NeverPanics(steps: seq<Step>, step: Step)
    requires Run(steps) && Enabled(Reached(steps), step)
    ensures Safe(Reached(steps), step)
  {
    NextOk(Reached(steps), step);
  }

  /** A waiter's channel is the current one or closed already. It is closed exactly if a connection
      was handed over since the waiter looked, so whenever there is a connection, or was one that
      the waiter missed, the waiter can go on. */
  lemma NoLostWakeUp(steps: seq<Step>, w: nat)
    requires Run(steps)
    requires var sys := Reached(steps); w in sys.waiters && sys.waiters[w].Waiting?
    ensures var sys := Reached(steps);
            var ch, seen := sys.waiters[w].channel, sys.waiters[w].seen;
            && ch < |sys.shared.closed|
            && (ch == sys.shared.Current() || sys.shared.closed[ch])
            && (sys.shared.closed[ch] <==> |sys.conns| > seen)
            && (sys.shared.conn.Some? ==> Enabled(sys, Step.Resumes(w)))
  {
    var sys := Reached(steps);
    assert WaiterOk(sys.shared, sys.conns, sys.waiters[w]);
  }

  /** The current channel is closed exactly while there is a connection, a waiter only ever gets a
      connection that was handed over, and every wait is between one and fifteen seconds. */
  lemma HandOff(steps: seq<Step>)
    requires Run(steps)
    ensures var sys := Reached(steps);
            && sys.shared.closed != []
            && (sys.shared.closed[sys.shared.Current()] <==> sys.shared.conn.Some?)
            && (forall w | w in sys.waiters && sys.waiters[w].Got? :: sys.waiters[w].conn in sys.conns)
            && (forall i | 0 <= i < |sys.slept| :: MIN_BACKOFF <= sys.slept[i] <= MAX_BACKOFF)
  {
    var sys := Reached(steps);
    forall w | w in sys.waiters && sys.waiters[w].Got? ensures sys.waiters[w].conn in sys.conns {
      assert WaiterOk(sys.shared, sys.conns, sys.waiters[w]);
    }
  }

  /** How many dials have failed since the last one that did not. */
  function FailsInARow(steps: seq<Step>): nat {
    if steps == [] then 0
    else
      var before, last := steps[..|steps| - 1], steps[|steps| - 1];
      if last.DialOk? then 0 else FailsInARow(before) + if last.DialFails? then 1 else 0
  }

  /** The waits that belong to the failures. */
  function WaitsFor(steps: seq<Step>): seq<int> {
    if steps == [] then []
    else
      var before, last := steps[..|steps| - 1], steps[|steps| - 1];
      WaitsFor(before) + if last.DialFails? then [NthSleep(FailsInARow(before))] else []
  }

  ghost predicate BackoffOk(runner: Runner, failures: nat) {
    match runner
    case Dialing(backoff) => backoff == NthSleep(failures)
    case Sleeping(backoff) => failures > 0 && backoff == NthSleep(failures - 1)
    case Live(_) => failures == 0
    case Stopped => true
  }

  lemma {:induction false} SplitLast(sys: System, before: seq<Step>, last: Step)
    requires SystemOk(sys) && Feasible(sys, before + [last])
    ensures Feasible(sys, before) && Enabled(After(sys, before), last) && Safe(After(sys, before), last)
    ensures After(sys, before + [last]) == Next(After(sys, before), last)
    decreases |before|
  {
    if before == [] {
      NextOk(sys, last);
      assert ([] + [last])[1..] == [];
    } else {
      assert (before + [last])[1..] == before[1..] + [last];
      NextOk(sys, before[0]);
      SplitLast(Next(sys, before[0]), before[1..], last);
    }
  }

  lemma NextBackoff(sys: System, step: Step, failures: nat)
    requires Enabled(sys, step) && Safe(sys, step) && BackoffOk(sys.runner, failures)
    ensures var failures1 := if step.DialOk? then 0 else failures + (if step.DialFails? then 1 else 0);
            BackoffOk(Next(sys, step).runner, failures1)
    ensures Next(sys, step).slept == sys.slept + if step.DialFails? then [NthSleep(failures)] else []
  {
    if step.Wakes? { assert Doubled(NthSleep(failures - 1)) == NthSleep(failures); }
  }

  /** In every interleaving the runner waits after each failed dial, for the time that belongs to the
      failures since the last connection, and at no other time. */
  lemma {:induction false} WaitsFollow(steps: seq<Step>)
    requires Run(steps)
    ensures Reached(steps).slept == WaitsFor(steps) && BackoffOk(Reached(steps).runner, FailsInARow(steps))
    decreases |steps|
  {
    InitOk();
    if steps != [] {
      var before, last := steps[..|steps| - 1], steps[|steps| - 1];
      assert steps == before + [last];
      SplitLast(InitSystem(), before, last);
      WaitsFollow(before);
      NextBackoff(Reached(before), last, FailsInARow(before));
    }
  }
}
