/** How long somebody who signed in stays signed in. */
module AdminSessions {
  import opened Text
  import opened Admin

  // --- One step ----------------------------------------------------------------------

  /** Somebody signs in with the configured name and the stored password, or the default one as long as
      none is stored, and gets this token. */
  ghost predicate SignsIn(lib: Library, st: State, step: Step, t: string) {
    && step.Login? && step.token == t && lib.normal(step.username) == lib.normal(st.account.Name())
    && if st.account.hash == "" then step.password == "admin" else lib.verify(st.account.hash, step.password)
  }

  /** A change of the account goes through. */
  ghost predicate Changes(lib: Library, st: State, step: Step) {
    step.ChangeAccount? && Accepted(lib, st, step.cookie, step.req, step.luck).Some?
  }

  /** What ends a session before its time. */
  ghost predicate Ends(lib: Library, st: State, step: Step, t: string) {
    step.Restart? || step == Logout(Some(t)) || (Changes(lib, st, step) && step.cookie != Some(t))
  }

  function Passes(step: Step): nat {
    if step.Wait? then step.dt else 0
  }

  /** Signing in opens a session that lasts for the configured time, and afterwards no session is left
      that has expired, while all others are as they were. */
  lemma SigningIn(lib: Library, st: State, step: Step, st1: State, t: string)
    requires Enabled(lib, st, step) && Next(lib, st, step, st1) && SignsIn(lib, st, step, t)
    ensures t in st1.sessions && st1.sessions[t] == Session(st.account.Name(), st.now + st.ttl, st.account.hash == "")
    ensures forall u | u != t :: u in st1.sessions <==> u in st.sessions && st.now <= st.sessions[u].expires
    ensures forall u | u != t && u in st1.sessions :: st1.sessions[u] == st.sessions[u]
    ensures st1.now == st.now && st1.ttl == st.ttl
  {
  }

  lemma NextSession(lib: Library, st: State, step: Step, st1: State, t: string)
    requires Enabled(lib, st, step) && Next(lib, st, step, st1) && !SignsIn(lib, st, step, t)
    ensures t in st1.sessions ==>
              && t in st.sessions && st1.sessions[t].expires == st.sessions[t].expires
              && st1.sessions[t].mustChange
                 == (st.sessions[t].mustChange && !(Changes(lib, st, step) && step.cookie == Some(t)))
    ensures Ends(lib, st, step, t) ==> t !in st1.sessions
    ensures !Ends(lib, st, step, t) && t in st.sessions && st.now <= st.sessions[t].expires ==> t in st1.sessions
    ensures st1.now == st.now + Passes(step) && st1.ttl == st.ttl
  {
    if step.Login? && step.token == t { assert st1 == st; }
  }

  // --- Runs --------------------------------------------------------------------------

  function Elapsed(steps: seq<Step>): nat {
    if steps == [] then 0 else Elapsed(steps[..|steps| - 1]) + Passes(steps[|steps| - 1])
  }

  lemma ElapsedStep(steps: seq<Step>, i: nat, j: nat)
    requires i <= j < |steps|
    ensures Elapsed(steps[i..j + 1]) == Elapsed(steps[i..j]) + Passes(steps[j])
  {
    var part := steps[i..j + 1];
    assert part[..|part| - 1] == steps[i..j] && part[|part| - 1] == steps[j];
  }

  /** Step i is the latest one before state j in which somebody signed in with this token. */
  ghost predicate SignedInAt(lib: Library, states: seq<State>, steps: seq<Step>, i: nat, j: nat, t: string)
    requires Run(lib, states, steps)
  {
    && i < j <= |steps| && SignsIn(lib, states[i], steps[i], t)
    && forall k | i < k < j :: !SignsIn(lib, states[k], steps[k], t)
  }

  ghost predicate EndedBetween(lib: Library, states: seq<State>, steps: seq<Step>, i: nat, j: nat, t: string)
    requires Run(lib, states, steps) && j <= |steps|
  {
    exists k :: i < k < j && Ends(lib, states[k], steps[k], t)
  }

  /** The holder of this session changed the account. */
  ghost predicate ChangedBetween(lib: Library, states: seq<State>, steps: seq<Step>, i: nat, j: nat, t: string)
    requires Run(lib, states, steps) && j <= |steps|
  {
    exists k :: i < k < j && Changes(lib, states[k], steps[k]) && steps[k].cookie == Some(t)
  }

  lemma OneStepOn(lib: Library, states: seq<State>, steps: seq<Step>, i: nat, j: nat, t: string)
    requires Run(lib, states, steps) && i < j < |steps|
    ensures EndedBetween(lib, states, steps, i, j + 1, t)
            <==> EndedBetween(lib, states, steps, i, j, t) || Ends(lib, states[j], steps[j], t)
    ensures ChangedBetween(lib, states, steps, i, j + 1, t)
            <==> ChangedBetween(lib, states, steps, i, j, t)
                 || (Changes(lib, states[j], steps[j]) && steps[j].cookie == Some(t))
  {
  }

  /** What is known of a session that was opened in one state, some time later. */
  ghost predicate Held(start: State, st: State, elapsed: nat, ended: bool, changed: bool, t: string) {
    && st.now == start.now + elapsed && st.ttl == start.ttl
    && (t in st.sessions ==>
          && st.sessions[t].expires == start.now + start.ttl
          && st.sessions[t].mustChange == (start.account.hash == "" && !changed))
    && (ended ==> t !in st.sessions)
    && (!ended && elapsed <= start.ttl ==> t in st.sessions)
  }

  lemma HeldAtFirst(lib: Library, st: State, step: Step, st1: State, t: string)
    requires Enabled(lib, st, step) && Next(lib, st, step, st1) && SignsIn(lib, st, step, t)
    ensures Held(st, st1, 0, false, false, t)
  {
    SigningIn(lib, st, step, st1, t);
  }

  lemma HeldOn(lib: Library, start: State, st: State, step: Step, st1: State, elapsed: nat, ended: bool, changed: bool,
               t: string)
    requires Enabled(lib, st, step) && Next(lib, st, step, st1) && !SignsIn(lib, st, step, t)
    requires Held(start, st, elapsed, ended, changed, t)
    ensures Held(start, st1, elapsed + Passes(step), ended || Ends(lib, st, step, t),
                 changed || (Changes(lib, st, step) && step.cookie == Some(t)), t)
  {
    NextSession(lib, st, step, st1, t);
  }

  lemma {:induction false} SessionSoFar(lib: Library, states: seq<State>, steps: seq<Step>, i: nat, j: nat, t: string)
    requires Run(lib, states, steps) && SignedInAt(lib, states, steps, i, j, t)
    ensures Held(states[i], states[j], Elapsed(steps[i + 1..j]), EndedBetween(lib, states, steps, i, j, t),
                 ChangedBetween(lib, states, steps, i, j, t), t)
    decreases j
  {
    if j == i + 1 {
      HeldAtFirst(lib, states[i], steps[i], states[j], t);
      assert steps[i + 1..j] == [];
    } else {
      var m := j - 1;
      var elapsed, ended := Elapsed(steps[i + 1..m]), EndedBetween(lib, states, steps, i, m, t);
      var changed := ChangedBetween(lib, states, steps, i, m, t);
      SessionSoFar(lib, states, steps, i, m, t);
      HeldOn(lib, states[i], states[m], steps[m], states[j], elapsed, ended, changed, t);
      assert Elapsed(steps[i + 1..j]) == elapsed + Passes(steps[m]) by { ElapsedStep(steps, i + 1, m); }
      OneStepOn(lib, states, steps, i, m, t);
    }
  }

  /** A session can be used for exactly the configured time after its login, by the waits in between,
      unless it was signed out, the account was changed from another session, or the server restarted.
      It authorizes to more than choosing a password exactly if there was one at the login or one was
      chosen from this session. */
  lemma SessionLasts(lib: Library, states: seq<State>, steps: seq<Step>, i: nat, j: nat, t: string)
    requires Run(lib, states, steps) && SignedInAt(lib, states, steps, i, j, t)
    ensures SessionOf(states[j].sessions, states[j].now, Some(t)).Some?
            <==> Elapsed(steps[i + 1..j]) <= states[i].ttl && !EndedBetween(lib, states, steps, i, j, t)
    ensures Authorized(states[j], Some(t))
            <==> && Elapsed(steps[i + 1..j]) <= states[i].ttl && !EndedBetween(lib, states, steps, i, j, t)
                 && (states[i].account.hash != "" || ChangedBetween(lib, states, steps, i, j, t))
  {
    SessionSoFar(lib, states, steps, i, j, t);
    assert Enabled(lib, states[i], steps[i]);
  }

  lemma {:induction false} SomebodySignedIn(lib: Library, states: seq<State>, steps: seq<Step>, j: nat, t: string)
    returns (i: nat)
    requires Run(lib, states, steps) && states[0].sessions == map[] && j <= |steps| && t in states[j].sessions
    ensures SignedInAt(lib, states, steps, i, j, t)
    decreases j
  {
    var m := j - 1;
    if SignsIn(lib, states[m], steps[m], t) {
      i := m;
    } else {
      NextSession(lib, states[m], steps[m], states[j], t);
      i := SomebodySignedIn(lib, states, steps, m, t);
    }
  }

  /** Whoever is signed in did sign in with that token, at most the configured time ago, and nothing has
      ended the session since. */
  lemma SignedInBefore(lib: Library, states: seq<State>, steps: seq<Step>, j: nat, t: string) returns (i: nat)
    requires Run(lib, states, steps) && states[0].sessions == map[] && j <= |steps|
    requires SessionOf(states[j].sessions, states[j].now, Some(t)).Some?
    ensures SignedInAt(lib, states, steps, i, j, t)
    ensures Elapsed(steps[i + 1..j]) <= states[i].ttl && !EndedBetween(lib, states, steps, i, j, t)
  {
    i := SomebodySignedIn(lib, states, steps, j, t);
    SessionLasts(lib, states, steps, i, j, t);
  }
}
