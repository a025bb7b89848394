/** The handlers of the admin interface, which change the sessions and the account in place. */
module AdminServer {
  import opened Text
  import opened Durations
  import opened Admin

  class AuthServer {
    const lib: Library
    const disk: Disk
    const ttl: int
    var now: int
    var account: Account
    var sessions: Sessions

    /** Browsers stay signed in for twelve hours unless another time is configured. */
    constructor (lib: Library, disk: Disk, ttl: int, now: int)
      ensures this.disk == disk && this.lib == lib
      ensures View() == State(AccountIn(disk.file), map[], disk.file, disk.path, now,
                              if ttl > 0 then ttl else 12 * 3600_000_000_000)
    {
      this.lib, this.disk, this.now := lib, disk, now;
      this.ttl := if ttl <= 0 then 12 * HOUR else ttl;
      account, sessions := AccountIn(disk.file), map[];
    }

    ghost function View(): State
      reads this, disk
    {
      State(account, sessions, disk.file, disk.path, now, ttl)
    }

    method Reap()
      modifies this`sessions
      ensures forall t :: t in sessions <==> t in old(sessions) && now <= old(sessions)[t].expires
      ensures forall t | t in sessions :: sessions[t] == old(sessions)[t]
      ensures sessions == Alive(old(sessions), now)
    {
      var left := sessions.Keys;
      while left != {}
        invariant left <= old(sessions).Keys
        invariant sessions == map t | t in old(sessions) && (t in left || now <= old(sessions)[t].expires)
                                :: old(sessions)[t]
        decreases |left|
      {
        var token :| token in left;
        left := left - {token};
        if now > sessions[token].expires {
          sessions := sessions - {token};
        }
      }
    }

    method Issue(username: string, mustChange: bool, token: string)
      modifies this`sessions
      ensures sessions == Alive(old(sessions), now)[token := Session(username, now + ttl, mustChange)]
    {
      var expires := now + ttl;
      Reap();
      sessions := sessions[token := Session(username, expires, mustChange)];
    }

    method Lookup(token: string) returns (s: Option<Session>)
      requires token != ""
      modifies this`sessions
      ensures s == if token in old(sessions) && now <= old(sessions)[token].expires then Some(old(sessions)[token])
                   else None
      ensures sessions == if s.Some? then old(sessions) else old(sessions) - {token}
    {
      if token !in sessions || now > sessions[token].expires {
        sessions := sessions - {token};
        return None;
      }
      return Some(sessions[token]);
    }

    method Revoke(token: string)
      modifies this`sessions
      ensures !Authorized(View(), Some(token)) && SessionOf(sessions, now, Some(token)).None?
      ensures forall t | t != token ::
                (t in sessions <==> t in old(sessions)) && (t in sessions ==> sessions[t] == old(sessions)[t])
      ensures token !in sessions
    {
      sessions := sessions - {token};
    }

    method Rename(keep: string, username: string)
      modifies this`sessions
      ensures sessions == KeptOnly(old(sessions), keep, username)
    {
      ghost var was := sessions;
      var left := sessions.Keys;
      while left != {}
        invariant left <= was.Keys
        invariant forall t :: t in sessions <==> t in was && (t in left || t == keep)
        invariant forall t | t in sessions ::
                    sessions[t] == if t in left then was[t] else was[t].(username := username, mustChange := false)
        decreases |left|
      {
        var token :| token in left;
        left := left - {token};
        if token != keep {
          sessions := sessions - {token};
          continue;
        }
        sessions := sessions[token := sessions[token].(username := username, mustChange := false)];
      }
    }

    /** The session of a request's cookie. */
    method AuthSession(cookie: Option<string>) returns (s: Option<Session>)
      modifies this`sessions
      ensures s == SessionOf(old(sessions), now, cookie)
      ensures s.Some? <==> && cookie.Some? && cookie.value != "" && cookie.value in old(sessions)
                           && now <= old(sessions)[cookie.value].expires
      ensures s.Some? ==> s.value == old(sessions)[cookie.value]
      ensures Next(lib, old(View()), Look(cookie), View())
    {
      if cookie.None? || cookie.value == "" { return None; }
      s := Lookup(cookie.value);
    }

    method IsAuthorized(cookie: Option<string>) returns (ok: bool)
      modifies this`sessions
      ensures ok == Authorized(old(View()), cookie)
      ensures ok <==> && cookie.Some? && cookie.value != "" && cookie.value in old(sessions)
                      && now <= old(sessions)[cookie.value].expires && !old(sessions)[cookie.value].mustChange
      ensures Next(lib, old(View()), Look(cookie), View())
    {
      var s := AuthSession(cookie);
      return s.Some? && !s.value.mustChange;
    }

    method HandleLogin(username: string, password: Bytes, token: string) returns (ok: bool)
      requires token != "" && token !in sessions
      modifies this`sessions
      ensures ok == CheckPassword(lib, account, username, password).Some?
      ensures Next(lib, old(View()), Login(username, password, token), View())
    {
      var check := CheckPassword(lib, account, username, password);
      if check.None? { return false; }
      Issue(account.Name(), check.value, token);
      return true;
    }

    method HandleLogout(cookie: Option<string>)
      modifies this`sessions
      ensures Next(lib, old(View()), Logout(cookie), View())
    {
      if cookie.Some? {
        Revoke(cookie.value);
        assert sessions == old(sessions) - {cookie.value};
      }
    }

    method HandleAccount(cookie: Option<string>, req: Change, luck: Luck) returns (r: Outcome)
      requires GoodHash(lib, luck, req.newPassword)
      modifies this, disk
      ensures r.Done? <==> Accepted(lib, old(View()), cookie, req, luck).Some?
      ensures r.Panicked? ==> old(disk.file).Null? && View().account == old(View()).account
      ensures Next(lib, old(View()), ChangeAccount(cookie, req, luck), View())
    {
      var sess := AuthSession(cookie);
      if sess.None? { return Refused("not signed in"); }
      var reviewed := Reviewed(lib, account, sess.value, req);
      if reviewed.Err? { return Refused(reviewed.error); }
      var username, hash := reviewed.value, "";
      if req.newPassword != "" {
        if luck.hash.Err? { return Refused("could not hash the password"); }
        hash := luck.hash.value;
      }
      r := disk.SaveAdmin(username, hash, luck.diskOk);
      if !r.Done? { return; }
      account := Override(account, username, hash);
      Rename(cookie.value, account.Name());
    }
  }
}
