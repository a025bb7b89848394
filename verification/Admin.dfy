/** The administrator's account, the browsers signed in to it, and the copy in the config file. */
module Admin {
  import opened Text

  const DEFAULT_USERNAME := "admin"
  const INITIAL_PASSWORD: Bytes := "admin"
  const MIN_PASSWORD := 8

  /** Library functions the code relies on: folding of case and blanks, and password hashes. */
  datatype Library = Library(normal: string -> string, verify: (string, Bytes) -> bool)

  predicate NameChar(c: char) {
    'a' <= c <= 'z' || '0' <= c <= '9' || c == '.' || c == '-' || c == '_'
  }

  predicate ValidUsername(name: string) {
    3 <= |name| <= 32 && forall i | 0 <= i < |name| :: NameChar(name[i])
  }

  /** Folding leaves the names that are valid as they are. */
  ghost predicate Sane(lib: Library) {
    forall name | ValidUsername(name) :: lib.normal(name) == name
  }

  datatype Account = Account(username: string, hash: string) {
    function Name(): string { if username != "" then username else DEFAULT_USERNAME }
  }

  datatype Session = Session(username: string, expires: int, mustChange: bool)

  // --- The config file ---------------------------------------------------------------

  datatype Json = String(s: string) | Object(fields: map<string, Json>) | Other(literal: string)

  /** What reading the file gives. A file that holds just "null" is an object without fields to
      the decoder, but one that nothing can be stored in. */
  datatype ConfigFile = Missing | Unreadable | Malformed | Null | Document(doc: map<string, Json>)

  function Section(doc: map<string, Json>, key: string): map<string, Json> {
    if key in doc && doc[key].Object? then doc[key].fields else map[]
  }

  function StringAt(doc: map<string, Json>, key: string): string {
    if key in doc && doc[key].String? then doc[key].s else ""
  }

  /** The account a server started with this file has. */
  function AccountIn(file: ConfigFile): Account {
    if !file.Document? then Account("", "")
    else
      var admin := Section(Section(file.doc, "server"), "admin");
      Account(StringAt(admin, "username"), StringAt(admin, "password_hash"))
  }

  function Override(account: Account, username: string, hash: string): Account {
    Account(if username != "" then username else account.username, if hash != "" then hash else account.hash)
  }

  /** Both documents seen through their sections: the two fields of the account may differ, nothing
      else, and afterwards the two sections are there. */
  ghost predicate OnlyAccountChanged(before: map<string, Json>, after: map<string, Json>) {
    var server, server1 := Section(before, "server"), Section(after, "server");
    var admin, admin1 := Section(server, "admin"), Section(server1, "admin");
    && "server" in after && after["server"].Object? && "admin" in server1 && server1["admin"].Object?
    && (forall k | k != "server" :: (k in after <==> k in before) && (k in before ==> after[k] == before[k]))
    && (forall k | k != "admin" :: (k in server1 <==> k in server) && (k in server ==> server1[k] == server[k]))
    && (forall k | k != "username" && k != "password_hash" ::
          (k in admin1 <==> k in admin) && (k in admin ==> admin1[k] == admin[k]))
  }

  /** The value at a path of keys. */
  function ValueAt(doc: map<string, Json>, p: seq<string>): Option<Json>
    requires p != []
    decreases |p|
  {
    if p[0] !in doc then None
    else if |p| == 1 then Some(doc[p[0]])
    else if doc[p[0]].Object? then ValueAt(doc[p[0]].fields, p[1..]) else None
  }

  predicate InAccount(p: seq<string>) {
    |p| >= 3 && p[0] == "server" && p[1] == "admin" && (p[2] == "username" || p[2] == "password_hash")
  }

  predicate OnTheWay(p: seq<string>) {
    (|p| == 1 && p[0] == "server") || (|p| == 2 && p[0] == "server" && p[1] == "admin")
  }

  /** Every value outside the two fields survives; the two sections that hold them may of course
      change inside, but a value that is not a section must not be lost. */
  ghost predicate AllElseSurvives(before: map<string, Json>, after: map<string, Json>) {
    forall p: seq<string> | p != [] && !InAccount(p) ::
      var was := ValueAt(before, p);
      ValueAt(after, p) == was || (OnTheWay(p) && (was.Some? ==> was.value.Object?))
  }

  predicate AbsentOrObject(doc: map<string, Json>, key: string) { key in doc ==> doc[key].Object? }

  /** There is nothing else where the two sections have to be. */
  predicate SectionsFree(doc: map<string, Json>) {
    AbsentOrObject(doc, "server") && AbsentOrObject(Section(doc, "server"), "admin")
  }

  lemma ValueInSection(doc: map<string, Json>, p: seq<string>)
    requires |p| >= 2
    ensures ValueAt(doc, p) == ValueAt(Section(doc, p[0]), p[1..])
  {
  }

  lemma SurvivesElsewhere(before: map<string, Json>, after: map<string, Json>, p: seq<string>)
    requires OnlyAccountChanged(before, after) && p != [] && !InAccount(p) && !OnTheWay(p)
    ensures ValueAt(after, p) == ValueAt(before, p)
  {
    if p[0] == "server" {
      ValueInSection(before, p);
      ValueInSection(after, p);
      var q := p[1..];
      if q[0] == "admin" {
        ValueInSection(Section(before, "server"), q);
        ValueInSection(Section(after, "server"), q);
        assert q[1..][0] == p[2];
      }
    }
  }

  /** Saving an account change loses nothing else if and only if there is nothing else in the place
      of the two sections. */
  lemma SurvivesIff(before: map<string, Json>, after: map<string, Json>)
    requires OnlyAccountChanged(before, after)
    ensures AllElseSurvives(before, after) <==> SectionsFree(before)
  {
    var p, q := ["server"], ["server", "admin"];
    assert q[1..] == ["admin"];
    ValueInSection(before, q);
    ValueInSection(after, q);
    if SectionsFree(before) {
      forall r: seq<string> | r != [] && !InAccount(r) && !OnTheWay(r) ensures ValueAt(after, r) == ValueAt(before, r) {
        SurvivesElsewhere(before, after, r);
      }
      assert forall r: seq<string> | r != [] && OnTheWay(r) :: r == p || r == q;
    } else if !AbsentOrObject(before, "server") {
      assert OnTheWay(p) && !InAccount(p) && ValueAt(after, p) != ValueAt(before, p);
    } else {
      assert OnTheWay(q) && !InAccount(q) && ValueAt(after, q) != ValueAt(before, q);
    }
  }

  /** What came of a request to change something. */
  datatype Outcome = Done | Refused(reason: string) | Panicked

  /** Whether the file can take a change: there is a path, the file can be read as a document, and the
      disk works. */
  predicate Writable(file: ConfigFile, path: string, diskOk: bool) {
    path != "" && diskOk && (file.Missing? || file.Document?)
  }

  class Disk {
    const path: string
    var file: ConfigFile

    constructor (path: string, file: ConfigFile)
      ensures this.path == path && this.file == file
    {
      this.path, this.file := path, file;
    }

    /** Edit the two fields in place in the document that was read, then replace the file. */
    method SaveAdmin(username: string, hash: string, diskOk: bool) returns (r: Outcome)
      modifies this
      ensures r.Done? <==> (username != "" || hash != "") && Writable(old(file), path, diskOk)
      ensures r.Panicked? <==> (username != "" || hash != "") && path != "" && old(file).Null?
      ensures !r.Done? ==> file == old(file)
      ensures r.Done? ==>
                var before := if old(file).Document? then old(file).doc else map[];
                && file.Document?
                && AccountIn(file) == Override(AccountIn(old(file)), username, hash)
                && OnlyAccountChanged(before, file.doc)
                && (AllElseSurvives(before, file.doc) <==> SectionsFree(before))
    {
      if username == "" && hash == "" { return Refused("nothing to save"); }
      if path == "" { return Refused("no config file path"); }
      var doc: map<string, Json> := map[];
      match file {
        case Document(d) => doc := d;
        case Missing =>
        case Malformed => return Refused("parse error");
        case Unreadable => return Refused("read error");
        case Null => return Panicked;
      }
      var edited := Edit(doc, username, hash);
      if !diskOk { return Refused("write error"); }
      file := Document(edited);
      return Done;
    }
  }

  method Edit(doc: map<string, Json>, username: string, hash: string) returns (r: map<string, Json>)
    ensures AccountIn(Document(r)) == Override(AccountIn(Document(doc)), username, hash)
    ensures OnlyAccountChanged(doc, r) && (AllElseSurvives(doc, r) <==> SectionsFree(doc))
  {
    var server := Section(doc, "server");
    var admin := Section(server, "admin");
    if username != "" {
      admin := admin["username" := String(username)];
    }
    if hash != "" {
      admin := admin["password_hash" := String(hash)];
    }
    server := server["admin" := Object(admin)];
    r := doc["server" := Object(server)];
    SurvivesIff(doc, r);
  }

  /** A document that a successful save damages: its "server" is not a section, and is gone afterwards. */
  lemma SaveCanLose(username: string)
    requires username != ""
    ensures var before: map<string, Json> := map["server" := String("eu-1")];
            var admin: map<string, Json> := map["username" := String(username)];
            var after: map<string, Json> := map["server" := Object(map["admin" := Object(admin)])];
            && AccountIn(Document(after)) == Override(AccountIn(Document(before)), username, "")
            && OnlyAccountChanged(before, after) && !AllElseSurvives(before, after)
  {
    var before: map<string, Json> := map["server" := String("eu-1")];
    var admin: map<string, Json> := map["username" := String(username)];
    var after: map<string, Json> := map["server" := Object(map["admin" := Object(admin)])];
    SurvivesIff(before, after);
  }

  // --- Signing in --------------------------------------------------------------------

  /** Whether the default password is what let them in, or nothing if they are not let in. */
  function CheckPassword(lib: Library, account: Account, username: string, password: Bytes): Option<bool> {
    if lib.normal(username) != lib.normal(account.Name()) then None
    else if account.hash == "" then if password == INITIAL_PASSWORD then Some(true) else None
    else if lib.verify(account.hash, password) then Some(false) else None
  }

  type Sessions = map<string, Session>

  function Alive(sessions: Sessions, now: int): Sessions {
    map t | t in sessions && now <= sessions[t].expires :: sessions[t]
  }

  /** What a cookie stands for, if anything. */
  function SessionOf(sessions: Sessions, now: int, cookie: Option<string>): Option<Session> {
    if cookie.Some? && cookie.value != "" && cookie.value in Alive(sessions, now)
    then Some(sessions[cookie.value]) else None
  }

  /** A lookup forgets the session if it has expired. */
  function LookedUp(sessions: Sessions, now: int, cookie: Option<string>): Sessions {
    if cookie.Some? && cookie.value != "" && SessionOf(sessions, now, cookie).None?
    then sessions - {cookie.value} else sessions
  }

  /** Only the session that made the change is kept, under the new name and without restriction. */
  function KeptOnly(sessions: Sessions, keep: string, username: string): Sessions {
    map t | t in sessions && t == keep :: sessions[t].(username := username, mustChange := false)
  }

  // --- Changing the account ----------------------------------------------------------

  datatype Change = Change(currentPassword: Bytes, newUsername: string, newPassword: Bytes)

  /** The rules for a change, in the order in which they are checked; the result is the new name,
      empty if it stays. */
  function Reviewed(lib: Library, account: Account, sess: Session, req: Change): Result<string> {
    var username := lib.normal(req.newUsername);
    if CheckPassword(lib, account, sess.username, req.currentPassword).None? then Err("the current password is wrong")
    else if username != "" && !ValidUsername(username) then Err("invalid username")
    else if account.hash == "" && req.newPassword == "" then Err("choose a password")
    else if (username == "" || username == lib.normal(account.Name())) && req.newPassword == "" then
      Err("nothing to change")
    else if req.newPassword != "" && |req.newPassword| < MIN_PASSWORD then Err("the new password is too short")
    else if req.newPassword == INITIAL_PASSWORD then Err("choose something other than the default password")
    else Ok(username)
  }

  /** The state of the server, with its config file. */
  datatype State = State(account: Account, sessions: Sessions, file: ConfigFile, path: string, now: int, ttl: int)

  /** What the outside contributes to a change: a hash for the new password, and a disk that works. */
  datatype Luck = Luck(hash: Result<string>, diskOk: bool)

  ghost predicate GoodHash(lib: Library, luck: Luck, password: Bytes) {
    luck.hash.Ok? ==> luck.hash.value != "" && lib.verify(luck.hash.value, password)
  }

  /** The name and the hash to be stored, or nothing if the change does not happen. */
  function Accepted(lib: Library, st: State, cookie: Option<string>, req: Change, luck: Luck): Option<Account> {
    var sess := SessionOf(st.sessions, st.now, cookie);
    if sess.None? then None
    else
      var reviewed := Reviewed(lib, st.account, sess.value, req);
      if reviewed.Err? || (req.newPassword != "" && luck.hash.Err?) then None
      else
        var hash := if req.newPassword != "" then luck.hash.value else "";
        if Writable(st.file, st.path, luck.diskOk) && (reviewed.value != "" || hash != "")
        then Some(Account(reviewed.value, hash)) else None
  }

  // --- Steps -------------------------------------------------------------------------

  datatype Step =
    | Login(username: string, password: Bytes, token: string)
    | Look(cookie: Option<string>)
    | Logout(cookie: Option<string>)
    | ChangeAccount(cookie: Option<string>, req: Change, luck: Luck)
    | Wait(dt: nat)
    | Restart

  ghost predicate Enabled(lib: Library, st: State, step: Step) {
    match step
    case Login(_, _, token) => token != "" && token !in st.sessions
    case ChangeAccount(_, req, luck) => GoodHash(lib, luck, req.newPassword)
    case _ => true
  }

  /** The files that `after` may hold once this account change has been written to `before`. */
  ghost predicate Stored(before: ConfigFile, after: ConfigFile, change: Account) {
    && after.Document?
    && AccountIn(after) == Override(AccountIn(before), change.username, change.hash)
    && OnlyAccountChanged(if before.Document? then before.doc else map[], after.doc)
  }

  /** One request, the passing of time, or a restart. */
  ghost predicate Next(lib: Library, st: State, step: Step, st1: State) {
    match step
    case Login(username, password, token) =>
      var check := CheckPassword(lib, st.account, username, password);
      st1 == if check.None? then st
             else
               var sess := Session(st.account.Name(), st.now + st.ttl, check.value);
               st.(sessions := Alive(st.sessions, st.now)[token := sess])
    case Look(cookie) => st1 == st.(sessions := LookedUp(st.sessions, st.now, cookie))
    case Logout(cookie) => st1 == if cookie.None? then st else st.(sessions := st.sessions - {cookie.value})
    case ChangeAccount(cookie, req, luck) =>
      var looked := LookedUp(st.sessions, st.now, cookie);
      var change := Accepted(lib, st, cookie, req, luck);
      if change.None? then st1 == st.(sessions := looked)
      else
        var account := Override(st.account, change.value.username, change.value.hash);
        && st1 == st.(account := account, sessions := KeptOnly(looked, cookie.value, account.Name()), file := st1.file)
        && Stored(st.file, st1.file, change.value)
    case Wait(dt) => st1 == st.(now := st.now + dt)
    case Restart => st1 == st.(account := AccountIn(st.file), sessions := map[])
  }

  // --- What holds in every run -------------------------------------------------------

  /** Unrestricted sessions exist only once a password was chosen, every session is for the
      account's name, and the file holds the account. */
  ghost predicate Secure(st: State) {
    && (forall t | t in st.sessions :: !st.sessions[t].mustChange ==> st.account.hash != "")
    && (forall t | t in st.sessions :: st.sessions[t].username == st.account.Name())
    && AccountIn(st.file) == st.account
  }

  lemma AcceptedMeans(lib: Library, st: State, cookie: Option<string>, req: Change, luck: Luck)
    requires GoodHash(lib, luck, req.newPassword) && Accepted(lib, st, cookie, req, luck).Some?
    ensures var change := Accepted(lib, st, cookie, req, luck).value;
            && cookie.Some? && cookie.value in LookedUp(st.sessions, st.now, cookie)
            && (change.username != "" ==> ValidUsername(change.username))
            && (st.account.hash == "" ==> change.hash != "")
            && (change.hash != "" <==> req.newPassword != "")
            && (change.hash != "" ==> lib.verify(change.hash, req.newPassword))
  {
  }

  /** No step undoes any of this, and none takes a password away. */
  lemma NextSecure(lib: Library, st: State, step: Step, st1: State)
    requires Secure(st) && Enabled(lib, st, step) && Next(lib, st, step, st1)
    ensures Secure(st1) && (st.account.hash != "" ==> st1.account.hash != "")
  {
    if step.ChangeAccount? && Accepted(lib, st, step.cookie, step.req, step.luck).Some? {
      AcceptedMeans(lib, st, step.cookie, step.req, step.luck);
    }
  }

  /** States and the steps between them. */
  ghost predicate Run(lib: Library, states: seq<State>, steps: seq<Step>) {
    && |states| == |steps| + 1
    && forall i | 0 <= i < |steps| :: Enabled(lib, states[i], steps[i]) && Next(lib, states[i], steps[i], states[i + 1])
  }

  lemma {:induction false} RunSecure(lib: Library, states: seq<State>, steps: seq<Step>, i: nat, j: nat)
    requires Run(lib, states, steps) && Secure(states[0]) && i <= j < |states|
    ensures Secure(states[i]) && Secure(states[j])
    ensures states[i].account.hash != "" ==> states[j].account.hash != ""
    decreases j
  {
    if i < j {
      RunSecure(lib, states, steps, i, j - 1);
      NextSecure(lib, states[j - 1], steps[j - 1], states[j]);
    } else if j > 0 {
      RunSecure(lib, states, steps, j - 1, j - 1);
      NextSecure(lib, states[j - 1], steps[j - 1], states[j]);
    }
  }

  /** `authorized`: signed in, and not restricted to choosing a password. */
  predicate Authorized(st: State, cookie: Option<string>) {
    var sess := SessionOf(st.sessions, st.now, cookie);
    sess.Some? && !sess.value.mustChange
  }

  /** From a start in which the file holds the account and nobody is signed in: whoever is
      authorized is so on an account with a password; a password once set stays set; sessions are
      for the current name; and a restart at any time gives the same account. */
  lemma AccountSafety(lib: Library, states: seq<State>, steps: seq<Step>, i: nat, j: nat, cookie: Option<string>)
    requires Run(lib, states, steps) && i <= j < |states|
    requires states[0].sessions == map[] && AccountIn(states[0].file) == states[0].account
    ensures Authorized(states[j], cookie) ==> states[j].account.hash != "" && cookie.value in states[j].sessions
    ensures states[i].account.hash != "" ==> states[j].account.hash != ""
    ensures forall t | t in states[j].sessions :: states[j].sessions[t].username == states[j].account.Name()
    ensures AccountIn(states[j].file) == states[j].account
  {
    RunSecure(lib, states, steps, i, j);
  }

  lemma ValidNameIff(name: string)
    ensures ValidUsername(name)
            <==> 3 <= |name| <= 32 && forall c | c in name ::
                   'a' <= c <= 'z' || '0' <= c <= '9' || c == '.' || c == '-' || c == '_'
  {
    if ValidUsername(name) {
      forall c | c in name ensures NameChar(c) {
        var i :| 0 <= i < |name| && name[i] == c;
      }
    } else if 3 <= |name| <= 32 {
      var i :| 0 <= i < |name| && !NameChar(name[i]);
      assert name[i] in name;
    }
  }

  /** A change passes exactly if the caller knows the current password, the new name is valid, the
      new password is long enough (the test against the default password never decides), and
      something changes, which has to include the password if there is none yet. */
  lemma ReviewExact(lib: Library, account: Account, sess: Session, req: Change)
    ensures var name, was := lib.normal(req.newUsername), if account.username == "" then "admin" else account.username;
            Reviewed(lib, account, sess, req).Ok?
            <==> && lib.normal(sess.username) == lib.normal(was)
                 && (if account.hash == "" then req.currentPassword == "admin"
                     else lib.verify(account.hash, req.currentPassword))
                 && (name == "" || (3 <= |name| <= 32 && forall c | c in name ::
                                      'a' <= c <= 'z' || '0' <= c <= '9' || c == '.' || c == '-' || c == '_'))
                 && (if req.newPassword != "" then |req.newPassword| >= 8
                     else account.hash != "" && name != "" && name != lib.normal(was))
    ensures Reviewed(lib, account, sess, req).Ok? ==>
              Reviewed(lib, account, sess, req).value == lib.normal(req.newUsername)
  {
    assert |INITIAL_PASSWORD| < MIN_PASSWORD;
    ValidNameIff(lib.normal(req.newUsername));
  }

  /** A change is accepted exactly if it comes from a session that has not expired, passes the review, can
      be hashed if it has to, and can be written. */
  lemma AcceptedExactly(lib: Library, st: State, cookie: Option<string>, req: Change, luck: Luck)
    requires GoodHash(lib, luck, req.newPassword)
    ensures Accepted(lib, st, cookie, req, luck).Some?
            <==> && cookie.Some? && cookie.value != "" && cookie.value in st.sessions
                 && st.now <= st.sessions[cookie.value].expires
                 && Reviewed(lib, st.account, st.sessions[cookie.value], req).Ok?
                 && (req.newPassword != "" ==> luck.hash.Ok?)
                 && st.path != "" && luck.diskOk && (st.file.Missing? || st.file.Document?)
    ensures Accepted(lib, st, cookie, req, luck).Some? ==>
              Accepted(lib, st, cookie, req, luck).value
              == Account(lib.normal(req.newUsername), if req.newPassword != "" then luck.hash.value else "")
  {
    if cookie.Some? && cookie.value in st.sessions {
      ReviewExact(lib, st.account, st.sessions[cookie.value], req);
    }
  }

  /** A change that is accepted leaves one session, the one that made it, unrestricted; the new
      credentials work; and if the account was renamed the old name does not. */
  lemma ChangeTakesEffect(lib: Library, st: State, cookie: Option<string>, req: Change, luck: Luck, st1: State,
                          password: Bytes)
    requires Sane(lib) && GoodHash(lib, luck, req.newPassword)
    requires Next(lib, st, ChangeAccount(cookie, req, luck), st1) && Accepted(lib, st, cookie, req, luck).Some?
    ensures st1.sessions.Keys == {cookie.value} && Authorized(st1, cookie)
    ensures req.newPassword != "" ==>
              CheckPassword(lib, st1.account, st1.account.Name(), req.newPassword) == Some(false)
    ensures var name := lib.normal(req.newUsername);
            name != "" ==> st1.account.Name() == name && (name != lib.normal(st.account.Name()) ==>
              CheckPassword(lib, st1.account, st.account.Name(), password) == None)
  {
    AcceptedMeans(lib, st, cookie, req, luck);
  }

  /** Nobody gets in without the configured name, and with it only by the stored password or, as
      long as none is stored, by the default one, which restricts the session. */
  lemma LoginExact(lib: Library, st: State, username: string, password: Bytes, token: string, st1: State)
    requires Next(lib, st, Login(username, password, token), st1) && token !in st.sessions
    requires token != "" && st.ttl >= 0
    ensures var name := if st.account.username == "" then "admin" else st.account.username;
            SessionOf(st1.sessions, st1.now, Some(token)).Some?
            <==> && lib.normal(username) == lib.normal(name)
                 && (if st.account.hash == "" then password == "admin" else lib.verify(st.account.hash, password))
    ensures Authorized(st1, Some(token))
            <==> SessionOf(st1.sessions, st1.now, Some(token)).Some? && st.account.hash != ""
  {
  }
}
