/** The account use cases: register, issue a token, verify, block, log in; as steps over the stored users and tokens. */
module UserAccounts {
  import opened Options
  import opened BoolFlags

  type ID = string
  type UUID = int

  datatype User = User(id: ID, login: string, passwordHash: string,
                       verified: BoolFlag, blocked: BoolFlag, superuser: BoolFlag, sessions: seq<string>)

  datatype Token = Token(id: UUID, userID: ID, validUntil: int)

  /** What happened so far, for the properties over whole runs. */
  datatype Record =
    | Issued(token: Token)
    | Presented(userID: ID, tokenID: UUID, now: int)
    | Authenticated(userID: ID)

  /** A setting is None if it cannot be loaded. */
  datatype State = State(users: map<ID, User>, tokens: map<UUID, Token>,
                         allowRegistration: Option<bool>, allowLogin: Option<bool>, history: seq<Record>)

  const WEEK := 604_800_000_000_000

  /** The clock, new ids, checks on texts and the outcome of the calls to other systems are part of the event. */
  datatype Event =
    | Register(id: ID, login: string, hash: string, looked: bool, acceptable: bool, session: string,
               saved: bool, resolved: bool, queued: bool)
    | NewUser(id: ID, login: string, hash: string, looked: bool, acceptable: bool, superuser: bool, now: int,
              saved: bool)
    | IssueToken(userID: ID, token: UUID, now: int, saved: bool)
    | Verify(userID: ID, token: UUID, now: int, later: int, saved: bool)
    | SetBlocked(userID: ID, blocked: bool, now: int, saved: bool)
    | Login(login: string, matches: bool, session: string, saved: bool, newDevice: bool, resolved: bool, queued: bool)
    | AllowRegistration(value: Option<bool>)
    | AllowLogin(value: Option<bool>)

  datatype Failure = Disabled | LookupFailed | AlreadyExists | InvalidDetails | NotFound | NotSaved | VerificationFailed
                   | NotAuthenticated | AfterSave

  datatype Response = Ok | Failed(why: Failure)

  predicate LoginTaken(users: map<ID, User>, login: string) { exists id :: id in users && users[id].login == login }

  /** A new user is neither verified, nor blocked, nor a superuser. */
  function Fresh(id: ID, login: string, hash: string): User { User(id, login, hash, ZERO, ZERO, ZERO, []) }

  /**
   RegisterNewUser; `looked` says that looking up the login works, `acceptable` stands for an email address that parses
   and a strong password.
   */
  function Registration(s: State, id: ID, login: string, hash: string, looked: bool, acceptable: bool)
    : (Option<User>, Response)
  {
    if s.allowRegistration != Some(true) then (None, Failed(Disabled))
    else if !looked then (None, Failed(LookupFailed))
    else if LoginTaken(s.users, login) then (None, Failed(AlreadyExists))
    else if login == "" || !acceptable then (None, Failed(InvalidDetails))
    else (Some(Fresh(id, login, hash)), Ok)
  }

  /** Save of the repository: not without an id. */
  function Save(s: State, u: User, saved: bool): (State, bool) {
    if u.id == "" || !saved then (s, false) else (s.(users := s.users[u.id := u]), true)
  }

  function Authenticate(s: State, u: User, matches: bool): bool {
    s.allowLogin == Some(true) && IsTrue(u.verified) && !IsTrue(u.blocked) && matches
  }

  function Block(u: User, now: int): User { if IsTrue(u.blocked) then u else u.(blocked := SetTrue(u.blocked, now)) }

  function Unblock(u: User): User { if IsTrue(u.blocked) then u.(blocked := SetFalse(u.blocked)) else u }

  function Note(s: State, r: Record): State { s.(history := s.history + [r]) }

  function DoRegister(s: State, e: Event): (State, Response)
    requires e.Register?
  {
    var (user, answer) := Registration(s, e.id, e.login, e.hash, e.looked, e.acceptable);
    if user.None? then (s, answer)
    else
      var (t, saved) := Save(s, user.value.(sessions := [e.session]), e.saved);
      if !saved then (s, Failed(NotSaved))
      else (t, if e.resolved && e.queued then Ok else Failed(AfterSave))
  }

  function DoNewUser(s: State, e: Event): (State, Response)
    requires e.NewUser?
  {
    var (user, answer) := Registration(s, e.id, e.login, e.hash, e.looked, e.acceptable);
    if user.None? then (s, answer)
    else
      var u := if e.superuser then user.value.(superuser := SetTrue(ZERO, e.now)) else user.value;
      var (t, saved) := Save(s, u, e.saved);
      (t, if saved then Ok else Failed(NotSaved))
  }

  function DoIssueToken(s: State, e: Event): (State, Response)
    requires e.IssueToken?
  {
    if e.userID !in s.users then (s, Failed(NotFound))
    else if !e.saved then (s, Failed(NotSaved))
    else
      var token := Token(e.token, s.users[e.userID].id, e.now + WEEK);
      (Note(s.(tokens := s.tokens[e.token := token]), Issued(token)), Ok)
  }

  /** A token that expires at this very instant is still valid; `later` is when the flag is set. */
  function DoVerify(s: State, e: Event): (State, Response)
    requires e.Verify?
  {
    if e.userID !in s.users then (s, Failed(NotFound))
    else
      var u := s.users[e.userID];
      var t := Note(s, Presented(e.userID, e.token, e.now));
      if e.token !in s.tokens || s.tokens[e.token].userID != u.id || e.now > s.tokens[e.token].validUntil then
        (t, Failed(VerificationFailed))
      else
        var (saved, ok) := Save(t, u.(verified := SetTrue(u.verified, e.later)), e.saved);
        (saved, if ok then Ok else Failed(VerificationFailed))
  }

  function DoSetBlocked(s: State, e: Event): (State, Response)
    requires e.SetBlocked?
  {
    if e.userID !in s.users then (s, Failed(NotFound))
    else
      var u := s.users[e.userID];
      var (t, saved) := Save(s, if e.blocked then Block(u, e.now) else Unblock(u), e.saved);
      (t, if saved then Ok else Failed(NotSaved))
  }

  ghost function DoLogin(s: State, e: Event): (State, Response)
    requires e.Login?
  {
    if !LoginTaken(s.users, e.login) then (s, Failed(NotFound))
    else
      var id :| id in s.users && s.users[id].login == e.login;
      LoginOf(s, s.users[id], e)
  }

  function LoginOf(s: State, u: User, e: Event): (State, Response)
    requires e.Login?
  {
    if !Authenticate(s, u, e.matches) then (s, Failed(NotAuthenticated))
    else
      var t := Note(s, Authenticated(u.id));
      var (saved, ok) := Save(t, u.(sessions := u.sessions + [e.session]), e.saved);
      if !ok then (t, Failed(NotSaved))
      else (saved, if e.newDevice && !(e.resolved && e.queued) then Failed(AfterSave) else Ok)
  }

  ghost function Step(s: State, e: Event): (State, Response) {
    match e
    case Register(_, _, _, _, _, _, _, _, _) => DoRegister(s, e)
    case NewUser(_, _, _, _, _, _, _, _) => DoNewUser(s, e)
    case IssueToken(_, _, _, _) => DoIssueToken(s, e)
    case Verify(_, _, _, _, _) => DoVerify(s, e)
    case SetBlocked(_, _, _, _) => DoSetBlocked(s, e)
    case Login(_, _, _, _, _, _, _) => DoLogin(s, e)
    case AllowRegistration(v) => (s.(allowRegistration := v), Ok)
    case AllowLogin(v) => (s.(allowLogin := v), Ok)
  }

  ghost function Run(s: State, events: seq<Event>): State
    decreases |events|
  {
    if events == [] then s else Run(Step(s, events[0]).0, events[1..])
  }

  // ----- what every run keeps -----

  ghost predicate UniqueLogins(users: map<ID, User>) {
    forall a, b :: a in users && b in users && users[a].login == users[b].login ==> a == b
  }

  ghost predicate KeyedByID(users: map<ID, User>) { forall id :: id in users ==> users[id].id == id }

  /** A token for this user was issued, and presented for the user afterwards, no later than its expiry. */
  ghost predicate ProvedLogin(history: seq<Record>, id: ID) {
    exists i, j :: 0 <= i < j < |history| && Proves(history[i], history[j], id)
  }

  ghost predicate Proves(issue: Record, present: Record, id: ID) {
    && issue.Issued? && present.Presented?
    && issue.token.userID == id == present.userID
    && issue.token.id == present.tokenID && present.now <= issue.token.validUntil
  }

  ghost predicate TokensWereIssued(s: State) {
    forall k :: k in s.tokens ==> s.tokens[k].id == k && Issued(s.tokens[k]) in s.history
  }

  ghost predicate VerifiedWereProved(s: State) {
    forall id :: id in s.users && IsTrue(s.users[id].verified) ==> ProvedLogin(s.history, id)
  }

  /** Before every authentication, the user had proved to own the login. */
  ghost predicate LoginsWereProved(history: seq<Record>) {
    forall k :: 0 <= k < |history| && history[k].Authenticated? ==> ProvedLogin(history[..k], history[k].userID)
  }

  ghost predicate Inv(s: State) {
    && KeyedByID(s.users) && UniqueLogins(s.users) && TokensWereIssued(s) && VerifiedWereProved(s)
    && LoginsWereProved(s.history)
  }

  lemma ProofStays(history: seq<Record>, r: Record, id: ID)
    requires ProvedLogin(history, id)
    ensures ProvedLogin(history + [r], id)
  {
    var h := history + [r];
    var i, j :| 0 <= i < j < |history| && Proves(history[i], history[j], id);
    assert Proves(h[i], h[j], id);
  }

  lemma NoteKeeps(s: State, r: Record)
    requires Inv(s) && (r.Authenticated? ==> ProvedLogin(s.history, r.userID))
    ensures Inv(Note(s, r))
  {
    var h := Note(s, r).history;
    assert forall i :: 0 <= i < |s.history| ==> h[i] == s.history[i];
    forall id | id in s.users && IsTrue(s.users[id].verified) ensures ProvedLogin(h, id) { ProofStays(s.history, r, id); }
    forall k | 0 <= k < |h| && h[k].Authenticated? ensures ProvedLogin(h[..k], h[k].userID) {
      assert h[..k] == s.history[..k] && (k == |s.history| ==> h[..k] == s.history);
    }
  }

  /** A stored user may be replaced by one of its login or of a new login, but not by one that is verified without proof. */
  lemma SaveKeepsInv(s: State, u: User, saved: bool)
    requires Inv(s)
    requires IsTrue(u.verified) ==> ProvedLogin(s.history, u.id)
    requires LoginTaken(s.users, u.login) ==> u.id in s.users && s.users[u.id].login == u.login
    ensures Inv(Save(s, u, saved).0)
  {
    var users := s.users[u.id := u];
    forall id | id in s.users && s.users[id].login == u.login ensures id == u.id {
      assert LoginTaken(s.users, u.login);
    }
    assert UniqueLogins(users);
  }

  lemma VerifyKeepsInv(s: State, e: Event)
    requires Inv(s) && e.Verify?
    ensures Inv(DoVerify(s, e).0)
  {
    if e.userID in s.users {
      var u := s.users[e.userID];
      var t := Note(s, Presented(e.userID, e.token, e.now));
      NoteKeeps(s, Presented(e.userID, e.token, e.now));
      if e.token in s.tokens && s.tokens[e.token].userID == u.id && e.now <= s.tokens[e.token].validUntil {
        var i :| 0 <= i < |s.history| && s.history[i] == Issued(s.tokens[e.token]);
        assert Proves(t.history[i], t.history[|s.history|], u.id);
        SaveKeepsInv(t, u.(verified := SetTrue(u.verified, e.later)), e.saved);
      }
    }
  }

  lemma IssueTokenKeepsInv(s: State, e: Event)
    requires Inv(s) && e.IssueToken?
    ensures Inv(DoIssueToken(s, e).0)
  {
    if e.userID in s.users && e.saved {
      var token := Token(e.token, s.users[e.userID].id, e.now + WEEK);
      NoteKeeps(s, Issued(token));
      var h := s.history + [Issued(token)];
      assert h[|s.history|] == Issued(token);
    }
  }

  lemma LoginKeepsInv(s: State, u: User, e: Event)
    requires Inv(s) && e.Login? && u.id in s.users && s.users[u.id] == u
    ensures Inv(LoginOf(s, u, e).0)
  {
    if Authenticate(s, u, e.matches) {
      NoteKeeps(s, Authenticated(u.id));
      ProofStays(s.history, Authenticated(u.id), u.id);
      SaveKeepsInv(Note(s, Authenticated(u.id)), u.(sessions := u.sessions + [e.session]), e.saved);
    }
  }

  /** FindByLogin finds a user with the login. */
  lemma LoginFinds(s: State, e: Event) returns (id: ID)
    requires e.Login? && LoginTaken(s.users, e.login)
    ensures id in s.users && s.users[id].login == e.login && DoLogin(s, e) == LoginOf(s, s.users[id], e)
  {
    id :| id in s.users && s.users[id].login == e.login && DoLogin(s, e) == LoginOf(s, s.users[id], e);
  }

  /** Whatever happens, logins stay unique, and who is verified has proved to own the login. */
  lemma StepKeepsInv(s: State, e: Event)
    requires Inv(s)
    ensures Inv(Step(s, e).0)
  {
    match e
    case Register(id, login, hash, _, _, session, saved, _, _) =>
      if !LoginTaken(s.users, login) { SaveKeepsInv(s, Fresh(id, login, hash).(sessions := [session]), saved); }
    case NewUser(id, login, hash, _, _, superuser, now, saved) =>
      if !LoginTaken(s.users, login) {
        var u := Fresh(id, login, hash);
        SaveKeepsInv(s, if superuser then u.(superuser := SetTrue(ZERO, now)) else u, saved);
      }
    case IssueToken(_, _, _, _) => IssueTokenKeepsInv(s, e);
    case Verify(_, _, _, _, _) => VerifyKeepsInv(s, e);
    case SetBlocked(id, blocked, now, saved) =>
      if id in s.users {
        SaveKeepsInv(s, if blocked then Block(s.users[id], now) else Unblock(s.users[id]), saved);
      }
    case Login(login, _, _, _, _, _, _) =>
      if LoginTaken(s.users, login) {
        var id := LoginFinds(s, e);
        LoginKeepsInv(s, s.users[id], e);
      }
    case AllowRegistration(_) =>
    case AllowLogin(_) =>
  }

  lemma {:induction false} RunKeepsInv(s: State, events: seq<Event>)
    requires Inv(s)
    ensures Inv(Run(s, events))
    decreases |events|
  {
    if events == [] {
    } else {
      StepKeepsInv(s, events[0]);
      RunKeepsInv(Step(s, events[0]).0, events[1..]);
    }
  }

  /** Starting without users: nobody is verified, and nobody gets in, without having presented a valid token of their own. */
  lemma VerifiedOnlyWithOwnValidToken(events: seq<Event>, allowRegistration: Option<bool>, allowLogin: Option<bool>, id: ID)
    ensures var s := Run(State(map[], map[], allowRegistration, allowLogin, []), events);
            && UniqueLogins(s.users)
            && (id in s.users && IsTrue(s.users[id].verified) ==> ProvedLogin(s.history, id))
            && LoginsWereProved(s.history)
  {
    RunKeepsInv(State(map[], map[], allowRegistration, allowLogin, []), events);
  }

  /** Exactly when a login attempt is let in, for the user that has the login. */
  lemma LetInIff(s: State, e: Event, id: ID)
    requires Inv(s) && e.Login? && id in s.users && s.users[id].login == e.login
    ensures Step(s, e).0.history == s.history + [Authenticated(id)]
       <==> s.allowLogin == Some(true) && IsTrue(s.users[id].verified) && !IsTrue(s.users[id].blocked) && e.matches
    ensures Step(s, e).0.history == s.history || Step(s, e).0.history == s.history + [Authenticated(id)]
    ensures Step(s, e).1 == Ok ==> Step(s, e).0.history != s.history
  {
    assert LoginTaken(s.users, e.login);
    var found := LoginFinds(s, e);
    assert found == id;
    assert |s.history + [Authenticated(id)]| != |s.history|;
  }

  /** The id is not given to a second user. */
  predicate LeavesID(e: Event, id: ID) { (e.Register? || e.NewUser?) ==> e.id != id }

  /** What `now` must keep of an earlier state of the same user; only unblocking it may end a block. */
  ghost predicate Continues(was: User, now: User, unblocked: bool) {
    && now.login == was.login
    && (IsTrue(was.verified) ==> IsTrue(now.verified))
    && (IsTrue(was.blocked) && !unblocked ==> IsTrue(now.blocked))
  }

  predicate Unblocks(e: Event, id: ID) { e.SetBlocked? && e.userID == id && !e.blocked }

  lemma LoginStays(s: State, e: Event, id: ID)
    requires Inv(s) && id in s.users && e.Login?
    ensures id in DoLogin(s, e).0.users && Continues(s.users[id], DoLogin(s, e).0.users[id], false)
  {
    if LoginTaken(s.users, e.login) {
      var _ := LoginFinds(s, e);
    }
  }

  lemma VerifyStays(s: State, e: Event, id: ID)
    requires Inv(s) && id in s.users && e.Verify? && e.later != 0
    ensures id in DoVerify(s, e).0.users && Continues(s.users[id], DoVerify(s, e).0.users[id], false)
  {
  }

  /** A user that was stored stays, with its login, stays verified once it is, and blocked until it is unblocked. */
  lemma UserStays(s: State, e: Event, id: ID)
    requires Inv(s) && id in s.users && LeavesID(e, id) && (e.Verify? ==> e.later != 0)
    ensures id in Step(s, e).0.users && Continues(s.users[id], Step(s, e).0.users[id], Unblocks(e, id))
  {
    if e.Login? { LoginStays(s, e, id); }
    if e.Verify? { VerifyStays(s, e, id); }
  }

  /** While a user is blocked and nobody unblocks it, it does not get in. */
  lemma {:induction false} BlockedUserStaysOut(s: State, events: seq<Event>, id: ID)
    requires Inv(s) && id in s.users && IsTrue(s.users[id].blocked)
    requires forall e :: e in events ==> LeavesID(e, id) && (e.Verify? ==> e.later != 0)
    requires forall e :: e in events ==> !Unblocks(e, id)
    ensures var h := Run(s, events).history;
            |h| >= |s.history| && forall k :: |s.history| <= k < |h| ==> h[k] != Authenticated(id)
    decreases |events|
  {
    if events == [] {
    } else {
      var t := Step(s, events[0]).0;
      StepKeepsInv(s, events[0]);
      UserStays(s, events[0], id);
      BlockedDuringStep(s, events[0], id);
      BlockedUserStaysOut(t, events[1..], id);
      assert forall k :: |s.history| <= k < |t.history| ==> Run(s, events).history[k] == t.history[k] by {
        HistoryGrows(t, events[1..]);
      }
    }
  }

  lemma BlockedDuringStep(s: State, e: Event, id: ID)
    requires Inv(s) && id in s.users && IsTrue(s.users[id].blocked)
    ensures var h := Step(s, e).0.history;
            |h| >= |s.history| && forall k :: |s.history| <= k < |h| ==> h[k] != Authenticated(id)
  {
    if e.Login? && LoginTaken(s.users, e.login) {
      var _ := LoginFinds(s, e);
    }
  }

  lemma StepGrows(s: State, e: Event)
    ensures s.history <= Step(s, e).0.history
  {
    if e.Login? && LoginTaken(s.users, e.login) {
      var _ := LoginFinds(s, e);
    }
  }

  lemma {:induction false} HistoryGrows(s: State, events: seq<Event>)
    ensures s.history <= Run(s, events).history
    decreases |events|
  {
    if events == [] {
    } else {
      StepGrows(s, events[0]);
      HistoryGrows(Step(s, events[0]).0, events[1..]);
    }
  }

  /** A registration that fails after the user was saved cannot be repeated: the login is taken. */
  lemma LateFailureTakesTheLogin(s: State, e: Event, again: Event)
    requires Inv(s) && e.Register? && again.Register? && again.login == e.login
    requires Step(s, e).1 == Failed(AfterSave)
    ensures e.id in Step(s, e).0.users
    ensures Step(Step(s, e).0, again).1 == Failed(if again.looked then AlreadyExists else LookupFailed)
  {
    var t := Step(s, e).0;
    assert t.users[e.id].login == e.login;
    assert LoginTaken(t.users, again.login);
  }

  /** Exactly when a registration stores a user. */
  lemma RegisteredIff(s: State, e: Event)
    requires Inv(s) && e.Register? && e.id !in s.users
    ensures e.id in Step(s, e).0.users
       <==> && s.allowRegistration == Some(true) && e.looked && (forall id :: id in s.users ==> s.users[id].login != e.login)
            && e.login != "" && e.acceptable && e.saved && e.id != ""
    ensures e.id in Step(s, e).0.users <==> Step(s, e).1 in {Ok, Failed(AfterSave)}
  {
  }

  lemma StepKeepsToken(s: State, e: Event, k: UUID)
    requires k in s.tokens && !(e.IssueToken? && e.token == k)
    ensures k in Step(s, e).0.tokens && Step(s, e).0.tokens[k] == s.tokens[k]
  {
    if e.Login? && LoginTaken(s.users, e.login) {
      var _ := LoginFinds(s, e);
    }
  }

  lemma {:induction false} RunKeepsToken(s: State, events: seq<Event>, k: UUID)
    requires k in s.tokens && forall e :: e in events ==> !(e.IssueToken? && e.token == k)
    ensures k in Run(s, events).tokens && Run(s, events).tokens[k] == s.tokens[k]
    decreases |events|
  {
    if events == [] {
    } else {
      StepKeepsToken(s, events[0], k);
      RunKeepsToken(Step(s, events[0]).0, events[1..], k);
    }
  }

  /** Whatever happens in between, an issued token verifies exactly its own user, and until a week later. */
  lemma IssuedTokenVerifiesIff(s: State, issue: Event, between: seq<Event>, verify: Event)
    requires Inv(s) && issue.IssueToken? && Step(s, issue).1 == Ok
    requires forall e :: e in between ==> !(e.IssueToken? && e.token == issue.token)
    requires verify.Verify? && verify.token == issue.token && verify.saved && verify.userID != ""
    requires verify.userID in Run(Step(s, issue).0, between).users
    ensures Step(Run(Step(s, issue).0, between), verify).1 == Ok
       <==> verify.userID == issue.userID && verify.now <= issue.now + 7 * 24 * 3600 * 1_000_000_000
    ensures var before := Run(Step(s, issue).0, between);
            var after := Step(before, verify).0;
            && after.users.Keys == before.users.Keys
            && (forall id :: id in before.users && id != verify.userID ==> after.users[id] == before.users[id])
            && SameButVerified(before.users[verify.userID], after.users[verify.userID])
            && (verify.later != 0 ==>
                  (IsTrue(after.users[verify.userID].verified) <==>
                     || IsTrue(before.users[verify.userID].verified)
                     || (verify.userID == issue.userID && verify.now <= issue.now + 7 * 24 * 3600 * 1_000_000_000)))
  {
    var issued := Step(s, issue).0;
    StepKeepsInv(s, issue);
    RunKeepsInv(issued, between);
    RunKeepsToken(issued, between, issue.token);
  }

  predicate SameButVerified(was: User, now: User) { now == was.(verified := now.verified) }

  /** From the token to the login: a user that verifies in time is let in by a login with the right password. */
  lemma VerifiedInTimeIsLetIn(s: State, issue: Event, between: seq<Event>, verify: Event, login: Event)
    requires Inv(s) && issue.IssueToken? && Step(s, issue).1 == Ok
    requires forall e :: e in between ==> !(e.IssueToken? && e.token == issue.token)
    requires verify.Verify? && verify.token == issue.token && verify.saved && verify.later != 0
    requires verify.userID == issue.userID != ""
    requires verify.userID in Run(Step(s, issue).0, between).users
    requires verify.now <= issue.now + 7 * 24 * 3600 * 1_000_000_000
    requires var u := Run(Step(s, issue).0, between).users[verify.userID];
             login.Login? && login.login == u.login && login.matches && login.saved && !IsTrue(u.blocked)
    requires Run(Step(s, issue).0, between).allowLogin == Some(true)
    ensures var verified := Step(Run(Step(s, issue).0, between), verify).0;
            var after := Step(verified, login).0;
            && after.history == verified.history + [Authenticated(verify.userID)]
            && after.users[verify.userID].sessions == verified.users[verify.userID].sessions + [login.session]
  {
    var before := Run(Step(s, issue).0, between);
    var verified := Step(before, verify).0;
    IssuedTokenVerifiesIff(s, issue, between, verify);
    StepKeepsInv(s, issue);
    RunKeepsInv(Step(s, issue).0, between);
    StepKeepsInv(before, verify);
    LetInIff(verified, login, verify.userID);
    assert LoginTaken(verified.users, login.login);
    var found := LoginFinds(verified, login);
    assert found == verify.userID;
  }

  // ----- what the use cases leave behind -----

  /** All users but this one are as they were. */
  ghost predicate OthersStay(before: map<ID, User>, after: map<ID, User>, id: ID) {
    forall other :: other != id ==>
      (other in after <==> other in before) && (other in after ==> after[other] == before[other])
  }

  ghost predicate OnlyUserChanges(s: State, t: State, id: ID) {
    OthersStay(s.users, t.users, id) && id in t.users && t == s.(users := t.users, history := t.history)
  }

  predicate IsNew(u: User, id: ID, login: string, hash: string) {
    u.id == id && u.login == login && u.passwordHash == hash && !IsTrue(u.verified) && !IsTrue(u.blocked)
  }

  /** Everything was saved, and at most telling the user has failed. */
  predicate Saved(answer: Response) { answer == Ok || answer == Failed(AfterSave) }

  /** A new user is neither verified nor blocked, and a superuser only if an administrator made it one. */
  lemma NewUserIs(s: State, e: Event)
    requires Inv(s) && (e.Register? || e.NewUser?) && Saved(Step(s, e).1)
    ensures var t := Step(s, e).0;
            && OnlyUserChanges(s, t, e.id) && IsNew(t.users[e.id], e.id, e.login, e.hash)
            && t.users[e.id].sessions == (if e.Register? then [e.session] else [])
            && (e.Register? || e.now != 0 ==> (IsTrue(t.users[e.id].superuser) <==> e.NewUser? && e.superuser))
  {
  }

  /** What the other use cases leave behind once they have saved; a flag set at the zero instant would not be set. */
  lemma SavedUseCaseLeaves(s: State, e: Event)
    requires Inv(s) && Saved(Step(s, e).1)
    ensures var t := Step(s, e).0;
            match e
            case IssueToken(id, token, now, _) =>
              t == s.(tokens := s.tokens[token := Token(token, id, now + 7 * 24 * 3600 * 1_000_000_000)], history := t.history)
            case Verify(id, _, _, later, _) =>
              OnlyUserChanges(s, t, id) && SameButVerified(s.users[id], t.users[id])
              && t.users[id].verified == (if IsTrue(s.users[id].verified) then s.users[id].verified else Time(later, true))
            case SetBlocked(id, blocked, now, _) => BlockedIs(s, t, id, blocked, now)
            case Login(login, _, session, _, _, _, _) => exists id :: HasNewSession(s, t, id, login, session)
            case AllowRegistration(v) => t == s.(allowRegistration := v)
            case AllowLogin(v) => t == s.(allowLogin := v)
            case _ => true
  {
    if e.Login? { LoginLeaves(s, e); }
  }

  ghost predicate HasNewSession(s: State, t: State, id: ID, login: string, session: string) {
    && id in s.users && s.users[id].login == login && OnlyUserChanges(s, t, id)
    && t.users[id] == s.users[id].(sessions := s.users[id].sessions + [session])
  }

  lemma LoginLeaves(s: State, e: Event)
    requires Inv(s) && e.Login? && Saved(Step(s, e).1)
    ensures exists id :: HasNewSession(s, Step(s, e).0, id, e.login, e.session)
  {
    var id := LoginFinds(s, e);
    assert HasNewSession(s, Step(s, e).0, id, e.login, e.session);
  }

  /** Only the block changes; a block that was there keeps its time, and a new one gets the time of the call. */
  ghost predicate BlockedIs(s: State, t: State, id: ID, blocked: bool, now: int)
    requires id in s.users
  {
    && OnlyUserChanges(s, t, id) && t.users[id] == s.users[id].(blocked := t.users[id].blocked)
    && (now != 0 ==> (IsTrue(t.users[id].blocked) <==> blocked))
    && (IsTrue(s.users[id].blocked) == blocked ==> t.users[id].blocked == s.users[id].blocked)
    && (blocked && !IsTrue(s.users[id].blocked) ==> t.users[id].blocked == Time(now, true))
  }

  /** A use case that has not saved leaves users, tokens and settings alone. */
  lemma OthersLeaveNothing(s: State, e: Event)
    requires Inv(s) && !Saved(Step(s, e).1)
    ensures Step(s, e).0 == s.(history := Step(s, e).0.history)
  {
    if e.Login? && LoginTaken(s.users, e.login) {
      var _ := LoginFinds(s, e);
    }
  }

  /** What a new user needs, from a registration or from an administrator. */
  ghost predicate CanBeAdded(s: State, id: ID, login: string, looked: bool, acceptable: bool, saved: bool) {
    && s.allowRegistration == Some(true) && looked && (forall other :: other in s.users ==> s.users[other].login != login)
    && login != "" && acceptable && saved && id != ""
  }

  /** Exactly when each use case saves, and exactly when it then also answers well. */
  lemma SavesIff(s: State, e: Event)
    requires Inv(s)
    ensures Saved(Step(s, e).1) <==>
              match e
              case Register(id, login, _, looked, acceptable, _, saved, _, _) => CanBeAdded(s, id, login, looked, acceptable, saved)
              case NewUser(id, login, _, looked, acceptable, _, _, saved) => CanBeAdded(s, id, login, looked, acceptable, saved)
              case IssueToken(id, _, _, saved) => id in s.users && saved
              case Verify(id, token, now, _, saved) =>
                id in s.users && token in s.tokens && s.tokens[token].userID == id && now <= s.tokens[token].validUntil
                && saved && id != ""
              case SetBlocked(id, _, _, saved) => id in s.users && saved && id != ""
              case Login(login, matches, _, saved, _, _, _) =>
                s.allowLogin == Some(true) && matches && saved
                && exists id :: id in s.users && s.users[id].login == login && id != ""
                                && IsTrue(s.users[id].verified) && !IsTrue(s.users[id].blocked)
              case AllowRegistration(_) => true
              case AllowLogin(_) => true
    ensures Saved(Step(s, e).1) ==>
              (Step(s, e).1 == Ok <==>
                 && (e.Register? ==> e.resolved && e.queued)
                 && (e.Login? && e.newDevice ==> e.resolved && e.queued))
  {
    if e.Login? {
      if LoginTaken(s.users, e.login) {
        var id := LoginFinds(s, e);
        assert forall other :: other in s.users && s.users[other].login == e.login ==> other == id;
      }
    }
  }

  /** Why a use case refuses: the first of its checks that fails. */
  lemma RefusedFor(s: State, e: Event, why: Failure)
    requires Inv(s) && Step(s, e).1 == Failed(why) && why != AfterSave
    ensures (e.Register? || e.NewUser?) ==>
              why == if s.allowRegistration != Some(true) then Disabled
                     else if !e.looked then LookupFailed
                     else if exists id :: id in s.users && s.users[id].login == e.login then AlreadyExists
                     else if e.login == "" || !e.acceptable then InvalidDetails
                     else NotSaved
    ensures e.IssueToken? || e.SetBlocked? ==> why == if e.userID !in s.users then NotFound else NotSaved
    ensures e.Verify? ==> why == if e.userID !in s.users then NotFound else VerificationFailed
    ensures e.Login? ==>
              why == if forall id :: id in s.users ==> s.users[id].login != e.login then NotFound
                     else if CanLogin(s, e.login, e.matches) then NotSaved
                     else NotAuthenticated
  {
    if e.Login? && LoginTaken(s.users, e.login) {
      var id := LoginFinds(s, e);
      assert forall other :: other in s.users && s.users[other].login == e.login ==> other == id;
    }
  }

  ghost predicate CanLogin(s: State, login: string, matches: bool) {
    s.allowLogin == Some(true) && matches
    && exists id :: id in s.users && s.users[id].login == login && IsTrue(s.users[id].verified) && !IsTrue(s.users[id].blocked)
  }

  // ----- the use cases themselves -----

  class UserApplication {
    var users: map<ID, User>
    var tokens: map<UUID, Token>
    var allowRegistration: Option<bool>
    var allowLogin: Option<bool>
    ghost var history: seq<Record>

    ghost function View(): State
      reads this
    {
      State(users, tokens, allowRegistration, allowLogin, history)
    }

    constructor (allowRegistration: Option<bool>, allowLogin: Option<bool>)
      ensures View() == State(map[], map[], allowRegistration, allowLogin, [])
    {
      users, tokens := map[], map[];
      this.allowRegistration, this.allowLogin := allowRegistration, allowLogin;
      history := [];
    }

    /** The users of the map, in any order, until one has the login. */
    method FindByLogin(login: string) returns (r: Option<User>)
      ensures r.None? <==> !LoginTaken(users, login)
      ensures r.Some? ==> exists id :: id in users && users[id] == r.value && r.value.login == login
    {
      var left := users.Keys;
      while left != {}
        invariant left <= users.Keys
        invariant forall id :: id in users && id !in left ==> users[id].login != login
      {
        var id :| id in left;
        if users[id].login == login { return Some(users[id]); }
        left := left - {id};
      }
      r := None;
    }

    method RegisterNewUser(id: ID, login: string, hash: string, looked: bool, acceptable: bool)
      returns (user: Option<User>, r: Response)
      ensures (user, r) == Registration(View(), id, login, hash, looked, acceptable)
    {
      if allowRegistration != Some(true) { return None, Failed(Disabled); }
      if !looked { return None, Failed(LookupFailed); }
      var existing := FindByLogin(login);
      if existing.Some? { return None, Failed(AlreadyExists); }
      if login == "" || !acceptable { return None, Failed(InvalidDetails); }
      return Some(User(id, login, hash, ZERO, ZERO, ZERO, [])), Ok;
    }

    method SaveUser(u: User, saved: bool) returns (ok: bool)
      modifies this`users
      ensures (View(), ok) == Save(old(View()), u, saved)
    {
      ok := u.id != "" && saved;
      if ok { users := users[u.id := u]; }
    }

    method RegisterUser(e: Event) returns (r: Response)
      requires e.Register?
      modifies this
      ensures (View(), r) == Step(old(View()), e)
    {
      var user, answer := RegisterNewUser(e.id, e.login, e.hash, e.looked, e.acceptable);
      if user.None? { return answer; }
      var usr := user.value.(sessions := user.value.sessions + [e.session]);
      assert usr.sessions == [e.session];
      var ok := SaveUser(usr, e.saved);
      if !ok { return Failed(NotSaved); }
      if !e.resolved { return Failed(AfterSave); }
      r := if e.queued then Ok else Failed(AfterSave);
    }

    method AddUser(e: Event) returns (r: Response)
      requires e.NewUser?
      modifies this
      ensures (View(), r) == Step(old(View()), e)
    {
      var user, answer := RegisterNewUser(e.id, e.login, e.hash, e.looked, e.acceptable);
      if user.None? { return answer; }
      var usr := user.value;
      if e.superuser { usr := usr.(superuser := SetTrue(ZERO, e.now)); }
      var ok := SaveUser(usr, e.saved);
      r := if ok then Ok else Failed(NotSaved);
    }

    method SendVerificationEmail(e: Event) returns (r: Response)
      requires e.IssueToken?
      modifies this
      ensures (View(), r) == Step(old(View()), e)
    {
      if e.userID !in users { return Failed(NotFound); }
      var token := Token(e.token, users[e.userID].id, e.now + WEEK);
      if !e.saved { return Failed(NotSaved); }
      tokens := tokens[token.id := token];
      history := history + [Issued(token)];
      r := Ok;
    }

    method VerifyUser(e: Event) returns (r: Response)
      requires e.Verify?
      modifies this
      ensures (View(), r) == Step(old(View()), e)
    {
      if e.userID !in users { return Failed(NotFound); }
      var usr := users[e.userID];
      history := history + [Presented(e.userID, e.token, e.now)];
      if e.token !in tokens { return Failed(VerificationFailed); }
      var token := tokens[e.token];
      if token.userID != usr.id { return Failed(VerificationFailed); }
      if e.now > token.validUntil { return Failed(VerificationFailed); }
      usr := usr.(verified := SetTrue(usr.verified, e.later));
      var ok := SaveUser(usr, e.saved);
      r := if ok then Ok else Failed(VerificationFailed);
    }

    method BlockUser(e: Event) returns (r: Response)
      requires e.SetBlocked?
      modifies this
      ensures (View(), r) == Step(old(View()), e)
    {
      if e.userID !in users { return Failed(NotFound); }
      var usr := users[e.userID];
      if e.blocked {
        if !IsTrue(usr.blocked) { usr := usr.(blocked := SetTrue(usr.blocked, e.now)); }
      } else if IsTrue(usr.blocked) {
        usr := usr.(blocked := SetFalse(usr.blocked));
      }
      var ok := SaveUser(usr, e.saved);
      r := if ok then Ok else Failed(NotSaved);
    }

    method LoginUser(e: Event) returns (r: Response)
      requires e.Login? && UniqueLogins(users)
      modifies this
      ensures (View(), r) == Step(old(View()), e)
    {
      var user := FindByLogin(e.login);
      if user.None? { return Failed(NotFound); }
      var usr := user.value;
      assert DoLogin(View(), e) == LoginOf(View(), usr, e);
      if allowLogin != Some(true) { return Failed(NotAuthenticated); }
      if !IsTrue(usr.verified) || IsTrue(usr.blocked) || !e.matches { return Failed(NotAuthenticated); }
      history := history + [Authenticated(usr.id)];
      var ok := SaveUser(usr.(sessions := usr.sessions + [e.session]), e.saved);
      if !ok { return Failed(NotSaved); }
      if e.newDevice {
        if !e.resolved || !e.queued { return Failed(AfterSave); }
      }
      r := Ok;
    }
  }
}
