/**
  * Refresh tokens of the panel's sessions: refreshes, logins, logouts and revocations by any
  * number of requests, interleaved between their database operations. Tokens stand for their
  * hashes; a new token is one never issued before.
  */
module RefreshTokens {
  import opened Basics

  type Token = nat
  type User = nat
  type Request = nat

  datatype Row = Row(user: User, expiresAt: int)

  /** A refresh that has found its row, and one that has deleted it and not yet issued. */
  datatype Found = Found(token: Token, user: User)
  datatype Pending = Pending(user: User, login: nat)

  /** The rows, the refreshes under way, and for the statements below: the login each issued
    * token goes back to, the tokens exchanged so far, the number of logins. */
  datatype State = State(
    rows: map<Token, Row>,
    found: map<Request, Found>,
    pending: map<Request, Pending>,
    origin: map<Token, nat>,
    exchanged: seq<Token>,
    logins: nat)

  datatype Event =
    | Login(user: User, token: Token, expiresAt: int)
    | Find(request: Request, token: Token, now: int)
    | Delete(request: Request)
    | Create(request: Request, token: Token, expiresAt: int, userActive: bool)
    | Logout(token: Token)
    | RevokeSession(user: User, token: Token)
    | RevokeAll(user: User)

  const START := State(map[], map[], map[], map[], [], 0)

  function RowsOf(rows: map<Token, Row>, user: User): set<Token> {
    set t | t in rows && rows[t].user == user
  }

  function AfterLogin(s: State, user: User, token: Token, expiresAt: int): State {
    if token in s.origin then s
    else s.(rows := s.rows[token := Row(user, expiresAt)], origin := s.origin[token := s.logins],
      logins := s.logins + 1)
  }

  /** An absent or expired token ends the refresh. */
  function AfterFind(s: State, request: Request, token: Token, now: int): State {
    if token !in s.rows || s.rows[token].expiresAt < now || request in s.found || request in s.pending then s
    else s.(found := s.found[request := Found(token, s.rows[token].user)])
  }

  /** Deleting a row that is gone by now ends the refresh with an error. */
  function AfterDelete(s: State, request: Request): State {
    if request !in s.found then s
    else
      var found := s.found[request];
      if found.token !in s.rows || found.token !in s.origin then s.(found := s.found - {request})
      else s.(rows := s.rows - {found.token}, found := s.found - {request},
        pending := s.pending[request := Pending(found.user, s.origin[found.token])],
        exchanged := s.exchanged + [found.token])
  }

  /** A user deactivated meanwhile gets no new token. */
  function AfterCreate(s: State, request: Request, token: Token, expiresAt: int, userActive: bool): State {
    if request !in s.pending || (userActive && token in s.origin) then s
    else if !userActive then s.(pending := s.pending - {request})
    else
      var pending := s.pending[request];
      s.(rows := s.rows[token := Row(pending.user, expiresAt)], pending := s.pending - {request},
         origin := s.origin[token := pending.login])
  }

  function Next(s: State, event: Event): State {
    match event
    case Login(user, token, expiresAt) => AfterLogin(s, user, token, expiresAt)
    case Find(request, token, now) => AfterFind(s, request, token, now)
    case Delete(request) => AfterDelete(s, request)
    case Create(request, token, expiresAt, userActive) => AfterCreate(s, request, token, expiresAt, userActive)
    case Logout(token) => s.(rows := s.rows - {token})
    case RevokeSession(user, token) => s.(rows := s.rows - (RowsOf(s.rows, user) * {token}))
    case RevokeAll(user) => s.(rows := s.rows - RowsOf(s.rows, user))
  }

  function Run(s: State, events: seq<Event>): State
    decreases |events|
  {
    if events == [] then s else Run(Next(s, events[0]), events[1..])
  }

  // ---------------------------------------------------------------------------
  // What every step keeps

  /** An exchanged token has been issued, has no row, and was exchanged once. */
  ghost predicate ExchangesOnce(s: State) {
    && (forall t :: t in s.rows ==> t in s.origin)
    && (forall t :: t in s.exchanged ==> t in s.origin && t !in s.rows)
    && Distinct(s.exchanged)
  }

  /** What can carry a login on: a live token, or a refresh between its two writes. */
  datatype Holder = Live(token: Token) | Waiting(request: Request)

  function LoginOf(s: State, h: Holder): Option<nat> {
    match h
    case Live(t) => if t in s.rows && t in s.origin then Some(s.origin[t]) else None
    case Waiting(r) => if r in s.pending then Some(s.pending[r].login) else None
  }

  /** No login is carried on twice. */
  ghost predicate OnePerLogin(s: State) {
    && (forall h :: LoginOf(s, h).Some? ==> LoginOf(s, h).value < s.logins)
    && (forall h, g :: LoginOf(s, h).Some? && LoginOf(s, h) == LoginOf(s, g) ==> h == g)
  }

  lemma StepExchangesOnce(s: State, event: Event)
    requires ExchangesOnce(s)
    ensures ExchangesOnce(Next(s, event))
  {
  }

  ghost predicate Loses(s: State, s': State) {
    forall h :: LoginOf(s', h) == None || LoginOf(s', h) == LoginOf(s, h)
  }

  ghost predicate Moves(s: State, s': State, from: Holder, to: Holder) {
    forall h :: LoginOf(s', h) == if h == from then None else if h == to then LoginOf(s, from) else LoginOf(s, h)
  }

  ghost predicate Gains(s: State, s': State, to: Holder, login: nat) {
    forall h :: LoginOf(s', h) == if h == to then Some(login) else LoginOf(s, h)
  }

  lemma LoseKeeps(s: State, s': State)
    requires OnePerLogin(s) && Loses(s, s') && s'.logins == s.logins
    ensures OnePerLogin(s')
  {
  }

  lemma MoveKeeps(s: State, s': State, from: Holder, to: Holder)
    requires OnePerLogin(s) && from != to && Moves(s, s', from, to) && s'.logins == s.logins
    ensures OnePerLogin(s')
  {
  }

  lemma GainKeeps(s: State, s': State, to: Holder)
    requires OnePerLogin(s) && Gains(s, s', to, s.logins) && s'.logins == s.logins + 1
    ensures OnePerLogin(s')
  {
  }

  lemma LoginOnePerLogin(s: State, user: User, token: Token, expiresAt: int)
    requires OnePerLogin(s)
    ensures OnePerLogin(AfterLogin(s, user, token, expiresAt))
  {
    if token !in s.origin { GainKeeps(s, AfterLogin(s, user, token, expiresAt), Live(token)); }
  }

  lemma DeleteOnePerLogin(s: State, request: Request)
    requires OnePerLogin(s) && (request in s.found ==> request !in s.pending)
    ensures OnePerLogin(AfterDelete(s, request))
  {
    if request in s.found && s.found[request].token in s.rows && s.found[request].token in s.origin {
      MoveKeeps(s, AfterDelete(s, request), Live(s.found[request].token), Waiting(request));
    } else {
      LoseKeeps(s, AfterDelete(s, request));
    }
  }

  lemma CreateOnePerLogin(s: State, request: Request, token: Token, expiresAt: int, userActive: bool)
    requires OnePerLogin(s)
    ensures OnePerLogin(AfterCreate(s, request, token, expiresAt, userActive))
  {
    var s' := AfterCreate(s, request, token, expiresAt, userActive);
    if request in s.pending && userActive && token !in s.origin {
      MoveKeeps(s, s', Waiting(request), Live(token));
    } else {
      LoseKeeps(s, s');
    }
  }

  ghost predicate OneStage(s: State) { forall r :: r in s.found ==> r !in s.pending }

  lemma StepOnePerLogin(s: State, event: Event)
    requires OnePerLogin(s) && OneStage(s)
    ensures OnePerLogin(Next(s, event)) && OneStage(Next(s, event))
  {
    match event {
      case Login(user, token, expiresAt) => LoginOnePerLogin(s, user, token, expiresAt);
      case Find(_, _, _) => LoseKeeps(s, Next(s, event));
      case Delete(request) => DeleteOnePerLogin(s, request);
      case Create(request, token, expiresAt, userActive) => CreateOnePerLogin(s, request, token, expiresAt, userActive);
      case Logout(_) => LoseKeeps(s, Next(s, event));
      case RevokeSession(_, _) => LoseKeeps(s, Next(s, event));
      case RevokeAll(_) => LoseKeeps(s, Next(s, event));
    }
  }

  // ---------------------------------------------------------------------------
  // Every run

  ghost predicate Inv(s: State) { ExchangesOnce(s) && OnePerLogin(s) && OneStage(s) }

  /** Every interleaving keeps the invariant, from any state that has it. */
  lemma {:induction false} RunKeepsInv(s: State, events: seq<Event>)
    requires Inv(s)
    ensures Inv(Run(s, events))
    decreases |events|
  {
    if events != [] {
      StepExchangesOnce(s, events[0]);
      StepOnePerLogin(s, events[0]);
      RunKeepsInv(Next(s, events[0]), events[1..]);
    }
  }

  /** Whatever requests run and however they interleave, no token is exchanged twice, none is
    * live after its exchange, and no login is carried on by two tokens. */
  lemma RotationIsSafe(events: seq<Event>)
    ensures Distinct(Run(START, events).exchanged)
    ensures forall t :: t in Run(START, events).exchanged ==> t !in Run(START, events).rows
    ensures OnePerLogin(Run(START, events))
  {
    RunKeepsInv(START, events);
  }

  function Holders(s: State): set<Holder> {
    (set t | t in s.rows :: Live(t)) + (set r | r in s.pending :: Waiting(r))
  }

  lemma {:induction false} Injection(s: State, holders: set<Holder>, n: nat)
    requires forall h :: h in holders ==> LoginOf(s, h).Some? && LoginOf(s, h).value < n
    requires forall h, g :: h in holders && g in holders && LoginOf(s, h) == LoginOf(s, g) ==> h == g
    ensures |holders| <= n
    decreases n
  {
    if h :| h in holders && LoginOf(s, h) == Some(n - 1) {
      Injection(s, holders - {h}, n - 1);
    } else if n > 0 {
      Injection(s, holders, n - 1);
    } else {
      assert holders == {};
    }
  }

  /** There are never more live tokens and pending refreshes than there were logins. */
  lemma LiveTokensBounded(events: seq<Event>)
    ensures |Holders(Run(START, events))| <= Run(START, events).logins
  {
    var s := Run(START, events);
    RunKeepsInv(START, events);
    Injection(s, Holders(s), s.logins);
  }

  /** A token without a row, once issued, never has one again and is not exchanged any more. */
  lemma {:induction false} GoneStaysGone(s: State, events: seq<Event>, token: Token)
    requires token in s.origin && token !in s.rows
    ensures token !in Run(s, events).rows
    ensures multiset(Run(s, events).exchanged)[token] == multiset(s.exchanged)[token]
    decreases |events|
  {
    if events != [] {
      GoneStaysGone(Next(s, events[0]), events[1..], token);
    }
  }

  /** After a logout or a revocation that covers it, a refresh under way with the token fails:
    * it is not exchanged, whatever follows. */
  lemma RevokedIsNotExchanged(s: State, token: Token, revocation: Event, events: seq<Event>)
    requires Inv(s) && token in s.rows
    requires revocation == Logout(token) || revocation == RevokeSession(s.rows[token].user, token)
      || revocation == RevokeAll(s.rows[token].user)
    ensures token !in Run(s, [revocation] + events).rows
    ensures token !in Run(s, [revocation] + events).exchanged
  {
    var s' := Next(s, revocation);
    assert ([revocation] + events)[1..] == events;
    GoneStaysGone(s', events, token);
    assert token !in s'.exchanged;
    assert token in Run(s', events).exchanged <==> multiset(Run(s', events).exchanged)[token] > 0;
  }

  // ---------------------------------------------------------------------------
  // Revoking all sessions of a user

  ghost predicate LogsIn(event: Event, user: User) { event.Login? && event.user == user }

  /** Unless the user logs in again, no session of theirs appears. */
  ghost predicate StaysOut(s: State, user: User) {
    forall events :: (forall e :: e in events ==> !LogsIn(e, user)) ==> RowsOf(Run(s, events).rows, user) == {}
  }

  ghost predicate HasPending(s: State, user: User) { exists r :: r in s.pending && s.pending[r].user == user }

  /** A refresh remembers the user of its row. */
  ghost predicate FoundMatches(s: State) {
    forall r :: r in s.found && s.found[r].token in s.rows ==> s.rows[s.found[r].token].user == s.found[r].user
  }

  ghost predicate FoundIssued(s: State) { forall r :: r in s.found ==> s.found[r].token in s.origin }

  ghost predicate RowsIssued(s: State) { forall t :: t in s.rows ==> t in s.origin }

  lemma StepFoundMatches(s: State, event: Event)
    requires FoundMatches(s) && FoundIssued(s) && RowsIssued(s)
    ensures FoundMatches(Next(s, event)) && FoundIssued(Next(s, event)) && RowsIssued(Next(s, event))
  {
  }

  lemma {:induction false} RunFoundMatches(s: State, events: seq<Event>)
    requires FoundMatches(s) && FoundIssued(s) && RowsIssued(s)
    ensures FoundMatches(Run(s, events)) && FoundIssued(Run(s, events)) && RowsIssued(Run(s, events))
    decreases |events|
  {
    if events != [] {
      StepFoundMatches(s, events[0]);
      RunFoundMatches(Next(s, events[0]), events[1..]);
    }
  }

  lemma StepStaysOut(s: State, event: Event, user: User)
    requires FoundMatches(s) && RowsOf(s.rows, user) == {} && !HasPending(s, user) && !LogsIn(event, user)
    ensures RowsOf(Next(s, event).rows, user) == {} && !HasPending(Next(s, event), user)
  {
    assert forall t :: t in s.rows ==> s.rows[t].user != user by {
      assert forall t :: t in s.rows && s.rows[t].user == user ==> t in RowsOf(s.rows, user);
    }
  }

  lemma {:induction false} NoneComesBack(s: State, events: seq<Event>, user: User)
    requires FoundMatches(s) && FoundIssued(s) && RowsIssued(s)
    requires RowsOf(s.rows, user) == {} && !HasPending(s, user)
    requires forall e :: e in events ==> !LogsIn(e, user)
    ensures RowsOf(Run(s, events).rows, user) == {}
    decreases |events|
  {
    if events != [] {
      StepStaysOut(s, events[0], user);
      StepFoundMatches(s, events[0]);
      NoneComesBack(Next(s, events[0]), events[1..], user);
    }
  }

  lemma {:induction false} Above(used: set<Token>) returns (above: Token)
    ensures forall t :: t in used ==> t < above
    decreases |used|
  {
    above := 0;
    if t :| t in used {
      var rest := used - {t};
      above := Above(rest);
      above := if above > t then above else t + 1;
      assert forall x :: x in used ==> x == t || x in rest;
    }
  }

  lemma PendingComesBack(s: State, user: User, r: Request)
    requires r in s.pending && s.pending[r].user == user
    ensures !StaysOut(s, user)
  {
    var token := Above(s.origin.Keys);
    var events := [Create(r, token, 0, true)];
    assert events[1..] == [];
    assert Run(s, events) == Next(s, events[0]);
    assert token in RowsOf(Run(s, events).rows, user);
  }

  /** Revoking all sessions at any point of any run keeps the user out exactly when no refresh
    * of theirs stands between its two writes; such a one survives the revocation. */
  lemma RevokeAllIff(events: seq<Event>, user: User)
    ensures var s := Run(START, events); StaysOut(Next(s, RevokeAll(user)), user) <==> !HasPending(s, user)
  {
    var s := Run(START, events);
    var s' := Next(s, RevokeAll(user));
    RunFoundMatches(START, events);
    StepFoundMatches(s, RevokeAll(user));
    if r :| r in s.pending && s.pending[r].user == user {
      PendingComesBack(s', user, r);
    } else {
      forall later | forall e :: e in later ==> !LogsIn(e, user) ensures RowsOf(Run(s', later).rows, user) == {} {
        NoneComesBack(s', later, user);
      }
    }
  }

  lemma RunThree(s: State, a: Event, b: Event, c: Event)
    ensures Run(s, [a, b, c]) == Next(Next(Next(s, a), b), c)
  {
    assert [a, b, c][1..] == [b, c] && [b, c][1..] == [c] && [c][1..] == [];
    assert Run(s, [a, b, c]) == Run(Next(s, a), [b, c]) == Run(Next(Next(s, a), b), [c]);
    assert Run(Next(Next(s, a), b), [c]) == Next(Next(Next(s, a), b), c);
  }

  /** Such a refresh occurs: a user logs in, a refresh finds and deletes the row, all sessions are
    * revoked, and the user is not kept out. */
  lemma RevokeAllEscaped(user: User, token: Token, request: Request, expiresAt: int, now: int)
    requires now <= expiresAt
    ensures var s := Run(START, [Login(user, token, expiresAt), Find(request, token, now), Delete(request)]);
      HasPending(s, user) && !StaysOut(Next(s, RevokeAll(user)), user)
  {
    var a, b, c := Login(user, token, expiresAt), Find(request, token, now), Delete(request);
    RunThree(START, a, b, c);
    var s1 := State(map[token := Row(user, expiresAt)], map[], map[], map[token := 0], [], 1);
    assert Next(START, a) == s1;
    var s2 := s1.(found := map[request := Found(token, user)]);
    assert Next(s1, b) == s2;
    assert Next(s2, c).pending == map[request := Pending(user, 0)];
    assert request in Run(START, [a, b, c]).pending;
    RevokeAllIff([a, b, c], user);
  }

  // ---------------------------------------------------------------------------
  // The service, one request at a time

  /** What an uninterrupted refresh leaves; an inactive user loses the session. */
  function Refreshed(rows: map<Token, Row>, token: Token, next: Token, now: int, expiresAt: int, userActive: bool)
    : map<Token, Row>
  {
    if token !in rows || rows[token].expiresAt < now then rows
    else if !userActive then rows - {token}
    else (rows - {token})[next := Row(rows[token].user, expiresAt)]
  }

  class Auth {
    var rows: map<Token, Row>

    constructor ()
      ensures rows == map[]
    {
      rows := map[];
    }

    method IssueTokens(user: User, next: Token, expiresAt: int, userActive: bool) returns (issued: Option<Token>)
      modifies this
      ensures issued == if userActive then Some(next) else None
      ensures rows == if userActive then old(rows)[next := Row(user, expiresAt)] else old(rows)
    {
      if !userActive {
        return None;
      }
      rows := rows[next := Row(user, expiresAt)];
      return Some(next);
    }

    method Refresh(token: Token, next: Token, now: int, expiresAt: int, userActive: bool)
      returns (issued: Option<Token>)
      modifies this
      ensures rows == Refreshed(old(rows), token, next, now, expiresAt, userActive)
      ensures issued.Some? <==> token in old(rows) && old(rows)[token].expiresAt >= now && userActive
      ensures issued.Some? ==> issued.value == next
      ensures issued.Some? && next != token ==> token !in rows
      ensures issued.Some? ==> next in rows && rows[next] == Row(old(rows)[token].user, expiresAt)
      ensures issued.None? ==> rows == old(rows) || (rows == old(rows) - {token} && !userActive)
      ensures forall t :: t != token && t != next ==>
        (t in rows <==> t in old(rows)) && (t in rows ==> rows[t] == old(rows)[t])
    {
      if token !in rows || rows[token].expiresAt < now {
        return None;
      }
      var stored := rows[token];
      rows := rows - {token};
      issued := IssueTokens(stored.user, next, expiresAt, userActive);
    }

    method Logout(token: Token)
      modifies this
      ensures rows == old(rows) - {token}
    {
      rows := rows - {token};
    }

    method RevokeSession(user: User, session: Token)
      modifies this
      ensures rows == old(rows) - (RowsOf(old(rows), user) * {session})
      ensures rows ==
        if session in old(rows) && old(rows)[session].user == user then old(rows) - {session} else old(rows)
    {
      if session in rows && rows[session].user == user {
        rows := rows - {session};
      }
    }

    method RevokeAllSessions(user: User)
      modifies this
      ensures rows == old(rows) - RowsOf(old(rows), user)
      ensures forall t :: t in rows <==> t in old(rows) && old(rows)[t].user != user
      ensures forall t :: t in rows ==> rows[t] == old(rows)[t]
    {
      rows := rows - RowsOf(rows, user);
    }
  }

  /** An uninterrupted refresh is one run of its three operations. */
  lemma RefreshIsARun(s: State, request: Request, token: Token, next: Token, now: int, expiresAt: int, userActive: bool)
    requires RowsIssued(s) && request !in s.found && request !in s.pending && next !in s.origin
    ensures Run(s, [Find(request, token, now), Delete(request), Create(request, next, expiresAt, userActive)]).rows
         == Refreshed(s.rows, token, next, now, expiresAt, userActive)
  {
    RunThree(s, Find(request, token, now), Delete(request), Create(request, next, expiresAt, userActive));
  }
}
