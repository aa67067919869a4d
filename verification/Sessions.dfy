/** Server-side sessions on a key/value store whose keys expire, command by command; what the
    helpers do over whole runs, by a log of what happened. */
module Sessions {

  import opened Optional

  type Token = string
  type User = string

  const SESSION_TTL_SECONDS := 7 * 24 * 60 * 60

  datatype Record = Record(user: User, csrf: string)

  datatype SessionKey = SessionKey(record: Record, expires: int)

  /** A set made by SADD alone has no expiry. */
  datatype IndexKey = IndexKey(tokens: set<Token>, expires: Option<int>)

  datatype Store = Store(now: int, sessions: map<Token, SessionKey>, index: map<User, IndexKey>)

  // ---- the commands ----

  predicate Gone(expires: Option<int>, now: int)
  {
    expires.Some? && expires.value <= now
  }

  /** SET with EX. */
  function SetSession(s: Store, token: Token, record: Record): Store
  {
    s.(sessions := s.sessions[token := SessionKey(record, s.now + SESSION_TTL_SECONDS)])
  }

  /** GET. */
  function GetSession(s: Store, token: Token): Option<Record>
  {
    if token in s.sessions && s.now < s.sessions[token].expires
    then Some(s.sessions[token].record)
    else None
  }

  /** SMEMBERS, and what a complete SSCAN yields. */
  function Members(s: Store, user: User): set<Token>
  {
    if user in s.index && !Gone(s.index[user].expires, s.now) then s.index[user].tokens else {}
  }

  /** SADD: a key that is gone is created again, without an expiry. */
  function AddMember(s: Store, user: User, token: Token): Store
  {
    var expires := if user in s.index && !Gone(s.index[user].expires, s.now) then s.index[user].expires else None;
    s.(index := s.index[user := IndexKey(Members(s, user) + {token}, expires)])
  }

  /** EXPIRE: nothing happens to a key that is gone. */
  function ExpireIndex(s: Store, user: User): Store
  {
    if user in s.index && !Gone(s.index[user].expires, s.now)
    then s.(index := s.index[user := s.index[user].(expires := Some(s.now + SESSION_TTL_SECONDS))])
    else s
  }

  /** DEL of a session. */
  function DeleteSession(s: Store, token: Token): Store
  {
    s.(sessions := s.sessions - {token})
  }

  function DeleteSessions(s: Store, tokens: set<Token>): Store
  {
    s.(sessions := s.sessions - tokens)
  }

  /** SREM: a set that loses its last member is gone. */
  function RemoveMember(s: Store, user: User, token: Token): Store
  {
    if user !in s.index then s
    else
      var tokens := s.index[user].tokens - {token};
      if tokens == {} then DeleteIndex(s, user) else s.(index := s.index[user := s.index[user].(tokens := tokens)])
  }

  /** DEL of an index. */
  function DeleteIndex(s: Store, user: User): Store
  {
    s.(index := s.index - {user})
  }

  function Advance(s: Store, seconds: nat): Store
  {
    s.(now := s.now + seconds)
  }

  // ---- the helpers ----

  datatype Event =
    | Created(user: User, token: Token, csrf: string)
    | Revoked(token: Token, named: User)
    | RevokedAll(of: User)
    | Passed(seconds: nat)

  function Effect(s: Store, e: Event): Store
  {
    match e
    case Created(user, token, csrf) => ExpireIndex(AddMember(SetSession(s, token, Record(user, csrf)), user, token), user)
    case Revoked(token, named) => RemoveMember(DeleteSession(s, token), named, token)
    case RevokedAll(of) => DeleteIndex(DeleteSessions(s, Members(s, of)), of)
    case Passed(seconds) => Advance(s, seconds)
  }

  function Run(log: seq<Event>): Store
  {
    if log == [] then Store(0, map[], map[]) else Effect(Run(log[..|log| - 1]), log[|log| - 1])
  }

  // ---- what the log means, without a store ----

  function Clock(log: seq<Event>): int
  {
    if log == [] then 0
    else Clock(log[..|log| - 1]) + (if log[|log| - 1].Passed? then log[|log| - 1].seconds else 0)
  }

  /** What ends the session `token` of `user`, other than its age. */
  predicate Ends(e: Event, user: User, token: Token)
  {
    (e.Revoked? && e.token == token) || (e.RevokedAll? && e.of == user)
  }

  /** Sign-in number `i` created `token`, is under a week old, and nothing ended it since. */
  predicate StandsSince(log: seq<Event>, i: nat, token: Token)
  {
    && i < |log|
    && log[i].Created?
    && log[i].token == token
    && Clock(log) < Clock(log[..i]) + 604800
    && forall j :: i < j < |log| ==> !Ends(log[j], log[i].user, token)
  }

  /** `secrets.token_urlsafe(32)`: no two sign-ins draw the same token. */
  predicate FreshTokens(log: seq<Event>)
  {
    forall i, j :: 0 <= i < j < |log| && log[i].Created? && log[j].Created? ==> log[i].token != log[j].token
  }

  function RecordOf(e: Event): Record
    requires e.Created?
  {
    Record(e.user, e.csrf)
  }

  ghost predicate Standing(log: seq<Event>, token: Token, record: Record)
  {
    exists i: nat :: StandsSince(log, i, token) && record == RecordOf(log[i])
  }

  // ---- the invariant ----

  predicate Live(s: Store, token: Token)
  {
    token in s.sessions && s.now < s.sessions[token].expires
  }

  /** The unexpired session keys are those of the standing sign-ins, and as these left them. */
  ghost predicate SessionsLogged(s: Store, log: seq<Event>)
  {
    && s.now == Clock(log)
    && (forall token :: Live(s, token) ==> exists i: nat :: StandsSince(log, i, token))
    && (forall i: nat, token :: StandsSince(log, i, token) ==>
      token in s.sessions && s.sessions[token] == SessionKey(RecordOf(log[i]), Clock(log[..i]) + SESSION_TTL_SECONDS))
  }

  /** An index lists only tokens that were its own user's. */
  ghost predicate IndexLogged(s: Store, log: seq<Event>)
  {
    forall user, token :: user in s.index && token in s.index[user].tokens ==> Issued(log, user, token)
  }

  ghost predicate Issued(log: seq<Event>, user: User, token: Token)
  {
    exists i :: 0 <= i < |log| && log[i].Created? && log[i].user == user && log[i].token == token
  }

  /** An unexpired session is in its user's unexpired index, which will outlive it. */
  predicate Indexed(s: Store, token: Token)
    requires token in s.sessions
  {
    var user := s.sessions[token].record.user;
    && user in s.index
    && token in s.index[user].tokens
    && s.index[user].expires.Some?
    && s.sessions[token].expires <= s.index[user].expires.value
  }

  predicate IndexComplete(s: Store)
  {
    && (forall token :: token in s.sessions && Live(s, token) ==> Indexed(s, token))
    && (forall token :: token in s.sessions ==> s.sessions[token].expires <= s.now + SESSION_TTL_SECONDS)
  }

  ghost predicate Inv(s: Store, log: seq<Event>)
  {
    SessionsLogged(s, log) && IndexLogged(s, log) && IndexComplete(s)
  }

  // ---- one more event ----

  lemma OneMore(log: seq<Event>, e: Event)
    ensures Run(log + [e]) == Effect(Run(log), e)
    ensures Clock(log + [e]) == Clock(log) + (if e.Passed? then e.seconds else 0)
    ensures forall i :: 0 <= i <= |log| ==> (log + [e])[..i] == log[..i]
  {
    assert (log + [e])[..|log|] == log;
  }

  lemma StaysFresh(log: seq<Event>, e: Event)
    requires FreshTokens(log)
    requires e.Created? ==> forall i :: 0 <= i < |log| && log[i].Created? ==> log[i].token != e.token
    ensures FreshTokens(log + [e])
  {
  }

  lemma StillStands(log: seq<Event>, e: Event, i: nat, token: Token)
    requires i < |log|
    ensures StandsSince(log + [e], i, token)
        <==> (StandsSince(log, i, token)
        && !Ends(e, log[i].user, token)
        && Clock(log + [e]) < Clock(log[..i]) + SESSION_TTL_SECONDS)
  {
    OneMore(log, e);
    var more := log + [e];
    assert forall j :: 0 <= j < |log| ==> more[j] == log[j];
    assert more[|log|] == e;
    if StandsSince(more, i, token) {
      forall j | i < j < |log| ensures !Ends(log[j], log[i].user, token) {
        assert !Ends(more[j], more[i].user, token);
      }
    }
  }

  lemma OnlyOneSignIn(log: seq<Event>, user: User, i: nat, token: Token)
    requires FreshTokens(log) && Issued(log, user, token)
    requires i < |log| && log[i].Created? && log[i].token == token
    ensures log[i].user == user
  {
  }

  /** Whatever is live after one more event has a standing sign-in. */
  lemma LiveStands(s: Store, log: seq<Event>, e: Event, token: Token) returns (i: nat)
    requires Inv(s, log) && FreshTokens(log + [e]) && Live(Effect(s, e), token)
    ensures StandsSince(log + [e], i, token)
  {
    var more := log + [e];
    OneMore(log, e);
    assert more[|log|] == e;
    hide FreshTokens, Clock;
    if e.Created? && e.token == token {
      i := |log|;
    } else {
      assert Live(s, token);
      i :| StandsSince(log, i, token);
      StillStands(log, e, i, token);
      assert s.sessions[token].record.user == log[i].user;
      assert Indexed(s, token);
    }
  }

  lemma LastKept(s: Store, log: seq<Event>, e: Event, token: Token)
    requires StandsSince(log + [e], |log|, token) && s.now == Clock(log)
    ensures token in Effect(s, e).sessions
    ensures Effect(s, e).sessions[token] == SessionKey(RecordOf(e), Clock(log) + SESSION_TTL_SECONDS)
  {
    OneMore(log, e);
    assert (log + [e])[|log|] == e && (log + [e])[..|log|] == log;
  }

  lemma SessionsKept(s: Store, log: seq<Event>, e: Event)
    requires Inv(s, log) && FreshTokens(log + [e])
    ensures SessionsLogged(Effect(s, e), log + [e])
  {
    hide FreshTokens, Clock, Live, StandsSince, Effect, Inv;
    var more, after := log + [e], Effect(s, e);
    NowKept(s, log, e);
    forall token | Live(after, token) ensures exists i: nat :: StandsSince(more, i, token) {
      var i := LiveStands(s, log, e, token);
    }
    forall i: nat, token | StandsSince(more, i, token)
      ensures i < |more| && more[i].Created? && token in after.sessions
      ensures after.sessions[token] == SessionKey(RecordOf(more[i]), Clock(more[..i]) + SESSION_TTL_SECONDS)
    {
      StandsIn(more, i, token);
      if i < |log| {
        StandingKept(s, log, e, i, token);
        assert more[i] == log[i] && more[..i] == log[..i];
      } else {
        LastKept(s, log, e, token);
        assert more[i] == e && more[..i] == log;
      }
    }
  }

  lemma NowKept(s: Store, log: seq<Event>, e: Event)
    requires Inv(s, log)
    ensures s.now == Clock(log) && Effect(s, e).now == Clock(log + [e])
  {
    OneMore(log, e);
  }

  lemma StandsIn(log: seq<Event>, i: nat, token: Token)
    requires StandsSince(log, i, token)
    ensures i < |log| && log[i].Created?
  {
  }

  lemma StandingKept(s: Store, log: seq<Event>, e: Event, i: nat, token: Token)
    requires Inv(s, log) && FreshTokens(log + [e])
    requires i < |log| && StandsSince(log + [e], i, token)
    ensures token in Effect(s, e).sessions
    ensures Effect(s, e).sessions[token] == SessionKey(RecordOf(log[i]), Clock(log[..i]) + SESSION_TTL_SECONDS)
  {
    var more := log + [e];
    StillStands(log, e, i, token);
    assert more[i] == log[i] && more[|log|] == e;
    assert forall j :: 0 <= j < |log| ==> more[j] == log[j];
    assert FreshTokens(log);
    if e.RevokedAll? && token in Members(s, e.of) {
      OnlyOneSignIn(log, e.of, i, token);
    }
  }

  lemma IndexKept(s: Store, log: seq<Event>, e: Event)
    requires IndexLogged(s, log)
    ensures IndexLogged(Effect(s, e), log + [e])
  {
    var more, after := log + [e], Effect(s, e);
    forall user, token | user in after.index && token in after.index[user].tokens
      ensures Issued(more, user, token)
    {
      if e.Created? && user == e.user && token == e.token {
        assert more[|log|] == e;
      } else {
        assert Issued(log, user, token);
        var i :| 0 <= i < |log| && log[i].Created? && log[i].user == user && log[i].token == token;
        assert more[i] == log[i];
      }
    }
  }

  lemma CompleteKept(s: Store, e: Event)
    requires IndexComplete(s)
    ensures IndexComplete(Effect(s, e))
  {
    var after := Effect(s, e);
    forall token | token in after.sessions && Live(after, token) ensures Indexed(after, token) {
      IndexedKept(s, e, token);
    }
  }

  lemma IndexedKept(s: Store, e: Event, token: Token)
    requires IndexComplete(s) && token in Effect(s, e).sessions && Live(Effect(s, e), token)
    ensures Indexed(Effect(s, e), token)
  {
    if e.Created? && token == e.token {
    } else {
      assert token in s.sessions && Live(s, token) && Indexed(s, token);
      var user := s.sessions[token].record.user;
      assert !Gone(s.index[user].expires, s.now) && token in Members(s, user);
    }
  }

  /** Every event keeps the invariant. */
  lemma StepKeeps(s: Store, log: seq<Event>, e: Event)
    requires Inv(s, log) && FreshTokens(log + [e])
    ensures Inv(Effect(s, e), log + [e])
  {
    SessionsKept(s, log, e);
    IndexKept(s, log, e);
    CompleteKept(s, e);
  }

  lemma {:induction false} RunKeeps(log: seq<Event>)
    requires FreshTokens(log)
    ensures Inv(Run(log), log)
  {
    if log != [] {
      var front := log[..|log| - 1];
      assert log == front + [log[|log| - 1]];
      RunKeeps(front);
      StepKeeps(Run(front), front, log[|log| - 1]);
    }
  }

  // ---- the results ----

  /** A token resolves to a record exactly when the sign-in that drew it still stands. */
  lemma ResolvesIffStanding(log: seq<Event>, token: Token, record: Record)
    requires FreshTokens(log)
    ensures GetSession(Run(log), token) == Some(record) <==> Standing(log, token, record)
  {
    RunKeeps(log);
    var s := Run(log);
    if GetSession(s, token) == Some(record) {
      assert Live(s, token);
      var i: nat :| StandsSince(log, i, token);
      assert record == RecordOf(log[i]);
    }
  }

  /** Over every run, the index of a user misses none of the user's sessions. */
  lemma NoSessionUnindexed(log: seq<Event>, token: Token)
    requires FreshTokens(log) && GetSession(Run(log), token).Some?
    ensures token in Members(Run(log), GetSession(Run(log), token).value.user)
  {
    RunKeeps(log);
    assert Live(Run(log), token) && Indexed(Run(log), token);
  }

  /** What is left of an answer once `user` is signed out everywhere. */
  function Without(user: User, answer: Option<Record>): Option<Record>
  {
    if answer.Some? && answer.value.user == user then None else answer
  }

  /** An index never lists somebody else's session. */
  lemma NotAnothers(log: seq<Event>, user: User, token: Token)
    requires FreshTokens(log) && GetSession(Run(log), token).Some?
    requires GetSession(Run(log), token).value.user != user
    ensures token !in Members(Run(log), user)
  {
    RunKeeps(log);
    assert Live(Run(log), token);
    var i: nat :| StandsSince(log, i, token);
    if Issued(log, user, token) {
      OnlyOneSignIn(log, user, i, token);
    }
  }

  /** After `revoke_all_sessions` the user is signed in nowhere, and everybody else as before. */
  lemma RevokeAllIsExact(log: seq<Event>, user: User, token: Token)
    requires FreshTokens(log)
    ensures GetSession(Run(log + [RevokedAll(user)]), token) == Without(user, GetSession(Run(log), token))
  {
    OneMore(log, RevokedAll(user));
    if GetSession(Run(log), token).Some? {
      if GetSession(Run(log), token).value.user == user {
        NoSessionUnindexed(log, token);
      } else {
        NotAnothers(log, user, token);
      }
    }
  }

  // ---- what atomicity is for ----

  /**
   * A sign-in that lands between the scan and the last deletion of a
   * `revoke_all_sessions` loses its index entry, so the next one misses it.
   */
  lemma RevokeAllCanMissASignIn()
    ensures exists s: Store, user: User, token: Token, record: Record ::
      && record.user == user
      && GetSession(Effect(ExpireIndex(DeleteIndex(DeleteSessions(
           AddMember(SetSession(s, token, record), user, token), Members(s, user)), user), user),
           RevokedAll(user)), token) == Some(record)
  {
    var s, token, record := Store(0, map[], map[]), "t", Record("u", "c");
    var raced := ExpireIndex(DeleteIndex(DeleteSessions(
      AddMember(SetSession(s, token, record), "u", token), Members(s, "u")), "u"), "u");
    assert Members(raced, "u") == {};
    assert GetSession(Effect(raced, RevokedAll("u")), token) == Some(record);
  }

  /** An index that expires between the SADD and the EXPIRE of a sign-in takes the new token with it. */
  /** A sign-in, and a second less than a session lasts. */
  lemma AlmostAWeek() returns (log: seq<Event>)
    ensures FreshTokens(log)
    ensures Run(log).now == SESSION_TTL_SECONDS - 1
    ensures "u" in Run(log).index && Run(log).index["u"].expires == Some(SESSION_TTL_SECONDS)
  {
    var first, wait := [Created("u", "old", "c")], Passed(SESSION_TTL_SECONDS - 1);
    log := first + [wait];
    OneMore([], first[0]);
    assert [] + [first[0]] == first;
    OneMore(first, wait);
    assert FreshTokens(log) by { hide Run; }
  }

  lemma IndexCanExpireUnderASignIn()
    ensures exists log: seq<Event>, user: User, token: Token, record: Record ::
      && record.user == user
      && FreshTokens(log)
      && GetSession(Effect(ExpireIndex(Advance(
           AddMember(SetSession(Run(log), token, record), user, token), 1), user),
           RevokedAll(user)), token) == Some(record)
  {
    var log := AlmostAWeek();
    var token, record := "new", Record("u", "c");
    hide Run;
    var s := Run(log);
    assert s.now == SESSION_TTL_SECONDS - 1;
    assert s.index["u"].expires == Some(SESSION_TTL_SECONDS);
    var raced := ExpireIndex(Advance(AddMember(SetSession(s, token, record), "u", token), 1), "u");
    assert Members(raced, "u") == {};
    assert GetSession(Effect(raced, RevokedAll("u")), token) == Some(record);
  }

  lemma CreatedResolves(s: Store, user: User, token: Token, csrf: string)
    ensures GetSession(Effect(s, Created(user, token, csrf)), token) == Some(Record(user, csrf))
    ensures forall other :: other != token ==>
      GetSession(Effect(s, Created(user, token, csrf)), other) == GetSession(s, other)
  {
  }

  lemma RevokedIsGone(s: Store, token: Token, named: User)
    ensures GetSession(Effect(s, Revoked(token, named)), token) == None
    ensures forall other :: other != token ==>
      GetSession(Effect(s, Revoked(token, named)), other) == GetSession(s, other)
  {
  }
}
