/** The session helpers as they really run: command by command, interleaved, any of them stopping
    anywhere. Exactly when a live session is missing from its user's index, and exactly when it
    outlives a revocation of all. */
module SessionCommands {

  import opened Optional
  import opened Sessions

  datatype Command =
    | Set(user: User, token: Token, csrf: string)
    | Add(user: User, token: Token)
    | Touch(user: User)
    | Del(token: Token)
    | Rem(user: User, token: Token)
    | Scan(user: User)
    | Drop(user: User)
    | Pass(seconds: nat)

  function Effect(s: Store, c: Command): Store
  {
    match c
    case Set(user, token, csrf) => SetSession(s, token, Record(user, csrf))
    case Add(user, token) => AddMember(s, user, token)
    case Touch(user) => ExpireIndex(s, user)
    case Del(token) => DeleteSession(s, token)
    case Rem(user, token) => RemoveMember(s, user, token)
    case Scan(_) => s
    case Drop(user) => DeleteIndex(s, user)
    case Pass(seconds) => Advance(s, seconds)
  }

  /** A command and the helper that issued it. */
  datatype Entry = Entry(id: nat, command: Command)

  type Log = seq<Entry>

  function Exec(log: Log): Store
  {
    if log == [] then Store(0, map[], map[]) else Effect(Exec(log[..|log| - 1]), log[|log| - 1].command)
  }

  function Clock(log: Log): int
  {
    if log == [] then 0
    else Clock(log[..|log| - 1]) + if log[|log| - 1].command.Pass? then log[|log| - 1].command.seconds else 0
  }

  // ---- who may issue what ----

  /** `create_session`, `revoke_session` and `revoke_all_sessions`, each call of which is one helper. */
  datatype Helper =
    | SignIn(user: User, token: Token, csrf: string)
    | SignOut(token: Token, user: User)
    | SignOutAll(user: User)

  predicate Issued(log: Log, id: nat, c: Command)
  {
    Entry(id, c) in log
  }

  predicate Drawn(log: Log, token: Token)
  {
    exists k :: 0 <= k < |log| && log[k].command.Set? && log[k].command.token == token
  }

  /** What a scan at position `p` found. */
  function Found(log: Log, p: nat): set<Token>
    requires p < |log| && log[p].command.Scan?
  {
    Members(Exec(log[..p]), log[p].command.user)
  }

  predicate ScannedAt(log: Log, p: nat, id: nat, user: User)
  {
    p < |log| && log[p] == Entry(id, Scan(user))
  }

  predicate AllDeleted(log: Log, p: nat, id: nat)
    requires p < |log| && log[p].command.Scan?
  {
    forall t :: t in Found(log, p) ==> Issued(log, id, Del(t))
  }

  /** Each helper issues its commands in order and each of them once; a sign-out names a token that has
      been drawn, and a sign-out of all deletes what its scan found before it drops the index. */
  ghost predicate MayIssue(helpers: map<nat, Helper>, past: Log, id: nat, c: Command)
  {
    id in helpers && !Issued(past, id, c) &&
    match helpers[id]
    case SignIn(user, token, csrf) =>
      || c == Set(user, token, csrf)
      || (c == Add(user, token) && Issued(past, id, Set(user, token, csrf)))
      || (c == Touch(user) && Issued(past, id, Add(user, token)))
    case SignOut(token, user) =>
      || (c == Del(token) && Drawn(past, token))
      || (c == Rem(user, token) && Issued(past, id, Del(token)))
    case SignOutAll(user) =>
      || c == Scan(user)
      || (c.Del? && exists p: nat :: ScannedAt(past, p, id, user) && c.token in Found(past, p))
      || (c == Drop(user) && exists p: nat :: ScannedAt(past, p, id, user) && AllDeleted(past, p, id))
  }

  ghost predicate Disciplined(helpers: map<nat, Helper>, log: Log)
  {
    forall n :: 0 <= n < |log| ==> log[n].command.Pass? || MayIssue(helpers, log[..n], log[n].id, log[n].command)
  }

  /** No two sign-ins draw the same token. */
  predicate FreshTokens(helpers: map<nat, Helper>)
  {
    forall a, b :: a in helpers && b in helpers && a != b && helpers[a].SignIn? && helpers[b].SignIn? ==>
      helpers[a].token != helpers[b].token
  }

  // ---- one more command ----

  lemma OneMore(log: Log, e: Entry)
    ensures Exec(log + [e]) == Effect(Exec(log), e.command)
    ensures Clock(log + [e]) == Clock(log) + if e.command.Pass? then e.command.seconds else 0
    ensures forall i :: 0 <= i <= |log| ==> (log + [e])[..i] == log[..i]
  {
    assert (log + [e])[..|log|] == log;
  }

  lemma {:induction false} NowIsClock(log: Log)
    ensures Exec(log).now == Clock(log)
    decreases |log|
  {
    if log != [] {
      var front := log[..|log| - 1];
      NowIsClock(front);
      hide Exec, Clock;
      assert log == front + [log[|log| - 1]];
      OneMore(front, log[|log| - 1]);
    }
  }

  lemma {:induction false} ClockGrows(log: Log, i: nat)
    requires i <= |log|
    ensures Clock(log[..i]) <= Clock(log)
    decreases |log|
  {
    if i < |log| {
      assert log[..|log| - 1][..i] == log[..i];
      ClockGrows(log[..|log| - 1], i);
    } else {
      assert log[..i] == log;
    }
  }

  // ---- when a session is live ----

  predicate SetAt(log: Log, i: nat, token: Token)
  {
    i < |log| && log[i].command.Set? && log[i].command.token == token
  }

  /** Sign-in command number `i` stored the session, it is under a week old, and nobody deleted it since. */
  predicate StandsSince(log: Log, i: nat, token: Token)
  {
    && SetAt(log, i, token)
    && Clock(log) < Clock(log[..i]) + 604800
    && forall x :: i < x < |log| ==> log[x].command != Del(token)
  }

  ghost predicate OneSet(log: Log, token: Token)
  {
    forall i: nat, k: nat :: SetAt(log, i, token) && SetAt(log, k, token) ==> i == k
  }

  function RecordAt(log: Log, i: nat): Record
    requires i < |log| && log[i].command.Set?
  {
    Record(log[i].command.user, log[i].command.csrf)
  }

  ghost predicate SessionLogged(log: Log, token: Token)
  {
    var s := Exec(log);
    && (token in s.sessions ==> exists i: nat :: SetAt(log, i, token) && Undeleted(log, i, token))
    && forall i: nat :: SetAt(log, i, token) && Undeleted(log, i, token) ==>
         token in s.sessions && s.sessions[token] == SessionKey(RecordAt(log, i), Clock(log[..i]) + SESSION_TTL_SECONDS)
  }

  predicate Undeleted(log: Log, i: nat, token: Token)
  {
    forall x :: i < x < |log| ==> log[x].command != Del(token)
  }

  lemma {:induction false} SessionFollows(log: Log, token: Token)
    requires OneSet(log, token)
    ensures SessionLogged(log, token)
    decreases |log|
  {
    if log != [] {
      var front, e := log[..|log| - 1], log[|log| - 1];
      assert forall i: nat :: SetAt(front, i, token) ==> SetAt(log, i, token);
      SessionFollows(front, token);
      assert log == front + [e];
      SessionNext(front, e, token);
    }
  }

  lemma SessionNext(log: Log, e: Entry, token: Token)
    requires SessionLogged(log, token) && OneSet(log + [e], token)
    ensures SessionLogged(log + [e], token)
  {
    var more := log + [e];
    OneMore(log, e);
    NowIsClock(log);
    hide Exec, Clock;
    assert more[|log|] == e;
    assert forall i :: 0 <= i < |log| ==> more[i] == log[i];
    forall i: nat
      ensures SetAt(more, i, token) <==> (SetAt(log, i, token) || (i == |log| && e.command.Set? && e.command.token == token))
      ensures i < |log| ==> (Undeleted(more, i, token) <==> Undeleted(log, i, token) && e.command != Del(token))
    {
      if i < |log| && Undeleted(more, i, token) {
        forall x | i < x < |log| ensures log[x].command != Del(token) { assert more[x].command != Del(token); }
      }
    }
    if e.command.Set? && e.command.token == token {
      assert SetAt(more, |log|, token) && Undeleted(more, |log|, token);
      forall i: nat | SetAt(more, i, token) ensures i == |log| {}
    } else {
      hide OneSet;
      var s, after := Exec(log), Exec(more);
      assert token in after.sessions <==> token in s.sessions && e.command != Del(token);
      if token in after.sessions {
        var i: nat :| SetAt(log, i, token) && Undeleted(log, i, token);
        assert SetAt(more, i, token) && Undeleted(more, i, token);
      }
      forall i: nat | SetAt(more, i, token) && Undeleted(more, i, token)
        ensures token in after.sessions
        ensures after.sessions[token] == SessionKey(RecordAt(more, i), Clock(more[..i]) + SESSION_TTL_SECONDS)
      {
        assert SetAt(log, i, token) && Undeleted(log, i, token);
      }
    }
  }

  /** A token resolves exactly when its one SET still stands. */
  lemma ResolvesIff(log: Log, token: Token, record: Record)
    requires OneSet(log, token)
    ensures GetSession(Exec(log), token) == Some(record)
        <==> exists i: nat :: StandsSince(log, i, token) && record == RecordAt(log, i)
  {
    SessionFollows(log, token);
    NowIsClock(log);
    hide Exec, Clock;
    var s := Exec(log);
    if GetSession(s, token) == Some(record) {
      var i: nat :| SetAt(log, i, token) && Undeleted(log, i, token);
      assert StandsSince(log, i, token) && record == RecordAt(log, i);
    }
    if i: nat :| StandsSince(log, i, token) && record == RecordAt(log, i) {
      assert SetAt(log, i, token) && Undeleted(log, i, token);
      assert s.sessions[token] == SessionKey(RecordAt(log, i), Clock(log[..i]) + SESSION_TTL_SECONDS);
    }
  }

  // ---- when a token is in its index ----

  predicate AddAt(log: Log, j: nat, user: User, token: Token)
  {
    j < |log| && log[j].command == Add(user, token)
  }

  ghost predicate OneAdd(log: Log, user: User, token: Token)
  {
    forall j: nat, k: nat :: AddAt(log, j, user, token) && AddAt(log, k, user, token) ==> j == k
  }

  /** After `n` commands the index of `user` is past its time. */
  predicate ExpiredAt(log: Log, n: nat, user: User)
  {
    n <= |log| && user in Exec(log[..n]).index && Gone(Exec(log[..n]).index[user].expires, Exec(log[..n]).now)
  }

  predicate DroppedSince(log: Log, j: nat, user: User)
  {
    exists d :: j < d < |log| && log[d].command == Drop(user)
  }

  predicate ExpiredSince(log: Log, j: nat, user: User)
  {
    exists n :: j < n <= |log| && ExpiredAt(log, n, user)
  }

  predicate RemovedSince(log: Log, j: nat, user: User, token: Token)
  {
    exists x :: j < x < |log| && log[x].command == Rem(user, token)
  }

  /** SADD number `j` still has its effect. */
  predicate ListedSince(log: Log, j: nat, user: User, token: Token)
  {
    && AddAt(log, j, user, token)
    && !DroppedSince(log, j, user) && !ExpiredSince(log, j, user) && !RemovedSince(log, j, user, token)
  }

  predicate Harmless(s: Store, c: Command, user: User, token: Token)
  {
    && c != Drop(user) && c != Rem(user, token)
    && !(user in Effect(s, c).index && Gone(Effect(s, c).index[user].expires, Effect(s, c).now))
  }

  lemma EffectOnMember(s: Store, c: Command, user: User, token: Token)
    ensures c == Add(user, token) ==> token in Members(Effect(s, c), user)
    ensures c != Add(user, token) ==>
      (token in Members(Effect(s, c), user) <==> token in Members(s, user) && Harmless(s, c, user, token))
  {
  }

  /** The command neither takes the token out of its index nor finds the index past its time. */
  predicate Spares(log: Log, e: Entry, user: User, token: Token)
  {
    e.command != Drop(user) && e.command != Rem(user, token) && !ExpiredAt(log + [e], |log| + 1, user)
  }

  lemma ListedNext(log: Log, e: Entry, j: nat, user: User, token: Token)
    requires j < |log|
    ensures ListedSince(log + [e], j, user, token) <==> ListedSince(log, j, user, token) && Spares(log, e, user, token)
  {
    var more := log + [e];
    OneMore(log, e);
    hide Exec;
    assert forall i :: 0 <= i < |log| ==> more[i] == log[i];
    assert more[|log|] == e;
    assert forall n: nat :: n <= |log| ==> (ExpiredAt(more, n, user) <==> ExpiredAt(log, n, user));
    hide ExpiredAt;
    assert DroppedSince(more, j, user) <==> DroppedSince(log, j, user) || e.command == Drop(user) by {
      if d :| j < d < |log| && log[d].command == Drop(user) { assert more[d].command == Drop(user); }
      if e.command == Drop(user) { assert more[|log|].command == Drop(user); }
    }
    assert RemovedSince(more, j, user, token) <==> RemovedSince(log, j, user, token) || e.command == Rem(user, token) by {
      if x :| j < x < |log| && log[x].command == Rem(user, token) { assert more[x].command == Rem(user, token); }
      if e.command == Rem(user, token) { assert more[|log|].command == Rem(user, token); }
    }
    assert ExpiredSince(more, j, user) <==> ExpiredSince(log, j, user) || ExpiredAt(more, |log| + 1, user);
  }

  /** A token is in the unexpired index exactly while its SADD has its effect. */
  lemma {:induction false} MemberIff(log: Log, user: User, token: Token)
    ensures token in Members(Exec(log), user) <==> exists j: nat :: ListedSince(log, j, user, token)
    decreases |log|
  {
    hide ListedSince;
    if log == [] {
      NothingListed(user, token);
    } else {
      var front, e := log[..|log| - 1], log[|log| - 1];
      assert log == front + [e];
      MemberIff(front, user, token);
      MemberNext(front, e, user, token);
    }
  }

  lemma NothingListed(user: User, token: Token)
    ensures token !in Members(Exec([]), user) && forall j: nat :: !ListedSince([], j, user, token)
  {
  }

  lemma MemberNext(log: Log, e: Entry, user: User, token: Token)
    requires token in Members(Exec(log), user) <==> exists j: nat :: ListedSince(log, j, user, token)
    ensures token in Members(Exec(log + [e]), user) <==> exists j: nat :: ListedSince(log + [e], j, user, token)
  {
    var more := log + [e];
    OneMore(log, e);
    EffectOnMember(Exec(log), e.command, user, token);
    ExpiredNow(more, user);
    forall j: nat | j < |log|
      ensures ListedSince(more, j, user, token) <==> ListedSince(log, j, user, token) && Spares(log, e, user, token)
    {
      ListedNext(log, e, j, user, token);
    }
    LastListed(log, e, user, token);
    NotBehind(more, user, token);
    NotBehind(log, user, token);
    hide Exec, ListedSince, ExpiredAt, Effect, Members;
    if e.command == Add(user, token) {
      assert ListedSince(more, |log|, user, token);
    } else if token in Members(Exec(more), user) {
      var j: nat :| ListedSince(log, j, user, token);
      assert ListedSince(more, j, user, token);
    }
  }

  lemma NotBehind(log: Log, user: User, token: Token)
    ensures forall j: nat :: ListedSince(log, j, user, token) ==> j < |log|
  {
  }

  lemma ExpiredNow(log: Log, user: User)
    ensures ExpiredAt(log, |log|, user)
        <==> user in Exec(log).index && Gone(Exec(log).index[user].expires, Exec(log).now)
  {
    assert log[..|log|] == log;
  }

  lemma LastListed(log: Log, e: Entry, user: User, token: Token)
    ensures ListedSince(log + [e], |log|, user, token) <==> e.command == Add(user, token)
  {
    var more := log + [e];
    OneMore(log, e);
    ExpiredNow(more, user);
    if e.command == Add(user, token) {
      EffectOnMember(Exec(log), e.command, user, token);
    }
    hide Exec, Effect;
  }

  // ---- what the discipline of the helpers gives ----

  lemma IssuedOnce(helpers: map<nat, Helper>, log: Log, i: nat, k: nat)
    requires Disciplined(helpers, log) && i < k < |log| && !log[k].command.Pass?
    ensures log[i] != log[k]
  {
    assert log[..k][i] == log[i];
    assert !Issued(log[..k], log[k].id, log[k].command);
  }

  lemma SetIs(helpers: map<nat, Helper>, log: Log, i: nat, token: Token)
    requires Disciplined(helpers, log) && SetAt(log, i, token)
    ensures log[i].id in helpers && helpers[log[i].id] == SignIn(log[i].command.user, token, log[i].command.csrf)
  {
    assert MayIssue(helpers, log[..i], log[i].id, log[i].command);
  }

  lemma SetOnce(helpers: map<nat, Helper>, log: Log, token: Token)
    requires Disciplined(helpers, log) && FreshTokens(helpers)
    ensures OneSet(log, token)
  {
    forall i: nat, k: nat | SetAt(log, i, token) && SetAt(log, k, token) && i < k ensures false {
      SetIs(helpers, log, i, token);
      SetIs(helpers, log, k, token);
      IssuedOnce(helpers, log, i, k);
    }
  }

  /** An SADD follows the SET of its sign-in. */
  lemma AddFollows(helpers: map<nat, Helper>, log: Log, j: nat, user: User, token: Token) returns (i: nat)
    requires Disciplined(helpers, log) && AddAt(log, j, user, token)
    ensures i < j && SetAt(log, i, token) && log[i].command.user == user && log[i].id == log[j].id
  {
    var id := log[j].id;
    assert MayIssue(helpers, log[..j], id, log[j].command);
    var c := helpers[id].csrf;
    i :| 0 <= i < j && log[..j][i] == Entry(id, Set(user, token, c));
  }

  lemma AddOnce(helpers: map<nat, Helper>, log: Log, user: User, token: Token)
    requires Disciplined(helpers, log) && FreshTokens(helpers)
    ensures OneAdd(log, user, token)
  {
    forall j: nat, k: nat | AddAt(log, j, user, token) && AddAt(log, k, user, token) && j < k ensures false {
      var i := AddFollows(helpers, log, j, user, token);
      var l := AddFollows(helpers, log, k, user, token);
      SetOnce(helpers, log, token);
      IssuedOnce(helpers, log, j, k);
    }
  }

  lemma PrefixDisciplined(helpers: map<nat, Helper>, log: Log, n: nat)
    requires Disciplined(helpers, log) && n <= |log|
    ensures Disciplined(helpers, log[..n])
  {
    forall k | 0 <= k < n ensures log[..n][..k] == log[..k] && log[..n][k] == log[k] {}
    hide MayIssue;
  }

  /** A session is deleted only after it was stored. */
  lemma DelFollows(helpers: map<nat, Helper>, log: Log, x: nat, token: Token) returns (i: nat)
    requires Disciplined(helpers, log) && x < |log| && log[x].command == Del(token)
    ensures i < x && SetAt(log, i, token)
  {
    var past, id := log[..x], log[x].id;
    assert MayIssue(helpers, past, id, Del(token));
    if helpers[id].SignOut? {
      i :| 0 <= i < |past| && past[i].command.Set? && past[i].command.token == token;
    } else {
      var p: nat :| ScannedAt(past, p, id, helpers[id].user) && token in Found(past, p);
      i := FoundWasSet(helpers, log, x, p, token);
    }
  }

  lemma FoundWasSet(helpers: map<nat, Helper>, log: Log, x: nat, p: nat, token: Token) returns (i: nat)
    requires Disciplined(helpers, log) && p < x <= |log| && log[p].command.Scan? && token in Found(log[..x], p)
    ensures i < p && SetAt(log, i, token) && log[i].command.user == log[p].command.user
  {
    var user := log[p].command.user;
    assert log[..x][p] == log[p] && log[..x][..p] == log[..p];
    MemberIff(log[..p], user, token);
    var j: nat :| ListedSince(log[..p], j, user, token);
    assert AddAt(log, j, user, token);
    i := AddFollows(helpers, log, j, user, token);
  }

  lemma RemFollows(helpers: map<nat, Helper>, log: Log, x: nat, user: User, token: Token) returns (y: nat)
    requires Disciplined(helpers, log) && x < |log| && log[x].command == Rem(user, token)
    ensures y < x && log[y].command == Del(token)
  {
    var id := log[x].id;
    assert MayIssue(helpers, log[..x], id, Rem(user, token));
    y :| 0 <= y < x && log[..x][y] == Entry(id, Del(token));
  }

  // ---- exactly when a live session is missing from its index ----

  /** After SADD number `j` the index ran out of time, and no EXPIRE had come in between. */
  predicate ExpiredUntouched(log: Log, j: nat, user: User)
  {
    exists n :: j < n <= |log| && ExpiredAt(log, n, user) && Untouched(log, j, n, user)
  }

  predicate Untouched(log: Log, j: nat, n: nat, user: User)
    requires n <= |log|
  {
    forall m :: j < m < n ==> log[m].command != Touch(user)
  }

  /** The SADD has not come; or an index was dropped behind it; or the index ran out of time between
      it and the EXPIRE. */
  ghost predicate Unindexed(log: Log, user: User, token: Token)
  {
    forall j: nat :: AddAt(log, j, user, token) ==> DroppedSince(log, j, user) || ExpiredUntouched(log, j, user)
  }

  lemma FirstExpiry(log: Log, j: nat, user: User) returns (n: nat)
    requires ExpiredSince(log, j, user)
    ensures j < n <= |log| && ExpiredAt(log, n, user)
    ensures forall k :: j < k < n ==> !ExpiredAt(log, k, user)
  {
    hide ExpiredAt;
    n := j + 1;
    while !ExpiredAt(log, n, user)
      invariant j < n <= |log|
      invariant exists k :: n <= k <= |log| && ExpiredAt(log, k, user)
      invariant forall k :: j < k < n ==> !ExpiredAt(log, k, user)
      decreases |log| - n
    {
      n := n + 1;
    }
  }

  /** The token is still listed at every moment before anything happens to its index. */
  lemma ListedUntil(log: Log, j: nat, k: nat, user: User, token: Token)
    requires AddAt(log, j, user, token) && j < k <= |log|
    requires !DroppedSince(log, j, user) && !RemovedSince(log, j, user, token)
    requires forall n :: j < n <= k ==> !ExpiredAt(log, n, user)
    ensures token in Members(Exec(log[..k]), user)
  {
    var front := log[..k];
    hide Exec;
    forall n | j < n <= k ensures !ExpiredAt(front, n, user) {
      assert front[..n] == log[..n];
      assert !ExpiredAt(log, n, user);
    }
    hide ExpiredAt;
    assert forall x :: 0 <= x < k ==> front[x] == log[x];
    assert ListedSince(front, j, user, token);
    MemberIff(front, user, token);
  }

  /** An EXPIRE on a listed token's index puts its end off by the whole lifetime of a session. */
  lemma {:induction false} TouchHolds(log: Log, j: nat, m: nat, k: nat, user: User, token: Token)
    requires AddAt(log, j, user, token) && j < m < k <= |log| && log[m].command == Touch(user)
    requires !DroppedSince(log, j, user) && !RemovedSince(log, j, user, token)
    requires forall n :: j < n < k ==> !ExpiredAt(log, n, user)
    ensures user in Exec(log[..k]).index && Exec(log[..k]).index[user].expires.Some?
    ensures Exec(log[..k]).index[user].expires.value >= Clock(log[..m]) + SESSION_TTL_SECONDS
    decreases k
  {
    var front, e := log[..k - 1], log[k - 1];
    assert log[..k] == front + [e];
    hide ExpiredAt;
    ListedUntil(log, j, k - 1, user, token);
    NowIsClock(front);
    ClockGrows(front, m);
    assert front[..m] == log[..m];
    hide Exec, Clock;
    OneMore(front, e);
    if m < k - 1 { TouchHolds(log, j, m, k - 1, user, token); }
    TouchedAgain(Exec(front), e.command, user, token, Clock(log[..m]) + SESSION_TTL_SECONDS);
    assert e.command != Drop(user) && e.command != Rem(user, token);
  }

  lemma TouchedAgain(s: Store, c: Command, user: User, token: Token, end: int)
    requires token in Members(s, user) && c != Drop(user) && c != Rem(user, token)
    ensures c == Touch(user) ==>
      && user in Effect(s, c).index && Effect(s, c).index[user].expires == Some(s.now + SESSION_TTL_SECONDS)
    ensures s.index[user].expires.Some? && s.index[user].expires.value >= end && end <= s.now + SESSION_TTL_SECONDS ==>
      && user in Effect(s, c).index && Effect(s, c).index[user].expires.Some?
      && Effect(s, c).index[user].expires.value >= end
  {
    if c.Rem? && c.user == user { assert token in s.index[user].tokens - {c.token}; }
  }

  /** The first expiry behind the SADD of a live session comes before any EXPIRE. */
  lemma FirstExpiryUntouched(log: Log, i: nat, j: nat, n: nat, user: User, token: Token)
    requires AddAt(log, j, user, token) && i < j < n <= |log| && ExpiredAt(log, n, user)
    requires Clock(log) < Clock(log[..i]) + SESSION_TTL_SECONDS
    requires !DroppedSince(log, j, user) && !RemovedSince(log, j, user, token)
    requires forall k :: j < k < n ==> !ExpiredAt(log, k, user)
    ensures Untouched(log, j, n, user)
  {
    forall m | j < m < n ensures log[m].command != Touch(user) {
      if log[m].command == Touch(user) {
        TouchHolds(log, j, m, n, user, token);
        NowIsClock(log[..n]);
        ClockGrows(log, n);
        assert log[..m][..i] == log[..i];
        ClockGrows(log[..m], i);
      }
    }
  }

  /** A live session is missing from its user's unexpired index exactly when its SADD has not come, or
      an index was dropped behind it, or the index ran out of time between it and the EXPIRE. */
  lemma MissingIff(helpers: map<nat, Helper>, log: Log, i: nat, token: Token)
    requires Disciplined(helpers, log) && FreshTokens(helpers) && StandsSince(log, i, token)
    ensures
      var user := log[i].command.user;
      token !in Members(Exec(log), user) <==> Unindexed(log, user, token)
  {
    var user := log[i].command.user;
    SetOnce(helpers, log, token);
    AddOnce(helpers, log, user, token);
    MemberIff(log, user, token);
    hide Exec, ExpiredAt, Disciplined, MayIssue, FreshTokens, Members;
    forall j: nat | AddAt(log, j, user, token)
      ensures ListedSince(log, j, user, token) <==> !(DroppedSince(log, j, user) || ExpiredUntouched(log, j, user))
    {
      MissingAt(helpers, log, i, j, token);
    }
    hide DroppedSince, ExpiredUntouched, OneSet;
    assert forall j: nat :: ListedSince(log, j, user, token) ==> AddAt(log, j, user, token);
    hide ListedSince;
  }

  lemma MissingAt(helpers: map<nat, Helper>, log: Log, i: nat, j: nat, token: Token)
    requires Disciplined(helpers, log) && OneSet(log, token) && StandsSince(log, i, token)
    requires AddAt(log, j, log[i].command.user, token)
    ensures
      var user := log[i].command.user;
      ListedSince(log, j, user, token) <==> !(DroppedSince(log, j, user) || ExpiredUntouched(log, j, user))
  {
    var user := log[i].command.user;
    var k := AddFollows(helpers, log, j, user, token);
    NotRemoved(helpers, log, i, j, token);
    hide Disciplined, ExpiredAt;
    if ExpiredSince(log, j, user) && !DroppedSince(log, j, user) {
      var n := FirstExpiry(log, j, user);
      FirstExpiryUntouched(log, i, j, n, user, token);
    }
  }

  lemma NotRemoved(helpers: map<nat, Helper>, log: Log, i: nat, j: nat, token: Token)
    requires Disciplined(helpers, log) && OneSet(log, token) && StandsSince(log, i, token)
    ensures !RemovedSince(log, j, log[i].command.user, token)
  {
    var user := log[i].command.user;
    forall x | j < x < |log| ensures log[x].command != Rem(user, token) {
      if log[x].command == Rem(user, token) {
        var y := RemFollows(helpers, log, x, user, token);
        var k := DelFollows(helpers, log, y, token);
      }
    }
  }

  lemma UnlistedStays(log: Log, n: nat, j: nat, user: User, token: Token)
    requires n <= |log| && j < n && (DroppedSince(log[..n], j, user) || ExpiredUntouched(log[..n], j, user))
    ensures !ListedSince(log, j, user, token)
  {
    var front := log[..n];
    hide Exec;
    if DroppedSince(front, j, user) {
      var d :| j < d < |front| && front[d].command == Drop(user);
      assert log[d].command == Drop(user);
    } else {
      var k :| j < k <= |front| && ExpiredAt(front, k, user) && Untouched(front, j, k, user);
      assert front[..k] == log[..k];
      assert ExpiredAt(log, k, user);
      assert ExpiredSince(log, j, user);
    }
  }

  /** What is lost stays lost: no later command brings the token back into the index. */
  lemma LostForGood(helpers: map<nat, Helper>, log: Log, n: nat, j: nat, user: User, token: Token)
    requires Disciplined(helpers, log) && FreshTokens(helpers) && n <= |log|
    requires AddAt(log[..n], j, user, token) && Unindexed(log[..n], user, token)
    ensures token !in Members(Exec(log), user)
  {
    UnlistedStays(log, n, j, user, token);
    AddOnce(helpers, log, user, token);
    MemberIff(log, user, token);
    hide Disciplined, FreshTokens, Members, Exec;
    assert AddAt(log, j, user, token);
    assert forall k: nat :: ListedSince(log, k, user, token) ==> AddAt(log, k, user, token);
  }

  // ---- exactly when a session outlives a revocation of all ----

  /** Revocation `id` scanned at `p` and dropped the index with the last command. */
  ghost predicate Completed(log: Log, id: nat, user: User, p: nat)
  {
    log != [] && ScannedAt(log, p, id, user) && log[|log| - 1] == Entry(id, Drop(user))
  }

  /** The session stands as far as everybody but revocation `id` is concerned. */
  predicate StandsWithout(log: Log, i: nat, token: Token, id: nat)
  {
    && SetAt(log, i, token)
    && Clock(log) < Clock(log[..i]) + 604800
    && forall x :: i < x < |log| && log[x].id != id ==> log[x].command != Del(token)
  }

  /** A helper scans once. */
  lemma ScannedOnce(helpers: map<nat, Helper>, log: Log, id: nat, user: User, p: nat, q: nat)
    requires Disciplined(helpers, log) && ScannedAt(log, p, id, user) && ScannedAt(log, q, id, user)
    ensures p == q
  {
    if p < q {
      IssuedOnce(helpers, log, p, q);
    } else if q < p {
      IssuedOnce(helpers, log, q, p);
    }
  }

  lemma FoundEarlier(log: Log, n: nat, p: nat)
    requires p < n <= |log| && log[p].command.Scan?
    ensures log[..n][p] == log[p] && Found(log[..n], p) == Found(log, p)
  {
    assert log[..n][..p] == log[..p];
  }

  lemma DeletedWasFound(helpers: map<nat, Helper>, log: Log, id: nat, user: User, p: nat, x: nat, token: Token)
    requires Disciplined(helpers, log) && ScannedAt(log, p, id, user)
    requires x < |log| && log[x] == Entry(id, Del(token))
    ensures p < x && token in Found(log, p)
  {
    var past := log[..x];
    assert MayIssue(helpers, log[..p], id, Scan(user));
    assert MayIssue(helpers, past, id, Del(token));
    var q: nat :| ScannedAt(past, q, id, user) && token in Found(past, q);
    ScannedOnce(helpers, log, id, user, p, q);
    hide Disciplined, MayIssue, Exec;
    FoundEarlier(log, x, p);
  }

  lemma FoundIsDeleted(helpers: map<nat, Helper>, log: Log, id: nat, user: User, p: nat, token: Token) returns (x: nat)
    requires Disciplined(helpers, log) && Completed(log, id, user, p) && token in Found(log, p)
    ensures p < x < |log| && log[x] == Entry(id, Del(token))
  {
    var d := |log| - 1;
    var past := log[..d];
    assert MayIssue(helpers, log[..p], id, Scan(user));
    assert MayIssue(helpers, past, id, Drop(user));
    var q: nat :| ScannedAt(past, q, id, user) && AllDeleted(past, q, id);
    ScannedOnce(helpers, log, id, user, p, q);
    FoundEarlier(log, d, p);
    hide MayIssue, Exec;
    assert Issued(past, id, Del(token));
    x :| 0 <= x < d && past[x] == Entry(id, Del(token));
    DeletedWasFound(helpers, log, id, user, p, x, token);
  }

  /** A session outlives a completed revocation of all of its user's exactly when the scan did not find it. */
  lemma OutlivesIffUnfound(helpers: map<nat, Helper>, log: Log, id: nat, user: User, p: nat, i: nat, token: Token)
    requires Disciplined(helpers, log) && FreshTokens(helpers) && Completed(log, id, user, p)
    requires StandsWithout(log, i, token, id)
    ensures StandsSince(log, i, token) <==> token !in Found(log, p)
  {
    if token in Found(log, p) {
      SetOnce(helpers, log, token);
      var x := FoundIsDeleted(helpers, log, id, user, p, token);
      assert log[..|log|] == log;
      var k := FoundWasSet(helpers, log, |log|, p, token);
      assert k == i;
    } else {
      forall x | i < x < |log| ensures log[x].command != Del(token) {
        if log[x].id == id && log[x].command == Del(token) {
          DeletedWasFound(helpers, log, id, user, p, x, token);
        }
      }
    }
  }

  /** A user's session outlives a completed revocation of all of that user's sessions exactly when it
      was stored after the scan, or was missing from the index at the scan: its SADD had not come, or
      the index had been dropped or had run out of time behind it. */
  lemma OutlivesIff(helpers: map<nat, Helper>, log: Log, id: nat, user: User, p: nat, i: nat, token: Token)
    requires Disciplined(helpers, log) && FreshTokens(helpers) && Completed(log, id, user, p)
    requires StandsWithout(log, i, token, id) && log[i].command.user == user
    ensures StandsSince(log, i, token) <==> p < i || Unindexed(log[..p], user, token)
  {
    OutlivesIffUnfound(helpers, log, id, user, p, i, token);
    hide MayIssue;
    if p < i {
      if token in Found(log, p) {
        SetOnce(helpers, log, token);
        assert log[..|log|] == log;
        var k := FoundWasSet(helpers, log, |log|, p, token);
      }
    } else {
      PrefixDisciplined(helpers, log, p);
      StoodAtScan(helpers, log, id, user, p, i, token);
      MissingIff(helpers, log[..p], i, token);
    }
  }

  lemma StoodAtScan(helpers: map<nat, Helper>, log: Log, id: nat, user: User, p: nat, i: nat, token: Token)
    requires Disciplined(helpers, log) && ScannedAt(log, p, id, user) && i <= p
    requires StandsWithout(log, i, token, id)
    ensures StandsSince(log[..p], i, token)
  {
    var front := log[..p];
    assert front[..i] == log[..i];
    ClockGrows(log, p);
    hide Exec, Clock;
    forall x | i < x < p ensures front[x].command != Del(token) {
      if log[x] == Entry(id, Del(token)) { DeletedWasFound(helpers, log, id, user, p, x, token); }
    }
  }

  lemma DisciplinedNext(helpers: map<nat, Helper>, log: Log, e: Entry)
    requires Disciplined(helpers, log) && (e.command.Pass? || MayIssue(helpers, log, e.id, e.command))
    ensures Disciplined(helpers, log + [e])
  {
    var more := log + [e];
    assert more[..|log|] == log;
    forall n | 0 <= n < |log| ensures more[n] == log[n] && more[..n] == log[..n] {}
    hide MayIssue;
  }

  /** Both helpers keep their order here, and the revocation completes between the SET and the SADD. */
  lemma RevocationBetweenSetAndAdd(user: User, token: Token, csrf: string)
    ensures
      var helpers := map[1 := SignIn(user, token, csrf), 2 := SignOutAll(user)];
      var log := [Entry(1, Set(user, token, csrf))] + [Entry(2, Scan(user))] + [Entry(2, Drop(user))];
      && Disciplined(helpers, log) && FreshTokens(helpers)
      && Completed(log, 2, user, 1) && StandsSince(log, 0, token)
  {
    var helpers := map[1 := SignIn(user, token, csrf), 2 := SignOutAll(user)];
    var first := [Entry(1, Set(user, token, csrf))];
    var second := first + [Entry(2, Scan(user))];
    var third := second + [Entry(2, Drop(user))];
    OneMore([], first[0]);
    assert [] + first == first;
    assert second[..1] == first && third[..0] == [];
    OneMore(first, second[1]);
    OneMore(second, third[2]);
    assert Disciplined(helpers, []);
    DisciplinedNext(helpers, [], first[0]);
    DisciplinedNext(helpers, first, second[1]);
    assert Found(second, 1) == {};
    assert ScannedAt(second, 1, 2, user) && AllDeleted(second, 1, 2);
    hide Exec, Disciplined;
    DisciplinedNext(helpers, second, third[2]);
  }
}
