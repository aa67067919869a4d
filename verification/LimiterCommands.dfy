/** The limiter's helpers as they really run: command by command, interleaved, any of them stopping anywhere.
    Exactly when a counter has no expiry, and exactly when it locks somebody out for good. */
module LimiterCommands {

  import opened Optional
  import opened LoginLimiter
  import Text

  datatype Command =
    | Increment(key: Bucket)
    | SetExpiry(key: Bucket)
    | Clear(keys: set<Bucket>)
    | Pass(seconds: nat)

  function Apply(s: Store, c: Command): Store
  {
    match c
    case Increment(key) => Incr(s, key)
    case SetExpiry(key) => Expire(s, key, LOGIN_ATTEMPT_WINDOW_SECONDS)
    case Clear(keys) => Delete(s, keys)
    case Pass(seconds) => Advance(s, seconds)
  }

  /** A command and the helper that issued it. */
  datatype Entry = Entry(id: nat, command: Command)

  type Log = seq<Entry>

  function Exec(log: Log): Store
  {
    if log == [] then Store(0, map[]) else Apply(Exec(log[..|log| - 1]), log[|log| - 1].command)
  }

  lemma ExecMore(log: Log, e: Entry)
    ensures Exec(log + [e]) == Apply(Exec(log), e.command)
    ensures forall i :: 0 <= i <= |log| ==> (log + [e])[..i] == log[..i]
    ensures (log + [e])[|log|] == e && log[..|log|] == log
  {
    hide Apply;
    assert (log + [e])[..|log|] == log;
  }

  // ---- counters without an expiry ----

  /** INCR number `i` found no counter. */
  predicate CreatedAt(log: Log, i: nat, key: Bucket)
  {
    i < |log| && log[i].command == Increment(key) && !Alive(Exec(log[..i]), key)
  }

  predicate Settles(c: Command, key: Bucket)
  {
    c == SetExpiry(key) || (c.Clear? && key in c.keys)
  }

  /** No EXPIRE and no DEL of the key has come since, by whomever. */
  predicate LeftAlone(log: Log, i: nat, key: Bucket)
  {
    forall x :: i < x < |log| ==> !Settles(log[x].command, key)
  }

  /** Failures counted from number `i` on. */
  function Increments(log: Log, i: nat, key: Bucket): nat
    requires i <= |log|
    decreases |log|
  {
    if i == |log| then 0
    else Increments(log[..|log| - 1], i, key) + (if log[|log| - 1].command == Increment(key) then 1 else 0)
  }

  predicate Endless(s: Store, key: Bucket)
  {
    key in s.counters && s.counters[key].expires.None?
  }

  ghost predicate Orphan(log: Log, i: nat, key: Bucket)
  {
    CreatedAt(log, i, key) && LeftAlone(log, i, key)
  }

  lemma OrphanNext(log: Log, e: Entry, i: nat, key: Bucket)
    requires i < |log|
    ensures Orphan(log + [e], i, key) <==> Orphan(log, i, key) && !Settles(e.command, key)
    ensures Increments(log + [e], i, key) == Increments(log, i, key) + (if e.command == Increment(key) then 1 else 0)
  {
    hide Settles;
    ExecMore(log, e);
    var more := log + [e];
    assert forall x :: 0 <= x < |log| ==> more[x] == log[x];
    if LeftAlone(more, i, key) {
      forall x | i < x < |log| ensures !Settles(log[x].command, key) { assert !Settles(more[x].command, key); }
    }
    hide Exec;
  }

  lemma LastOrphan(log: Log, e: Entry, key: Bucket)
    ensures Orphan(log + [e], |log|, key) <==> e.command == Increment(key) && !Alive(Exec(log), key)
    ensures Increments(log + [e], |log|, key) == if e.command == Increment(key) then 1 else 0
  {
    ExecMore(log, e);
    assert Increments(log, |log|, key) == 0;
    hide Exec, Alive;
  }

  /** What one command does to a counter. */
  lemma ApplyOnKey(s: Store, c: Command, key: Bucket)
    ensures Endless(s, key) ==> Alive(s, key)
    ensures Endless(Apply(s, c), key) <==>
      (if c == Increment(key) && !Alive(s, key) then true else Endless(s, key) && !Settles(c, key))
    ensures Endless(Apply(s, c), key) ==>
      Apply(s, c).counters[key].count ==
        (if Endless(s, key) then s.counters[key].count + (if c == Increment(key) then 1 else 0) else 1)
  {
  }

  ghost predicate CountIs(log: Log, i: nat, key: Bucket)
    requires i <= |log| && Endless(Exec(log), key)
  {
    Exec(log).counters[key].count == Increments(log, i, key)
  }

  ghost predicate EndlessFollows(log: Log, key: Bucket)
  {
    && (Endless(Exec(log), key) <==> exists i: nat :: Orphan(log, i, key))
    && forall i: nat :: Orphan(log, i, key) ==> i < |log| && Endless(Exec(log), key) && CountIs(log, i, key)
  }

  lemma NothingYet(key: Bucket)
    ensures EndlessFollows([], key)
  {
  }

  lemma FollowsNext(log: Log, e: Entry, key: Bucket)
    requires EndlessFollows(log, key)
    ensures EndlessFollows(log + [e], key)
  {
    hide Orphan, Apply, Alive, Settles, Increments, Endless;
    var more := log + [e];
    ExecMore(log, e);
    hide Exec;
    ApplyOnKey(Exec(log), e.command, key);
    LastOrphan(log, e, key);
    forall i: nat | Orphan(more, i, key)
      ensures i < |more| && Endless(Exec(more), key) && CountIs(more, i, key)
    {
      OrphanWithin(more, i, key);
      if i < |log| {
        OrphanNext(log, e, i, key);
        assert CountIs(log, i, key);
      } else {
        assert !Endless(Exec(log), key);
      }
    }
    if Endless(Exec(more), key) && Endless(Exec(log), key) {
      var i: nat :| Orphan(log, i, key);
      OrphanNext(log, e, i, key);
    }
  }

  lemma OrphanWithin(log: Log, i: nat, key: Bucket)
    requires Orphan(log, i, key)
    ensures i < |log|
  {
  }

  lemma {:induction false} Follows(log: Log, key: Bucket)
    ensures EndlessFollows(log, key)
    decreases |log|
  {
    hide EndlessFollows;
    if log == [] {
      NothingYet(key);
    } else {
      var front := log[..|log| - 1];
      Follows(front, key);
      assert log == front + [log[|log| - 1]];
      FollowsNext(front, log[|log| - 1], key);
    }
  }

  /** Over every run of commands: a counter has no expiry exactly when neither EXPIRE nor DEL came behind the INCR
      that found it missing. */
  lemma EndlessIff(log: Log, key: Bucket)
    ensures Endless(Exec(log), key) <==> exists i: nat :: CreatedAt(log, i, key) && LeftAlone(log, i, key)
  {
    Follows(log, key);
    hide Exec, CreatedAt, LeftAlone, CountIs, Endless;
    if Endless(Exec(log), key) {
      var i: nat :| Orphan(log, i, key);
      assert CreatedAt(log, i, key) && LeftAlone(log, i, key);
    }
    if i: nat :| CreatedAt(log, i, key) && LeftAlone(log, i, key) {
      assert Orphan(log, i, key);
    }
  }

  // ---- locked out for good ----

  /** Six failures in a counter without an expiry. */
  ghost predicate Stuck(log: Log, key: Bucket)
  {
    exists i: nat :: CreatedAt(log, i, key) && LeftAlone(log, i, key) && i <= |log|
      && Increments(log, i, key) >= 6
  }

  lemma StuckIs(log: Log, key: Bucket)
    ensures Stuck(log, key) <==> Endless(Exec(log), key) && Exec(log).counters[key].count >= LOGIN_ATTEMPT_LIMIT
  {
    Follows(log, key);
    hide Exec, CreatedAt, LeftAlone, Increments;
    if Stuck(log, key) {
      var i: nat :| CreatedAt(log, i, key) && LeftAlone(log, i, key) && i <= |log|
        && Increments(log, i, key) >= LOGIN_ATTEMPT_LIMIT;
      assert Orphan(log, i, key) && CountIs(log, i, key);
    }
    if Endless(Exec(log), key) && Exec(log).counters[key].count >= LOGIN_ATTEMPT_LIMIT {
      var i: nat :| Orphan(log, i, key);
      assert CountIs(log, i, key);
    }
  }

  /** How long a counter can still count. */
  function Rest(s: Store, key: Bucket): nat
  {
    if key in s.counters && s.counters[key].expires.Some? && s.counters[key].expires.value > s.now
    then s.counters[key].expires.value - s.now
    else 0
  }

  lemma FullLater(s: Store, key: Bucket, seconds: nat)
    ensures Endless(s, key) && s.counters[key].count >= LOGIN_ATTEMPT_LIMIT ==> Full(Advance(s, seconds), key)
    ensures Full(Advance(s, seconds), key) && seconds >= Rest(s, key) ==>
      Endless(s, key) && s.counters[key].count >= LOGIN_ATTEMPT_LIMIT
  {
  }

  ghost predicate LockedOut(s: Store, address: string, username: string)
  {
    forall seconds: nat :: Limited(Advance(s, seconds), address, username)
  }

  /** However long one waits, the sign-in stays limited exactly when the address or the account has six failures in a
      counter without an expiry. */
  lemma LockedOutIff(log: Log, address: string, username: string)
    ensures LockedOut(Exec(log), address, username)
        <==> Stuck(log, Address(address)) || Stuck(log, Account(Text.Casefold(username)))
  {
    hide Exec, Stuck, Limited, Full, Endless, Advance, Rest;
    var s := Exec(log);
    var a, b := Buckets(address, username)[0], Buckets(address, username)[1];
    StuckIs(log, a);
    StuckIs(log, b);
    forall seconds: nat
      ensures Limited(Advance(s, seconds), address, username)
          <==> Full(Advance(s, seconds), a) || Full(Advance(s, seconds), b)
      ensures Stuck(log, a) ==> Full(Advance(s, seconds), a)
      ensures Stuck(log, b) ==> Full(Advance(s, seconds), b)
    {
      LimitedMeans(Advance(s, seconds), address, username);
      FullLater(s, a, seconds);
      FullLater(s, b, seconds);
    }
    var enough := Rest(s, a) + Rest(s, b);
    FullLater(s, a, enough);
    FullLater(s, b, enough);
    assert LockedOut(s, address, username) ==> Limited(Advance(s, enough), address, username);
  }

  // ---- which helper left it so ----

  /** `record_failed_login` and `clear_login_failures`, each call of which is one helper. */
  datatype Helper =
    | Failing(address: string, username: string)
    | Clearing(address: string, username: string)

  /** The last command helper `id` issued. */
  function LastOf(log: Log, id: nat): (r: Option<nat>)
    ensures r.Some? ==> r.value < |log|
  {
    if log == [] then None
    else if log[|log| - 1].id == id && !log[|log| - 1].command.Pass? then Some(|log| - 1)
    else LastOf(log[..|log| - 1], id)
  }

  /** INCR number `i` answered 1. */
  predicate AnsweredOne(log: Log, i: nat)
    requires i < |log| && log[i].command.Increment?
  {
    Get(Exec(log[..i + 1]), log[i].command.key) == Some(1)
  }

  /** Each helper issues its commands in order: bucket after bucket an INCR, and an EXPIRE if it answered 1. */
  predicate MayIssue(helpers: map<nat, Helper>, past: Log, id: nat, c: Command)
  {
    id in helpers &&
    var keys := Buckets(helpers[id].address, helpers[id].username);
    var last := LastOf(past, id);
    if helpers[id].Clearing? then last.None? && c == Clear(set key | key in keys)
    else if last.None? then c == Increment(keys[0])
    else
      match past[last.value].command
      case Increment(key) =>
        if AnsweredOne(past, last.value) then c == SetExpiry(key) else key == keys[0] && c == Increment(keys[1])
      case SetExpiry(key) => key == keys[0] && c == Increment(keys[1])
      case _ => false
  }

  predicate Disciplined(helpers: map<nat, Helper>, log: Log)
  {
    forall n :: 0 <= n < |log| ==> log[n].command.Pass? || MayIssue(helpers, log[..n], log[n].id, log[n].command)
  }

  lemma {:induction false} LastIs(log: Log, i: nat, n: nat)
    requires i < n <= |log| && !log[i].command.Pass?
    requires forall y :: i < y < n ==> log[y].id != log[i].id || log[y].command.Pass?
    ensures LastOf(log[..n], log[i].id) == Some(i)
    decreases n
  {
    assert log[..n][|log[..n]| - 1] == log[n - 1];
    assert log[..n][..n - 1] == log[..n - 1];
    if i < n - 1 { LastIs(log, i, n - 1); }
  }

  lemma CreatedAnswersOne(log: Log, i: nat, key: Bucket)
    requires CreatedAt(log, i, key)
    ensures AnsweredOne(log, i)
  {
    assert log[..i + 1] == log[..i] + [log[i]];
    ExecMore(log[..i], log[i]);
    hide Exec;
  }

  /** A helper whose INCR answered 1 has nothing to issue but its EXPIRE. */
  lemma OnlyExpiryIsNext(helpers: map<nat, Helper>, log: Log, i: nat, key: Bucket, x: nat)
    requires Disciplined(helpers, log) && CreatedAt(log, i, key) && i < x < |log|
    requires log[x].id == log[i].id && !log[x].command.Pass?
    requires forall y :: i < y < x ==> log[y].id != log[i].id || log[y].command.Pass?
    ensures log[x].command == SetExpiry(key)
  {
    CreatedAnswersOne(log, i, key);
    LastIs(log, i, x);
    hide Exec;
    assert log[..x][i] == log[i] && log[..x][..i + 1] == log[..i + 1];
    assert MayIssue(helpers, log[..x], log[x].id, log[x].command);
  }

  /** A counter without an expiry was left by a helper that stopped right behind its INCR. */
  lemma {:induction false} StoppedBehind(helpers: map<nat, Helper>, log: Log, i: nat, key: Bucket, n: nat)
    requires Disciplined(helpers, log) && CreatedAt(log, i, key) && LeftAlone(log, i, key) && n <= |log|
    ensures forall x :: i < x < n ==> log[x].id != log[i].id || log[x].command.Pass?
    decreases n
  {
    if i + 1 < n {
      StoppedBehind(helpers, log, i, key, n - 1);
      hide Disciplined, CreatedAt;
      var x := n - 1;
      if log[x].id == log[i].id && !log[x].command.Pass? {
        OnlyExpiryIsNext(helpers, log, i, key, x);
      }
    }
  }

  /** A helper that has started has issued all its commands. */
  predicate Done(helpers: map<nat, Helper>, log: Log, id: nat)
  {
    id in helpers &&
    var last := LastOf(log, id);
    last.Some? &&
    match log[last.value].command
    case Increment(key) => key.Account? && !AnsweredOne(log, last.value)
    case SetExpiry(key) => key.Account?
    case _ => true
  }

  lemma CreatorNotDone(helpers: map<nat, Helper>, log: Log, i: nat, key: Bucket)
    requires Disciplined(helpers, log) && CreatedAt(log, i, key) && LeftAlone(log, i, key)
    ensures !Done(helpers, log, log[i].id)
  {
    StoppedBehind(helpers, log, i, key, |log|);
    LastIs(log, i, |log|);
    CreatedAnswersOne(log, i, key);
    hide Disciplined, MayIssue, Exec;
    assert log[..|log|] == log;
  }

  /** Where every helper that started has come to its end, every counter has an expiry. */
  lemma NoneStoppedNoneEndless(helpers: map<nat, Helper>, log: Log, key: Bucket)
    requires Disciplined(helpers, log)
    requires forall n :: 0 <= n < |log| && !log[n].command.Pass? ==> Done(helpers, log, log[n].id)
    ensures !Endless(Exec(log), key)
  {
    hide Disciplined, Exec, Done, LeftAlone;
    EndlessIff(log, key);
    if i: nat :| CreatedAt(log, i, key) && LeftAlone(log, i, key) {
      CreatorNotDone(helpers, log, i, key);
    }
  }

  /** Six sign-ins that fail from one address, each under way at its first INCR. */
  function SixFailures(address: string): Log
  {
    seq(6, (k: nat) => Entry(k, Increment(Address(address))))
  }

  function SixHelpers(address: string, username: string): map<nat, Helper>
  {
    var each := Failing(address, username);
    map[0 := each, 1 := each, 2 := each, 3 := each, 4 := each, 5 := each]
  }

  lemma {:induction false} SixFailuresUpTo(address: string, n: nat)
    requires n <= 6
    ensures Increments(SixFailures(address)[..n], 0, Address(address)) == n
    ensures forall id: nat :: id >= n ==> LastOf(SixFailures(address)[..n], id).None?
    decreases n
  {
    if n > 0 {
      SixFailuresUpTo(address, n - 1);
      var log := SixFailures(address);
      assert log[..n][..n - 1] == log[..n - 1] && log[..n][n - 1] == log[n - 1];
    }
  }

  /** A run the helpers can make: its first INCR is not followed by an EXPIRE, and the address stays limited, whoever
      signs in from it and however long they wait. */
  lemma StoppedHelperLocksOut(address: string, username: string)
    ensures Disciplined(SixHelpers(address, username), SixFailures(address))
    ensures LockedOut(Exec(SixFailures(address)), address, username)
  {
    var log := SixFailures(address);
    assert log[..0] == [] && log[..6] == log;
    assert CreatedAt(log, 0, Address(address));
    SixFailuresUpTo(address, 6);
    forall n | 0 <= n < |log|
      ensures MayIssue(SixHelpers(address, username), log[..n], log[n].id, log[n].command)
    {
      SixFailuresUpTo(address, n);
    }
    hide Exec;
    assert Stuck(log, Address(address));
    LockedOutIff(log, address, username);
  }
}
