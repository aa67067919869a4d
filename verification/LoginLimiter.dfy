/** The sign-in limiter: expiring counters for addresses and accounts, and a log of attempts that
    says what they mean without any counter. */
module LoginLimiter {

  import opened Optional
  import Text

  const LOGIN_ATTEMPT_LIMIT := 6
  const LOGIN_ATTEMPT_WINDOW_SECONDS := 15 * 60

  datatype Bucket = Address(address: string) | Account(name: string)

  datatype Counter = Counter(count: int, expires: Option<int>)

  datatype Store = Store(now: int, counters: map<Bucket, Counter>)

  function Buckets(address: string, username: string): seq<Bucket>
  {
    [Address(address), Account(Text.Casefold(username))]
  }

  // ---- the commands ----

  predicate Alive(s: Store, key: Bucket)
  {
    key in s.counters && (s.counters[key].expires.Some? ==> s.now < s.counters[key].expires.value)
  }

  /** GET. */
  function Get(s: Store, key: Bucket): Option<int>
  {
    if Alive(s, key) then Some(s.counters[key].count) else None
  }

  /** INCR: a key that is gone starts at 1, without an expiry. */
  function Incr(s: Store, key: Bucket): Store
  {
    s.(counters := s.counters[key :=
      if Alive(s, key) then Counter(s.counters[key].count + 1, s.counters[key].expires) else Counter(1, None)])
  }

  /** EXPIRE. */
  function Expire(s: Store, key: Bucket, seconds: int): Store
  {
    if Alive(s, key)
    then s.(counters := s.counters[key := s.counters[key].(expires := Some(s.now + seconds))])
    else s
  }

  /** DEL. */
  function Delete(s: Store, keys: set<Bucket>): Store
  {
    s.(counters := s.counters - keys)
  }

  function Advance(s: Store, seconds: nat): Store
  {
    s.(now := s.now + seconds)
  }

  // ---- the helpers ----

  datatype Event =
    | Failed(address: string, username: string)
    | Cleared(address: string, username: string)
    | Passed(seconds: nat)

  /** One round of the loop in `record_failed_login`. */
  function Count(s: Store, key: Bucket): Store
  {
    var counted := Incr(s, key);
    if Get(counted, key) == Some(1) then Expire(counted, key, LOGIN_ATTEMPT_WINDOW_SECONDS) else counted
  }

  function Effect(s: Store, e: Event): Store
  {
    match e
    case Failed(address, username) => Count(Count(s, Buckets(address, username)[0]), Buckets(address, username)[1])
    case Cleared(address, username) => Delete(s, set key | key in Buckets(address, username))
    case Passed(seconds) => Advance(s, seconds)
  }

  function Run(log: seq<Event>): Store
  {
    if log == [] then Store(0, map[]) else Effect(Run(log[..|log| - 1]), log[|log| - 1])
  }

  predicate Full(s: Store, key: Bucket)
  {
    Get(s, key).Some? && Get(s, key).value >= LOGIN_ATTEMPT_LIMIT
  }

  predicate Limited(s: Store, address: string, username: string)
  {
    exists key :: key in Buckets(address, username) && Full(s, key)
  }

  // ---- what the log means, without counters ----

  function Clock(log: seq<Event>): int
  {
    if log == [] then 0
    else Clock(log[..|log| - 1]) + (if log[|log| - 1].Passed? then log[|log| - 1].seconds else 0)
  }

  predicate FailureIn(e: Event, key: Bucket)
  {
    e.Failed? && key in Buckets(e.address, e.username)
  }

  predicate ClearOf(e: Event, key: Bucket)
  {
    e.Cleared? && key in Buckets(e.address, e.username)
  }

  /** Attempt number `i` opened a window of `key`: no window was open before it. */
  predicate Opens(log: seq<Event>, i: nat, key: Bucket)
    requires i < |log|
    decreases i, 1
  {
    FailureIn(log[i], key) && NoneOpen(log[..i], key)
  }

  predicate NoneOpen(log: seq<Event>, key: Bucket)
    decreases |log|, 0
  {
    forall j: nat :: j < |log| ==> !OpenSince(log, j, key)
  }

  /** The window attempt number `i` opened is under fifteen minutes old and was not cleared. */
  predicate OpenSince(log: seq<Event>, i: nat, key: Bucket)
    requires i < |log|
    decreases i, 2
  {
    && Opens(log, i, key)
    && Clock(log) < Clock(log[..i]) + 900
    && forall j :: i < j < |log| ==> !ClearOf(log[j], key)
  }

  /** Failures of `key` from number `i` on. */
  function Failures(log: seq<Event>, i: nat, key: Bucket): nat
    requires i <= |log|
    decreases |log|
  {
    if i == |log| then 0
    else Failures(log[..|log| - 1], i, key) + (if FailureIn(log[|log| - 1], key) then 1 else 0)
  }

  /** Six failures in the open window of `key`. */
  ghost predicate Spent(log: seq<Event>, key: Bucket)
  {
    exists i: nat :: i < |log| && OpenSince(log, i, key) && Failures(log, i, key) >= 6
  }

  // ---- the invariant ----

  ghost predicate Tracks(s: Store, log: seq<Event>, key: Bucket)
  {
    && (Alive(s, key) ==> exists i: nat :: i < |log| && OpenSince(log, i, key))
    && (forall i: nat :: i < |log| && OpenSince(log, i, key) ==>
      && key in s.counters
      && s.counters[key] == Counter(Failures(log, i, key), Some(Clock(log[..i]) + LOGIN_ATTEMPT_WINDOW_SECONDS))
      && Failures(log, i, key) > 0)
  }

  ghost predicate Inv(s: Store, log: seq<Event>)
  {
    s.now == Clock(log) && forall key :: Tracks(s, log, key)
  }

  // ---- one more event ----

  lemma OneMore(log: seq<Event>, e: Event)
    ensures Run(log + [e]) == Effect(Run(log), e)
    ensures Clock(log + [e]) == Clock(log) + (if e.Passed? then e.seconds else 0)
    ensures forall i :: 0 <= i <= |log| ==> (log + [e])[..i] == log[..i]
    ensures log[..|log|] == log
  {
    hide Effect, Run, Clock;
    var more := log + [e];
    assert more[..|log|] == log && more[|log|] == e;
    RunsOnce(more);
  }

  lemma RunsOnce(log: seq<Event>)
    requires log != []
    ensures Run(log) == Effect(Run(log[..|log| - 1]), log[|log| - 1])
    ensures Clock(log)
         == Clock(log[..|log| - 1]) + (if log[|log| - 1].Passed? then log[|log| - 1].seconds else 0)
  {
    hide Effect;
  }

  lemma OneMoreFailure(log: seq<Event>, e: Event, i: nat, key: Bucket)
    requires i <= |log|
    ensures Failures(log + [e], i, key) == Failures(log, i, key) + (if FailureIn(e, key) then 1 else 0)
  {
    assert (log + [e])[..|log|] == log;
  }

  /** An old window stays open until it is cleared or old. */
  lemma StaysOpen(log: seq<Event>, e: Event, i: nat, key: Bucket)
    requires i < |log|
    ensures OpenSince(log + [e], i, key)
        <==> (OpenSince(log, i, key)
        && !ClearOf(e, key)
        && Clock(log + [e]) < Clock(log[..i]) + LOGIN_ATTEMPT_WINDOW_SECONDS)
  {
    var more := log + [e];
    OneMore(log, e);
    assert more[..i] == log[..i] && more[i] == log[i];
    assert Opens(more, i, key) <==> Opens(log, i, key);
    assert forall j :: 0 <= j < |log| ==> more[j] == log[j];
    assert more[|log|] == e;
    if OpenSince(more, i, key) {
      forall j | i < j < |log| ensures !ClearOf(log[j], key) {
        assert !ClearOf(more[j], key);
      }
    }
  }

  /** The last event opens a window exactly when it fails and none is open. */
  lemma LastOpens(log: seq<Event>, e: Event, key: Bucket)
    ensures OpenSince(log + [e], |log|, key)
        <==> (FailureIn(e, key) && NoneOpen(log, key))
  {
    var more := log + [e];
    OneMore(log, e);
    assert more[..|log|] == log && more[|log|] == e;
    hide NoneOpen;
  }

  /** What one event does to one counter, whatever it does to the other. */
  lemma EffectOnKey(s: Store, e: Event, key: Bucket)
    ensures FailureIn(e, key) ==> Get(Effect(s, e), key) == Get(Count(s, key), key)
    ensures FailureIn(e, key) ==> key in Effect(s, e).counters && Effect(s, e).counters[key] == Count(s, key).counters[key]
    ensures ClearOf(e, key) ==> key !in Effect(s, e).counters
    ensures !FailureIn(e, key) && !ClearOf(e, key) && key in s.counters ==>
      key in Effect(s, e).counters && Effect(s, e).counters[key] == s.counters[key]
    ensures !FailureIn(e, key) && key !in s.counters ==> key !in Effect(s, e).counters
    ensures Effect(s, e).now == s.now + (if e.Passed? then e.seconds else 0)
  {
  }

  lemma OpenIsAlive(s: Store, log: seq<Event>, i: nat, key: Bucket)
    requires s.now == Clock(log) && Tracks(s, log, key)
    requires i < |log| && OpenSince(log, i, key)
    ensures Alive(s, key)
  {
  }

  lemma AliveIsOpen(s: Store, log: seq<Event>, e: Event, key: Bucket)
    requires s.now == Clock(log) && Tracks(s, log, key) && Alive(Effect(s, e), key)
    ensures exists i: nat :: i < |log| + 1 && OpenSince(log + [e], i, key)
  {
    OneMore(log, e);
    EffectOnKey(s, e, key);
    LastOpens(log, e, key);
    if Alive(s, key) {
      var i: nat :| i < |log| && OpenSince(log, i, key);
      StaysOpen(log, e, i, key);
      assert Clock(log) < Clock(log[..i]) + LOGIN_ATTEMPT_WINDOW_SECONDS;
      assert OpenSince(log + [e], i, key);
    } else {
      assert FailureIn(e, key);
      forall j: nat | j < |log| ensures !OpenSince(log, j, key) {
        if OpenSince(log, j, key) {
          OpenIsAlive(s, log, j, key);
        }
      }
      assert OpenSince(log + [e], |log|, key);
    }
  }

  /** The counter of a window that stays open. */
  lemma OldWindowCounted(s: Store, log: seq<Event>, e: Event, key: Bucket, i: nat)
    requires s.now == Clock(log) && Tracks(s, log, key)
    requires i < |log| && OpenSince(log + [e], i, key)
    ensures key in Effect(s, e).counters
    ensures Effect(s, e).counters[key]
         == Counter(Failures(log + [e], i, key), Some(Clock(log[..i]) + LOGIN_ATTEMPT_WINDOW_SECONDS))
    ensures Failures(log + [e], i, key) > 0
  {
    hide Opens, Failures, Effect;
    StaysOpen(log, e, i, key);
    assert Clock(log) < Clock(log[..i]) + LOGIN_ATTEMPT_WINDOW_SECONDS;
    hide OpenSince, Clock;
    EffectOnKey(s, e, key);
    OneMoreFailure(log, e, i, key);
  }

  /** The counter of the window the event opens. */
  lemma NewWindowCounted(s: Store, log: seq<Event>, e: Event, key: Bucket)
    requires s.now == Clock(log) && Tracks(s, log, key)
    requires OpenSince(log + [e], |log|, key)
    ensures key in Effect(s, e).counters
    ensures Effect(s, e).counters[key]
         == Counter(Failures(log + [e], |log|, key), Some(Clock(log) + LOGIN_ATTEMPT_WINDOW_SECONDS))
    ensures Failures(log + [e], |log|, key) > 0
  {
    OneMoreFailure(log, e, |log|, key);
    assert Failures(log, |log|, key) == 0;
    hide Opens, OpenSince, Clock, Failures, Effect;
    LastOpens(log, e, key);
    EffectOnKey(s, e, key);
    assert FailureIn(e, key) && !Alive(s, key);
  }

  lemma OpenIsCounted(s: Store, log: seq<Event>, e: Event, key: Bucket, i: nat)
    requires s.now == Clock(log) && Tracks(s, log, key)
    requires i <= |log| && OpenSince(log + [e], i, key)
    ensures key in Effect(s, e).counters
    ensures Effect(s, e).counters[key]
         == Counter(Failures(log + [e], i, key), Some(Clock(log[..i]) + LOGIN_ATTEMPT_WINDOW_SECONDS))
    ensures Failures(log + [e], i, key) > 0
  {
    hide Opens, OpenSince, Clock, Failures, Effect, Tracks;
    if i < |log| {
      OldWindowCounted(s, log, e, key, i);
    } else {
      assert log[..i] == log;
      NewWindowCounted(s, log, e, key);
    }
  }

  lemma AliveTracked(s: Store, log: seq<Event>, e: Event, key: Bucket)
    requires s.now == Clock(log) && Tracks(s, log, key)
    ensures Alive(Effect(s, e), key) ==> exists i: nat :: i < |log + [e]| && OpenSince(log + [e], i, key)
  {
    hide Tracks, Alive, OpenSince, Effect, Clock;
    if Alive(Effect(s, e), key) {
      AliveIsOpen(s, log, e, key);
      var i: nat :| i < |log| + 1 && OpenSince(log + [e], i, key);
      assert i < |log + [e]|;
    }
  }

  /** The counter is the one the window says. */
  ghost predicate Counts(s: Store, log: seq<Event>, i: nat, key: Bucket)
    requires i < |log|
  {
    && key in s.counters
    && s.counters[key] == Counter(Failures(log, i, key), Some(Clock(log[..i]) + LOGIN_ATTEMPT_WINDOW_SECONDS))
    && Failures(log, i, key) > 0
  }

  lemma OpenCounts(s: Store, log: seq<Event>, e: Event, key: Bucket, i: nat)
    requires s.now == Clock(log) && Tracks(s, log, key)
    requires i <= |log| && OpenSince(log + [e], i, key)
    ensures Counts(Effect(s, e), log + [e], i, key)
  {
    hide Tracks, OpenSince, Effect, Clock, Failures;
    OpenIsCounted(s, log, e, key, i);
    FrontIs(log, e, i);
  }

  lemma FrontIs(log: seq<Event>, e: Event, i: nat)
    requires i <= |log|
    ensures (log + [e])[..i] == log[..i]
  {
  }

  lemma StepTracks(s: Store, log: seq<Event>, e: Event, key: Bucket)
    requires s.now == Clock(log) && Tracks(s, log, key)
    ensures Tracks(Effect(s, e), log + [e], key)
  {
    hide Tracks, Alive, OpenSince, Effect, Clock, Failures, Counts;
    AliveTracked(s, log, e, key);
    forall i: nat | i < |log + [e]| && OpenSince(log + [e], i, key) ensures Counts(Effect(s, e), log + [e], i, key) {
      OpenCounts(s, log, e, key, i);
    }
    CountedTracks(Effect(s, e), log + [e], key);
  }

  lemma CountedTracks(s: Store, log: seq<Event>, key: Bucket)
    requires Alive(s, key) ==> exists i: nat :: i < |log| && OpenSince(log, i, key)
    requires forall i: nat :: i < |log| && OpenSince(log, i, key) ==> Counts(s, log, i, key)
    ensures Tracks(s, log, key)
  {
    hide Alive, OpenSince, Clock, Failures;
  }

  /** Every event keeps the counters in step with the log. */
  lemma StepKeeps(s: Store, log: seq<Event>, e: Event)
    requires Inv(s, log)
    ensures Inv(Effect(s, e), log + [e])
  {
    OneMore(log, e);
    EffectOnKey(s, e, Address(""));
    forall key ensures Tracks(Effect(s, e), log + [e], key) {
      StepTracks(s, log, e, key);
    }
  }

  lemma {:induction false} RunKeeps(log: seq<Event>)
    ensures Inv(Run(log), log)
  {
    if log != [] {
      var front := log[..|log| - 1];
      assert log == front + [log[|log| - 1]];
      RunKeeps(front);
      StepKeeps(Run(front), front, log[|log| - 1]);
    }
  }

  // ---- the results ----

  /** A bucket has at most one open window. */
  lemma OneWindow(log: seq<Event>, i: nat, j: nat, key: Bucket)
    requires i < j < |log| && OpenSince(log, i, key)
    ensures !OpenSince(log, j, key)
  {
    assert forall k :: i < k < j ==> log[..j][k] == log[k];
    assert log[..j][..i] == log[..i] && log[..j][i] == log[i];
    ClockGrows(log, j);
    assert Opens(log[..j], i, key);
    assert OpenSince(log[..j], i, key);
    assert !NoneOpen(log[..j], key);
    assert !Opens(log, j, key);
  }

  lemma {:induction false} ClockGrows(log: seq<Event>, j: nat)
    requires j <= |log|
    ensures Clock(log[..j]) <= Clock(log)
  {
    if j < |log| {
      assert log[..|log| - 1][..j] == log[..j];
      ClockGrows(log[..|log| - 1], j);
    } else {
      assert log[..j] == log;
    }
  }

  lemma FullIffSpent(log: seq<Event>, key: Bucket)
    ensures Full(Run(log), key) <==> Spent(log, key)
  {
    RunKeeps(log);
    assert Tracks(Run(log), log, key);
    if Spent(log, key) {
      var i: nat :| i < |log| && OpenSince(log, i, key) && Failures(log, i, key) >= LOGIN_ATTEMPT_LIMIT;
      assert Clock(log) < Clock(log[..i]) + LOGIN_ATTEMPT_WINDOW_SECONDS;
      assert Alive(Run(log), key);
    }
  }

  /** A sign-in is refused exactly when the address or the account has spent its window. */
  lemma LimitedIffSpent(log: seq<Event>, address: string, username: string)
    ensures Limited(Run(log), address, username)
        <==> (Spent(log, Address(address)) || Spent(log, Account(Text.Casefold(username))))
  {
    FullIffSpent(log, Address(address));
    FullIffSpent(log, Account(Text.Casefold(username)));
    var keys := Buckets(address, username);
    assert keys[0] in keys && keys[1] in keys;
  }

  /** Fifteen minutes without a clear free everybody, whatever was recorded before. */
  lemma {:induction false} WaitingFrees(log: seq<Event>, address: string, username: string)
    ensures !Limited(Run(log + [Passed(900)]), address, username)
  {
    var wait := Passed(LOGIN_ATTEMPT_WINDOW_SECONDS);
    forall key ensures !Spent(log + [wait], key) {
      forall i: nat | i < |log| + 1 ensures !OpenSince(log + [wait], i, key) {
        OneMore(log, wait);
        ClockGrows(log, i);
      }
    }
    LimitedIffSpent(log + [wait], address, username);
  }

  lemma FullMeans(s: Store, key: Bucket, count: int)
    requires Get(s, key) == Some(count)
    ensures Full(s, key) <==> count >= LOGIN_ATTEMPT_LIMIT
  {
  }

  lemma LimitedMeans(s: Store, address: string, username: string)
    ensures Limited(s, address, username)
        <==> (Full(s, Buckets(address, username)[0]) || Full(s, Buckets(address, username)[1]))
  {
    hide Full;
    var keys := Buckets(address, username);
    assert keys == [keys[0], keys[1]];
  }

  lemma FailureCounts(log: seq<Event>, address: string, username: string)
    ensures Run(log + [Failed(address, username)])
         == Count(Count(Run(log), Buckets(address, username)[0]), Buckets(address, username)[1])
  {
    hide Count, Run;
    OneMore(log, Failed(address, username));
  }
}
