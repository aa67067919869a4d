/** The limiter's helpers as the program runs them, bucket after bucket. */
module LimiterHelpers {

  import opened Optional
  import opened LoginLimiter
  import Text

  class Limiter {
    var store: Store
    ghost var log: seq<Event>

    ghost predicate Valid()
      reads this
    {
      store == Run(log)
    }

    constructor ()
      ensures Valid() && log == []
    {
      store := Store(0, map[]);
      log := [];
    }

    method IsLoginRateLimited(address: string, username: string) returns (limited: bool)
      requires Valid()
      ensures unchanged(this)
      ensures limited <==> (Spent(log, Address(address)) || Spent(log, Account(Text.Casefold(username))))
    {
      LimitedIffSpent(log, address, username);
      var keys := Buckets(address, username);
      for k := 0 to 2
        invariant forall j :: 0 <= j < k ==> !Full(store, keys[j])
      {
        var value := Get(store, keys[k]);
        if value.Some? && value.value >= LOGIN_ATTEMPT_LIMIT {
          assert Full(store, keys[k]);
          return true;
        }
      }
      return false;
    }

    /** Counts in both buckets; the answer is what the limiter will say from now on. */
    method RecordFailedLogin(address: string, username: string) returns (limited: bool)
      requires Valid()
      modifies this
      ensures Valid() && log == old(log) + [Failed(address, username)]
      ensures limited <==> (Spent(log, Address(address)) || Spent(log, Account(Text.Casefold(username))))
    {
      hide Count, Effect, Run, Spent, Full, Limited, Get;
      var keys := Buckets(address, username);
      var attempts: seq<int> := [];
      for k := 0 to 2
        invariant log == old(log)
        invariant |attempts| == k
        invariant k == 0 ==> store == old(store)
        invariant k == 1 ==> store == Count(old(store), keys[0])
        invariant k == 2 ==> store == Count(Count(old(store), keys[0]), keys[1])
        invariant forall j :: 0 <= j < k ==> Get(store, keys[j]) == Some(attempts[j])
      {
        var count := CountFailure(keys[k]);
        attempts := attempts + [count];
      }
      limited := exists count :: count in attempts && count >= LOGIN_ATTEMPT_LIMIT;
      assert attempts[0] in attempts && attempts[1] in attempts;
      FullMeans(store, keys[0], attempts[0]);
      FullMeans(store, keys[1], attempts[1]);
      LimitedMeans(store, address, username);
      FailureCounts(log, address, username);
      log := log + [Failed(address, username)];
      LimitedIffSpent(log, address, username);
    }

    /** INCR, and EXPIRE behind the first failure only. */
    method CountFailure(key: Bucket) returns (count: int)
      modifies `store
      ensures store == Count(old(store), key) && Get(store, key) == Some(count)
      ensures forall other :: other != key ==> Get(store, other) == Get(old(store), other)
    {
      store := Incr(store, key);
      count := Get(store, key).value;
      if count == 1 {
        store := Expire(store, key, LOGIN_ATTEMPT_WINDOW_SECONDS);
      }
    }

    method ClearLoginFailures(address: string, username: string)
      requires Valid()
      modifies this
      ensures Valid() && log == old(log) + [Cleared(address, username)]
    {
      var keys := Buckets(address, username);
      hide Run;
      store := Delete(store, set key | key in keys);
      OneMore(log, Cleared(address, username));
      log := log + [Cleared(address, username)];
    }

    method Wait(seconds: nat)
      requires Valid()
      modifies this
      ensures Valid() && log == old(log) + [Passed(seconds)]
    {
      hide Run;
      store := Advance(store, seconds);
      OneMore(log, Passed(seconds));
      log := log + [Passed(seconds)];
    }
  }
}
