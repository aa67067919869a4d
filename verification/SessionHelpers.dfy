/** The session helpers as the program runs them, command after command. */
module SessionHelpers {

  import opened Optional
  import opened Sessions

  class SessionStore {
    var store: Store
    ghost var log: seq<Event>

    ghost predicate Valid()
      reads this
    {
      store == Run(log) && FreshTokens(log)
    }

    constructor ()
      ensures Valid() && log == []
    {
      store := Store(0, map[], map[]);
      log := [];
    }

    /** Sign-in, with the two random strings it drew. */
    method CreateSession(user: User, token: Token, csrf: string)
      requires Valid()
      requires forall i :: 0 <= i < |log| && log[i].Created? ==> log[i].token != token
      modifies this
      ensures Valid() && log == old(log) + [Created(user, token, csrf)]
      ensures GetSession(store, token) == Some(Record(user, csrf))
      ensures forall other :: other != token ==> GetSession(store, other) == GetSession(old(store), other)
    {
      hide Run, FreshTokens, GetSession, SetSession, AddMember, ExpireIndex;
      CreatedResolves(store, user, token, csrf);
      store := SetSession(store, token, Record(user, csrf));
      store := AddMember(store, user, token);
      store := ExpireIndex(store, user);
      OneMore(log, Created(user, token, csrf));
      StaysFresh(log, Created(user, token, csrf));
      log := log + [Created(user, token, csrf)];
    }

    method SessionRecord(token: Token) returns (record: Option<Record>)
      requires Valid()
      ensures unchanged(this)
      ensures forall r :: record == Some(r) <==> Standing(log, token, r)
    {
      record := GetSession(store, token);
      forall r ensures record == Some(r) <==> Standing(log, token, r) {
        ResolvesIffStanding(log, token, r);
      }
    }

    method RevokeSession(token: Token, user: User)
      requires Valid()
      modifies this
      ensures Valid() && log == old(log) + [Revoked(token, user)]
      ensures GetSession(store, token) == None
      ensures forall other :: other != token ==> GetSession(store, other) == GetSession(old(store), other)
    {
      hide Run, FreshTokens, GetSession, DeleteSession, RemoveMember;
      RevokedIsGone(store, token, user);
      store := DeleteSession(store, token);
      store := RemoveMember(store, user, token);
      OneMore(log, Revoked(token, user));
      StaysFresh(log, Revoked(token, user));
      log := log + [Revoked(token, user)];
    }

    /** Scans the index, deletes session after session, then the index. */
    method RevokeAllSessions(user: User)
      requires Valid()
      modifies this
      ensures Valid() && log == old(log) + [RevokedAll(user)]
      ensures forall token :: GetSession(store, token) == Without(user, GetSession(old(store), token))
    {
      hide Run, FreshTokens, GetSession, Members, Without;
      var found := Members(store, user);
      var left := found;
      while left != {}
        invariant left <= found && log == old(log)
        invariant store == DeleteSessions(old(store), found - left)
        decreases |left|
      {
        var token :| token in left;
        store := DeleteSession(store, token);
        left := left - {token};
      }
      store := DeleteIndex(store, user);
      OneMore(log, RevokedAll(user));
      StaysFresh(log, RevokedAll(user));
      forall token
        ensures GetSession(Run(log + [RevokedAll(user)]), token) == Without(user, GetSession(old(store), token))
      {
        RevokeAllIsExact(log, user, token);
      }
      assert store == Effect(old(store), RevokedAll(user));
      log := log + [RevokedAll(user)];
    }

    method Wait(seconds: nat)
      requires Valid()
      modifies this
      ensures Valid() && log == old(log) + [Passed(seconds)]
    {
      hide Run, FreshTokens;
      store := Advance(store, seconds);
      OneMore(log, Passed(seconds));
      StaysFresh(log, Passed(seconds));
      log := log + [Passed(seconds)];
    }
  }
}
