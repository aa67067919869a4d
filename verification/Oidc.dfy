/** Sign-in by OIDC: which local account a verified identity leads to, and with which role. */
module Oidc {

  import opened Optional

  datatype Role = Admin | Member

  /** The shapes of claim values the program tells apart. */
  datatype Claim = Text(value: string) | Texts(values: seq<string>) | True | Other

  type Claims = map<string, Claim>

  datatype Provider = Provider(
    id: string,
    roleClaim: string,
    roleMapping: map<string, string>,
    defaultRole: Role,
    requiredClaim: Option<string>,
    requiredValue: Option<string>,
    usernameClaim: string)

  datatype User = User(username: string, localPassword: bool, role: Role, active: bool)

  datatype Identity = Identity(provider: string, subject: string, user: nat)

  datatype Error = NotAllowed | UsernameConflict | AlreadyLinked

  datatype Result<T> = Ok(value: T) | Err(error: Error)

  /** Rows in the order they were added; a user's id is its row. */
  datatype Tables = Tables(users: seq<User>, identities: seq<Identity>)

  const USERNAME_LIMIT := 64

  // ---- claims ----

  function ClaimValues(claims: Claims, name: string): seq<string>
  {
    if name !in claims then []
    else match claims[name]
      case Text(value) => [value]
      case Texts(values) => values
      case _ => []
  }

  predicate Maps(provider: Provider, claims: Claims, role: string)
  {
    exists value :: value in ClaimValues(claims, provider.roleClaim)
      && value in provider.roleMapping && provider.roleMapping[value] == role
  }

  function RoleOf(provider: Provider, claims: Claims): Role
  {
    if Maps(provider, claims, "admin") then Admin
    else if Maps(provider, claims, "user") then Member
    else provider.defaultRole
  }

  predicate IsAllowed(provider: Provider, claims: Claims)
  {
    provider.requiredClaim.Some? ==>
      && provider.requiredValue.Some?
      && provider.requiredValue.value in ClaimValues(claims, provider.requiredClaim.value)
  }

  function Subject(claims: Claims): Option<string>
  {
    if "sub" in claims && claims["sub"].Text? then Some(claims["sub"].value) else None
  }

  // ---- queries ----

  function FindIdentity(rows: seq<Identity>, provider: string, subject: string): (r: Option<nat>)
    ensures r.Some? ==> exists i :: 0 <= i < |rows| && rows[i] == Identity(provider, subject, r.value)
    ensures r.None? <==> forall i :: 0 <= i < |rows| ==> rows[i].provider != provider || rows[i].subject != subject
  {
    if rows == [] then None
    else if rows[0].provider == provider && rows[0].subject == subject then Some(rows[0].user)
    else
      var r := FindIdentity(rows[1..], provider, subject);
      assert r.Some? ==> forall i :: 0 <= i < |rows[1..]| ==> rows[1..][i] == rows[i + 1];
      assert forall i :: 1 <= i < |rows| ==> rows[i] == rows[1..][i - 1];
      r
  }

  function FindUser(rows: seq<User>, username: string, from: nat): (r: Option<nat>)
    requires from <= |rows|
    ensures r.Some? ==> from <= r.value < |rows| && rows[r.value].username == username
    ensures r.None? <==> forall i :: from <= i < |rows| ==> rows[i].username != username
    decreases |rows| - from
  {
    if from == |rows| then None else if rows[from].username == username then Some(from) else FindUser(rows, username, from + 1)
  }

  // ---- the operations, as functions of the tables ----

  /** `link_oidc_identity`. */
  function Link(t: Tables, provider: Provider, claims: Claims, user: nat): Result<Tables>
  {
    if !IsAllowed(provider, claims) || Subject(claims).None? then Err(NotAllowed)
    else
      var subject := Subject(claims).value;
      var identity := FindIdentity(t.identities, provider.id, subject);
      if identity.None? then Ok(t.(identities := t.identities + [Identity(provider.id, subject, user)]))
      else if identity.value != user then Err(AlreadyLinked)
      else Ok(t)
  }

  /** `_verified_email_user`. */
  function VerifiedEmailUser(t: Tables, claims: Claims): (r: Option<nat>)
    ensures r.Some? ==> r.value < |t.users|
  {
    if "email_verified" !in claims || claims["email_verified"] != True || "email" !in claims || !claims["email"].Text?
    then None
    else
      var user := FindUser(t.users, claims["email"].value, 0);
      if user.None? || !t.users[user.value].active || !t.users[user.value].localPassword then None else user
  }

  function WithRole(t: Tables, user: nat, role: Role): Tables
    requires user < |t.users|
  {
    t.(users := t.users[user := t.users[user].(role := role)])
  }

  /** `resolve_oidc_user`: the tables afterwards and the account signed in. */
  function Resolve(t: Tables, provider: Provider, claims: Claims): Result<(Tables, nat)>
  {
    if !IsAllowed(provider, claims) || Subject(claims).None? then Err(NotAllowed)
    else
      var subject, role := Subject(claims).value, RoleOf(provider, claims);
      var identity := FindIdentity(t.identities, provider.id, subject);
      if identity.Some? then
        if identity.value >= |t.users| || !t.users[identity.value].active then Err(NotAllowed)
        else Ok((WithRole(t, identity.value, role), identity.value))
      else
        var known := VerifiedEmailUser(t, claims);
        if known.Some? then
          match Link(t, provider, claims, known.value)
          case Err(error) => Err(error)
          case Ok(linked) => Ok((WithRole(t, known.value, role).(identities := linked.identities), known.value))
        else
          var usernames := ClaimValues(claims, provider.usernameClaim);
          if usernames == [] || |usernames[0]| > USERNAME_LIMIT then Err(NotAllowed)
          else if FindUser(t.users, usernames[0], 0).Some? then Err(UsernameConflict)
          else Ok((Tables(t.users + [User(usernames[0], false, role, true)],
                          t.identities + [Identity(provider.id, subject, |t.users|)]), |t.users|))
  }

  // ---- runs ----

  datatype Event =
    | Resolving(provider: Provider, claims: Claims)
    | Linking(provider: Provider, claims: Claims, user: nat)
    | Activating(user: nat, active: bool)

  /** A step that raises leaves the tables as they were. */
  function Step(t: Tables, e: Event): Tables
  {
    match e
    case Resolving(provider, claims) =>
      (match Resolve(t, provider, claims) case Ok(r) => r.0 case Err(_) => t)
    case Linking(provider, claims, user) =>
      if user >= |t.users| then t
      else (match Link(t, provider, claims, user) case Ok(linked) => linked case Err(_) => t)
    case Activating(user, active) =>
      if user >= |t.users| then t else t.(users := t.users[user := t.users[user].(active := active)])
  }

  function Run(t: Tables, events: seq<Event>): Tables
    decreases |events|
  {
    if events == [] then t else Run(Step(t, events[0]), events[1..])
  }

  /** Usernames and (provider, subject) pairs are unique, and identities lead to accounts. */
  ghost predicate Inv(t: Tables)
  {
    && (forall i, j :: 0 <= i < j < |t.users| ==> t.users[i].username != t.users[j].username)
    && (forall i, j :: 0 <= i < j < |t.identities| ==>
      t.identities[i].provider != t.identities[j].provider || t.identities[i].subject != t.identities[j].subject)
    && (forall i :: 0 <= i < |t.identities| ==> t.identities[i].user < |t.users|)
  }

  predicate Linked(t: Tables, provider: string, subject: string, user: nat)
  {
    Identity(provider, subject, user) in t.identities
  }

  // ---- every run ----

  lemma FoundIffLinked(t: Tables, provider: string, subject: string, user: nat)
    requires Inv(t)
    ensures FindIdentity(t.identities, provider, subject) == Some(user) <==> Linked(t, provider, subject, user)
  {
  }

  lemma SameUsersKeepInv(t: Tables, user: nat, changed: User)
    requires Inv(t) && user < |t.users| && changed.username == t.users[user].username
    ensures Inv(t.(users := t.users[user := changed]))
  {
  }

  lemma IdentityKeepsInv(t: Tables, provider: string, subject: string, user: nat)
    requires Inv(t) && user < |t.users| && FindIdentity(t.identities, provider, subject).None?
    ensures Inv(t.(identities := t.identities + [Identity(provider, subject, user)]))
  {
  }

  lemma NewUserKeepsInv(t: Tables, user: User)
    requires Inv(t) && FindUser(t.users, user.username, 0).None?
    ensures Inv(t.(users := t.users + [user]))
  {
  }

  /** Every step, failing or not, keeps the tables unique. */
  lemma StepKeepsInv(t: Tables, e: Event)
    requires Inv(t)
    ensures Inv(Step(t, e))
  {
    hide Inv, RoleOf, IsAllowed, FindUser, FindIdentity;
    match e
    case Resolving(provider, claims) =>
      if Resolve(t, provider, claims).Ok? {
        var subject, role := Subject(claims).value, RoleOf(provider, claims);
        var found, known := FindIdentity(t.identities, provider.id, subject), VerifiedEmailUser(t, claims);
        if found.Some? {
          SameUsersKeepInv(t, found.value, t.users[found.value].(role := role));
        } else if known.Some? {
          SameUsersKeepInv(t, known.value, t.users[known.value].(role := role));
          IdentityKeepsInv(WithRole(t, known.value, role), provider.id, subject, known.value);
        } else {
          var user := User(ClaimValues(claims, provider.usernameClaim)[0], false, role, true);
          NewUserKeepsInv(t, user);
          IdentityKeepsInv(t.(users := t.users + [user]), provider.id, subject, |t.users|);
        }
      }
    case Linking(provider, claims, user) =>
      if user < |t.users| && Link(t, provider, claims, user).Ok? {
        var subject := Subject(claims).value;
        if FindIdentity(t.identities, provider.id, subject).None? {
          IdentityKeepsInv(t, provider.id, subject, user);
        }
      }
    case Activating(user, active) =>
      if user < |t.users| {
        SameUsersKeepInv(t, user, t.users[user].(active := active));
      }
  }

  /** No step unlinks, renames or removes anything. */
  lemma StepKeepsLinks(t: Tables, e: Event)
    ensures t.identities <= Step(t, e).identities
    ensures |t.users| <= |Step(t, e).users|
    ensures forall i :: 0 <= i < |t.users| ==>
      Step(t, e).users[i].username == t.users[i].username && Step(t, e).users[i].localPassword == t.users[i].localPassword
  {
  }

  lemma {:induction false} RunKeeps(t: Tables, events: seq<Event>)
    requires Inv(t)
    ensures Inv(Run(t, events))
    ensures t.identities <= Run(t, events).identities
    ensures |t.users| <= |Run(t, events).users|
    ensures forall i :: 0 <= i < |t.users| ==> Run(t, events).users[i].username == t.users[i].username
    decreases |events|
  {
    hide Inv, Step;
    if events != [] {
      StepKeepsInv(t, events[0]);
      StepKeepsLinks(t, events[0]);
      RunKeeps(Step(t, events[0]), events[1..]);
    }
  }

  // ---- who signs in, in terms of the token and the tables ----

  /** The token says `value` under `name`, alone or in a list of texts. */
  predicate Says(claims: Claims, name: string, value: string)
  {
    name in claims && (claims[name] == Text(value) || (claims[name].Texts? && value in claims[name].values))
  }

  lemma ValuesAreSaid(claims: Claims, name: string)
    ensures forall value :: value in ClaimValues(claims, name) <==> Says(claims, name, value)
  {
  }

  /** The provider admits the token: it asks for nothing, or the token says what it asks for. */
  predicate Admitted(provider: Provider, claims: Claims)
  {
    match provider.requiredClaim
    case None => true
    case Some(name) => provider.requiredValue.Some? && Says(claims, name, provider.requiredValue.value)
  }

  /** Some value of the role claim is mapped to the word. */
  ghost predicate Grants(provider: Provider, claims: Claims, word: string)
  {
    exists value :: Says(claims, provider.roleClaim, value) && (value, word) in provider.roleMapping.Items
  }

  /** One value that means administrator is enough, and the default decides only when no value means anything. */
  ghost predicate Deserves(provider: Provider, claims: Claims, role: Role)
  {
    match role
    case Admin => Grants(provider, claims, "admin") || (!Grants(provider, claims, "user") && provider.defaultRole == Admin)
    case Member => !Grants(provider, claims, "admin") && (Grants(provider, claims, "user") || provider.defaultRole == Member)
  }

  lemma MapsIsGrants(provider: Provider, claims: Claims, word: string)
    ensures Maps(provider, claims, word) <==> Grants(provider, claims, word)
  {
    ValuesAreSaid(claims, provider.roleClaim);
    if value :| Says(claims, provider.roleClaim, value) && (value, word) in provider.roleMapping.Items {
      assert value in ClaimValues(claims, provider.roleClaim) && value in provider.roleMapping;
    }
    if value :| value in ClaimValues(claims, provider.roleClaim) && value in provider.roleMapping && provider.roleMapping[value] == word {
      assert (value, word) in provider.roleMapping.Items;
    }
  }

  lemma RoleIs(provider: Provider, claims: Claims, role: Role)
    ensures RoleOf(provider, claims) == role <==> Deserves(provider, claims, role)
  {
    MapsIsGrants(provider, claims, "admin");
    MapsIsGrants(provider, claims, "user");
    hide Maps, Grants;
  }

  /** An active account with a password whose name the token gives as a verified e-mail address. */
  predicate Vouched(t: Tables, claims: Claims, user: nat)
  {
    && user < |t.users| && t.users[user].active && t.users[user].localPassword
    && ("email_verified", True) in claims.Items && ("email", Text(t.users[user].username)) in claims.Items
  }

  /** The first, or only, text under the provider's username claim. */
  predicate Names(provider: Provider, claims: Claims, username: string)
  {
    provider.usernameClaim in claims &&
    match claims[provider.usernameClaim]
    case Text(value) => value == username
    case Texts(values) => values != [] && values[0] == username
    case _ => false
  }

  predicate Taken(t: Tables, username: string)
  {
    exists i :: 0 <= i < |t.users| && t.users[i].username == username
  }

  /** The account a token leads to: the one its identity is linked to, else the one its e-mail vouches for,
      else a new one under a name of at most 64 characters that nobody has. */
  ghost predicate LeadsTo(t: Tables, provider: Provider, claims: Claims, user: nat)
  {
    exists subject ::
      && Admitted(provider, claims)
      && ("sub", Text(subject)) in claims.Items
      && if exists known: nat :: Linked(t, provider.id, subject, known)
         then Linked(t, provider.id, subject, user) && user < |t.users| && t.users[user].active
         else if exists known: nat :: Vouched(t, claims, known)
         then Vouched(t, claims, user)
         else user == |t.users| && exists username :: Names(provider, claims, username) && |username| <= 64 && !Taken(t, username)
  }

  lemma SubjectIs(claims: Claims, subject: string)
    ensures Subject(claims) == Some(subject) <==> ("sub", Text(subject)) in claims.Items
  {
  }

  lemma AllowedIsAdmitted(provider: Provider, claims: Claims)
    ensures IsAllowed(provider, claims) <==> Admitted(provider, claims)
  {
    if provider.requiredClaim.Some? { ValuesAreSaid(claims, provider.requiredClaim.value); }
  }

  lemma VerifiedIsVouched(t: Tables, claims: Claims)
    requires Inv(t)
    ensures VerifiedEmailUser(t, claims).None? <==> forall known: nat :: !Vouched(t, claims, known)
    ensures VerifiedEmailUser(t, claims).Some? ==>
      forall user: nat :: Vouched(t, claims, user) <==> user == VerifiedEmailUser(t, claims).value
  {
    if known: nat :| Vouched(t, claims, known) {
      assert claims["email_verified"] == True && claims["email"] == Text(t.users[known].username);
    }
    var user := VerifiedEmailUser(t, claims);
    if user.Some? {
      assert ("email_verified", True) in claims.Items && ("email", Text(t.users[user.value].username)) in claims.Items;
      assert Vouched(t, claims, user.value);
      forall other: nat | Vouched(t, claims, other) ensures other == user.value {
        assert claims["email"] == Text(t.users[other].username);
      }
    }
  }

  lemma FoundIsLinked(t: Tables, provider: string, subject: string)
    requires Inv(t)
    ensures FindIdentity(t.identities, provider, subject).None? <==> forall known: nat :: !Linked(t, provider, subject, known)
    ensures forall user: nat :: FindIdentity(t.identities, provider, subject) == Some(user) <==> Linked(t, provider, subject, user)
  {
    forall user: nat ensures FindIdentity(t.identities, provider, subject) == Some(user) <==> Linked(t, provider, subject, user) {
      FoundIffLinked(t, provider, subject, user);
    }
  }

  lemma NamesIsFirst(provider: Provider, claims: Claims, username: string)
    ensures Names(provider, claims, username)
        <==> ClaimValues(claims, provider.usernameClaim) != [] && ClaimValues(claims, provider.usernameClaim)[0] == username
  {
  }

  lemma FoundIsTaken(t: Tables, username: string)
    ensures FindUser(t.users, username, 0).Some? <==> Taken(t, username)
  {
  }

  // ---- the results ----

  /** Once a pair is linked, it signs in that account for good or nobody, whatever else the token claims. */
  lemma LinkedPairIsStable(t: Tables, events: seq<Event>, provider: Provider, claims: Claims, user: nat)
    requires Inv(t) && Subject(claims).Some? && Linked(t, provider.id, Subject(claims).value, user)
    ensures var now := Run(t, events);
      && user < |now.users|
      && (Resolve(now, provider, claims).Ok? <==> (Admitted(provider, claims) && now.users[user].active))
      && (Resolve(now, provider, claims).Ok? ==> Resolve(now, provider, claims).value.1 == user)
  {
    RunKeeps(t, events);
    AllowedIsAdmitted(provider, claims);
    var now := Run(t, events);
    assert t.identities == now.identities[..|t.identities|];
    assert Linked(now, provider.id, Subject(claims).value, user);
    FoundIffLinked(now, provider.id, Subject(claims).value, user);
    hide Run, RoleOf, IsAllowed, Admitted, FindUser, FindIdentity;
  }

  /** What an event must be to link a pair to an account that exists already. */
  ghost predicate Earns(t: Tables, e: Event, provider: string, subject: string, user: nat)
    requires user < |t.users|
  {
    && !e.Activating?
    && e.provider.id == provider && Admitted(e.provider, e.claims)
    && ("sub", Text(subject)) in e.claims.Items
    && (forall known: nat :: !Linked(t, provider, subject, known))
    && if e.Linking? then e.user == user else Vouched(t, e.claims, user)
  }

  /** An account gains an identity by an explicit link or a verified e-mail equal to its username, never otherwise. */
  lemma GainsIdentityIff(t: Tables, e: Event, provider: string, subject: string, user: nat)
    requires Inv(t) && user < |t.users| && !Linked(t, provider, subject, user)
    ensures Linked(Step(t, e), provider, subject, user) <==> Earns(t, e, provider, subject, user)
  {
    if !e.Activating? {
      AllowedIsAdmitted(e.provider, e.claims);
      SubjectIs(e.claims, subject);
      VerifiedIsVouched(t, e.claims);
      FoundIsLinked(t, provider, subject);
    }
    hide Inv, Admitted, IsAllowed, Vouched, ClaimValues, FindUser, FindIdentity, VerifiedEmailUser, RoleOf, Subject;
  }

  /** Event number `k` of the run earns the account the identity. */
  ghost predicate EarnsAt(t: Tables, events: seq<Event>, k: nat, provider: string, subject: string, user: nat)
  {
    k < |events| &&
    var before := Run(t, events[..k]);
    user < |before.users| && Earns(before, events[k], provider, subject, user)
  }

  lemma EarnsLater(t: Tables, events: seq<Event>, k: nat, provider: string, subject: string, user: nat)
    requires events != []
    ensures EarnsAt(t, events, k + 1, provider, subject, user)
        <==> EarnsAt(Step(t, events[0]), events[1..], k, provider, subject, user)
  {
    hide Step, Earns;
    if k + 1 < |events| {
      assert events[..k + 1][1..] == events[1..][..k] && events[..k + 1][0] == events[0];
    }
  }

  lemma EarnsFirst(t: Tables, events: seq<Event>, provider: string, subject: string, user: nat)
    requires events != [] && user < |t.users|
    ensures EarnsAt(t, events, 0, provider, subject, user) <==> Earns(t, events[0], provider, subject, user)
  {
    hide Earns;
    assert events[..0] == [];
  }

  lemma StaysLinked(t: Tables, events: seq<Event>, provider: string, subject: string, user: nat)
    requires Inv(t) && Linked(t, provider, subject, user)
    ensures Linked(Run(t, events), provider, subject, user)
  {
    hide Run, Inv;
    RunKeeps(t, events);
    assert t.identities == Run(t, events).identities[..|t.identities|];
  }

  /** Over any run an account that had not the identity has it in the end exactly when some event earned it: an
      explicit link, or a sign-in with a verified e-mail equal to its username, at that moment. */
  lemma {:induction false} GainsOverRuns(t: Tables, events: seq<Event>, provider: string, subject: string, user: nat)
    requires Inv(t) && user < |t.users| && !Linked(t, provider, subject, user)
    ensures Linked(Run(t, events), provider, subject, user)
        <==> exists k: nat :: EarnsAt(t, events, k, provider, subject, user)
    decreases |events|
  {
    if events != [] {
      hide Inv, Step, Earns, Linked, EarnsAt;
      var next := Step(t, events[0]);
      GainsIdentityIff(t, events[0], provider, subject, user);
      StepKeepsInv(t, events[0]);
      StepKeepsLinks(t, events[0]);
      EarnsFirst(t, events, provider, subject, user);
      if Linked(next, provider, subject, user) {
        StaysLinked(next, events[1..], provider, subject, user);
      } else {
        GainsOverRuns(next, events[1..], provider, subject, user);
        forall k: nat
          ensures EarnsAt(t, events, k + 1, provider, subject, user) <==> EarnsAt(next, events[1..], k, provider, subject, user)
        {
          EarnsLater(t, events, k, provider, subject, user);
        }
        if k: nat :| EarnsAt(t, events, k, provider, subject, user) {
          assert k > 0;
          assert EarnsAt(next, events[1..], k - 1, provider, subject, user);
        }
      }
    }
  }

  /** A token signs in exactly the account it leads to. */
  lemma SignsInIff(t: Tables, provider: Provider, claims: Claims, user: nat)
    requires Inv(t)
    ensures Resolve(t, provider, claims).Ok? && Resolve(t, provider, claims).value.1 == user <==> LeadsTo(t, provider, claims, user)
  {
    AllowedIsAdmitted(provider, claims);
    forall subject ensures Subject(claims) == Some(subject) <==> ("sub", Text(subject)) in claims.Items { SubjectIs(claims, subject); }
    VerifiedIsVouched(t, claims);
    forall username ensures Names(provider, claims, username)
        <==> ClaimValues(claims, provider.usernameClaim) != [] && ClaimValues(claims, provider.usernameClaim)[0] == username
    {
      NamesIsFirst(provider, claims, username);
    }
    forall username ensures FindUser(t.users, username, 0).Some? <==> Taken(t, username) { FoundIsTaken(t, username); }
    if Subject(claims).Some? { FoundIsLinked(t, provider.id, Subject(claims).value); }
    hide Inv, Admitted, IsAllowed, Subject, VerifiedEmailUser, Vouched, Names, ClaimValues, FindUser, Taken, FindIdentity, Linked, RoleOf;
  }

  /** Why a sign-in fails: a name somebody has, or anything else. */
  lemma ConflictIff(t: Tables, provider: Provider, claims: Claims)
    requires Inv(t)
    ensures Resolve(t, provider, claims) == Err(UsernameConflict) <==> exists subject, username ::
      Admitted(provider, claims) && ("sub", Text(subject)) in claims.Items && UnknownTaken(t, provider, claims, subject, username)
    ensures Resolve(t, provider, claims) != Err(AlreadyLinked)
  {
    AllowedIsAdmitted(provider, claims);
    forall subject ensures Subject(claims) == Some(subject) <==> ("sub", Text(subject)) in claims.Items { SubjectIs(claims, subject); }
    VerifiedIsVouched(t, claims);
    forall username ensures Names(provider, claims, username)
        <==> ClaimValues(claims, provider.usernameClaim) != [] && ClaimValues(claims, provider.usernameClaim)[0] == username
    {
      NamesIsFirst(provider, claims, username);
    }
    forall username ensures FindUser(t.users, username, 0).Some? <==> Taken(t, username) { FoundIsTaken(t, username); }
    if Subject(claims).Some? { FoundIsLinked(t, provider.id, Subject(claims).value); }
    hide Inv, Admitted, IsAllowed, Subject, VerifiedEmailUser, Vouched, Names, ClaimValues, FindUser, Taken, FindIdentity, Linked, RoleOf;
    if Resolve(t, provider, claims) == Err(UsernameConflict) {
      var subject, username := Subject(claims).value, ClaimValues(claims, provider.usernameClaim)[0];
      assert Names(provider, claims, username) && Taken(t, username);
      assert UnknownTaken(t, provider, claims, subject, username);
    }
  }

  /** Nobody is linked or vouched for, and the name the token gives is somebody's. */
  ghost predicate UnknownTaken(t: Tables, provider: Provider, claims: Claims, subject: string, username: string)
  {
    && (forall known: nat :: !Linked(t, provider.id, subject, known) && !Vouched(t, claims, known))
    && Names(provider, claims, username) && |username| <= 64 && Taken(t, username)
  }

  /** An explicit link is refused to a token that is not admitted and to an identity of another account; otherwise it
      is there afterwards. */
  lemma LinksIff(t: Tables, provider: Provider, claims: Claims, user: nat)
    requires Inv(t)
    ensures Link(t, provider, claims, user) == Err(NotAllowed)
        <==> !Admitted(provider, claims) || forall subject :: ("sub", Text(subject)) !in claims.Items
    ensures forall subject :: Admitted(provider, claims) && ("sub", Text(subject)) in claims.Items ==>
      LinkIs(t, provider.id, subject, user, Link(t, provider, claims, user))
  {
    AllowedIsAdmitted(provider, claims);
    forall subject ensures Subject(claims) == Some(subject) <==> ("sub", Text(subject)) in claims.Items { SubjectIs(claims, subject); }
    if Subject(claims).Some? { FoundIsLinked(t, provider.id, Subject(claims).value); }
    hide Inv, Admitted, IsAllowed, Subject, FindIdentity, Linked;
  }

  ghost predicate LinkIs(t: Tables, provider: string, subject: string, user: nat, r: Result<Tables>)
  {
    if exists other: nat :: other != user && Linked(t, provider, subject, other) then r == Err(AlreadyLinked)
    else r == Ok(if Linked(t, provider, subject, user) then t
                 else t.(identities := t.identities + [Identity(provider, subject, user)]))
  }

  /** What a successful sign-in does: the account has the role the token deserves and the identity, everything else
      is as it was, and a new account cannot sign in with a password. */
  lemma WhoSignsIn(t: Tables, provider: Provider, claims: Claims)
    requires Inv(t) && Resolve(t, provider, claims).Ok?
    ensures var (after, user) := Resolve(t, provider, claims).value;
      && user < |after.users| && Deserves(provider, claims, after.users[user].role) && after.users[user].active
      && Subject(claims).Some? && Linked(after, provider.id, Subject(claims).value, user)
      && (forall i :: 0 <= i < |t.users| && i != user ==> after.users[i] == t.users[i])
      && (user < |t.users| ==> |after.users| == |t.users| && after.users[user] == t.users[user].(role := after.users[user].role))
      && (user >= |t.users| ==>
        && after.users == t.users + [User(after.users[user].username, false, after.users[user].role, true)]
        && Names(provider, claims, after.users[user].username) && !Taken(t, after.users[user].username))
      && (after.identities == t.identities || after.identities == t.identities + [Identity(provider.id, Subject(claims).value, user)])
  {
    RoleIs(provider, claims, RoleOf(provider, claims));
    hide RoleOf, Deserves, IsAllowed;
  }

  // ---- the operations, as they change the tables ----

  class Accounts {
    var users: seq<User>
    var identities: seq<Identity>

    function Contents(): Tables
      reads this
    {
      Tables(users, identities)
    }

    constructor ()
      ensures Inv(Contents())
    {
      users, identities := [], [];
    }

    method LinkOidcIdentity(provider: Provider, claims: Claims, user: nat) returns (error: Option<Error>)
      modifies `identities
      ensures error == (match Link(old(Contents()), provider, claims, user) case Ok(_) => None case Err(e) => Some(e))
      ensures Contents() == match Link(old(Contents()), provider, claims, user) case Ok(t) => t case Err(_) => old(Contents())
    {
      if !IsAllowed(provider, claims) {
        return Some(NotAllowed);
      }
      var subject := Subject(claims);
      if subject.None? {
        return Some(NotAllowed);
      }
      var identity := FindIdentity(identities, provider.id, subject.value);
      if identity.Some? {
        if identity.value != user {
          return Some(AlreadyLinked);
        }
        return None;
      }
      identities := identities + [Identity(provider.id, subject.value, user)];
      return None;
    }

    method ResolveOidcUser(provider: Provider, claims: Claims) returns (result: Result<nat>)
      requires Inv(Contents())
      modifies this
      ensures Inv(Contents()) && Contents() == Step(old(Contents()), Resolving(provider, claims))
      ensures result == match Resolve(old(Contents()), provider, claims) case Ok(r) => Ok(r.1) case Err(e) => Err(e)
    {
      hide Inv;
      ghost var before := Contents();
      StepKeepsInv(before, Resolving(provider, claims));
      if !IsAllowed(provider, claims) {
        return Err(NotAllowed);
      }
      var subject := Subject(claims);
      if subject.None? {
        return Err(NotAllowed);
      }
      var role := RoleOf(provider, claims);
      var identity := FindIdentity(identities, provider.id, subject.value);
      if identity.Some? {
        if identity.value >= |users| || !users[identity.value].active {
          return Err(NotAllowed);
        }
        users := users[identity.value := users[identity.value].(role := role)];
        return Ok(identity.value);
      }
      var user := VerifiedEmailUser(Contents(), claims);
      if user.Some? {
        // The policy and the subject were just checked and the pair is unlinked: this cannot raise.
        var error := LinkOidcIdentity(provider, claims, user.value);
        assert error.None?;
        users := users[user.value := users[user.value].(role := role)];
        return Ok(user.value);
      }
      var usernames := ClaimValues(claims, provider.usernameClaim);
      if usernames == [] || |usernames[0]| > USERNAME_LIMIT {
        return Err(NotAllowed);
      }
      if FindUser(users, usernames[0], 0).Some? {
        return Err(UsernameConflict);
      }
      users := users + [User(usernames[0], false, role, true)];
      identities := identities + [Identity(provider.id, subject.value, |users| - 1)];
      return Ok(|users| - 1);
    }
  }
}
