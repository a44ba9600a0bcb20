/**
 * The user store and the service over it: profile lookup, the registration check, and
 * registration as check-then-insert.
 */
module UserService {
  import opened Wrappers
  import opened Errors
  import opened UserModel
  import opened UserDto
  import UserMapper
  import PrincipalParser

  type Store = map<string, User>

  /** Every record is stored under its own id. */
  predicate WellKeyed(store: Store)
  {
    forall id :: id in store ==> store[id].id == id
  }

  /** The `users` container: `existsById`, `findById` and `save` (an upsert). */
  class UserRepo {
    var users: Store

    ghost predicate Valid()
      reads this
    {
      WellKeyed(users)
    }

    constructor(initial: Store)
      requires WellKeyed(initial)
      ensures Valid() && users == initial
    {
      users := initial;
    }

    method ExistsById(id: string) returns (exists_: bool)
      ensures exists_ <==> id in users
    {
      exists_ := id in users;
    }

    method FindById(id: string) returns (found: Option<User>)
      ensures found.Some? <==> id in users
      ensures found.Some? ==> found.value == users[id]
    {
      found := if id in users then Some(users[id]) else None;
    }

    /** Inserts or replaces the record under its id. */
    method Save(user: User) returns (saved: User)
      modifies this
      ensures users == old(users)[user.id := user] && saved == user
      ensures old(Valid()) ==> Valid()
    {
      users := users[user.id := user];
      saved := user;
    }
  }

  /** The record `register` builds: identity from the principal, names from the body,
      empty favourites and history. */
  function NewUser(principal: PrincipalParser.ClientPrincipal, body: RegisterRequest, now: Instant): (u: User)
    ensures u.id == principal.userId && u.registrationDate == Some(now)
    ensures u.providerUsername == principal.userDetails && u.identityProvider == principal.identityProvider
    ensures u.favorites == [] && u.watchHistory == []
  {
    User(principal.userId, body.visibleUsername, body.email, principal.identityProvider,
         principal.userDetails, Some(now), [], [])
  }

  /** What `register` returns and leaves in the store, given the store before it. */
  function Registration(store: Store, principal: PrincipalParser.ClientPrincipal, body: RegisterRequest,
                        now: Instant): (outcome: (Result<UserResponse, Failure>, Store))
    ensures outcome.0.Err? <==> principal.userId in store
    ensures outcome.0.Err? ==> outcome.0.error == UserAlreadyExists(principal.userId) && outcome.1 == store
    ensures outcome.0.Ok? ==>
              && outcome.1.Keys == store.Keys + {principal.userId}
              && (forall id :: id in store ==> outcome.1[id] == store[id])
              && var u := outcome.1[principal.userId];
              && u.id == principal.userId
              && u.visibleUsername == body.visibleUsername && u.email == body.email
              && u.identityProvider == principal.identityProvider
              && u.providerUsername == principal.userDetails
              && u.registrationDate == Some(now)
              && u.favorites == [] && u.watchHistory == []
              && outcome.0.value == UserMapper.ToResponse(u)
    ensures WellKeyed(store) ==> WellKeyed(outcome.1)
  {
    if principal.userId in store then (Err(UserAlreadyExists(principal.userId)), store)
    else
      var user := NewUser(principal, body, now);
      (Ok(UserMapper.ToResponse(user)), store[principal.userId := user])
  }

  /** Registering the same id twice in a row: the second attempt is a conflict and leaves
      the store as the first one left it; at most one of the two succeeds. */
  lemma RegisterTwice(store: Store, first: PrincipalParser.ClientPrincipal, second: PrincipalParser.ClientPrincipal,
                      body1: RegisterRequest, body2: RegisterRequest, now1: Instant, now2: Instant)
    requires first.userId == second.userId
    ensures var (r1, s1) := Registration(store, first, body1, now1);
            var (r2, s2) := Registration(s1, second, body2, now2);
            && r2 == Err(UserAlreadyExists(second.userId)) && s2 == s1
            && (first.userId !in store <==> r1.Ok?)
  {
  }

  class UserService {
    const repo: UserRepo

    constructor(repo: UserRepo)
      ensures this.repo == repo
    {
      this.repo := repo;
    }

    /** `getProfile`: the mapped record, or not-found carrying the id. It changes nothing. */
    method GetProfile(userId: string) returns (r: Result<UserResponse, Failure>)
      requires repo.Valid()
      ensures r.Ok? <==> userId in repo.users
      ensures r.Ok? ==> r.value.id == userId
      ensures r.Ok? ==> r.value == UserMapper.ToResponse(repo.users[userId])
      ensures r.Err? ==> r.error == UserNotFound(userId)
    {
      var found := repo.FindById(userId);
      assert found.Some? ==> found.value.id == userId;
      if found.None? {
        return Err(UserNotFound(userId));
      }
      r := Ok(UserMapper.ToResponse(found.value));
    }

    /** `isRegistered`: whether the id has a record. It changes nothing. */
    method IsRegistered(userId: string) returns (registered: bool)
      ensures registered <==> userId in repo.users
    {
      registered := repo.ExistsById(userId);
    }

    /** `register`: a conflict when the id exists, without saving; otherwise the new
      record is saved and its response returned. */
    method Register(principal: PrincipalParser.ClientPrincipal, body: RegisterRequest, now: Instant)
      returns (r: Result<UserResponse, Failure>)
      requires repo.Valid()
      modifies repo
      ensures repo.Valid()
      ensures (r, repo.users) == Registration(old(repo.users), principal, body, now)
    {
      var userId := principal.userId;
      var taken := repo.ExistsById(userId);
      if taken {
        return Err(UserAlreadyExists(userId));
      }
      var user := NewUser(principal, body, now);
      var saved := repo.Save(user);
      r := Ok(UserMapper.ToResponse(saved));
    }
  }
}
