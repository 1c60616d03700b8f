/** The two revisions of the user service. Both act on a UserStorage and
    change the stored users' friend sets in place; they differ in deleteUser
    (the newer one checks the id first) and addFriend (the newer one refuses
    a friend who is already one). */
module UserServices {
  import opened Results
  import opened UserModel
  import opened UserStorageModel
  import opened Friendship
  import Enumeration

  /** service/impl/UserServiceImpl.java */
  class UserServiceImpl {
    const userStorage: UserStorage

    constructor (userStorage: UserStorage)
      ensures this.userStorage == userStorage
    {
      this.userStorage := userStorage;
    }

    /** getUser: the stored user, or NotFound naming the id. */
    function GetUser(id: int): (r: Result<User>)
      requires userStorage.Valid()
      reads userStorage
      ensures r.Ok? <==> id in userStorage.users
      ensures r.Ok? ==> r.value == userStorage.users[id] && r.value.id == id
      ensures r.Err? ==> r.error == NotFound(UserWithId(id))
    {
      match userStorage.GetUser(id)
      case None => Err(NotFound(UserWithId(id)))
      case Some(u) => Ok(u)
    }

    /** updateUser: replaces the stored record; NotFound when the storage
        refuses the id, and then nothing changes. */
    method UpdateUser(user: User) returns (r: Result<User>)
      requires userStorage.Valid()
      modifies userStorage
      ensures userStorage.Valid() && userStorage.nextId == old(userStorage.nextId)
      ensures user.id in old(userStorage.users) ==> r == Ok(user) && userStorage.users == old(userStorage.users)[user.id := user]
      ensures user.id !in old(userStorage.users) ==> r == Err(NotFound(UserWithId(user.id))) && userStorage.users == old(userStorage.users)
    {
      var updated := userStorage.UpdateUser(user);
      if updated.None? {
        return Err(NotFound(UserWithId(user.id)));
      }
      return Ok(updated.value);
    }

    /** deleteUser: NotFound for an absent id before the storage is touched;
        otherwise only that user is removed. */
    method DeleteUser(id: int) returns (r: Outcome)
      requires userStorage.Valid()
      modifies userStorage
      ensures userStorage.Valid() && userStorage.nextId == old(userStorage.nextId)
      ensures match DeleteGuarded(old(userStorage.users), id)
              case Ok(m) => r == Pass && userStorage.users == m
              case Err(e) => r == Fail(e) && userStorage.users == old(userStorage.users)
    {
      if userStorage.GetUser(id).None? {
        return Fail(NotFound(UserWithId(id)));
      }
      userStorage.DeleteUser(id);
      return Pass;
    }

    /** addFriend: both users must exist and not already be friends; then
        each is added to the other's friend set. */
    method AddFriend(userId: int, friendId: int) returns (r: Outcome)
      requires userStorage.Valid()
      modifies userStorage
      ensures userStorage.Valid() && userStorage.nextId == old(userStorage.nextId)
      ensures match AddFriendGuarded(old(userStorage.users), userId, friendId)
              case Ok(m) => r == Pass && userStorage.users == m
              case Err(e) => r == Fail(e) && userStorage.users == old(userStorage.users)
    {
      var user := GetUser(userId);
      if user.Err? {
        return Fail(user.error);
      }
      var friend := GetUser(friendId);
      if friend.Err? {
        return Fail(friend.error);
      }
      if friendId in user.value.friends {
        return Fail(Validation(AlreadyFriends));
      }
      AddBothWays(userStorage, userId, friendId);
      return Pass;
    }

    /** removeFriend: both users must exist; each is removed from the other's
        friend set, which is no error when they were not friends. */
    method RemoveFriend(userId: int, friendId: int) returns (r: Outcome)
      requires userStorage.Valid()
      modifies userStorage
      ensures userStorage.Valid() && userStorage.nextId == old(userStorage.nextId)
      ensures match Friendship.RemoveFriend(old(userStorage.users), userId, friendId)
              case Ok(m) => r == Pass && userStorage.users == m
              case Err(e) => r == Fail(e) && userStorage.users == old(userStorage.users)
    {
      var user := GetUser(userId);
      if user.Err? {
        return Fail(user.error);
      }
      var friend := GetUser(friendId);
      if friend.Err? {
        return Fail(friend.error);
      }
      RemoveBothWays(userStorage, userId, friendId);
      return Pass;
    }

    /** getFriends: one stored user per friend id, or NotFound for the user
        or for a friend id with no stored user. */
    method GetFriends(userId: int) returns (r: Result<seq<User>>)
      requires userStorage.Valid()
      ensures FriendsAnswer(userStorage.users, userId, r)
    {
      r := ListFriends(userStorage, userId);
    }

    /** getCommonFriends: one stored user per id in both friend sets, or
        NotFound for either user or for such an id with no stored user. */
    method GetCommonFriends(userId: int, otherUserId: int) returns (r: Result<seq<User>>)
      requires userStorage.Valid()
      ensures CommonFriendsAnswer(userStorage.users, userId, otherUserId, r)
    {
      r := ListCommonFriends(userStorage, userId, otherUserId);
    }
  }

  /** service/UserService.java, the older revision. */
  class UserService {
    const userStorage: UserStorage

    constructor (userStorage: UserStorage)
      ensures this.userStorage == userStorage
    {
      this.userStorage := userStorage;
    }

    /** getUser: the stored user, or NotFound naming the id. */
    function GetUser(id: int): (r: Result<User>)
      requires userStorage.Valid()
      reads userStorage
      ensures r.Ok? <==> id in userStorage.users
      ensures r.Ok? ==> r.value == userStorage.users[id] && r.value.id == id
      ensures r.Err? ==> r.error == NotFound(UserWithId(id))
    {
      match userStorage.GetUser(id)
      case None => Err(NotFound(UserWithId(id)))
      case Some(u) => Ok(u)
    }

    /** updateUser: NotFound when the storage refuses the id. */
    method UpdateUser(user: User) returns (r: Result<User>)
      requires userStorage.Valid()
      modifies userStorage
      ensures userStorage.Valid() && userStorage.nextId == old(userStorage.nextId)
      ensures user.id in old(userStorage.users) ==> r == Ok(user) && userStorage.users == old(userStorage.users)[user.id := user]
      ensures user.id !in old(userStorage.users) ==> r == Err(NotFound(UserWithId(user.id))) && userStorage.users == old(userStorage.users)
    {
      var updated := userStorage.UpdateUser(user);
      if updated.None? {
        return Err(NotFound(UserWithId(user.id)));
      }
      return Ok(updated.value);
    }

    /** deleteUser: delegates without checking, so an absent id is no error. */
    method DeleteUser(id: int)
      requires userStorage.Valid()
      modifies userStorage
      ensures userStorage.Valid() && userStorage.nextId == old(userStorage.nextId)
      ensures userStorage.users == old(userStorage.users) - {id}
    {
      userStorage.DeleteUser(id);
    }

    /** addFriend: both users must exist; then each is added to the other's
        friend set, with no check for an existing friendship. */
    method AddFriend(userId: int, friendId: int) returns (r: Outcome)
      requires userStorage.Valid()
      modifies userStorage
      ensures userStorage.Valid() && userStorage.nextId == old(userStorage.nextId)
      ensures match AddFriendUnguarded(old(userStorage.users), userId, friendId)
              case Ok(m) => r == Pass && userStorage.users == m
              case Err(e) => r == Fail(e) && userStorage.users == old(userStorage.users)
    {
      var user := GetUser(userId);
      if user.Err? {
        return Fail(user.error);
      }
      var friend := GetUser(friendId);
      if friend.Err? {
        return Fail(friend.error);
      }
      AddBothWays(userStorage, userId, friendId);
      return Pass;
    }

    /** removeFriend: as in the newer revision. */
    method RemoveFriend(userId: int, friendId: int) returns (r: Outcome)
      requires userStorage.Valid()
      modifies userStorage
      ensures userStorage.Valid() && userStorage.nextId == old(userStorage.nextId)
      ensures match Friendship.RemoveFriend(old(userStorage.users), userId, friendId)
              case Ok(m) => r == Pass && userStorage.users == m
              case Err(e) => r == Fail(e) && userStorage.users == old(userStorage.users)
    {
      var user := GetUser(userId);
      if user.Err? {
        return Fail(user.error);
      }
      var friend := GetUser(friendId);
      if friend.Err? {
        return Fail(friend.error);
      }
      RemoveBothWays(userStorage, userId, friendId);
      return Pass;
    }

    /** getFriends: as in the newer revision. */
    method GetFriends(userId: int) returns (r: Result<seq<User>>)
      requires userStorage.Valid()
      ensures FriendsAnswer(userStorage.users, userId, r)
    {
      r := ListFriends(userStorage, userId);
    }

    /** getCommonFriends: as in the newer revision. */
    method GetCommonFriends(userId: int, otherUserId: int) returns (r: Result<seq<User>>)
      requires userStorage.Valid()
      ensures CommonFriendsAnswer(userStorage.users, userId, otherUserId, r)
    {
      r := ListCommonFriends(userStorage, userId, otherUserId);
    }
  }

  /** What getFriends may answer: NotFound for an absent user; otherwise a
      list of the stored friends exactly when every friend id is stored, and
      NotFound for an unstored friend id when one is not. */
  ghost predicate FriendsAnswer(users: map<int, User>, userId: int, r: Result<seq<User>>) {
    if userId !in users then r == Err(NotFound(UserWithId(userId)))
    else
      var friends := users[userId].friends;
      && (r.Ok? <==> friends <= users.Keys)
      && (r.Ok? ==> ListsUsers(r.value, users, friends))
      && (r.Err? ==> exists id | id in friends && id !in users :: r.error == NotFound(UserWithId(id)))
  }

  /** What getCommonFriends may answer: NotFound for the first absent user;
      otherwise the stored users whose ids are in both friend sets, or
      NotFound for such an id that is not stored. */
  ghost predicate CommonFriendsAnswer(users: map<int, User>, userId: int, otherUserId: int, r: Result<seq<User>>) {
    if userId !in users then r == Err(NotFound(UserWithId(userId)))
    else if otherUserId !in users then r == Err(NotFound(UserWithId(otherUserId)))
    else
      var common := users[userId].friends * users[otherUserId].friends;
      && (r.Ok? <==> common <= users.Keys)
      && (r.Ok? ==> ListsUsers(r.value, users, common))
      && (r.Err? ==> exists id | id in common && id !in users :: r.error == NotFound(UserWithId(id)))
  }

  /** The two in-place insertions of addFriend, written back to the store. */
  method AddBothWays(store: UserStorage, userId: int, friendId: int)
    requires store.Valid() && userId in store.users && friendId in store.users
    modifies store
    ensures store.Valid() && store.nextId == old(store.nextId)
    ensures store.users == Befriend(old(store.users), userId, friendId)
  {
    var user := store.users[userId];
    store.users := store.users[userId := user.(friends := user.friends + {friendId})];
    var friend := store.users[friendId];
    store.users := store.users[friendId := friend.(friends := friend.friends + {userId})];
  }

  /** The two in-place removals of removeFriend, written back to the store. */
  method RemoveBothWays(store: UserStorage, userId: int, friendId: int)
    requires store.Valid() && userId in store.users && friendId in store.users
    modifies store
    ensures store.Valid() && store.nextId == old(store.nextId)
    ensures store.users == Unfriend(old(store.users), userId, friendId)
  {
    var user := store.users[userId];
    store.users := store.users[userId := user.(friends := user.friends - {friendId})];
    var friend := store.users[friendId];
    store.users := store.users[friendId := friend.(friends := friend.friends - {userId})];
  }

  /** Streams the user's friend set, in the set's unspecified order, through
      getUser. */
  method ListFriends(store: UserStorage, userId: int) returns (r: Result<seq<User>>)
    requires store.Valid()
    ensures FriendsAnswer(store.users, userId, r)
  {
    var user := store.GetUser(userId);
    if user.None? {
      return Err(NotFound(UserWithId(userId)));
    }
    var ids := Enumeration.Enumerate(user.value.friends);
    r := ResolveAll(store.users, ids);
    ResolvedList(store, ids, user.value.friends, r);
  }

  /** Streams the user's friend set, keeps the ids also in the other user's
      friend set, and maps them through getUser. */
  method ListCommonFriends(store: UserStorage, userId: int, otherUserId: int) returns (r: Result<seq<User>>)
    requires store.Valid()
    ensures CommonFriendsAnswer(store.users, userId, otherUserId, r)
  {
    var user := store.GetUser(userId);
    if user.None? {
      return Err(NotFound(UserWithId(userId)));
    }
    var other := store.GetUser(otherUserId);
    if other.None? {
      return Err(NotFound(UserWithId(otherUserId)));
    }
    var ids := Enumeration.Enumerate(user.value.friends);
    var common := KeepIn(ids, other.value.friends);
    ghost var wanted := user.value.friends * other.value.friends;
    assert forall x :: x in common <==> x in wanted;
    SetOfDistinct(common, wanted);
    r := ResolveAll(store.users, common);
    ResolvedList(store, common, wanted, r);
  }

  /** A distinct listing of a set is as long as the set. */
  lemma {:induction false} SetOfDistinct(ids: seq<int>, s: set<int>)
    requires Enumeration.Distinct(ids) && forall x :: x in ids <==> x in s
    ensures |ids| == |s|
  {
    if ids == [] {
      assert forall x | x in s :: x in ids;
      assert s == {};
    } else {
      assert ids[0] in ids;
      assert forall k | 0 <= k < |ids[1..]| :: ids[1..][k] == ids[k + 1] != ids[0];
      assert forall x :: x in ids[1..] <==> x in s - {ids[0]};
      SetOfDistinct(ids[1..], s - {ids[0]});
      assert |s - {ids[0]}| == |s| - 1;
    }
  }

  /** What ResolveAll gives for a distinct listing `ids` of the set `s`. */
  lemma ResolvedList(store: UserStorage, ids: seq<int>, s: set<int>, r: Result<seq<User>>)
    requires store.Valid() && r == ResolveAll(store.users, ids)
    requires Enumeration.Distinct(ids) && |ids| == |s| && forall x :: x in ids <==> x in s
    ensures r.Ok? <==> s <= store.users.Keys
    ensures r.Ok? ==> ListsUsers(r.value, store.users, s)
    ensures r.Err? ==> exists id | id in s && id !in store.users :: r.error == NotFound(UserWithId(id))
  {
    var users := store.users;
    if r.Ok? {
      forall i | 0 <= i < |r.value| ensures r.value[i].id == ids[i] {
        assert ids[i] in users;
      }
      forall id | id in s ensures id in users && users[id] in r.value {
        var i :| 0 <= i < |ids| && ids[i] == id;
        assert r.value[i] == users[id];
      }
    }
  }
}
