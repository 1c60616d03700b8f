/** The friendship rules of the two user service revisions
    (service/UserService.java and service/impl/UserServiceImpl.java), stated
    on the map of stored users they act upon. */
module Friendship {
  import opened Results
  import opened UserModel
  import opened Enumeration

  /** Between stored users, friendship goes both ways. */
  predicate Symmetric(users: map<int, User>) {
    forall a, b | a in users && b in users && b in users[a].friends :: a in users[b].friends
  }

  /** Every friend id of a stored user names a stored user. */
  predicate Resolvable(users: map<int, User>) {
    forall a, b | a in users && b in users[a].friends :: b in users
  }

  /** The ids `u` and `f` each gain in Befriend(users, u, f). */
  function Pair(k: int, u: int, f: int): set<int> {
    (if k == u then {f} else {}) + (if k == f then {u} else {})
  }

  /** The two insertions of addFriend: `f` into u's friends, then `u` into
      f's friends. When u == f both go to the one set. */
  function Befriend(users: map<int, User>, u: int, f: int): (r: map<int, User>)
    requires u in users && f in users
    ensures r.Keys == users.Keys
    ensures forall k | k in users :: r[k] == users[k].(friends := users[k].friends + Pair(k, u, f))
  {
    var m := users[u := users[u].(friends := users[u].friends + {f})];
    m[f := m[f].(friends := m[f].friends + {u})]
  }

  /** The two removals of removeFriend, in the same order. */
  function Unfriend(users: map<int, User>, u: int, f: int): (r: map<int, User>)
    requires u in users && f in users
    ensures r.Keys == users.Keys
    ensures forall k | k in users :: r[k] == users[k].(friends := users[k].friends - Pair(k, u, f))
  {
    var m := users[u := users[u].(friends := users[u].friends - {f})];
    m[f := m[f].(friends := m[f].friends - {u})]
  }

  /** addFriend of the older revision: both users must exist; no guard
      against a repeated request. */
  function AddFriendUnguarded(users: map<int, User>, u: int, f: int): (r: Result<map<int, User>>)
    ensures u !in users ==> r == Err(NotFound(UserWithId(u)))
    ensures u in users && f !in users ==> r == Err(NotFound(UserWithId(f)))
    ensures r.Ok? <==> u in users && f in users
  {
    if u !in users then Err(NotFound(UserWithId(u)))
    else if f !in users then Err(NotFound(UserWithId(f)))
    else Ok(Befriend(users, u, f))
  }

  /** addFriend of the newer revision: both users must exist, and `f` must
      not already be among u's friends. */
  function AddFriendGuarded(users: map<int, User>, u: int, f: int): (r: Result<map<int, User>>)
    ensures u !in users ==> r == Err(NotFound(UserWithId(u)))
    ensures u in users && f !in users ==> r == Err(NotFound(UserWithId(f)))
    ensures u in users && f in users && f in users[u].friends ==> r == Err(Validation(AlreadyFriends))
    ensures r.Ok? <==> u in users && f in users && f !in users[u].friends
  {
    if u !in users then Err(NotFound(UserWithId(u)))
    else if f !in users then Err(NotFound(UserWithId(f)))
    else if f in users[u].friends then Err(Validation(AlreadyFriends))
    else Ok(Befriend(users, u, f))
  }

  /** removeFriend (both revisions): both users must exist; removing a
      friendship that is not there is not an error. */
  function RemoveFriend(users: map<int, User>, u: int, f: int): (r: Result<map<int, User>>)
    ensures u !in users ==> r == Err(NotFound(UserWithId(u)))
    ensures u in users && f !in users ==> r == Err(NotFound(UserWithId(f)))
    ensures r.Ok? <==> u in users && f in users
  {
    if u !in users then Err(NotFound(UserWithId(u)))
    else if f !in users then Err(NotFound(UserWithId(f)))
    else Ok(Unfriend(users, u, f))
  }

  /** deleteUser of the newer revision: NotFound for an absent id, otherwise
      only that user is removed; no friend set is cleaned up. */
  function DeleteGuarded(users: map<int, User>, id: int): (r: Result<map<int, User>>)
    ensures r.Ok? <==> id in users
    ensures r.Err? ==> r.error == NotFound(UserWithId(id))
    ensures r.Ok? ==> r.value.Keys == users.Keys - {id}
                      && forall k | k in r.value :: r.value[k] == users[k]
  {
    if id !in users then Err(NotFound(UserWithId(id))) else Ok(users - {id})
  }

  /** Looks the ids up one after the other, as a stream of getUser calls
      does: the first id with no stored user is reported as NotFound. */
  function ResolveAll(users: map<int, User>, ids: seq<int>): (r: Result<seq<User>>)
    ensures r.Ok? <==> forall i | 0 <= i < |ids| :: ids[i] in users
    ensures r.Ok? ==> |r.value| == |ids| && forall i | 0 <= i < |ids| :: r.value[i] == users[ids[i]]
    ensures r.Err? ==> exists i | 0 <= i < |ids| :: && ids[i] !in users
                                                    && (forall j | 0 <= j < i :: ids[j] in users)
                                                    && r.error == NotFound(UserWithId(ids[i]))
  {
    if ids == [] then Ok([])
    else if ids[0] !in users then Err(NotFound(UserWithId(ids[0])))
    else
      match ResolveAll(users, ids[1..])
      case Err(e) =>
        Err(e)
      case Ok(rest) =>
        Ok([users[ids[0]]] + rest)
  }

  /** The ids of `ids` that lie in `keep`, in order: the stream filter of
      getCommonFriends. */
  function KeepIn(ids: seq<int>, keep: set<int>): (r: seq<int>)
    ensures forall x :: x in r <==> x in ids && x in keep
    ensures Distinct(ids) ==> Distinct(r)
  {
    if ids == [] then []
    else
      var rest := KeepIn(ids[1..], keep);
      assert Distinct(ids) ==> ids[0] !in ids[1..];
      if ids[0] in keep then [ids[0]] + rest else rest
  }

  /** `list` holds one stored user for each id of `ids`, and nothing else. */
  predicate ListsUsers(list: seq<User>, users: map<int, User>, ids: set<int>) {
    && |list| == |ids|
    && (forall i | 0 <= i < |list| :: list[i].id in ids && list[i].id in users && users[list[i].id] == list[i])
    && (forall i, j | 0 <= i < j < |list| :: list[i].id != list[j].id)
    && (forall id | id in ids :: id in users && users[id] in list)
  }

  /** Adding a friendship keeps friendship symmetric and makes the two users
      friends of each other. */
  lemma BefriendKeepsSymmetry(users: map<int, User>, u: int, f: int)
    requires u in users && f in users && Symmetric(users)
    ensures Symmetric(Befriend(users, u, f))
    ensures f in Befriend(users, u, f)[u].friends && u in Befriend(users, u, f)[f].friends
  {
  }

  /** Removing a friendship keeps friendship symmetric and leaves neither
      user a friend of the other. */
  lemma UnfriendKeepsSymmetry(users: map<int, User>, u: int, f: int)
    requires u in users && f in users && Symmetric(users)
    ensures Symmetric(Unfriend(users, u, f))
    ensures f !in Unfriend(users, u, f)[u].friends && u !in Unfriend(users, u, f)[f].friends
  {
  }

  /** Both friendship operations keep every friend id resolvable. */
  lemma FriendshipKeepsResolvable(users: map<int, User>, u: int, f: int)
    requires u in users && f in users && Resolvable(users)
    ensures Resolvable(Befriend(users, u, f)) && Resolvable(Unfriend(users, u, f))
  {
  }

  /** Repeating the older addFriend changes nothing more: it is idempotent. */
  lemma {:induction false} BefriendIdempotent(users: map<int, User>, u: int, f: int)
    requires u in users && f in users
    ensures Befriend(Befriend(users, u, f), u, f) == Befriend(users, u, f)
  {
    var once := Befriend(users, u, f);
    var twice := Befriend(once, u, f);
    forall k | k in users ensures twice[k] == once[k] {
      assert once[k].friends + Pair(k, u, f) == once[k].friends;
    }
  }

  /** Repeating the newer addFriend is refused as a validation error. */
  lemma RepeatedRequestRefused(users: map<int, User>, u: int, f: int)
    requires AddFriendGuarded(users, u, f).Ok?
    ensures AddFriendGuarded(AddFriendGuarded(users, u, f).value, u, f) == Err(Validation(AlreadyFriends))
  {
  }

  /** The two revisions of addFriend differ only where the newer one refuses
      a repeat; on a symmetric map the older one leaves such a map as it was. */
  lemma {:induction false} RevisionsOfAddFriend(users: map<int, User>, u: int, f: int)
    requires Symmetric(users)
    ensures AddFriendGuarded(users, u, f).Ok? ==> AddFriendUnguarded(users, u, f) == AddFriendGuarded(users, u, f)
    ensures AddFriendGuarded(users, u, f) == Err(Validation(AlreadyFriends))
            ==> AddFriendUnguarded(users, u, f) == Ok(users)
  {
    if u in users && f in users && f in users[u].friends {
      var after := Befriend(users, u, f);
      forall k | k in users ensures after[k] == users[k] {
        assert users[k].friends + Pair(k, u, f) == users[k].friends;
      }
      assert after == users;
    }
  }

  /** Befriending two users who were not friends and then unfriending them
      restores the map. */
  lemma {:induction false} BefriendThenUnfriend(users: map<int, User>, u: int, f: int)
    requires u in users && f in users
    requires f !in users[u].friends && u !in users[f].friends
    ensures Unfriend(Befriend(users, u, f), u, f) == users
  {
    var back := Unfriend(Befriend(users, u, f), u, f);
    forall k | k in users ensures back[k] == users[k] {
      assert users[k].friends + Pair(k, u, f) - Pair(k, u, f) == users[k].friends;
    }
  }

  /** Deleting a user who has a friend leaves that friend holding an id with
      no stored user, because deletion does not clean up friend sets. */
  lemma {:induction false} DeleteLeavesDanglingFriend(users: map<int, User>, v: int, a: int)
    requires a in users && v in users && a != v && v in users[a].friends
    ensures DeleteGuarded(users, v).Ok? && !Resolvable(DeleteGuarded(users, v).value)
  {
    var after := DeleteGuarded(users, v).value;
    assert a in after && v in after[a].friends && v !in after;
  }
}
