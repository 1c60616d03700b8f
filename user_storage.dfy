/** The user store the services depend on. Its source is not part of this
    model; it is modelled on the film store: a map from id to user, a counter
    for the next id, and a lookup that answers None for an absent id. */
module UserStorageModel {
  import opened Results
  import opened UserModel
  import Enumeration

  class UserStorage {
    var users: map<int, User>
    var nextId: int

    /** Every user is stored under its own id; stored ids lie in [1, nextId). */
    ghost predicate Valid()
      reads this
    {
      && 1 <= nextId
      && forall id | id in users :: users[id].id == id && 1 <= id < nextId
    }

    constructor ()
      ensures Valid() && users == map[] && nextId == 1
    {
      users := map[];
      nextId := 1;
    }

    /** Stores `user` under a newly issued id, above every stored id. */
    method CreateUser(user: User) returns (stored: User)
      requires Valid()
      modifies this
      ensures Valid()
      ensures stored == user.(id := old(nextId))
      ensures users == old(users)[stored.id := stored] && nextId == old(nextId) + 1
      ensures stored.id !in old(users) && forall id | id in old(users) :: id < stored.id
    {
      stored := user.(id := nextId);
      nextId := nextId + 1;
      users := users[stored.id := stored];
    }

    /** Replaces the stored record when the id is stored, else answers None. */
    method UpdateUser(user: User) returns (r: Option<User>)
      requires Valid()
      modifies this
      ensures Valid() && nextId == old(nextId) && users.Keys == old(users.Keys)
      ensures user.id in old(users) ==> r == Some(user) && users == old(users)[user.id := user]
      ensures user.id !in old(users) ==> r == None && users == old(users)
    {
      if user.id !in users {
        return None;
      }
      users := users[user.id := user];
      return Some(user);
    }

    /** The user stored under `id`, or None when there is none. */
    function GetUser(id: int): (r: Option<User>)
      requires Valid()
      reads this
      ensures r.None? <==> id !in users
      ensures r.Some? ==> r.value == users[id] && r.value.id == id
    {
      if id in users then Some(users[id]) else None
    }

    /** A fresh list of exactly the stored users, each once. */
    method GetAllUsers() returns (r: seq<User>)
      requires Valid()
      ensures |r| == |users|
      ensures forall i | 0 <= i < |r| :: r[i].id in users && users[r[i].id] == r[i]
      ensures forall id | id in users :: users[id] in r
      ensures forall i, j | 0 <= i < j < |r| :: r[i].id != r[j].id
    {
      var ids := Enumeration.Enumerate(users.Keys);
      assert |users.Keys| == |users|;
      r := Enumeration.ValuesAt(users, ids);
      forall i | 0 <= i < |r| ensures r[i].id == ids[i] {
        assert ids[i] in users;
      }
      forall id | id in users ensures users[id] in r {
        var i :| 0 <= i < |ids| && ids[i] == id;
        assert r[i] == users[id];
      }
    }

    /** Removes `id` if stored, silently otherwise; the counter is kept. */
    method DeleteUser(id: int)
      requires Valid()
      modifies this
      ensures Valid() && nextId == old(nextId)
      ensures users == old(users) - {id}
    {
      users := users - {id};
    }
  }
}
