/** The in-memory user repository of the first version of the service: a
    hash map from id to user and a counter that hands out ids. */
module InMemoryUsers {
  import opened Common
  import opened Domain

  /** Removing a key the map has shrinks it by one entry. */
  lemma CardRemoveKey(m: map<int, User>, k: int)
    requires k in m
    ensures |m - {k}| == |m| - 1
  {
    assert (m - {k}).Keys == m.Keys - {k};
  }

  class InMemoryUserRepository {
    /** `users`: the stored users by id. */
    var users: map<int, User>
    /** `id`: the last id handed out. */
    var id: int

    /** Every user is stored under its own id. */
    ghost predicate Valid()
      reads this
    {
      forall k :: k in users ==> users[k].id == k
    }

    constructor ()
      ensures Valid() && users == map[] && id == 0
    {
      users := map[];
      id := 0;
    }

    /** `create`: the counter is incremented first and its new value becomes
        the user's id, under which the user is stored. */
    method Create(user: User) returns (r: User)
      requires Valid()
      modifies this
      ensures Valid()
      ensures id == old(id) + 1
      ensures r == user.(id := id)
      ensures users == old(users)[id := r]
    {
      id := id + 1;
      r := user.(id := id);
      users := users[id := r];
    }

    /** `update`: stores the user under its own id; no other entry changes. */
    method Update(user: User) returns (r: User)
      requires Valid()
      modifies this
      ensures Valid()
      ensures r == user && users == old(users)[user.id := user] && id == old(id)
    {
      users := users[user.id := user];
      r := user;
    }

    /** `get(id)`. */
    function Get(key: int): (r: Option<User>)
      reads this
      ensures r.Some? <==> key in users
      ensures r.Some? ==> r.value == users[key]
    {
      if key in users then Some(users[key]) else None
    }

    /** `get(email)`: the first stored user, in the map's iteration order
        (which the model leaves open), whose email equals `email`. */
    method GetByEmail(email: string) returns (r: Option<User>)
      ensures r.Some? ==> r.value.email == email && exists k :: k in users && users[k] == r.value
      ensures r.None? <==> forall k :: k in users ==> users[k].email != email
    {
      var keys := users.Keys;
      ghost var seen: set<int> := {};
      while keys != {}
        invariant keys !! seen && keys + seen == users.Keys
        invariant forall k :: k in seen ==> users[k].email != email
        decreases |keys|
      {
        NonEmptyHasElement(keys);
        var k :| k in keys;
        MoveKey(keys, seen, users.Keys, k);
        if users[k].email == email {
          return Some(users[k]);
        }
        keys := keys - {k};
        seen := seen + {k};
      }
      r := None;
    }

    /** `getAll`: every stored user, once each, in the map's iteration order. */
    method GetAll() returns (r: seq<User>)
      ensures |r| == |users|
      ensures forall x :: x in r <==> exists k :: k in users && users[k] == x
    {
      var keys := users.Keys;
      ghost var seen: set<int> := {};
      r := [];
      while keys != {}
        invariant keys !! seen && keys + seen == users.Keys
        invariant |r| == |seen|
        invariant forall x :: x in r <==> exists k :: k in seen && users[k] == x
        decreases |keys|
      {
        NonEmptyHasElement(keys);
        var k :| k in keys;
        MoveKey(keys, seen, users.Keys, k);
        r := r + [users[k]];
        keys := keys - {k};
        seen := seen + {k};
      }
      assert seen == users.Keys;
    }

    /** `delete`: false and no change when the id is absent; otherwise the
        entry is removed, the map shrinks by one and the answer is true. */
    method Delete(userId: int) returns (r: bool)
      requires Valid()
      modifies this
      ensures Valid()
      ensures r <==> userId in old(users)
      ensures users == old(users) - {userId} && id == old(id)
      ensures |users| == if r then |old(users)| - 1 else |old(users)|
    {
      if userId !in users {
        assert users - {userId} == users;
        return false;
      }
      CardRemoveKey(users, userId);
      users := users - {userId};
      r := true;
    }

    /** `resetData`: the counter goes back to 1 and the map is emptied. */
    method ResetData()
      modifies this
      ensures Valid()
      ensures users == map[] && id == 1
    {
      id := 1;
      users := map[];
    }
  }
}
