/** The user administration of the second iteration
    (src/controllers/userController.js). The routes sit behind `CheckAdmin`. */
module UsersB {
  import opened Common
  import opened SchemaB

  /** A user as the listing shows it: every column but the password. */
  datatype PublicUser = PublicUser(userId: Id, email: string, name: string, firstName: string, isAdmin: bool,
                                   createdAt: int)

  function View(id: Id, u: User): (v: PublicUser)
    ensures v.userId == id && v.email == u.email && v.name == u.name && v.firstName == u.firstName
    ensures v.isAdmin == u.isAdmin && v.createdAt == u.createdAt
  {
    PublicUser(id, u.email, u.name, u.firstName, u.isAdmin, u.createdAt)
  }

  /** Newest first. Rows created at the same instant may come in any order. */
  predicate NewestFirst(r: seq<PublicUser>)
  {
    forall i, j :: 0 <= i < j < |r| ==> r[i].createdAt >= r[j].createdAt
  }

  /** The user of `ids` created last. */
  method Latest(users: map<Id, User>, ids: set<Id>) returns (m: Id)
    requires ids != {} && ids <= users.Keys
    ensures m in ids
    ensures forall o :: o in ids ==> users[o].createdAt <= users[m].createdAt
  {
    m :| m in ids;
    var rest := ids - {m};
    while rest != {}
      invariant rest <= ids && m in ids
      invariant forall o :: o in ids - rest ==> users[o].createdAt <= users[m].createdAt
      decreases |rest|
    {
      var o :| o in rest;
      if users[o].createdAt > users[m].createdAt {
        m := o;
      }
      rest := rest - {o};
    }
  }

  /** `r` lists each user of `done` exactly once, as its public view. */
  ghost predicate ListsOnce(s: Store, r: seq<PublicUser>, done: set<Id>)
  {
    && (forall i :: 0 <= i < |r| ==> r[i].userId in done && r[i].userId in s.users
                                      && r[i] == View(r[i].userId, s.users[r[i].userId]))
    && (forall id :: id in done ==> exists i :: 0 <= i < |r| && r[i].userId == id)
    && (forall i, j :: 0 <= i < j < |r| ==> r[i].userId != r[j].userId)
  }

  /** Appending a user not yet listed keeps the listing exact. */
  lemma ListsOnceStep(s: Store, r: seq<PublicUser>, done: set<Id>, top: Id)
    requires ListsOnce(s, r, done) && top in s.users && top !in done
    ensures ListsOnce(s, r + [View(top, s.users[top])], done + {top})
  {
    var r' := r + [View(top, s.users[top])];
    forall id | id in done + {top}
      ensures exists i :: 0 <= i < |r'| && r'[i].userId == id
    {
      if id == top {
        assert r'[|r|].userId == id;
      } else {
        var i :| 0 <= i < |r| && r[i].userId == id;
        assert r'[i] == r[i];
      }
    }
  }

  /** Nothing in `rest` is newer than anything already listed. */
  ghost predicate NoneNewer(s: Store, r: seq<PublicUser>, rest: set<Id>)
    requires rest <= s.users.Keys
  {
    forall i, id :: 0 <= i < |r| && id in rest ==> s.users[id].createdAt <= r[i].createdAt
  }

  /** Appending the newest remaining user keeps the listing newest first. */
  lemma NewestFirstStep(s: Store, r: seq<PublicUser>, rest: set<Id>, top: Id)
    requires rest <= s.users.Keys && top in rest
    requires NewestFirst(r) && NoneNewer(s, r, rest)
    requires forall o :: o in rest ==> s.users[o].createdAt <= s.users[top].createdAt
    ensures NewestFirst(r + [View(top, s.users[top])])
    ensures NoneNewer(s, r + [View(top, s.users[top])], rest - {top})
  {
  }

  /** `getAllUsers`: every user exactly once, without the password, ordered
      by creation date, newest first. */
  method GetAllUsers(s: Store) returns (r: seq<PublicUser>)
    ensures NewestFirst(r)
    ensures |r| == |s.users|
    ensures forall i :: 0 <= i < |r| ==> r[i].userId in s.users && r[i] == View(r[i].userId, s.users[r[i].userId])
    ensures forall id :: id in s.users ==> exists i :: 0 <= i < |r| && r[i].userId == id
    ensures forall i, j :: 0 <= i < j < |r| ==> r[i].userId != r[j].userId
  {
    var remaining := s.users.Keys;
    r := [];
    while remaining != {}
      invariant remaining <= s.users.Keys
      invariant |r| + |remaining| == |s.users|
      invariant ListsOnce(s, r, s.users.Keys - remaining)
      invariant NewestFirst(r)
      // Whatever is still to come is no newer than what was already listed.
      invariant NoneNewer(s, r, remaining)
      decreases |remaining|
    {
      var top := Latest(s.users, remaining);
      ListsOnceStep(s, r, s.users.Keys - remaining, top);
      NewestFirstStep(s, r, remaining, top);
      assert (s.users.Keys - remaining) + {top} == s.users.Keys - (remaining - {top});
      r := r + [View(top, s.users[top])];
      remaining := remaining - {top};
    }
    assert s.users.Keys - remaining == s.users.Keys;
  }

  /** `getOneUser`. */
  function GetOneUser(s: Store, id: Id): (r: Response<PublicUser>)
    ensures r.Err? <==> id !in s.users
    ensures r.Err? ==> r == Err(404, "User not found")
    ensures r.Ok? ==> r.status == 200 && r.value == View(id, s.users[id])
  {
    if id !in s.users then Err(404, "User not found") else Ok(200, View(id, s.users[id]))
  }

  /** `deleteUser`: administrators cannot be deleted, not even by themselves. */
  function DeleteUser(s: Store, id: Id): (out: (Response<()>, Store))
    ensures out.0.Err? ==> out.1 == s
    ensures id !in s.users ==> out.0 == Err(404, "User not found")
    ensures id in s.users && s.users[id].isAdmin ==> out.0 == Err(403, "Cannot delete an admin user")
    ensures out.0.Ok? <==> id in s.users && !s.users[id].isAdmin
    // Only the user row is deleted directly; the database cascades the rest.
    ensures out.0.Ok? ==>
      out.0.status == 200 && out.1 == RemoveUser(s, id) && out.1.users.Keys == s.users.Keys - {id}
  {
    if id !in s.users then (Err(404, "User not found"), s)
    else if s.users[id].isAdmin then (Err(403, "Cannot delete an admin user"), s)
    else (Ok(200, ()), RemoveUser(s, id))
  }

  /** Every administrator survives any deletion request. */
  lemma AdminsSurviveDeletion(s: Store, id: Id)
    ensures forall a :: a in s.users && s.users[a].isAdmin ==>
      a in DeleteUser(s, id).1.users && DeleteUser(s, id).1.users[a] == s.users[a]
  {
  }

  lemma DeleteUserKeepsValid(s: Store, id: Id)
    requires Valid(s)
    ensures Valid(DeleteUser(s, id).1)
  {
    RemoveUserKeepsValid(s, id);
  }
}
