/** User administration of the first iteration: the admin controller
    (src/controllers/adminController.js) and the gate in front of it
    (src/middleware/admin.js). */
module AdminA {
  import opened Common
  import opened SchemaA
  import opened AuthA

  /** `getAllUsers`: every user, without passwords. */
  function GetAllUsers(s: Store): (r: map<Id, PublicUser>)
    ensures r.Keys == s.users.Keys
    ensures forall id :: id in r ==> r[id] == View(id, s.users[id])
  {
    map id | id in s.users :: View(id, s.users[id])
  }

  /** `getUserById`: the same query and answers as the profile route, for
      any id rather than the requester's own. */
  function GetUserById(s: Store, id: Id): (r: Response<PublicUser>)
    ensures r.Err? <==> id !in s.users
    ensures r.Err? ==> r == Err(404, "User not found")
    ensures r.Ok? ==> r.status == 200 && r.value == View(id, s.users[id])
  {
    GetProfile(s, id)
  }

  /** `deleteUser`: existence is checked before the self-deletion guard. The
      author of a collection cannot be deleted: `author_id` has no ON DELETE
      action, the database refuses the statement, and the handler's catch
      answers 500. */
  function DeleteUser(s: Store, requester: Id, id: Id): (out: (Response<()>, Store))
    ensures out.0.Err? ==> out.1 == s
    ensures id !in s.users ==> out.0 == Err(404, "User not found")
    ensures id in s.users && id == requester ==> out.0 == Err(400, "Cannot delete your own account")
    ensures id in s.users && id != requester && HasAuthored(s, id) ==> out.0 == Err(500, "Internal server error")
    ensures out.0.Ok? <==> id in s.users && id != requester && !HasAuthored(s, id)
    // Exactly the target user goes, with their revisions and grants.
    ensures out.0.Ok? ==>
      && out.0.status == 200 && out.1 == RemoveUser(s, id)
      && out.1.users.Keys == s.users.Keys - {id}
      && out.1.collections == s.collections
  {
    if id !in s.users then (Err(404, "User not found"), s)
    else if id == requester then (Err(400, "Cannot delete your own account"), s)
    else if HasAuthored(s, id) then (Err(500, "Internal server error"), s)
    else (Ok(200, ()), RemoveUser(s, id))
  }

  lemma DeleteUserKeepsValid(s: Store, requester: Id, id: Id)
    requires Valid(s)
    ensures Valid(DeleteUser(s, requester, id).1)
  {
    if id in s.users && id != requester && !HasAuthored(s, id) {
      RemoveUserKeepsValid(s, id);
    }
  }

  /** What the middleware does with a request: pass it on, or answer it. */
  datatype Gate = Next | Deny(status: int, message: string)

  /** `adminMiddleware`. `userId` is what authentication put on the request;
      a missing or empty id is falsy. */
  function AdminMiddleware(s: Store, userId: Option<Id>): (g: Gate)
    ensures userId.None? || userId.value == "" ==> g == Deny(401, "Authentication required")
    ensures userId.Some? && userId.value != "" && userId.value !in s.users ==> g == Deny(404, "User not found")
    ensures (userId.Some? && userId.value in s.users && userId.value != "" && !s.users[userId.value].isAdmin)
              ==> g == Deny(403, "Admin access required")
    // The request goes on exactly when the stored user is an administrator.
    ensures g.Next? <==> userId.Some? && userId.value != "" && userId.value in s.users && s.users[userId.value].isAdmin
  {
    if userId.None? || userId.value == "" then Deny(401, "Authentication required")
    else if userId.value !in s.users then Deny(404, "User not found")
    else if !s.users[userId.value].isAdmin then Deny(403, "Admin access required")
    else Next
  }
}
