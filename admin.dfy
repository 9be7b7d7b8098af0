/** The administration endpoints under `/api/admin`. They manage departments
    (the workspaces other than the global one) and user accounts. Every
    endpoint sits behind the admin role gate, which is a dependency and not
    part of this model. */
module Admin {
  import opened Common
  import opened Seqs
  import opened Models

  const DuplicateDepartment: string := "部门名称已存在"
  const GlobalUndeletable: string := "公共库不可删除"
  const DepartmentNotFound: string := "部门不存在"
  const Unassigned: string := "未分配"
  const DuplicateUsername: string := "用户名已存在"
  const InternalEmailDomain: string := "@internal.com"
  const CannotDeleteSelf: string := "不能删除自己"
  const UserNotFound: string := "用户不存在"
  const Success: string := "success"

  // ---------------------------------------------------------------------
  // Departments
  // ---------------------------------------------------------------------

  /** One entry of `GET /api/admin/departments`. */
  datatype DepartmentRow = DepartmentRow(id: string, name: string, userCount: nat)

  function InDepartment(id: string): User -> bool
  {
    (u: User) => u.departmentId == Some(id)
  }

  function OutsideDepartment(id: string): User -> bool
  {
    (u: User) => u.departmentId != Some(id)
  }

  function RowOf(w: Workspace, us: seq<User>): DepartmentRow
  {
    DepartmentRow(w.id, w.name, Count(us, InDepartment(w.id)))
  }

  /** The listing: in table order, one row per workspace other than the
      global one, with the number of users assigned to it. */
  function DepartmentRows(ws: seq<Workspace>, us: seq<User>): seq<DepartmentRow>
  {
    if ws == [] then []
    else
      var last := ws[|ws| - 1];
      DepartmentRows(ws[..|ws| - 1], us) + (if last.id != GlobalId then [RowOf(last, us)] else [])
  }

  /** Every row is a workspace other than the global one, with its head
      count; every such workspace has its row; and the global one is the
      only workspace left out. */
  lemma {:induction false} DepartmentRowsSpec(ws: seq<Workspace>, us: seq<User>)
    ensures forall r :: r in DepartmentRows(ws, us) ==>
      r.id != GlobalId && exists i :: 0 <= i < |ws| && r == RowOf(ws[i], us)
    ensures forall i :: 0 <= i < |ws| && ws[i].id != GlobalId ==> RowOf(ws[i], us) in DepartmentRows(ws, us)
    ensures |DepartmentRows(ws, us)| + Count(ws, (w: Workspace) => w.id == GlobalId) == |ws|
  {
    if ws != [] {
      var init := ws[..|ws| - 1];
      var last := ws[|ws| - 1];
      DepartmentRowsSpec(init, us);
      assert ws == init + [last];
      CountAppend(init, [last], (w: Workspace) => w.id == GlobalId);
      assert [last][1..] == [];
      forall r | r in DepartmentRows(ws, us)
        ensures r.id != GlobalId && exists i :: 0 <= i < |ws| && r == RowOf(ws[i], us)
      {
        if r in DepartmentRows(init, us) {
          var i :| 0 <= i < |init| && r == RowOf(init[i], us);
          assert ws[i] == init[i];
        } else {
          assert r == RowOf(ws[|ws| - 1], us);
        }
      }
      forall i | 0 <= i < |ws| && ws[i].id != GlobalId ensures RowOf(ws[i], us) in DepartmentRows(ws, us) {
        if i < |init| {
          assert ws[i] == init[i];
        }
      }
    }
  }

  /** A department's head count is zero exactly when nobody is assigned to it. */
  lemma EmptyDepartment(w: Workspace, us: seq<User>)
    ensures RowOf(w, us).userCount == 0 <==> forall i :: 0 <= i < |us| ==> us[i].departmentId != Some(w.id)
  {
    CountZero(us, InDepartment(w.id));
  }

  /** `GET /api/admin/departments`: the loop over the non-global
      workspaces, counting the users of each. */
  method ListDepartments(ws: seq<Workspace>, us: seq<User>) returns (rows: seq<DepartmentRow>)
    ensures rows == DepartmentRows(ws, us)
  {
    rows := [];
    for i := 0 to |ws|
      invariant rows == DepartmentRows(ws[..i], us)
    {
      assert ws[..i + 1][..i] == ws[..i];
      if ws[i].id != GlobalId {
        var count := Count(us, InDepartment(ws[i].id));
        rows := rows + [DepartmentRow(ws[i].id, ws[i].name, count)];
      }
    }
    assert ws[..|ws|] == ws;
  }

  /** `POST /api/admin/departments`. A name already in use is a 400 and
      changes nothing; otherwise one workspace with the fresh id
      `newId` (a uuid4 in the code) and no description is added, and it is
      then found both by its name and by its id. */
  method CreateDepartment(db: Database, name: string, newId: string) returns (r: Outcome<string>)
    requires db.Valid()
    requires newId !in KeySet(db.workspaces, WorkspaceId)
    modifies db
    ensures db.Valid()
    ensures FindWorkspaceByName(old(db.workspaces), name).Some? ==> r == Fail(400, DuplicateDepartment) && unchanged(db)
    ensures FindWorkspaceByName(old(db.workspaces), name).None? ==>
      && r == Ok(newId)
      && db.workspaces == old(db.workspaces) + [Workspace(newId, name, None)]
      && FindWorkspaceByName(db.workspaces, name) == Some(Workspace(newId, name, None))
      && FindWorkspace(db.workspaces, newId) == Some(Workspace(newId, name, None))
    ensures db.users == old(db.users) && db.documents == old(db.documents)
    ensures db.sessions == old(db.sessions) && db.messages == old(db.messages)
    ensures db.clock == old(db.clock) && db.nextId == old(db.nextId)
  {
    if FindWorkspaceByName(db.workspaces, name).Some? {
      r := Fail(400, DuplicateDepartment);
      return;
    }
    var w := Workspace(newId, name, None);
    AppendWorkspace(db.workspaces, w);
    db.workspaces := db.workspaces + [w];
    r := Ok(newId);
  }

  function NotWorkspace(id: string): Workspace -> bool
  {
    (w: Workspace) => w.id != id
  }

  function NotUser(id: nat): User -> bool
  {
    (u: User) => u.id != id
  }

  /** No element of `doomed` has the id of `u`. */
  function Spared(doomed: seq<User>): User -> bool
  {
    (u: User) => forall k :: 0 <= k < |doomed| ==> u.id != doomed[k].id
  }

  /** Deleting one more user by id extends the set of deleted ones. */
  lemma SpareStep(us: seq<User>, doomed: seq<User>, i: nat)
    requires i < |doomed|
    ensures Filter(Filter(us, Spared(doomed[..i])), NotUser(doomed[i].id)) == Filter(us, Spared(doomed[..i + 1]))
  {
    var p, q := Spared(doomed[..i]), NotUser(doomed[i].id);
    FilterFilter(us, p, q);
    forall u | u in us ensures (p(u) && q(u)) == Spared(doomed[..i + 1])(u) {
      assert forall k :: 0 <= k < i ==> doomed[..i + 1][k] == doomed[..i][k];
      assert doomed[..i + 1][i] == doomed[i];
    }
    FilterCongruent(us, x => p(x) && q(x), Spared(doomed[..i + 1]));
  }

  /** With unique ids, deleting the members of a department one by one by
      id leaves exactly the users outside it. */
  lemma SparedOutside(us: seq<User>, id: string)
    requires DistinctKeys(us, UserId)
    ensures Filter(us, Spared(Filter(us, InDepartment(id)))) == Filter(us, OutsideDepartment(id))
  {
    var doomed := Filter(us, InDepartment(id));
    FilterMembers(us, InDepartment(id));
    forall u | u in us ensures Spared(doomed)(u) == OutsideDepartment(id)(u) {
      if u.departmentId == Some(id) {
        var j :| 0 <= j < |us| && us[j] == u;
        assert u in doomed;
        var k :| 0 <= k < |doomed| && doomed[k] == u;
      } else {
        forall k | 0 <= k < |doomed| ensures u.id != doomed[k].id {
          var a :| 0 <= a < |us| && us[a] == u;
          var b :| 0 <= b < |us| && us[b] == doomed[k];
          assert us[a] != us[b];
          if a < b {
            assert UserId(us[a]) != UserId(us[b]);
          } else {
            assert UserId(us[b]) != UserId(us[a]);
          }
        }
      }
    }
    FilterCongruent(us, Spared(doomed), OutsideDepartment(id));
  }

  /** The cascade of `DELETE /api/admin/departments/{id}`: the department's
      users are looked up, counted and deleted one at a time by id. */
  method DeleteMembers(us: seq<User>, id: string) returns (remaining: seq<User>, deleted: nat)
    requires DistinctKeys(us, UserId)
    ensures remaining == Filter(us, OutsideDepartment(id))
    ensures deleted == Count(us, InDepartment(id))
  {
    var doomed := Filter(us, InDepartment(id));
    CountIsFilterLength(us, InDepartment(id));
    deleted := |doomed|;
    remaining := us;
    assert Filter(us, Spared(doomed[..0])) == us by {
      FilterAll(us, Spared(doomed[..0]));
    }
    for i := 0 to |doomed|
      invariant remaining == Filter(us, Spared(doomed[..i]))
    {
      SpareStep(us, doomed, i);
      remaining := Filter(remaining, NotUser(doomed[i].id));
    }
    assert doomed[..|doomed|] == doomed;
    SparedOutside(us, id);
  }

  /** Deleting users keeps the remaining ids unique and below the counter. */
  lemma FilterUsersKeeps(us: seq<User>, p: User -> bool, nextId: nat)
    requires DistinctKeys(us, UserId) && UserIdsBelow(us, nextId)
    ensures DistinctKeys(Filter(us, p), UserId) && UserIdsBelow(Filter(us, p), nextId)
  {
    FilterDistinct(us, p, UserId);
    FilterMembers(us, p);
  }

  /** Deleting workspaces keeps ids and names unique. */
  lemma FilterWorkspacesKeeps(ws: seq<Workspace>, p: Workspace -> bool)
    requires DistinctKeys(ws, WorkspaceId) && DistinctKeys(ws, WorkspaceName)
    ensures DistinctKeys(Filter(ws, p), WorkspaceId) && DistinctKeys(Filter(ws, p), WorkspaceName)
  {
    FilterDistinct(ws, p, WorkspaceId);
    FilterDistinct(ws, p, WorkspaceName);
  }

  /** `DELETE /api/admin/departments/{id}`. The global workspace can never
      be deleted (400) and an unknown id is a 404, both without change;
      otherwise the department's users go, then the department itself, and
      the answer reports how many users went. Users of other departments and
      the other workspaces stay, in order. */
  method DeleteDepartment(db: Database, id: string) returns (r: Outcome<nat>)
    requires db.Valid()
    modifies db
    ensures db.Valid()
    ensures id == GlobalId ==> r == Fail(400, GlobalUndeletable) && unchanged(db)
    ensures id != GlobalId && FindWorkspace(old(db.workspaces), id).None? ==>
      r == Fail(404, DepartmentNotFound) && unchanged(db)
    ensures id != GlobalId && FindWorkspace(old(db.workspaces), id).Some? ==>
      && r == Ok(Count(old(db.users), InDepartment(id)))
      && db.users == Filter(old(db.users), OutsideDepartment(id))
      && db.workspaces == Filter(old(db.workspaces), NotWorkspace(id))
    ensures db.documents == old(db.documents)
    ensures db.sessions == old(db.sessions) && db.messages == old(db.messages)
    ensures db.clock == old(db.clock) && db.nextId == old(db.nextId)
  {
    if id == GlobalId {
      r := Fail(400, GlobalUndeletable);
      return;
    }
    if FindWorkspace(db.workspaces, id).None? {
      r := Fail(404, DepartmentNotFound);
      return;
    }
    var remaining, deleted := DeleteMembers(db.users, id);
    FilterUsersKeeps(db.users, OutsideDepartment(id), db.nextId);
    FilterWorkspacesKeeps(db.workspaces, NotWorkspace(id));
    db.users := remaining;
    db.workspaces := Filter(db.workspaces, NotWorkspace(id));
    r := Ok(deleted);
  }

  /** After a department is deleted, no remaining user belongs to it and no
      workspace has its id; users and workspaces of the others are all
      kept. */
  lemma DeleteDepartmentSpec(us: seq<User>, ws: seq<Workspace>, id: string)
    ensures forall u :: u in Filter(us, OutsideDepartment(id)) <==> u in us && u.departmentId != Some(id)
    ensures forall w :: w in Filter(ws, NotWorkspace(id)) <==> w in ws && w.id != id
    ensures |Filter(us, OutsideDepartment(id))| + Count(us, InDepartment(id)) == |us|
  {
    FilterMembers(us, OutsideDepartment(id));
    FilterMembers(ws, NotWorkspace(id));
    forall u | u in us && u.departmentId != Some(id) ensures u in Filter(us, OutsideDepartment(id)) {
      var i :| 0 <= i < |us| && us[i] == u;
    }
    forall w | w in ws && w.id != id ensures w in Filter(ws, NotWorkspace(id)) {
      var i :| 0 <= i < |ws| && ws[i] == w;
    }
    CountComplement(us, id);
  }

  /** The members and the non-members of a department add up to all users. */
  lemma {:induction false} CountComplement(us: seq<User>, id: string)
    ensures |Filter(us, OutsideDepartment(id))| + Count(us, InDepartment(id)) == |us|
  {
    if us != [] {
      CountComplement(us[1..], id);
    }
  }

  // ---------------------------------------------------------------------
  // Users
  // ---------------------------------------------------------------------

  /** One entry of `GET /api/admin/users`. */
  datatype UserRow = UserRow(
    id: nat,
    username: string,
    email: string,
    role: Role,
    deptName: string,
    deptId: Option<string>)

  /** The name of the user's department, or the unassigned label when the
      user has no (or an empty) department id or it names no workspace. */
  function DepartmentName(ws: seq<Workspace>, u: User): (r: string)
  {
    if Truthy(u.departmentId) && FindWorkspace(ws, u.departmentId.value).Some? then
      FindWorkspace(ws, u.departmentId.value).value.name
    else Unassigned
  }

  /** The label is the name of the workspace the user is assigned to, or
      the unassigned label when there is none. */
  lemma DepartmentNameSpec(ws: seq<Workspace>, u: User)
    ensures !Truthy(u.departmentId) ==> DepartmentName(ws, u) == Unassigned
    ensures Truthy(u.departmentId) && (forall i :: 0 <= i < |ws| ==> ws[i].id != u.departmentId.value) ==>
      DepartmentName(ws, u) == Unassigned
    ensures DistinctKeys(ws, WorkspaceId) ==> forall i :: 0 <= i < |ws| && Some(ws[i].id) == u.departmentId && ws[i].id != "" ==>
      DepartmentName(ws, u) == ws[i].name
  {
    if DistinctKeys(ws, WorkspaceId) && Truthy(u.departmentId) {
      var found := FindWorkspace(ws, u.departmentId.value);
      if found.Some? {
        forall i | 0 <= i < |ws| && Some(ws[i].id) == u.departmentId ensures ws[i] == found.value {
          var j :| 0 <= j < |ws| && ws[j] == found.value;
          assert WorkspaceId(ws[i]) == WorkspaceId(ws[j]);
        }
      }
    }
  }

  function UserRowOf(ws: seq<Workspace>, u: User): UserRow
  {
    UserRow(u.id, u.username, u.email, u.role, DepartmentName(ws, u), u.departmentId)
  }

  /** `GET /api/admin/users`: one row per user, in table order. */
  method ListUsers(ws: seq<Workspace>, us: seq<User>) returns (rows: seq<UserRow>)
    ensures |rows| == |us|
    ensures forall i :: 0 <= i < |us| ==> rows[i] == UserRowOf(ws, us[i])
  {
    rows := [];
    for i := 0 to |us|
      invariant |rows| == i
      invariant forall k :: 0 <= k < i ==> rows[k] == UserRowOf(ws, us[k])
    {
      var deptName := Unassigned;
      if Truthy(us[i].departmentId) {
        var found := FindWorkspace(ws, us[i].departmentId.value);
        if found.Some? {
          deptName := found.value.name;
        }
      }
      rows := rows + [UserRow(us[i].id, us[i].username, us[i].email, us[i].role, deptName, us[i].departmentId)];
    }
  }

  /** The account `POST /api/admin/users` creates: a local member whose
      e-mail is derived from the user name, in the requested department
      whether or not it exists. */
  function NewMember(id: nat, username: string, hashedPassword: string, departmentId: string): (u: User)
  {
    User(id, username + InternalEmailDomain, hashedPassword, username, Some(departmentId), Member, Local, true)
  }

  /** The created account is always an active local member, whatever the
      request, and its e-mail ends in the internal domain. */
  lemma NewMemberSpec(id: nat, username: string, hashedPassword: string, departmentId: string)
    ensures var u := NewMember(id, username, hashedPassword, departmentId);
      && u.role == Member && u.source == Local && u.isActive
      && u.username == username && u.departmentId == Some(departmentId)
      && u.email[..|username|] == username && u.email[|username|..] == InternalEmailDomain
  {
  }

  /** `POST /api/admin/users`. A user name already in use is a 400 and
      changes nothing; otherwise the new member is appended under the next
      key. `hashedPassword` is the salted hash of the submitted password. */
  method CreateUser(db: Database, username: string, hashedPassword: string, departmentId: string)
    returns (r: Outcome<string>)
    requires db.Valid()
    modifies db
    ensures db.Valid()
    ensures FindUserByName(old(db.users), username).Some? ==> r == Fail(400, DuplicateUsername) && unchanged(db)
    ensures FindUserByName(old(db.users), username).None? ==>
      && r == Ok(Success)
      && db.users == old(db.users) + [NewMember(old(db.nextId), username, hashedPassword, departmentId)]
      && db.nextId == old(db.nextId) + 1
    ensures db.workspaces == old(db.workspaces) && db.documents == old(db.documents)
    ensures db.sessions == old(db.sessions) && db.messages == old(db.messages)
    ensures db.clock == old(db.clock)
  {
    if FindUserByName(db.users, username).Some? {
      r := Fail(400, DuplicateUsername);
      return;
    }
    var u := NewMember(db.nextId, username, hashedPassword, departmentId);
    assert u.id !in KeySet(db.users, UserId);
    DistinctSnoc(db.users, u, UserId);
    ChatTablesLater(db.sessions, db.messages, db.clock, db.nextId, db.clock, db.nextId + 1);
    db.users := db.users + [u];
    db.nextId := db.nextId + 1;
    r := Ok(Success);
  }

  /** `DELETE /api/admin/users/{id}`. Admins cannot delete themselves (400)
      and an unknown id is a 404, both without change; otherwise that one
      user goes. */
  method DeleteUser(db: Database, admin: User, id: nat) returns (r: Outcome<string>)
    requires db.Valid()
    modifies db
    ensures db.Valid()
    ensures id == admin.id ==> r == Fail(400, CannotDeleteSelf) && unchanged(db)
    ensures id != admin.id && FindUser(old(db.users), id).None? ==> r == Fail(404, UserNotFound) && unchanged(db)
    ensures id != admin.id && FindUser(old(db.users), id).Some? ==>
      r == Ok(Success) && db.users == Filter(old(db.users), NotUser(id))
    ensures db.workspaces == old(db.workspaces) && db.documents == old(db.documents)
    ensures db.sessions == old(db.sessions) && db.messages == old(db.messages)
    ensures db.clock == old(db.clock) && db.nextId == old(db.nextId)
  {
    if id == admin.id {
      r := Fail(400, CannotDeleteSelf);
      return;
    }
    if FindUser(db.users, id).None? {
      r := Fail(404, UserNotFound);
      return;
    }
    FilterUsersKeeps(db.users, NotUser(id), db.nextId);
    db.users := Filter(db.users, NotUser(id));
    r := Ok(Success);
  }

  /** With unique ids, deleting a user removes exactly that row and keeps
      the others in order. */
  lemma DeleteUserRemovesOne(us: seq<User>, i: nat)
    requires DistinctKeys(us, UserId) && i < |us|
    ensures Filter(us, NotUser(us[i].id)) == us[..i] + us[i + 1..]
    ensures |Filter(us, NotUser(us[i].id))| == |us| - 1
  {
    forall k | 0 <= k < |us| && k != i ensures NotUser(us[i].id)(us[k]) {
      if k < i { assert UserId(us[k]) != UserId(us[i]); }
      else { assert UserId(us[i]) != UserId(us[k]); }
    }
    FilterDropOne(us, NotUser(us[i].id), i);
  }
}
