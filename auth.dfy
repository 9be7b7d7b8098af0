/** The authentication endpoints under `/api/auth` and the directory sync
    behind LDAP logins. The directory server is an oracle: its answer for
    the submitted user name and password is a parameter. Password hashes
    are checked by an opaque `verify` function, and new hashes are given
    as parameters. */
module Auth {
  import opened Common
  import opened Seqs
  import opened Models

  const DefaultDepartment: string := "公共部门"
  const OuPrefix: string := "ou="
  const LdapEmailDomain: string := "@ldap.internal"
  const LdapSynced: string := "LDAP Synced"
  const BadCredentials: string := "用户名或密码错误"
  const NoDepartment: string := "未分配部门"
  const DirectoryAccount: string := "域账号(LDAP)请联系管理员或在公司内部系统修改密码"
  const WrongOldPassword: string := "旧密码错误"
  const PasswordChanged: string := "密码修改成功"

  // ---------------------------------------------------------------------
  // The department in a distinguished name
  // ---------------------------------------------------------------------

  /** The value of a DN component once it is stripped and starts, ignoring
      case, with `ou=`: the text after that `=` up to the next `=`
      (`clean_part.split('=')[1]`). */
  function OuValue(part: string): (r: Option<string>)
  {
    var clean := Strip(part);
    if StartsWith(AsciiLower(clean), OuPrefix) then
      OuSplit(clean);
      Some(Split(clean, '=')[1])
    else None
  }

  /** A stripped component starting with `ou=` splits into `ou` (in its
      own case) and then the text after `ou=` up to the next `=`. */
  lemma OuSplit(clean: string)
    requires StartsWith(AsciiLower(clean), OuPrefix)
    ensures |Split(clean, '=')| >= 2
    ensures Split(clean, '=')[0] == clean[..2]
    ensures Split(clean, '=')[1] == Split(clean[3..], '=')[0]
  {
    var low := AsciiLower(clean);
    assert low[0] == 'o' && low[1] == 'u' && low[2] == '=' by {
      assert low[..3] == OuPrefix;
    }
    assert clean[2] == '=' by {
      assert LowerChar(clean[2]) == '=';
    }
    assert '=' !in clean[..2] by {
      assert LowerChar(clean[0]) == 'o' && LowerChar(clean[1]) == 'u';
    }
    SplitAfterPrefix(clean, '=', 2);
  }

  /** A component is an `ou` component exactly when, stripped, it starts
      with `o` or `O`, then `u` or `U`, then `=`. */
  lemma OuValueSome(part: string)
    ensures var clean := Strip(part);
      OuValue(part).Some? <==>
        && |clean| >= 3
        && (clean[0] == 'o' || clean[0] == 'O')
        && (clean[1] == 'u' || clean[1] == 'U')
        && clean[2] == '='
  {
    var clean := Strip(part);
    var low := AsciiLower(clean);
    assert OuValue(part).Some? <==> StartsWith(low, OuPrefix);
    if |clean| >= 3 {
      assert StartsWith(low, OuPrefix) <==> low[0] == 'o' && low[1] == 'u' && low[2] == '=' by {
        assert OuPrefix == ['o', 'u', '='];
      }
      assert low[0] == 'o' <==> clean[0] == 'o' || clean[0] == 'O' by {
        assert low[0] == LowerChar(clean[0]);
      }
      assert low[1] == 'u' <==> clean[1] == 'u' || clean[1] == 'U' by {
        assert low[1] == LowerChar(clean[1]);
      }
      assert low[2] == '=' <==> clean[2] == '=' by {
        assert low[2] == LowerChar(clean[2]);
      }
    } else {
      assert !StartsWith(low, OuPrefix);
    }
  }

  /** The value of an `ou` component is the longest prefix free of `=` of
      what follows `ou=`. */
  lemma OuValueText(part: string)
    requires OuValue(part).Some?
    ensures var clean := Strip(part);
      && |clean| >= 3
      && OuValue(part).value <= clean[3..]
      && '=' !in OuValue(part).value
      && (|OuValue(part).value| < |clean[3..]| ==> clean[3..][|OuValue(part).value|] == '=')
  {
    var clean := Strip(part);
    OuSplit(clean);
    SplitHead(clean[3..], '=');
  }

  /** The value of the first `ou` component, or the default department. */
  function FirstOu(parts: seq<string>): string
  {
    if parts == [] then DefaultDepartment
    else if OuValue(parts[0]).Some? then OuValue(parts[0]).value
    else FirstOu(parts[1..])
  }

  function DepartmentOfDn(dn: string): string
  {
    FirstOu(Split(dn, ','))
  }

  /** The department is the value of the first `ou` component of the DN,
      and the default department when there is none. */
  lemma {:induction false} FirstOuSpec(parts: seq<string>)
    ensures (forall i :: 0 <= i < |parts| ==> OuValue(parts[i]).None?) ==> FirstOu(parts) == DefaultDepartment
    ensures forall i :: 0 <= i < |parts| && OuValue(parts[i]).Some? && (forall j :: 0 <= j < i ==> OuValue(parts[j]).None?) ==>
      FirstOu(parts) == OuValue(parts[i]).value
  {
    if parts != [] {
      var tail := parts[1..];
      FirstOuSpec(tail);
      forall i | 0 < i < |parts| && OuValue(parts[i]).Some? && (forall j :: 0 <= j < i ==> OuValue(parts[j]).None?)
        ensures FirstOu(parts) == OuValue(parts[i]).value
      {
        assert tail[i - 1] == parts[i];
        forall j | 0 <= j < i - 1 ensures OuValue(tail[j]).None? {
          assert tail[j] == parts[j + 1];
        }
      }
      if forall i :: 0 <= i < |parts| ==> OuValue(parts[i]).None? {
        forall j | 0 <= j < |tail| ensures OuValue(tail[j]).None? {
          assert tail[j] == parts[j + 1];
        }
      }
    }
  }

  /** The DN scan: the comma-separated components in order, stopping at the
      first `ou` component. */
  method ParseDepartment(dn: string) returns (name: string)
    ensures name == DepartmentOfDn(dn)
  {
    name := DefaultDepartment;
    var parts := Split(dn, ',');
    var i := 0;
    while i < |parts|
      invariant 0 <= i <= |parts|
      invariant name == DefaultDepartment
      invariant FirstOu(parts[i..]) == FirstOu(parts)
    {
      var clean := Strip(parts[i]);
      assert parts[i..][0] == parts[i];
      if StartsWith(AsciiLower(clean), OuPrefix) {
        OuSplit(clean);
        name := Split(clean, '=')[1];
        break;
      }
      assert parts[i..][1..] == parts[i + 1..];
      i := i + 1;
    }
  }

  // ---------------------------------------------------------------------
  // Directory answers
  // ---------------------------------------------------------------------

  /** What the directory says about the submitted credentials: the server
      or the search failed, no entry has that `uid`, or the first entry with
      its DN, `cn`, `mail` and whether binding as it with the submitted
      password succeeded. */
  datatype DirectoryAnswer =
    | ServerError(error: string)
    | NoEntry
    | Entry(dn: string, cn: Option<string>, mail: Option<string>, bindAccepted: bool)

  predicate DirectoryAccepts(answer: DirectoryAnswer)
  {
    answer.Entry? && answer.bindAccepted
  }

  /** The directory `mail`, or an address in the LDAP domain. */
  function LdapEmail(username: string, mail: Option<string>): string
  {
    if Truthy(mail) then mail.value else username + LdapEmailDomain
  }

  /** The directory display name, or the login name. */
  function LdapName(username: string, cn: Option<string>): string
  {
    if Truthy(cn) then cn.value else username
  }

  // ---------------------------------------------------------------------
  // Directory sync
  // ---------------------------------------------------------------------

  /** The workspace an LDAP user is synced into: the one with the parsed
      department name, created with the fresh id `newId` when there is
      none. */
  method EnsureWorkspace(db: Database, name: string, newId: string) returns (w: Workspace)
    requires db.Valid()
    requires newId !in KeySet(db.workspaces, WorkspaceId)
    modifies db
    ensures db.Valid()
    ensures FindWorkspaceByName(old(db.workspaces), name).Some? ==>
      w == FindWorkspaceByName(old(db.workspaces), name).value && db.workspaces == old(db.workspaces)
    ensures FindWorkspaceByName(old(db.workspaces), name).None? ==>
      w == Workspace(newId, name, Some(LdapSynced)) && db.workspaces == old(db.workspaces) + [w]
    ensures w.name == name && FindWorkspace(db.workspaces, w.id) == Some(w)
    ensures db.users == old(db.users) && db.documents == old(db.documents)
    ensures db.sessions == old(db.sessions) && db.messages == old(db.messages)
    ensures db.clock == old(db.clock) && db.nextId == old(db.nextId)
  {
    var found := FindWorkspaceByName(db.workspaces, name);
    if found.Some? {
      w := found.value;
      var i :| 0 <= i < |db.workspaces| && db.workspaces[i] == w;
      FindWorkspaceAt(db.workspaces, i);
      return;
    }
    w := Workspace(newId, name, Some(LdapSynced));
    AppendWorkspace(db.workspaces, w);
    db.workspaces := db.workspaces + [w];
  }

  /** The account an LDAP login syncs: the user with that e-mail, else the
      user with the login name. */
  function SyncTarget(us: seq<User>, email: string, username: string): Option<User>
  {
    if FindUserByEmail(us, email).Some? then FindUserByEmail(us, email) else FindUserByName(us, username)
  }

  /** An existing account after a sync: directory name, e-mail and
      department, LDAP source and no local password; its id, role and
      active flag stay. */
  function Resynced(u: User, email: string, name: string, workspaceId: string): User
  {
    u.(email := email, username := name, departmentId := Some(workspaceId), source := Ldap, hashedPassword := "")
  }

  function NewLdapUser(id: nat, email: string, name: string, workspaceId: string): User
  {
    User(id, email, "", name, Some(workspaceId), Member, Ldap, true)
  }

  /** Whether the account was found or created, the synced user carries
      the directory's e-mail, name and department, LDAP as its source and
      an empty password hash; a found account keeps its id, role and active
      flag, a new one is an active member. */
  lemma SyncedUserSpec(u: User, id: nat, email: string, name: string, workspaceId: string)
    ensures forall v :: v == Resynced(u, email, name, workspaceId) || v == NewLdapUser(id, email, name, workspaceId) ==>
      && v.email == email && v.username == name && v.departmentId == Some(workspaceId)
      && v.source == Ldap && v.hashedPassword == ""
    ensures var v := Resynced(u, email, name, workspaceId); v.id == u.id && v.role == u.role && v.isActive == u.isActive
    ensures var v := NewLdapUser(id, email, name, workspaceId); v.id == id && v.role == Member && v.isActive
  {
  }

  /** The user half of the sync: the target account is overwritten in
      place, or a new member is appended under the next key. */
  method UpsertUser(db: Database, username: string, email: string, name: string, workspaceId: string)
    returns (user: User)
    requires db.Valid()
    modifies db
    ensures db.Valid()
    ensures SyncTarget(old(db.users), email, username).Some? ==>
      && user == Resynced(SyncTarget(old(db.users), email, username).value, email, name, workspaceId)
      && db.users == ReplaceUser(old(db.users), user)
      && db.nextId == old(db.nextId)
    ensures SyncTarget(old(db.users), email, username).None? ==>
      && user == NewLdapUser(old(db.nextId), email, name, workspaceId)
      && db.users == old(db.users) + [user]
      && db.nextId == old(db.nextId) + 1
    ensures FindUser(db.users, user.id) == Some(user)
    ensures && user.email == email && user.username == name && user.departmentId == Some(workspaceId)
            && user.source == Ldap && user.hashedPassword == ""
    ensures db.workspaces == old(db.workspaces) && db.documents == old(db.documents)
    ensures db.sessions == old(db.sessions) && db.messages == old(db.messages)
    ensures db.clock == old(db.clock)
  {
    var target := SyncTarget(db.users, email, username);
    if target.Some? {
      user := Resynced(target.value, email, name, workspaceId);
      assert user.id in KeySet(db.users, UserId);
      ReplaceUserSpec(db.users, user, db.nextId);
      db.users := ReplaceUser(db.users, user);
      return;
    }
    user := NewLdapUser(db.nextId, email, name, workspaceId);
    assert user.id !in KeySet(db.users, UserId);
    DistinctSnoc(db.users, user, UserId);
    ChatTablesLater(db.sessions, db.messages, db.clock, db.nextId, db.clock, db.nextId + 1);
    db.users := db.users + [user];
    db.nextId := db.nextId + 1;
    FindUserAt(db.users, |db.users| - 1);
  }

  /** The id of the workspace a sync puts the account in: the workspace
      with the department name, or the fresh id of the one it creates. */
  function SyncWorkspaceId(ws: seq<Workspace>, dept: string, newId: string): string
  {
    if FindWorkspaceByName(ws, dept).Some? then FindWorkspaceByName(ws, dept).value.id else newId
  }

  /** The account a sync leaves: the target account resynced, or a new
      member under the next key. */
  function SyncedUser(us: seq<User>, email: string, username: string, name: string,
                      workspaceId: string, nextId: nat): User
  {
    if SyncTarget(us, email, username).Some? then Resynced(SyncTarget(us, email, username).value, email, name, workspaceId)
    else NewLdapUser(nextId, email, name, workspaceId)
  }

  /** The users table after a sync: the target row rewritten in place, or
      the new member appended. */
  function SyncedUsers(us: seq<User>, email: string, username: string, name: string,
                       workspaceId: string, nextId: nat): seq<User>
  {
    var u := SyncedUser(us, email, username, name, workspaceId, nextId);
    if SyncTarget(us, email, username).Some? then ReplaceUser(us, u) else us + [u]
  }

  /** What a sync promises about the account it returns: it carries the
      given e-mail and name, comes from the directory with no local
      password, is stored under its id, and belongs to a stored workspace
      with the given department name. */
  ghost predicate SyncedAccount(ws: seq<Workspace>, us: seq<User>, u: User, email: string, name: string, dept: string)
  {
    && u.email == email && u.username == name
    && u.source == Ldap && u.hashedPassword == ""
    && FindUser(us, u.id) == Some(u)
    && u.departmentId.Some?
    && FindWorkspace(ws, u.departmentId.value).Some?
    && FindWorkspace(ws, u.departmentId.value).value.name == dept
  }

  /** The database half of `authenticate_ldap_and_sync`, after the bind:
      the department is found or created, then the account is synced into
      it. */
  method SyncAccount(db: Database, username: string, email: string, name: string, dept: string, newId: string)
    returns (user: User)
    requires db.Valid()
    requires newId !in KeySet(db.workspaces, WorkspaceId)
    modifies db
    ensures db.Valid()
    ensures SyncedAccount(db.workspaces, db.users, user, email, name, dept)
    ensures db.workspaces == old(db.workspaces)
      + if FindWorkspaceByName(old(db.workspaces), dept).None? then [Workspace(newId, dept, Some(LdapSynced))] else []
    ensures var wid := SyncWorkspaceId(old(db.workspaces), dept, newId);
      && user == SyncedUser(old(db.users), email, username, name, wid, old(db.nextId))
      && db.users == SyncedUsers(old(db.users), email, username, name, wid, old(db.nextId))
    ensures db.nextId == old(db.nextId) + if SyncTarget(old(db.users), email, username).Some? then 0 else 1
    ensures db.documents == old(db.documents)
    ensures db.sessions == old(db.sessions) && db.messages == old(db.messages)
    ensures db.clock == old(db.clock)
  {
    var w := EnsureWorkspace(db, dept, newId);
    user := UpsertUser(db, username, email, name, w.id);
  }

  /** `authenticate_ldap_and_sync`. Without an entry, with a rejected bind
      or with a failing server there is no user and nothing changes.
      Otherwise the account is synced with the directory's e-mail, name and
      the department parsed from the DN. `newId` is the `ldap_`-prefixed id
      a created workspace gets. */
  method AuthenticateLdap(db: Database, username: string, answer: DirectoryAnswer, newId: string)
    returns (user: Option<User>)
    requires db.Valid()
    requires newId !in KeySet(db.workspaces, WorkspaceId)
    modifies db
    ensures db.Valid()
    ensures !DirectoryAccepts(answer) ==> user == None && unchanged(db)
    ensures DirectoryAccepts(answer) ==>
      && user.Some?
      && SyncedAccount(db.workspaces, db.users, user.value,
           LdapEmail(username, answer.mail), LdapName(username, answer.cn), DepartmentOfDn(answer.dn))
    ensures DirectoryAccepts(answer) ==>
      var dept := DepartmentOfDn(answer.dn);
      db.workspaces == old(db.workspaces)
        + if FindWorkspaceByName(old(db.workspaces), dept).None? then [Workspace(newId, dept, Some(LdapSynced))] else []
    ensures DirectoryAccepts(answer) ==>
      var email := LdapEmail(username, answer.mail);
      var name := LdapName(username, answer.cn);
      var wid := SyncWorkspaceId(old(db.workspaces), DepartmentOfDn(answer.dn), newId);
      && user == Some(SyncedUser(old(db.users), email, username, name, wid, old(db.nextId)))
      && db.users == SyncedUsers(old(db.users), email, username, name, wid, old(db.nextId))
      && db.nextId == old(db.nextId) + if SyncTarget(old(db.users), email, username).Some? then 0 else 1
    ensures db.documents == old(db.documents)
    ensures db.sessions == old(db.sessions) && db.messages == old(db.messages)
    ensures db.clock == old(db.clock)
  {
    if !answer.Entry? || !answer.bindAccepted {
      user := None;
      return;
    }
    var dept := ParseDepartment(answer.dn);
    var email := LdapEmail(username, answer.mail);
    var name := LdapName(username, answer.cn);
    var u := SyncAccount(db, username, email, name, dept, newId);
    user := Some(u);
  }

  // ---------------------------------------------------------------------
  // Endpoints
  // ---------------------------------------------------------------------

  /** The claims of the access token and the `user_info` of a login. */
  datatype LoginInfo = LoginInfo(
    id: nat,
    email: string,
    name: string,
    role: Role,
    deptId: Option<string>,
    deptName: string)

  /** The department name shown at login: the name of the user's workspace,
      or the unassigned label. */
  function DepartmentLabel(ws: seq<Workspace>, u: User): string
  {
    if u.departmentId.Some? && FindWorkspace(ws, u.departmentId.value).Some? then
      FindWorkspace(ws, u.departmentId.value).value.name
    else NoDepartment
  }

  function InfoOf(ws: seq<Workspace>, u: User): LoginInfo
  {
    LoginInfo(u.id, u.email, u.username, u.role, u.departmentId, DepartmentLabel(ws, u))
  }

  /** The local check: the first user with the login name is a local
      account and the password matches its hash. */
  predicate LocalAccepts(us: seq<User>, login: string, password: string, verify: (string, string) -> bool)
  {
    var u := FindUserByName(us, login);
    u.Some? && u.value.source == Local && verify(password, u.value.hashedPassword)
  }

  /** A directory account is never checked against the local table, so
      only the directory can let it in. */
  lemma DirectoryAccountsSkipLocal(us: seq<User>, login: string, password: string, verify: (string, string) -> bool)
    requires FindUserByName(us, login).Some? && FindUserByName(us, login).value.source == Ldap
    ensures !LocalAccepts(us, login, password, verify)
  {
  }

  /** `POST /api/auth/login`. A local account whose password matches logs
      in without any change. Otherwise the directory decides; when it
      rejects, the answer is a 401. An LDAP login reports the synced
      account, its directory e-mail and name, and the department parsed
      from its DN. */
  method Login(db: Database, login: string, password: string, verify: (string, string) -> bool,
               answer: DirectoryAnswer, newId: string)
    returns (r: Outcome<LoginInfo>)
    requires db.Valid()
    requires newId !in KeySet(db.workspaces, WorkspaceId)
    modifies db
    ensures db.Valid()
    ensures LocalAccepts(old(db.users), login, password, verify) ==>
      r == Ok(InfoOf(old(db.workspaces), FindUserByName(old(db.users), login).value)) && unchanged(db)
    ensures !LocalAccepts(old(db.users), login, password, verify) && !DirectoryAccepts(answer) ==>
      r == Fail(401, BadCredentials) && unchanged(db)
    ensures !LocalAccepts(old(db.users), login, password, verify) && DirectoryAccepts(answer) ==>
      && r.Ok?
      && r.value.email == LdapEmail(login, answer.mail)
      && r.value.name == LdapName(login, answer.cn)
      && r.value.deptName == DepartmentOfDn(answer.dn)
      && FindUser(db.users, r.value.id).Some?
      && FindUser(db.users, r.value.id).value.source == Ldap
    ensures !LocalAccepts(old(db.users), login, password, verify) && DirectoryAccepts(answer) ==>
      var dept := DepartmentOfDn(answer.dn);
      var email := LdapEmail(login, answer.mail);
      var name := LdapName(login, answer.cn);
      var wid := SyncWorkspaceId(old(db.workspaces), dept, newId);
      && db.workspaces == old(db.workspaces)
           + (if FindWorkspaceByName(old(db.workspaces), dept).None? then [Workspace(newId, dept, Some(LdapSynced))] else [])
      && db.users == SyncedUsers(old(db.users), email, login, name, wid, old(db.nextId))
      && r == Ok(InfoOf(db.workspaces, SyncedUser(old(db.users), email, login, name, wid, old(db.nextId))))
    ensures db.documents == old(db.documents)
    ensures db.sessions == old(db.sessions) && db.messages == old(db.messages)
    ensures db.clock == old(db.clock)
  {
    var local := FindUserByName(db.users, login);
    if local.Some? && local.value.source == Local && verify(password, local.value.hashedPassword) {
      r := Ok(InfoOf(db.workspaces, local.value));
      return;
    }
    var user := AuthenticateLdap(db, login, answer, newId);
    if user.None? {
      r := Fail(401, BadCredentials);
      return;
    }
    r := Ok(InfoOf(db.workspaces, user.value));
  }

  /** The stored hash of the user with the given id is replaced. */
  function SetPassword(us: seq<User>, u: User, hashedPassword: string): seq<User>
  {
    ReplaceUser(us, u.(hashedPassword := hashedPassword))
  }

  /** `POST /api/auth/change-password` for the logged-in `caller`. Directory
      accounts are refused and so is a wrong old password, both with 400
      and no change; otherwise only the caller's hash changes. */
  method ChangePassword(db: Database, caller: User, oldPassword: string, newHash: string,
                        verify: (string, string) -> bool)
    returns (r: Outcome<string>)
    requires db.Valid()
    requires caller in db.users
    modifies db
    ensures db.Valid()
    ensures caller.source != Local ==> r == Fail(400, DirectoryAccount) && unchanged(db)
    ensures caller.source == Local && !verify(oldPassword, caller.hashedPassword) ==>
      r == Fail(400, WrongOldPassword) && unchanged(db)
    ensures caller.source == Local && verify(oldPassword, caller.hashedPassword) ==>
      && r == Ok(PasswordChanged)
      && db.users == SetPassword(old(db.users), caller, newHash)
      && FindUser(db.users, caller.id) == Some(caller.(hashedPassword := newHash))
    ensures db.workspaces == old(db.workspaces) && db.documents == old(db.documents)
    ensures db.sessions == old(db.sessions) && db.messages == old(db.messages)
    ensures db.clock == old(db.clock) && db.nextId == old(db.nextId)
  {
    if caller.source != Local {
      r := Fail(400, DirectoryAccount);
      return;
    }
    if !verify(oldPassword, caller.hashedPassword) {
      r := Fail(400, WrongOldPassword);
      return;
    }
    var updated := caller.(hashedPassword := newHash);
    assert updated.id in KeySet(db.users, UserId);
    ReplaceUserSpec(db.users, updated, db.nextId);
    db.users := ReplaceUser(db.users, updated);
    r := Ok(PasswordChanged);
  }

  /** A password change touches no other account. */
  lemma SetPasswordKeepsOthers(us: seq<User>, caller: User, hashedPassword: string, i: nat)
    requires i < |us| && us[i].id != caller.id
    ensures SetPassword(us, caller, hashedPassword)[i] == us[i]
  {
  }
}
