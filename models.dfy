/** The rows of the relational schema (workspaces, users, documents, chat
    sessions, chat messages) and the database the routers read and write.
    Each table is a sequence of rows in insertion order. Timestamps come from
    a strictly increasing clock, and integer primary keys come from one
    auto-increment counter. */
module Models {
  import opened Common
  import opened Seqs

  /** The id of the shared workspace every member can read. */
  const GlobalId: string := "global"

  /** Only `"admin"` is ever compared against; every other role string
      behaves as a member. */
  datatype Role = Admin | Member

  /** Where an account authenticates: the local password table or LDAP. */
  datatype AccountSource = Local | Ldap

  datatype Workspace = Workspace(id: string, name: string, description: Option<string>)

  datatype User = User(
    id: nat,
    email: string,
    hashedPassword: string,
    username: string,
    departmentId: Option<string>,
    role: Role,
    source: AccountSource,
    isActive: bool)

  datatype DocumentRecord = DocumentRecord(
    id: nat,
    filename: string,
    fileSize: string,
    workspaceId: string,
    isGlobal: bool,
    uploaderId: Option<nat>,
    uploadDate: nat)

  datatype ChatSession = ChatSession(
    id: string,
    userId: nat,
    title: string,
    createdAt: nat,
    updatedAt: nat)

  datatype MessageRole = UserMessage | AssistantMessage

  /** One cited passage, as stored with an assistant message. */
  datatype Source = Source(
    fileName: string,
    page: Option<string>,
    score: real,
    workspaceId: string,
    textChunk: string)

  datatype ChatMessage = ChatMessage(
    id: nat,
    sessionId: string,
    role: MessageRole,
    content: string,
    sources: Option<seq<Source>>,
    createdAt: nat)

  function WorkspaceId(w: Workspace): string { w.id }
  function WorkspaceName(w: Workspace): string { w.name }
  function UserId(u: User): nat { u.id }
  function DocumentId(d: DocumentRecord): nat { d.id }
  function SessionId(s: ChatSession): string { s.id }
  function MessageId(m: ChatMessage): nat { m.id }

  /** The first element of `s` that satisfies `p`, as a query's `.first()`
      returns the first matching row. */
  function FindFirst<T>(s: seq<T>, p: T -> bool): (r: Option<T>)
    ensures r.Some? ==> r.value in s && p(r.value)
    ensures r.None? ==> forall i :: 0 <= i < |s| ==> !p(s[i])
  {
    if s == [] then None
    else if p(s[0]) then Some(s[0])
    else FindFirst(s[1..], p)
  }

  /** The first row of `ws` with the given id (`.filter(id == ...).first()`). */
  function FindWorkspace(ws: seq<Workspace>, id: string): (r: Option<Workspace>)
    ensures r.Some? ==> r.value in ws && r.value.id == id
    ensures r.None? ==> forall i :: 0 <= i < |ws| ==> ws[i].id != id
  {
    FindFirst(ws, (w: Workspace) => w.id == id)
  }

  /** The first row of `ws` with the given name. */
  function FindWorkspaceByName(ws: seq<Workspace>, name: string): (r: Option<Workspace>)
    ensures r.Some? ==> r.value in ws && r.value.name == name
    ensures r.None? ==> forall i :: 0 <= i < |ws| ==> ws[i].name != name
  {
    FindFirst(ws, (w: Workspace) => w.name == name)
  }

  /** The first user with the given id. */
  function FindUser(us: seq<User>, id: nat): (r: Option<User>)
    ensures r.Some? ==> r.value in us && r.value.id == id
    ensures r.None? ==> forall i :: 0 <= i < |us| ==> us[i].id != id
  {
    FindFirst(us, (u: User) => u.id == id)
  }

  /** The first user with the given user name. */
  function FindUserByName(us: seq<User>, username: string): (r: Option<User>)
    ensures r.Some? ==> r.value in us && r.value.username == username
    ensures r.None? ==> forall i :: 0 <= i < |us| ==> us[i].username != username
  {
    FindFirst(us, (u: User) => u.username == username)
  }

  /** The first user with the given e-mail address. */
  function FindUserByEmail(us: seq<User>, email: string): (r: Option<User>)
    ensures r.Some? ==> r.value in us && r.value.email == email
    ensures r.None? ==> forall i :: 0 <= i < |us| ==> us[i].email != email
  {
    FindFirst(us, (u: User) => u.email == email)
  }

  /** With unique ids, looking a user up by id finds that very row. */
  lemma {:induction false} FindUserAt(us: seq<User>, i: nat)
    requires DistinctKeys(us, UserId) && i < |us|
    ensures FindUser(us, us[i].id) == Some(us[i])
  {
    if i > 0 {
      assert UserId(us[0]) != UserId(us[i]);
      assert us[1..][i - 1] == us[i];
      FindUserAt(us[1..], i - 1);
    }
  }

  /** With unique ids, looking a workspace up by id finds that very row. */
  lemma {:induction false} FindWorkspaceAt(ws: seq<Workspace>, i: nat)
    requires DistinctKeys(ws, WorkspaceId) && i < |ws|
    ensures FindWorkspace(ws, ws[i].id) == Some(ws[i])
  {
    if i > 0 {
      assert WorkspaceId(ws[0]) != WorkspaceId(ws[i]);
      assert ws[1..][i - 1] == ws[i];
      FindWorkspaceAt(ws[1..], i - 1);
    }
  }

  /** A workspace with a name not yet taken is found under that name once
      appended. */
  lemma {:induction false} FindAppendedByName(ws: seq<Workspace>, w: Workspace)
    requires FindWorkspaceByName(ws, w.name).None?
    ensures FindWorkspaceByName(ws + [w], w.name) == Some(w)
  {
    if ws == [] {
      assert ws + [w] == [w];
    } else {
      assert (ws + [w])[1..] == ws[1..] + [w];
      FindAppendedByName(ws[1..], w);
    }
  }

  /** A workspace with an id not yet taken is found under that id once
      appended. */
  lemma {:induction false} FindAppendedById(ws: seq<Workspace>, w: Workspace)
    requires FindWorkspace(ws, w.id).None?
    ensures FindWorkspace(ws + [w], w.id) == Some(w)
  {
    if ws == [] {
      assert ws + [w] == [w];
    } else {
      assert (ws + [w])[1..] == ws[1..] + [w];
      FindAppendedById(ws[1..], w);
    }
  }

  /** Appending a workspace whose id and name are both new keeps both keys
      distinct, and the new workspace is found under either. */
  lemma AppendWorkspace(ws: seq<Workspace>, w: Workspace)
    requires DistinctKeys(ws, WorkspaceId) && DistinctKeys(ws, WorkspaceName)
    requires w.id !in KeySet(ws, WorkspaceId) && FindWorkspaceByName(ws, w.name).None?
    ensures DistinctKeys(ws + [w], WorkspaceId) && DistinctKeys(ws + [w], WorkspaceName)
    ensures FindWorkspace(ws + [w], w.id) == Some(w) && FindWorkspaceByName(ws + [w], w.name) == Some(w)
  {
    DistinctSnoc(ws, w, WorkspaceId);
    assert w.name !in KeySet(ws, WorkspaceName);
    DistinctSnoc(ws, w, WorkspaceName);
    FindAppendedByName(ws, w);
    FindWorkspaceAt(ws + [w], |ws|);
  }

  /** An in-place update of the row whose id is `u.id`: that row becomes
      `u`, every other row stays. */
  function ReplaceUser(us: seq<User>, u: User): (r: seq<User>)
    ensures |r| == |us|
  {
    seq(|us|, i requires 0 <= i < |us| => if us[i].id == u.id then u else us[i])
  }

  /** Updating a row in place keeps the ids unique and below the counter,
      the updated row is found under its id, and no other row changes. */
  lemma ReplaceUserSpec(us: seq<User>, u: User, nextId: nat)
    requires DistinctKeys(us, UserId) && UserIdsBelow(us, nextId) && u.id in KeySet(us, UserId)
    ensures DistinctKeys(ReplaceUser(us, u), UserId) && UserIdsBelow(ReplaceUser(us, u), nextId)
    ensures FindUser(ReplaceUser(us, u), u.id) == Some(u)
    ensures forall i :: 0 <= i < |us| && us[i].id != u.id ==> ReplaceUser(us, u)[i] == us[i]
  {
    var r := ReplaceUser(us, u);
    assert forall i :: 0 <= i < |us| ==> UserId(r[i]) == UserId(us[i]);
    var i :| 0 <= i < |us| && UserId(us[i]) == u.id;
    assert r[i] == u;
    FindUserAt(r, i);
  }

  ghost predicate TimesBefore(ms: seq<ChatMessage>, clock: nat)
  {
    forall i :: 0 <= i < |ms| ==> ms[i].createdAt <= clock
  }

  /** Message rows are stored in creation order, so `ORDER BY created_at`
      is table order. */
  ghost predicate Chronological(ms: seq<ChatMessage>)
  {
    forall i, j :: 0 <= i < j < |ms| ==> ms[i].createdAt < ms[j].createdAt
  }

  /** Every message belongs to a session that exists (the cascade of
      `ChatSession.messages` keeps it so). */
  ghost predicate NoOrphans(ms: seq<ChatMessage>, ss: seq<ChatSession>)
  {
    forall i :: 0 <= i < |ms| ==> ms[i].sessionId in KeySet(ss, SessionId)
  }

  ghost predicate SessionTimes(ss: seq<ChatSession>, clock: nat)
  {
    forall i :: 0 <= i < |ss| ==> ss[i].createdAt <= ss[i].updatedAt <= clock
  }

  ghost predicate UserIdsBelow(us: seq<User>, n: nat)
  {
    forall i :: 0 <= i < |us| ==> us[i].id < n
  }

  ghost predicate DocumentIdsBelow(ds: seq<DocumentRecord>, n: nat)
  {
    forall i :: 0 <= i < |ds| ==> ds[i].id < n
  }

  ghost predicate MessageIdsBelow(ms: seq<ChatMessage>, n: nat)
  {
    forall i :: 0 <= i < |ms| ==> ms[i].id < n
  }

  /** The invariants of the two chat tables: unique keys, timestamps no
      later than the clock, messages in insertion order and each attached
      to a session that exists. */
  ghost predicate ChatTables(ss: seq<ChatSession>, ms: seq<ChatMessage>, clock: nat, nextId: nat)
  {
    && DistinctKeys(ss, SessionId)
    && SessionTimes(ss, clock)
    && DistinctKeys(ms, MessageId)
    && MessageIdsBelow(ms, nextId)
    && Chronological(ms)
    && TimesBefore(ms, clock)
    && NoOrphans(ms, ss)
  }

  /** Advancing the clock or the key counter keeps the chat invariants. */
  lemma ChatTablesLater(ss: seq<ChatSession>, ms: seq<ChatMessage>, clock: nat, nextId: nat, clock': nat, nextId': nat)
    requires ChatTables(ss, ms, clock, nextId) && clock <= clock' && nextId <= nextId'
    ensures ChatTables(ss, ms, clock', nextId')
  {
  }

  /** The database: one sequence per table, the clock behind
      `datetime.utcnow()` and the primary-key counter. */
  class Database {
    var workspaces: seq<Workspace>
    var users: seq<User>
    var documents: seq<DocumentRecord>
    var sessions: seq<ChatSession>
    var messages: seq<ChatMessage>
    var clock: nat
    var nextId: nat

    ghost predicate WorkspacesValid()
      reads this`workspaces
    {
      DistinctKeys(workspaces, WorkspaceId) && DistinctKeys(workspaces, WorkspaceName)
    }

    ghost predicate UsersValid()
      reads this`users, this`nextId
    {
      DistinctKeys(users, UserId) && UserIdsBelow(users, nextId)
    }

    ghost predicate DocumentsValid()
      reads this`documents, this`nextId
    {
      DistinctKeys(documents, DocumentId) && DocumentIdsBelow(documents, nextId)
    }

    ghost predicate ChatValid()
      reads this`sessions, this`messages, this`clock, this`nextId
    {
      ChatTables(sessions, messages, clock, nextId)
    }

    ghost predicate Valid()
      reads this
    {
      WorkspacesValid() && UsersValid() && DocumentsValid() && ChatValid()
    }

    constructor ()
      ensures Valid()
      ensures workspaces == [] && users == [] && documents == []
      ensures sessions == [] && messages == []
    {
      workspaces, users, documents := [], [], [];
      sessions, messages := [], [];
      clock, nextId := 0, 1;
    }
  }
}
