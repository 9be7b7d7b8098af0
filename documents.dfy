/** The document endpoints (`/api/documents`): where an upload goes, the key
    under which its passages are indexed, the overwrite of a same-named
    record, the parse gates, the delete permission and the listing with its
    name fallbacks. File parsing, chunking and the vector index are
    external: their outcomes are parameters, and what is handed to the index
    is returned. */
module Documents {
  import opened Common
  import opened Seqs
  import opened Sorting
  import opened Models

  const NoDepartment: string := "你还没分配部门，无法上传"
  const OverwriteFailed: string := "覆盖旧文件失败"
  const EmptyParse: string := "文件解析为空，请检查文件内容是否可读"
  const NoText: string := "无法读取文档文字。请确保上传的是【文字版PDF】而非【扫描图片版PDF】。"
  const MissingDependency: string := "服务器缺少解析该格式的依赖: "
  const ParseFailed: string := "解析失败: "
  /** How an `HTTPException(400, ...)` reads once turned into a string. */
  const BadRequestText: string := "400: "
  const MinTextLength: nat := 10
  const DocumentNotFound: string := "文档不存在"
  const DeleteForbidden: string := "你无权删除此文档"
  const DeleteFailed: string := "删除失败: "
  const Deleted: string := "文档已删除"
  const GlobalKnowledgeBase: string := "公共知识库"
  const UnknownDepartment: string := "未知部门"
  const UnknownUploader: string := "Unknown"
  const IndexedStatus: string := "indexed"

  // ---------------------------------------------------------------------
  // Target workspace and index key
  // ---------------------------------------------------------------------

  /** The workspace an upload goes to: a public upload goes to `global`
      (the role is looked at but nothing follows from it), a private one to
      the uploader's department, and without a department the upload is
      refused with 400. */
  function UploadWorkspace(caller: User, isPublic: bool): (r: Outcome<string>)
    ensures r.Ok? <==> isPublic || Truthy(caller.departmentId)
    ensures r.Ok? ==> r.value == if isPublic then GlobalId else caller.departmentId.value
    ensures r.Fail? ==> r == Fail(400, NoDepartment)
  {
    if isPublic then Ok(GlobalId)
    else if !Truthy(caller.departmentId) then Fail(400, NoDepartment)
    else Ok(caller.departmentId.value)
  }

  /** The admin check on public uploads has no effect: the target does not
      depend on the role. */
  lemma {:induction false} UploadIgnoresRole(caller: User, isPublic: bool, role: Role)
    ensures UploadWorkspace(caller.(role := role), isPublic) == UploadWorkspace(caller, isPublic)
  {
  }

  /** The key of a file's passages in the vector index,
      `"{workspace_id}_{filename}"`. */
  function DocKey(workspaceId: string, filename: string): (r: string)
    ensures |r| == |workspaceId| + 1 + |filename|
    ensures r[..|workspaceId|] == workspaceId && r[|workspaceId|] == '_' && r[|workspaceId| + 1..] == filename
  {
    workspaceId + "_" + filename
  }

  /** Within one workspace the key tells files apart. */
  lemma {:induction false} DocKeyWithinWorkspace(workspaceId: string, f1: string, f2: string)
    ensures DocKey(workspaceId, f1) == DocKey(workspaceId, f2) <==> f1 == f2
  {
    if DocKey(workspaceId, f1) == DocKey(workspaceId, f2) {
      assert f1 == DocKey(workspaceId, f1)[|workspaceId| + 1..];
    }
  }

  /** Across workspaces it does not: a workspace id containing `_` (as the
      `ldap_` ids do) can share keys with another workspace. */
  lemma DocKeyAcrossWorkspaces()
    ensures DocKey("ldap_hr", "a.pdf") == DocKey("ldap", "hr_a.pdf")
  {
  }

  // ---------------------------------------------------------------------
  // Parsing gates and metadata
  // ---------------------------------------------------------------------

  /** What the directory reader makes of the stored file: the texts of the
      documents it loaded, or an exception (a missing reader dependency is
      an `ImportError`, anything else a plain exception). */
  datatype Extraction =
    | Loaded(texts: seq<string>)
    | MissingReader(error: string)
    | Unreadable(error: string)

  /** `sum(len(d.text.strip()) for d in documents)`. */
  function StrippedLength(texts: seq<string>): nat
  {
    if texts == [] then 0 else StrippedLength(texts[..|texts| - 1]) + |Strip(texts[|texts| - 1])|
  }

  /** The 500 detail an extraction fails with, if it fails. The two 400
      rejections are raised inside the `try` and reach the client re-wrapped
      by the generic handler. */
  function ParseFailure(e: Extraction): (r: Option<string>)
  {
    match e
    case MissingReader(error) => Some(MissingDependency + error)
    case Unreadable(error) => Some(ParseFailed + error)
    case Loaded(texts) =>
      if texts == [] then Some(ParseFailed + BadRequestText + EmptyParse)
      else if StrippedLength(texts) < MinTextLength then Some(ParseFailed + BadRequestText + NoText)
      else None
  }

  /** An extraction passes exactly when documents were loaded and their
      stripped texts hold at least ten characters; the empty and the too
      short cases are reported under the generic parse-failure prefix. */
  lemma ParseFailureSpec(e: Extraction)
    ensures ParseFailure(e).None? <==> e.Loaded? && e.texts != [] && StrippedLength(e.texts) >= MinTextLength
    ensures e.Loaded? && ParseFailure(e).Some? ==> ParseFailure(e).value[..|ParseFailed|] == ParseFailed
  {
  }

  /** Whitespace alone never passes the gate. */
  lemma {:induction false} BlankTextsFail(texts: seq<string>)
    requires forall i :: 0 <= i < |texts| ==> Strip(texts[i]) == ""
    ensures StrippedLength(texts) == 0
    ensures ParseFailure(Loaded(texts)).Some?
  {
    if texts != [] {
      BlankTextsFail(texts[..|texts| - 1]);
    }
  }

  /** The metadata attached to one loaded document before indexing. */
  datatype TaggedDocument = TaggedDocument(
    text: string,
    workspaceId: string,
    fileName: string,
    fileKey: string,
    isGlobal: string,
    uploaderEmail: string)

  /** `"true"` for the global workspace, `"false"` otherwise. */
  function GlobalTag(workspaceId: string): string
  {
    if workspaceId == GlobalId then "true" else "false"
  }

  function Tag(text: string, workspaceId: string, filename: string, email: string): TaggedDocument
  {
    TaggedDocument(text, workspaceId, filename, DocKey(workspaceId, filename), GlobalTag(workspaceId), email)
  }

  /** Every loaded document with its metadata set. */
  function TagAll(texts: seq<string>, workspaceId: string, filename: string, email: string): seq<TaggedDocument>
  {
    seq(|texts|, i requires 0 <= i < |texts| => Tag(texts[i], workspaceId, filename, email))
  }

  /** The loop over the loaded documents setting their metadata. */
  method TagDocuments(texts: seq<string>, workspaceId: string, filename: string, email: string)
    returns (tagged: seq<TaggedDocument>)
    ensures tagged == TagAll(texts, workspaceId, filename, email)
  {
    tagged := [];
    for i := 0 to |texts|
      invariant |tagged| == i
      invariant forall k :: 0 <= k < i ==> tagged[k] == Tag(texts[k], workspaceId, filename, email)
    {
      tagged := tagged + [Tag(texts[i], workspaceId, filename, email)];
    }
  }

  /** Every tagged document carries the text it was loaded with, the target
      workspace, the file name, the index key of the upload and an
      `is_global` tag that is `"true"` exactly for the global workspace. */
  lemma TagSpec(text: string, workspaceId: string, filename: string, email: string)
    ensures var t := Tag(text, workspaceId, filename, email);
      && t.text == text && t.workspaceId == workspaceId && t.fileName == filename
      && t.fileKey == DocKey(workspaceId, filename)
      && (t.isGlobal == "true" <==> workspaceId == GlobalId)
      && (t.isGlobal == "false" <==> workspaceId != GlobalId)
  {
  }

  /** The tag follows the workspace and the record follows the checkbox, so
      a private upload by a member of the `global` department is tagged
      global in the index while its record is not. */
  lemma PrivateUploadToGlobalDepartment(caller: User)
    requires caller.departmentId == Some(GlobalId)
    ensures UploadWorkspace(caller, false) == Ok(GlobalId)
    ensures GlobalTag(UploadWorkspace(caller, false).value) == "true"
  {
  }

  // ---------------------------------------------------------------------
  // The documents table
  // ---------------------------------------------------------------------

  /** The record an upload overwrites: same workspace, file name and
      `is_global`. */
  function SameFile(workspaceId: string, filename: string, isGlobal: bool): DocumentRecord -> bool
  {
    (d: DocumentRecord) => d.workspaceId == workspaceId && d.filename == filename && d.isGlobal == isGlobal
  }

  /** The first row satisfying `p` (`.filter(...).first()`). */
  function FindDocumentBy(ds: seq<DocumentRecord>, p: DocumentRecord -> bool): (r: Option<DocumentRecord>)
    ensures r.Some? ==> exists i :: 0 <= i < |ds| && ds[i] == r.value && p(r.value)
    ensures r.None? <==> forall i :: 0 <= i < |ds| ==> !p(ds[i])
  {
    if ds == [] then None
    else if p(ds[0]) then Some(ds[0])
    else
      var r := FindDocumentBy(ds[1..], p);
      assert forall i :: 1 <= i < |ds| ==> ds[i] == ds[1..][i - 1];
      r
  }

  function HasId(id: nat): DocumentRecord -> bool
  {
    (d: DocumentRecord) => d.id == id
  }

  function NotId(id: nat): DocumentRecord -> bool
  {
    (d: DocumentRecord) => d.id != id
  }

  /** `db.delete(doc)`: the row with that primary key goes. */
  function RemoveDocument(ds: seq<DocumentRecord>, id: nat): seq<DocumentRecord>
  {
    Filter(ds, NotId(id))
  }

  /** With unique keys, deleting a row's key removes that row and nothing
      else, keeping the others in order. */
  lemma RemoveDocumentAt(ds: seq<DocumentRecord>, i: nat)
    requires DistinctKeys(ds, DocumentId) && i < |ds|
    ensures RemoveDocument(ds, ds[i].id) == ds[..i] + ds[i + 1..]
  {
    forall k | 0 <= k < |ds| && k != i ensures NotId(ds[i].id)(ds[k]) {
      assert DocumentId(ds[k]) != DocumentId(ds[i]);
    }
    FilterDropOne(ds, NotId(ds[i].id), i);
  }

  /** The table an upload leaves behind before it inserts: the overwritten
      record, if any, is gone. */
  function Cleared(ds: seq<DocumentRecord>, found: Option<DocumentRecord>): seq<DocumentRecord>
  {
    if found.Some? then RemoveDocument(ds, found.value.id) else ds
  }

  /** An upload that succeeds leaves exactly one record for its file when
      there was at most one before: a match is removed before the new
      record is added, and without a match the new record is the only one. */
  lemma {:induction false} UploadLeavesOne(ds: seq<DocumentRecord>, workspaceId: string, filename: string, isGlobal: bool, d: DocumentRecord)
    requires DistinctKeys(ds, DocumentId)
    requires SameFile(workspaceId, filename, isGlobal)(d)
    ensures var p := SameFile(workspaceId, filename, isGlobal);
      var found := FindDocumentBy(ds, p);
      && (found.None? ==> Count(Cleared(ds, found) + [d], p) == 1)
      && (found.Some? ==> Count(Cleared(ds, found) + [d], p) == Count(ds, p))
      && (Count(ds, p) <= 1 ==> Count(Cleared(ds, found) + [d], p) == 1)
  {
    var p := SameFile(workspaceId, filename, isGlobal);
    var found := FindDocumentBy(ds, p);
    var after := Cleared(ds, found) + [d];
    CountAppend(Cleared(ds, found), [d], p);
    assert Count([d], p) == 1 by {
      assert [d][1..] == [];
    }
    if found.None? {
      CountZero(ds, p);
    } else {
      var i :| 0 <= i < |ds| && ds[i] == found.value && p(found.value);
      RemoveDocumentAt(ds, i);
      CountRemoveAt(ds, i, p);
    }
  }

  /** Removing a row keeps the keys unique and below the counter. */
  lemma RemoveDocumentKeeps(ds: seq<DocumentRecord>, id: nat, nextId: nat)
    requires DistinctKeys(ds, DocumentId) && DocumentIdsBelow(ds, nextId)
    ensures DistinctKeys(RemoveDocument(ds, id), DocumentId) && DocumentIdsBelow(RemoveDocument(ds, id), nextId)
  {
    FilterDistinct(ds, NotId(id), DocumentId);
    FilterMembers(ds, NotId(id));
  }

  /** Deletes the row with the given key. */
  method DeleteRow(db: Database, id: nat)
    requires db.Valid()
    modifies db
    ensures db.Valid()
    ensures db.documents == RemoveDocument(old(db.documents), id)
    ensures db.workspaces == old(db.workspaces) && db.users == old(db.users)
    ensures db.sessions == old(db.sessions) && db.messages == old(db.messages)
    ensures db.clock == old(db.clock) && db.nextId == old(db.nextId)
  {
    RemoveDocumentKeeps(db.documents, id, db.nextId);
    db.documents := RemoveDocument(db.documents, id);
  }

  /** Inserts a record with the next key, uploaded now. */
  method InsertRecord(db: Database, filename: string, fileSize: string, workspaceId: string, isGlobal: bool, uploaderId: nat)
    requires db.Valid()
    modifies db
    ensures db.Valid()
    ensures db.documents == old(db.documents)
      + [DocumentRecord(old(db.nextId), filename, fileSize, workspaceId, isGlobal, Some(uploaderId), old(db.clock) + 1)]
    ensures db.workspaces == old(db.workspaces) && db.users == old(db.users)
    ensures db.sessions == old(db.sessions) && db.messages == old(db.messages)
    ensures db.clock == old(db.clock) + 1 && db.nextId == old(db.nextId) + 1
  {
    var d := DocumentRecord(db.nextId, filename, fileSize, workspaceId, isGlobal, Some(uploaderId), db.clock + 1);
    ChatTablesLater(db.sessions, db.messages, db.clock, db.nextId, db.clock + 1, db.nextId + 1);
    var ds := db.documents + [d];
    assert forall i :: 0 <= i < |db.documents| ==> ds[i] == db.documents[i];
    db.documents := ds;
    db.clock, db.nextId := db.clock + 1, db.nextId + 1;
  }

  // ---------------------------------------------------------------------
  // Upload
  // ---------------------------------------------------------------------

  /** The overwrite step: a record of the same file is removed, after its
      passages are purged from the index under the upload's key; a failure
      there is a 500 and leaves the table as it was. */
  method ClearSameFile(db: Database, workspaceId: string, filename: string, isGlobal: bool, overwriteSucceeds: bool)
    returns (ok: bool, purged: Option<string>)
    requires db.Valid()
    modifies db
    ensures db.Valid()
    ensures var found := FindDocumentBy(old(db.documents), SameFile(workspaceId, filename, isGlobal));
      && ok == (found.None? || overwriteSucceeds)
      && purged == (if found.Some? && overwriteSucceeds then Some(DocKey(workspaceId, filename)) else None)
      && db.documents == (if ok then Cleared(old(db.documents), found) else old(db.documents))
    ensures !ok ==> unchanged(db)
    ensures db.workspaces == old(db.workspaces) && db.users == old(db.users)
    ensures db.sessions == old(db.sessions) && db.messages == old(db.messages)
    ensures db.clock == old(db.clock) && db.nextId == old(db.nextId)
  {
    var existing := FindDocumentBy(db.documents, SameFile(workspaceId, filename, isGlobal));
    ok, purged := true, None;
    if existing.Some? {
      if !overwriteSucceeds {
        ok := false;
        return;
      }
      purged := Some(DocKey(workspaceId, filename));
      DeleteRow(db, existing.value.id);
    }
  }

  /** What the part of an upload inside the `try` answers: the parse
      failure, else the index failure, else the file name. */
  function IndexResult(extraction: Extraction, indexError: Option<string>, filename: string): (r: Outcome<string>)
    ensures r.Ok? <==> ParseFailure(extraction).None? && indexError.None?
    ensures r.Ok? ==> r.value == filename
    ensures r.Fail? ==> r.status == 500
    ensures ParseFailure(extraction).Some? ==> r.detail == ParseFailure(extraction).value
    ensures ParseFailure(extraction).None? && indexError.Some? ==> r.detail == ParseFailed + indexError.value
  {
    if ParseFailure(extraction).Some? then Fail(500, ParseFailure(extraction).value)
    else if indexError.Some? then Fail(500, ParseFailed + indexError.value)
    else Ok(filename)
  }

  /** The part of an upload inside the `try`: the parse gates, the
      metadata loop, the index insert and the new record, which is written
      only when everything before it succeeded. */
  method IndexUpload(db: Database, caller: User, ws: string, filename: string, isPublic: bool, fileSize: string,
                     extraction: Extraction, indexError: Option<string>)
    returns (r: Outcome<string>, tagged: seq<TaggedDocument>)
    requires db.Valid()
    modifies db
    ensures db.Valid()
    ensures r == IndexResult(extraction, indexError, filename)
    ensures tagged == if ParseFailure(extraction).None? then TagAll(extraction.texts, ws, filename, caller.email) else []
    ensures db.documents == old(db.documents)
      + if r.Ok? then [DocumentRecord(old(db.nextId), filename, fileSize, ws, isPublic, Some(caller.id), old(db.clock) + 1)] else []
    ensures db.workspaces == old(db.workspaces) && db.users == old(db.users)
    ensures db.sessions == old(db.sessions) && db.messages == old(db.messages)
    ensures r.Fail? ==> db.clock == old(db.clock) && db.nextId == old(db.nextId)
    ensures r.Ok? ==> db.clock == old(db.clock) + 1 && db.nextId == old(db.nextId) + 1
  {
    tagged := [];
    var failure := ParseFailure(extraction);
    if failure.Some? {
      r := Fail(500, failure.value);
      return;
    }
    tagged := TagDocuments(extraction.texts, ws, filename, caller.email);
    if indexError.Some? {
      r := Fail(500, ParseFailed + indexError.value);
      return;
    }
    InsertRecord(db, filename, fileSize, ws, isPublic, caller.id);
    r := Ok(filename);
  }

  /** `POST /api/documents/upload` for one file. The result is the file name
      or the failure; `purged` is the key whose passages were removed from
      the index for an overwrite and `tagged` the documents handed to the
      index. A refusal for lack of a department and a failed overwrite leave
      the table alone; once the overwrite is committed, a failed parse or
      index insert still leaves the old record deleted; only a full success
      inserts the new record. */
  method UploadFile(db: Database, caller: User, filename: string, isPublic: bool, fileSize: string,
                    overwriteSucceeds: bool, extraction: Extraction, indexError: Option<string>)
    returns (r: Outcome<string>, purged: Option<string>, tagged: seq<TaggedDocument>)
    requires db.Valid()
    modifies db
    ensures db.Valid()
    ensures db.workspaces == old(db.workspaces) && db.users == old(db.users)
    ensures db.sessions == old(db.sessions) && db.messages == old(db.messages)
    ensures UploadWorkspace(caller, isPublic).Fail? ==>
      r == Fail(400, NoDepartment) && purged == None && tagged == [] && unchanged(db)
    ensures UploadWorkspace(caller, isPublic).Ok? ==>
      var ws := UploadWorkspace(caller, isPublic).value;
      var found := FindDocumentBy(old(db.documents), SameFile(ws, filename, isPublic));
      purged == if found.Some? && overwriteSucceeds then Some(DocKey(ws, filename)) else None
    ensures UploadWorkspace(caller, isPublic).Ok? ==>
      var ws := UploadWorkspace(caller, isPublic).value;
      var found := FindDocumentBy(old(db.documents), SameFile(ws, filename, isPublic));
      found.Some? && !overwriteSucceeds ==> r == Fail(500, OverwriteFailed) && tagged == [] && unchanged(db)
    ensures UploadWorkspace(caller, isPublic).Ok? ==>
      var ws := UploadWorkspace(caller, isPublic).value;
      var found := FindDocumentBy(old(db.documents), SameFile(ws, filename, isPublic));
      found.None? || overwriteSucceeds ==>
        && r == IndexResult(extraction, indexError, filename)
        && tagged == (if ParseFailure(extraction).None? then TagAll(extraction.texts, ws, filename, caller.email) else [])
        && db.documents == Cleared(old(db.documents), found)
           + if r.Ok? then [DocumentRecord(old(db.nextId), filename, fileSize, ws, isPublic, Some(caller.id), old(db.clock) + 1)] else []
  {
    purged, tagged := None, [];
    var target := UploadWorkspace(caller, isPublic);
    if target.Fail? {
      r := Fail(400, NoDepartment);
      return;
    }
    var ok;
    ok, purged := ClearSameFile(db, target.value, filename, isPublic, overwriteSucceeds);
    if !ok {
      r := Fail(500, OverwriteFailed);
      return;
    }
    r, tagged := IndexUpload(db, caller, target.value, filename, isPublic, fileSize, extraction, indexError);
  }

  // ---------------------------------------------------------------------
  // Delete
  // ---------------------------------------------------------------------

  /** Admins may delete any document, anyone else only one of their own
      department. */
  predicate MayDelete(caller: User, d: DocumentRecord)
  {
    caller.role == Admin || Some(d.workspaceId) == caller.departmentId
  }

  /** A member without a department may delete nothing, and a member may
      never delete another department's document, global ones included. */
  lemma MayDeleteSpec(caller: User, d: DocumentRecord)
    requires caller.role == Member
    ensures caller.departmentId.None? ==> !MayDelete(caller, d)
    ensures MayDelete(caller, d) <==> caller.departmentId == Some(d.workspaceId)
  {
  }

  /** `DELETE /api/documents/{id}`: 404 for an unknown id, 403 without
      permission, 500 when the index refuses; otherwise the passages under
      the record's key are purged and exactly that row is deleted.
      `purgeKey` is the key the deletion targets once permission is
      granted, returned whether or not the index then accepted it. */
  method DeleteDocument(db: Database, caller: User, docId: nat, indexError: Option<string>)
    returns (r: Outcome<string>, purgeKey: Option<string>)
    requires db.Valid()
    modifies db
    ensures db.Valid()
    ensures db.workspaces == old(db.workspaces) && db.users == old(db.users)
    ensures db.sessions == old(db.sessions) && db.messages == old(db.messages)
    ensures var found := FindDocumentBy(old(db.documents), HasId(docId));
      && (found.None? ==> r == Fail(404, DocumentNotFound) && purgeKey == None && unchanged(db))
      && (found.Some? && !MayDelete(caller, found.value) ==> r == Fail(403, DeleteForbidden) && purgeKey == None && unchanged(db))
      && (found.Some? && MayDelete(caller, found.value) ==>
            purgeKey == Some(DocKey(found.value.workspaceId, found.value.filename)))
      && (found.Some? && MayDelete(caller, found.value) && indexError.Some? ==>
            r == Fail(500, DeleteFailed + indexError.value) && unchanged(db))
      && (found.Some? && MayDelete(caller, found.value) && indexError.None? ==>
            r == Ok(Deleted) && db.documents == RemoveDocument(old(db.documents), docId))
  {
    purgeKey := None;
    var doc := FindDocumentBy(db.documents, HasId(docId));
    if doc.None? {
      r := Fail(404, DocumentNotFound);
      return;
    }
    if !MayDelete(caller, doc.value) {
      r := Fail(403, DeleteForbidden);
      return;
    }
    purgeKey := Some(DocKey(doc.value.workspaceId, doc.value.filename));
    if indexError.Some? {
      r := Fail(500, DeleteFailed + indexError.value);
      return;
    }
    DeleteRow(db, docId);
    r := Ok(Deleted);
  }

  /** A successful delete removes the one row with that key and keeps every
      other row in order. */
  lemma DeleteRemovesOne(ds: seq<DocumentRecord>, docId: nat)
    requires DistinctKeys(ds, DocumentId)
    requires FindDocumentBy(ds, HasId(docId)).Some?
    ensures exists i :: 0 <= i < |ds| && ds[i].id == docId && RemoveDocument(ds, docId) == ds[..i] + ds[i + 1..]
  {
    var i :| 0 <= i < |ds| && ds[i] == FindDocumentBy(ds, HasId(docId)).value && HasId(docId)(ds[i]);
    RemoveDocumentAt(ds, i);
  }

  // ---------------------------------------------------------------------
  // Listing
  // ---------------------------------------------------------------------

  /** One row of `GET /api/documents`. */
  datatype DocumentView = DocumentView(
    id: nat,
    name: string,
    size: string,
    status: string,
    date: nat,
    isGlobal: bool,
    uploaderId: Option<nat>,
    uploaderName: string,
    workspaceName: string)

  /** Admins see every document; anyone else the documents of the workspace
      named in the request and the global ones. */
  function Visible(caller: User, workspaceId: string): DocumentRecord -> bool
  {
    (d: DocumentRecord) => caller.role == Admin || d.workspaceId == workspaceId || d.isGlobal
  }

  function UploadDate(d: DocumentRecord): real
  {
    d.uploadDate as real
  }

  /** The query: the visible documents, newest upload first. */
  function Listing(ds: seq<DocumentRecord>, caller: User, workspaceId: string): seq<DocumentRecord>
  {
    SortDesc(Filter(ds, Visible(caller, workspaceId)), UploadDate)
  }

  /** The listing holds the visible documents, each as often as in the
      table, newest first; for an admin that is every document. */
  lemma ListingSpec(ds: seq<DocumentRecord>, caller: User, workspaceId: string)
    ensures multiset(Listing(ds, caller, workspaceId)) == multiset(Filter(ds, Visible(caller, workspaceId)))
    ensures SortedDesc(Listing(ds, caller, workspaceId), UploadDate)
    ensures caller.role == Admin ==> multiset(Listing(ds, caller, workspaceId)) == multiset(ds)
  {
    SortDescSorted(Filter(ds, Visible(caller, workspaceId)), UploadDate);
    if caller.role == Admin {
      FilterAll(ds, Visible(caller, workspaceId));
    }
  }

  /** A document of the table is listed exactly when it is visible. */
  lemma ListingMembers(ds: seq<DocumentRecord>, caller: User, workspaceId: string, i: nat)
    requires i < |ds|
    ensures ds[i] in Listing(ds, caller, workspaceId) <==> Visible(caller, workspaceId)(ds[i])
  {
    var p := Visible(caller, workspaceId);
    var visible := Filter(ds, p);
    var listing := Listing(ds, caller, workspaceId);
    SortDescSorted(visible, UploadDate);
    FilterMembers(ds, p);
    assert ds[i] in multiset(listing) <==> ds[i] in multiset(visible);
    if ds[i] in visible {
      var k :| 0 <= k < |visible| && visible[k] == ds[i];
    }
  }

  /** The requested workspace is not checked against the caller's
      department: a member who names another department sees its
      documents. */
  lemma MemberSeesNamedWorkspace(ds: seq<DocumentRecord>, caller: User, i: nat)
    requires i < |ds|
    ensures ds[i] in Listing(ds, caller, ds[i].workspaceId)
  {
    ListingMembers(ds, caller, ds[i].workspaceId, i);
  }

  /** The joined workspace name when it is non-empty; otherwise the global
      label for global documents and the unknown-department label for the
      rest. */
  function WorkspaceLabel(ws: seq<Workspace>, d: DocumentRecord): (r: string)
  {
    var joined := FindWorkspace(ws, d.workspaceId);
    if joined.Some? && joined.value.name != "" then joined.value.name
    else if d.isGlobal || d.workspaceId == GlobalId then GlobalKnowledgeBase
    else UnknownDepartment
  }

  /** The label is never empty; it is the name of a workspace with the
      document's id or one of the two fallbacks, and a document whose
      workspace does not exist gets the global label exactly when it is
      global or in `global`. */
  lemma WorkspaceLabelSpec(ws: seq<Workspace>, d: DocumentRecord)
    ensures WorkspaceLabel(ws, d) != ""
    ensures || WorkspaceLabel(ws, d) == GlobalKnowledgeBase
            || WorkspaceLabel(ws, d) == UnknownDepartment
            || exists i :: 0 <= i < |ws| && ws[i].id == d.workspaceId && ws[i].name == WorkspaceLabel(ws, d)
    ensures (forall i :: 0 <= i < |ws| ==> ws[i].id != d.workspaceId) ==>
      (WorkspaceLabel(ws, d) == GlobalKnowledgeBase <==> d.isGlobal || d.workspaceId == GlobalId)
  {
    var joined := FindWorkspace(ws, d.workspaceId);
    if joined.Some? && joined.value.name != "" {
      var i :| 0 <= i < |ws| && ws[i] == joined.value;
    }
  }

  /** The uploader's user name, `Unknown` without an uploader (or with id
      0) or when the user is gone. */
  function UploaderName(us: seq<User>, d: DocumentRecord): string
  {
    if d.uploaderId.Some? && d.uploaderId.value != 0 then
      var u := FindUser(us, d.uploaderId.value);
      if u.Some? then u.value.username else UnknownUploader
    else UnknownUploader
  }

  function View(ws: seq<Workspace>, us: seq<User>, d: DocumentRecord): DocumentView
  {
    DocumentView(d.id, d.filename, d.fileSize, IndexedStatus, d.uploadDate, d.isGlobal,
                 d.uploaderId, UploaderName(us, d), WorkspaceLabel(ws, d))
  }

  /** `GET /api/documents?workspace_id=...`: the query, then the loop that
      builds one row per document. */
  method ListDocuments(ds: seq<DocumentRecord>, ws: seq<Workspace>, us: seq<User>, caller: User, workspaceId: string)
    returns (result: seq<DocumentView>)
    ensures |result| == |Listing(ds, caller, workspaceId)|
    ensures forall i :: 0 <= i < |result| ==> result[i] == View(ws, us, Listing(ds, caller, workspaceId)[i])
  {
    var docs := Listing(ds, caller, workspaceId);
    result := [];
    for i := 0 to |docs|
      invariant |result| == i
      invariant forall k :: 0 <= k < i ==> result[k] == View(ws, us, docs[k])
    {
      var name := WorkspaceLabel(ws, docs[i]);
      var uploader := UploaderName(us, docs[i]);
      result := result + [DocumentView(docs[i].id, docs[i].filename, docs[i].fileSize, IndexedStatus,
                                       docs[i].uploadDate, docs[i].isGlobal, docs[i].uploaderId, uploader, name)];
    }
  }
}
