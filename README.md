# Enterprise knowledge-base routers, modelled in Dafny

This project models the HTTP routers of a retrieval-augmented knowledge-base
service. The service is built on FastAPI, SQLAlchemy and LlamaIndex. Users
belong to departments, which the code calls workspaces. They upload documents
into their department or into the shared `global` library, chat with an
assistant that answers from the documents they may see, and read a dashboard.
Admins manage departments and users. Accounts are either local or synced from
an LDAP directory.

The database is the class `Models.Database`. It has one `seq` per table
(workspaces, users, documents, chat sessions, chat messages), a clock that
stands for `datetime.utcnow()`, and a primary-key counter. Its invariant
`Valid` holds:

- distinct keys in every table, and distinct department names;
- ids below the counter;
- session times no later than the clock;
- messages stored in creation order;
- every message belongs to an existing session.

Endpoints that write the database are methods with `modifies db`. Their
contracts keep `Valid` and state the whole new state. Endpoints and loops
that only read are methods over table values, proved against specification
functions.

Whatever the service gets from outside is a parameter of the model:

- fresh uuids;
- the password-verification function;
- the directory's answer to an LDAP login;
- what the file parsers extracted;
- vector-store failures;
- the chat engine's reply;
- the current day.

Modules, one per file:

- `Common`: `Option`, the `Outcome` of an endpoint (a value, or an HTTP
  status with a detail text), and the Python string operations the routers
  use (`strip`, `split`, `lower`, slicing, truthiness).
- `Seqs`: filtering (a `WHERE` clause), counting, concatenation, key sets and
  first-occurrence de-duplication.
- `Sorting`: a stable descending sort by a key, like Python's
  `sorted(..., reverse=True)` and `ORDER BY ... DESC`.
- `Models`: the entities, key lookups and the database class.
- `Chat`: `routers/chat.py`.
- `Documents`: `routers/documents.py`.
- `Admin`: `routers/admin.py`.
- `Auth`: `routers/auth.py`, the LDAP sync, login and password change.
- `Dashboard`: `routers/dashboard.py`.

## Model

| member | source | states |
|---|---|---|
| Common.JoinSplit | routers/auth.py:88 | joining the pieces of `split(sep)` with `sep` gives back the string |
| Common.SplitAfterPrefix | routers/auth.py:93 | after a separator-free prefix and one separator, the next piece of `split` is the first piece of the rest |
| Common.SplitLast | routers/dashboard.py:67 | `split(sep)[-1]` is the longest separator-free suffix, preceded by the separator unless it is the whole string |
| Sorting.SortDescSorted | routers/chat.py:208 | the descending sort is sorted by the key |
| Sorting.SortDescStable | routers/chat.py:208 | the sort is stable: elements with equal keys keep their input order |
| Sorting.SortedPrefixTop | routers/dashboard.py:49 | in a descending sequence no element outside the first `n` has a larger key than one of them |
| Seqs.FirstOccurrencesSpec | routers/chat.py:316-323 | de-duplication keeps exactly the first element of each key, in order, with distinct keys and the same key set |
| Seqs.FirstOccurrencesIdempotent | routers/chat.py:316-323 | de-duplicating twice is de-duplicating once |
| Models.FindWorkspaceByName | routers/admin.py:51 | a found workspace has the name; none is found exactly when no workspace has it |
| Models.FindUserByName | routers/admin.py:132 | a found user has the user name; none is found exactly when no user has it |
| Models.AppendWorkspace | routers/admin.py:58-60 | a workspace with a new id and a new name keeps both keys distinct and is found under either |
| Models.ReplaceUserSpec | routers/auth.py:136-142 | an in-place update of a user row keeps the keys and ids, makes the row findable as updated, and leaves every other row alone |
| Chat.FilterVisibility | routers/chat.py:146-160 | admins retrieve without a filter; anyone else sees `global` plus their own department when they have one |
| Chat.SortedHead | routers/chat.py:208 | the head of the sorted hits is a hit with the largest score |
| Chat.CurateIsFilter | routers/chat.py:208-212 | when some hit reaches 0.15, curation keeps exactly the hits at or above 0.15, best first |
| Chat.CurateAboveThreshold | routers/chat.py:208-212 | in that case the kept hits are a permutation of the qualifying hits, sorted by score |
| Chat.CurateFallback | routers/chat.py:208-210 | when no hit reaches 0.15, at most the first best hit is kept, and only if its score is above 0.01 |
| Chat.CurateAsWrittenAgrees | routers/chat.py:208-212 | the code as written and the corrected curation agree whenever every hit has a score |
| Chat.CurateAsWrittenRaises | routers/chat.py:209-210 | a single hit with no score makes the code as written raise, while the corrected curation keeps nothing |
| Chat.BuildSourceLists | routers/chat.py:214-242 | the display list keeps the first hit per (workspace, file) with distinct keys covering every hit's key; the persisted list has every hit in order |
| Chat.StreamAnswer | routers/chat.py:252-254 | one content frame per token, in order, and the stored answer is the concatenation of the tokens |
| Chat.ContentTextOfTokens | routers/chat.py:252-254 | the text of the content frames is the concatenation of the tokens |
| Chat.TurnFramesOrder | routers/chat.py:195-254 | the session-id frame first (new sessions only), then exactly one sources frame, then only content frames whose text is the answer |
| Chat.FindOwned | routers/chat.py:82-85 | a found session has the id and belongs to the caller; none is found exactly when no session matches both |
| Chat.NewestSpec | routers/chat.py:125-130 | the last ten messages of the session in time order, each newer than every message left out |
| Chat.LoadHistory | routers/chat.py:133-141 | the history loop computes the history window |
| Chat.HistoryWindowSpec | routers/chat.py:133-141 | no user message repeating the current question survives; every assistant message does; only the repeats are dropped |
| Chat.HistoryExample | routers/chat.py:133-141 | for a three-message session the window is the first two turns |
| Chat.OpenSession | routers/chat.py:88-100 | a new session with the fresh id, the caller, the title and now as both timestamps is appended |
| Chat.BumpSession | routers/chat.py:101-105 | only the named session's `updated_at` becomes now; the ids stay |
| Chat.ResolveSession | routers/chat.py:75-105 | the caller's own requested session is bumped; otherwise a session titled with the question's first 20 characters is created |
| Chat.AppendMessage | routers/chat.py:107-115 | one message with the next key and now is appended; nothing else changes |
| Chat.BeginTurn | routers/chat.py:75-115 | session resolution followed by the stored user message |
| Chat.LoadTurnHistory | routers/chat.py:117-141 | the history handed to the engine is the window of the session's newest ten messages |
| Chat.Respond | routers/chat.py:193-254 | the frames, the persisted sources and the answer of a streamed reply, from the curated hits |
| Chat.AnswerTurn | routers/chat.py:162-278 | an engine error is a 500 and stores nothing; a streamed reply gives its frames; the assistant message is stored only when the stream completes and the commit succeeds |
| Chat.ChatTurn | routers/chat.py:65-278 | the whole turn: an empty message list is a 500; otherwise session, user message, engine call with the caller's filter, frames and assistant message as above |
| Chat.ListSessionsSpec | routers/chat.py:287-290 | exactly the caller's sessions, most recently updated first |
| Chat.DedupSources | routers/chat.py:316-323 | the loop with a seen set computes the first occurrences by (workspace, file) |
| Chat.DedupedSpec | routers/chat.py:314-323 | de-duplication changes only `sources`, keeps their key set, makes assistant sources distinct, and is idempotent |
| Chat.ReadSessionMessages | routers/chat.py:300-325 | a session not owned by the caller is a 404; otherwise the session's messages in order with de-duplicated sources |
| Chat.SessionMessagesChronological | routers/chat.py:309-311 | the session's messages in table order are in time order and all belong to it |
| Chat.DeleteSession | routers/chat.py:335-339 | the caller's own session and its messages are removed, anything else changes nothing; the answer is always `success` |
| Chat.DeleteSessionKeeps | routers/chat.py:335-338 | removing a session together with its messages keeps the chat invariants, with no orphan messages |
| Documents.UploadWorkspace | routers/documents.py:73-81 | a public upload goes to `global`; a private one to the caller's department, or a 400 when they have none |
| Documents.UploadIgnoresRole | routers/documents.py:73-77 | the role check has no effect: any role may upload publicly |
| Documents.DocKey | routers/documents.py:84 | the vector-store key is the workspace id, `_`, then the file name |
| Documents.DocKeyWithinWorkspace | routers/documents.py:84 | within one workspace, different file names give different keys |
| Documents.DocKeyAcrossWorkspaces | routers/documents.py:84 | across workspaces keys can collide (`ldap_hr` + `a.pdf` and `ldap` + `hr_a.pdf`) |
| Documents.ParseFailureSpec | routers/documents.py:130-140 | parsing fails exactly when the loader raised, produced nothing, or produced under 10 stripped characters |
| Documents.BlankTextsFail | routers/documents.py:135-140 | documents of blank text always fail the 10-character check |
| Documents.TagDocuments | routers/documents.py:145-158 | the tagging loop tags every parsed document, in order |
| Documents.TagSpec | routers/documents.py:143-154 | each tag carries the workspace, the file name, the key, the uploader's e-mail, and `is_global` "true" exactly for `global` |
| Documents.PrivateUploadToGlobalDepartment | routers/documents.py:79-143 | a private upload by a user whose department id is `global` is tagged global |
| Documents.FindDocumentBy | routers/documents.py:87-91 | the first matching record, or none exactly when no record matches |
| Documents.UploadLeavesOne | routers/documents.py:86-194 | after an overwrite and insert, a workspace holds one record of that file whenever it held at most one before |
| Documents.ClearSameFile | routers/documents.py:86-109 | an existing record of the same file is removed and its key purged, or the overwrite failure leaves everything unchanged |
| Documents.IndexResult | routers/documents.py:121-205 | success exactly when parsing and indexing succeed; every failure is a 500 carrying the parse or index error |
| Documents.IndexUpload | routers/documents.py:121-205 | on success one record with the next key, the caller and now is appended; on failure nothing is stored |
| Documents.UploadFile | routers/documents.py:65-205 | the whole upload: no department is a 400; an overwrite failure is a 500; otherwise the old record is cleared and the new one stored iff indexing succeeds |
| Documents.MayDeleteSpec | routers/documents.py:219-223 | a member may delete exactly the documents of their own department, and nothing without a department |
| Documents.DeleteDocument | routers/documents.py:209-249 | unknown id 404, no permission 403, vector-store error 500 (nothing changed), otherwise exactly that record removed |
| Documents.DeleteRemovesOne | routers/documents.py:237 | deleting by id removes the one record with that id and keeps the others in order |
| Documents.ListingSpec | routers/documents.py:266-282 | the listing is a permutation of the visible records, newest first; admins see all |
| Documents.ListingMembers | routers/documents.py:275-282 | a record is listed exactly when it is visible to the caller for the requested workspace |
| Documents.MemberSeesNamedWorkspace | routers/documents.py:279-281 | any caller who asks for a workspace sees its records, whatever their own department |
| Documents.WorkspaceLabelSpec | routers/documents.py:290-296 | the label is the joined workspace name, else "公共知识库" for global documents, else "未知部门" |
| Documents.ListDocuments | routers/documents.py:284-316 | one view per listed record, in listing order, with label and uploader name |
| Admin.DepartmentRowsSpec | routers/admin.py:24-35 | one row per non-global workspace, in order, with its member count; nothing for `global` |
| Admin.EmptyDepartment | routers/admin.py:29 | a department counts zero members exactly when no user belongs to it |
| Admin.ListDepartments | routers/admin.py:19-36 | the listing loop computes the department rows |
| Admin.CreateDepartment | routers/admin.py:44-61 | a taken name is a 400 and changes nothing; otherwise the new department is appended and found by name and by id |
| Admin.SparedOutside | routers/admin.py:79-84 | deleting the department's members one by one leaves exactly the users outside it |
| Admin.DeleteMembers | routers/admin.py:79-84 | the deletion loop leaves the users outside the department and counts the deleted ones |
| Admin.DeleteDepartment | routers/admin.py:65-88 | `global` is a 400, an unknown id a 404; otherwise the department and its members are removed and their number returned |
| Admin.DeleteDepartmentSpec | routers/admin.py:79-85 | a user survives exactly when outside the department; a workspace exactly when it has another id; survivors plus deleted make all users |
| Admin.DepartmentNameSpec | routers/admin.py:102-105 | the department's name when the user has one that exists, otherwise "未分配" |
| Admin.ListUsers | routers/admin.py:94-115 | one row per user with the resolved department name |
| Admin.NewMemberSpec | routers/admin.py:137-144 | the new account is an active local member of the given department with e-mail `<username>@internal.com` |
| Admin.CreateUser | routers/admin.py:125-147 | a taken user name is a 400 and changes nothing; otherwise the member is appended under the next key |
| Admin.DeleteUser | routers/admin.py:151-166 | deleting oneself is a 400, an unknown id a 404; otherwise exactly that user is removed |
| Admin.DeleteUserRemovesOne | routers/admin.py:160-164 | removing a user by id drops exactly one row and keeps the rest in order |
| Auth.OuSplit | routers/auth.py:91-93 | an `ou=` component splits into `ou` and the text after `ou=` up to the next `=` |
| Auth.OuValueSome | routers/auth.py:91-92 | a component is an `ou` component exactly when, stripped, it starts with `o`/`O`, `u`/`U`, `=` |
| Auth.OuValueText | routers/auth.py:93 | the department is the longest `=`-free prefix of what follows `ou=` |
| Auth.FirstOuSpec | routers/auth.py:87-94 | the first `ou` component of the DN wins; with none the department is "公共部门" |
| Auth.ParseDepartment | routers/auth.py:87-94 | the loop with `break` computes the first `ou` value of the comma-separated DN |
| Auth.EnsureWorkspace | routers/auth.py:106-113 | the workspace with the department name is reused, or created with the fresh id and "LDAP Synced" |
| Auth.SyncedUserSpec | routers/auth.py:123-142 | a synced account carries the directory e-mail, name and department, source LDAP and no password; a found one keeps id and role |
| Auth.UpsertUser | routers/auth.py:115-146 | the account with that e-mail, else that login name, is updated in place; otherwise a new member is appended |
| Auth.SyncAccount | routers/auth.py:104-146 | the department workspace is reused or created; the e-mail-then-name target row is rewritten in place, or a new member appended under the next key; no other user row changes |
| Auth.AuthenticateLdap | routers/auth.py:46-150 | no entry, a rejected bind or a directory error gives no user and changes nothing; otherwise the synced account, with the new workspaces, users table and counter stated in full |
| Auth.DirectoryAccountsSkipLocal | routers/auth.py:187-190 | an LDAP account is never accepted by the local password check |
| Auth.Login | routers/auth.py:182-220 | a local match logs in without changes; if local and LDAP both reject it is a 401; an LDAP login updates workspaces and users as the sync does and answers with the synced account |
| Auth.ChangePassword | routers/auth.py:159-178 | non-local accounts 400, wrong old password 400; otherwise only the caller's hash changes |
| Auth.SetPasswordKeepsOthers | routers/auth.py:175 | no other user row changes |
| Dashboard.ScopeSpec | routers/dashboard.py:30-36 | admins count everything; a member counts their department's and global documents and their own sessions |
| Dashboard.ScopeMatchesListing | routers/dashboard.py:30-34 | for a member the dashboard's document scope is the listing's visibility for their own department |
| Dashboard.NewestSpec | routers/dashboard.py:49 | at most five of the scoped documents, newest first |
| Dashboard.NewestTop | routers/dashboard.py:49 | no document left out is newer than a listed one |
| Dashboard.RecentRows | routers/dashboard.py:51-59 | one row per recent document with the uploader's name or "Unknown" |
| Dashboard.ExtensionSpec | routers/dashboard.py:67 | the extension is the lower-cased text after the last `.`, or the whole name |
| Dashboard.TallySum | routers/dashboard.py:64-75 | the four buckets add up to the number of documents |
| Dashboard.TallySnoc | routers/dashboard.py:66-75 | one more document moves exactly the bucket of its type |
| Dashboard.CountType | routers/dashboard.py:67-75 | the branch on the extension adds one to the bucket of the file's type |
| Dashboard.TypeStats | routers/dashboard.py:63-75 | the loop computes the bucket counts of the scoped documents |
| Dashboard.FileTypesSpec | routers/dashboard.py:121-123 | chart entries are non-empty, and a bucket appears exactly when it holds a document |
| Dashboard.FileTypesSum | routers/dashboard.py:121-123 | the chart entries add up to the buckets |
| Dashboard.FileTypesTotal | routers/dashboard.py:63-123 | the chart accounts for every scoped document |
| Dashboard.ActivitySpec | routers/dashboard.py:79-107 | seven consecutive days ending today; a count is 0 exactly when no session was created that day |
| Dashboard.DailyTally | routers/dashboard.py:90-94 | the per-day map counts the sessions of each day |
| Dashboard.ActivitySeries | routers/dashboard.py:79-107 | the window query, the map and the walk over the axis compute the seven-day series |
| Dashboard.MemberActivityOwnSessions | routers/dashboard.py:36-107 | a member's daily counts are the member's own sessions of each day |
| Dashboard.TypeAndActivityAsWritten | routers/dashboard.py:66-107 | the loop as written: buckets as intended, activity only if there is a document, else the module globals |
| Dashboard.StaleActivity | routers/dashboard.py:26-107 | with no document the first request has no activity (a `NameError`), and later requests show another request's series |
| Dashboard.DashboardStats | routers/dashboard.py:19-130 | the scoped counts, the admin-only user count, the department name, the chart, the activity computed once, and the recent documents |

## Left out

- Score rounding: the persisted source score is `round(score, 4)`. The model keeps the raw score because floating point is not modelled.
- The chat engine: LlamaIndex retrieval, reranking, prompting and the 3000-token memory limit are one function parameter. It receives the question, the history window and the access scope, and returns hits and tokens or an error.
- A stream that fails half-way stores no assistant message. The model follows the code here, because the exception escapes before the save.
- Ordering ties: `ORDER BY` ties in SQL are unordered, and the model uses a stable sort.
- `get_users` ordering: the `ORDER BY role, department_id, created_at DESC` of the user listing is not modelled. Rows come in table order.
- Fresh identifiers: uuids (sessions, departments, LDAP workspaces) are parameters that the caller guarantees unused. The 8-character `ldap_` id format is not modelled.
- Database constraints: unique e-mails and foreign keys are not modelled. So deleting a department or user that still owns sessions or documents succeeds here.
- Database constraints: a `department_id` naming no workspace is also accepted, as the routers themselves do not check it.
- Commit exceptions are not modelled, except the assistant-message commit of a chat turn, which is a parameter.
- The filesystem is not modelled: saving, deleting and size-formatting uploaded files. The size string is a parameter.
- Document parsing is one parameter: readers, extractors and chunking.
- Vector-store insertion and deletion are not modelled. Their failures are parameters. An upload returns the key it purged; a deletion returns the key it targets, also when the index refused it.
- Error details: an `HTTPException` raised inside the upload `try` is re-wrapped as a 500. The detail is modelled as "解析失败: 400: " followed by the inner message, as `str()` renders it. Any other failure gives "解析失败: " followed by its message; an `ImportError` from a reader gives "服务器缺少解析该格式的依赖: " followed by its message.
- Date formats: upload and chart dates are modelled as numbers, not `strftime` strings.
- Chart keys: the chart keys days by `"%m-%d"`, so two dates a year apart coincide. The model keys by the day itself. This differs only for sessions dated a year or more ahead.
- Timestamps: `created_at` of workspaces and users is not modelled.
- Tokens: JWT creation and expiry are not modelled. The login answer is the claims and user info as a `LoginInfo` value.
- Password hashing: verification is an opaque function parameter, and a new hash is a parameter.
- The LDAP connection and search are one `DirectoryAnswer` parameter: no entry, a directory error, or an entry with DN, `cn`, `mail` and the outcome of the user bind.
- The unescaped search filter (section 3 of RFC 4515) is not modelled, and neither are escaped commas in DNs (section 2.4 of RFC 4514).
- `str.lower()` is modelled on ASCII letters only, which is all the `ou=` test and the extension buckets compare against.
- The deleted-department message embeds the count in text. The model returns the count.
- Role gates: the admin routes' gate lives in `dependencies.py`, which is not part of this model.
- Auth.AuthenticateLdap: a failing commit during the sync is not modelled. So the `except` branch is reached only through the directory answer.
- Chat.ChatTurn: `workspace_id` and `stream` of the request are accepted but never read, as in the code.

## Findings

| source | as written | input that shows it | evidently intended | confidence | as-written member | corrected member |
|---|---|---|---|---|---|---|
| routers/chat.py:209-210 | the fallback branch compares the raw `raw_nodes[0].score` with 0.01, although the sort and the threshold test both use `score or 0.0` | one retrieval hit whose `score` is `None`: `None > 0.01` raises `TypeError` inside the stream | treat a missing score as 0.0 there too, which keeps no hit | not executed | Chat.CurateAsWrittenRaises | Chat.CurateFallback |
| routers/dashboard.py:26-107 | the activity series is computed inside the per-document loop and stored in module globals | a scope with no documents: the first such request raises `NameError`, and later ones show the series of some earlier request (a session created today still shows 0) | compute the seven-day series once per request, whatever the number of documents | not executed | Dashboard.StaleActivity | Dashboard.ActivitySeries |
