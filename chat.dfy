/** The chat router: one question-and-answer turn (session resolution, the
    user message, the history window, the tenant filter, evidence curation,
    the NDJSON frame sequence and the assistant message), the session list,
    reading a session's messages and deleting a session. */
module Chat {
  import opened Common
  import opened Seqs
  import opened Sorting
  import opened Models

  // ---------------------------------------------------------------------
  // Request, retrieval hits and response frames
  // ---------------------------------------------------------------------

  datatype ChatMsg = ChatMsg(role: string, content: string)

  /** `workspace_id` and `stream` are accepted but never read by the turn. */
  datatype ChatRequest = ChatRequest(
    messages: seq<ChatMsg>,
    workspaceId: string,
    stream: bool,
    sessionId: Option<string>)

  /** A scored retrieval hit with the metadata keys the router reads; an
      absent key is `None`. */
  datatype Node = Node(
    score: Option<real>,
    fileName: Option<string>,
    pageLabel: Option<string>,
    workspaceId: Option<string>,
    text: string)

  /** One entry of the `sources` frame. */
  datatype ChatSource = ChatSource(fileName: string, workspaceId: string, textChunk: string)

  /** One line of the `application/x-ndjson` response. */
  datatype Frame =
    | SessionIdFrame(sessionId: string)
    | SourcesFrame(sources: seq<ChatSource>)
    | ContentFrame(token: string)

  /** One prior turn handed to the chat engine's memory. */
  datatype HistoryEntry = HistoryEntry(role: MessageRole, content: string)

  /** The documents a retrieval may see: `None` (no filter) for admins. */
  datatype AccessScope = GlobalOnly | DepartmentOrGlobal(department: string)

  const TitleLength: nat := 20
  const HistoryLimit: nat := 10
  const Threshold: real := 0.15
  const Floor: real := 0.01
  const UnknownDocument: string := "未知文档"
  const SessionNotFound: string := "会话不存在"

  // ---------------------------------------------------------------------
  // Access scope
  // ---------------------------------------------------------------------

  /** The metadata filter of the retrieval. */
  function RetrievalFilter(u: User): Option<AccessScope>
  {
    if u.role == Admin then None
    else if !Truthy(u.departmentId) then Some(GlobalOnly)
    else Some(DepartmentOrGlobal(u.departmentId.value))
  }

  /** Whether a filter lets a chunk of the given workspace through (the
      filters are equalities on `workspace_id`, joined by OR). */
  predicate Admits(f: Option<AccessScope>, workspaceId: string)
  {
    match f
    case None => true
    case Some(GlobalOnly) => workspaceId == GlobalId
    case Some(DepartmentOrGlobal(d)) => workspaceId == d || workspaceId == GlobalId
  }

  /** Admins see every workspace; members see the global workspace and, when
      they have one, their own department, and nothing else. */
  lemma FilterVisibility(u: User, workspaceId: string)
    ensures RetrievalFilter(u).None? <==> u.role == Admin
    ensures Admits(RetrievalFilter(u), workspaceId) <==>
            u.role == Admin || workspaceId == GlobalId
            || (Truthy(u.departmentId) && workspaceId == u.departmentId.value)
  {
  }

  // ---------------------------------------------------------------------
  // Evidence curation
  // ---------------------------------------------------------------------

  /** `node.score or 0.0`. */
  function Score(n: Node): real
  {
    if n.score.Some? then n.score.value else 0.0
  }

  predicate AboveThreshold(n: Node)
  {
    Score(n) >= Threshold
  }

  /** Sort by score, largest first (stable); if even the best hit is below
      the threshold keep it alone when it clears the floor, otherwise keep
      every hit at or above the threshold. */
  function Curate(nodes: seq<Node>): seq<Node>
  {
    var sorted := SortDesc(nodes, Score);
    if |sorted| > 0 && Score(sorted[0]) < Threshold then
      (if Score(sorted[0]) > Floor then [sorted[0]] else [])
    else Filter(sorted, AboveThreshold)
  }

  /** The curation as the router writes it: the fallback branch compares the
      raw `score` with 0.01, which raises a `TypeError` (here `None`) when
      the best hit has no score. */
  function CurateAsWritten(nodes: seq<Node>): Option<seq<Node>>
  {
    var sorted := SortDesc(nodes, Score);
    if |sorted| > 0 && Score(sorted[0]) < Threshold then
      if sorted[0].score.None? then None
      else Some(if sorted[0].score.value > Floor then [sorted[0]] else [])
    else Some(Filter(sorted, AboveThreshold))
  }

  lemma SortedHead(nodes: seq<Node>)
    requires |nodes| > 0
    ensures SortDesc(nodes, Score)[0] in nodes
    ensures forall i :: 0 <= i < |nodes| ==> Score(nodes[i]) <= Score(SortDesc(nodes, Score)[0])
  {
    var sorted := SortDesc(nodes, Score);
    SortDescSorted(nodes, Score);
    assert sorted[0] in multiset(nodes);
    forall i | 0 <= i < |nodes| ensures Score(nodes[i]) <= Score(sorted[0]) {
      assert nodes[i] in multiset(sorted);
      var k :| 0 <= k < |sorted| && sorted[k] == nodes[i];
    }
  }

  /** When some hit reaches the threshold the best one does, so the
      threshold filter applies to the sorted hits. */
  lemma CurateIsFilter(nodes: seq<Node>)
    requires exists i :: 0 <= i < |nodes| && AboveThreshold(nodes[i])
    ensures Curate(nodes) == Filter(SortDesc(nodes, Score), AboveThreshold)
  {
    SortedHead(nodes);
  }

  /** When some hit reaches the threshold, exactly the hits at or above it
      are kept (same multiplicities), best first. */
  lemma {:induction false} CurateAboveThreshold(nodes: seq<Node>)
    requires exists i :: 0 <= i < |nodes| && AboveThreshold(nodes[i])
    ensures multiset(Curate(nodes)) == multiset(Filter(nodes, AboveThreshold))
    ensures SortedDesc(Curate(nodes), Score)
    ensures forall i :: 0 <= i < |Curate(nodes)| ==> AboveThreshold(Curate(nodes)[i])
  {
    var sorted := SortDesc(nodes, Score);
    CurateIsFilter(nodes);
    FilterPermutation(sorted, nodes, AboveThreshold);
    SortDescSorted(nodes, Score);
    FilterPairwise(sorted, AboveThreshold, (a, b) => Score(a) >= Score(b));
    FilterMembers(sorted, AboveThreshold);
  }

  /** When no hit reaches the threshold, at most the single best hit is kept:
      it is kept exactly when some hit scores above the floor, and it is the
      first hit, in retrieval order, that has the best score. */
  lemma {:induction false} CurateFallback(nodes: seq<Node>)
    requires forall i :: 0 <= i < |nodes| ==> !AboveThreshold(nodes[i])
    ensures |Curate(nodes)| <= 1
    ensures Curate(nodes) != [] <==> exists i :: 0 <= i < |nodes| && Score(nodes[i]) > Floor
    ensures Curate(nodes) != [] ==>
      exists k :: 0 <= k < |nodes| && nodes[k] == Curate(nodes)[0]
        && (forall i :: 0 <= i < |nodes| ==> Score(nodes[i]) <= Score(nodes[k]))
        && (forall i :: 0 <= i < k ==> Score(nodes[i]) < Score(nodes[k]))
  {
    if nodes != [] {
      var sorted := SortDesc(nodes, Score);
      SortedHead(nodes);
      var top := sorted[0];
      var best := Score(top);
      if best > Floor {
        SortDescStable(nodes, Score, best);
        FirstWithKey(nodes, best);
        assert WithKey(sorted, Score, best)[0] == top by {
          assert sorted == [top] + sorted[1..];
        }
      }
    }
  }

  /** The first element of `WithKey(s, Score, k)` is the first element of
      `s` whose score is `k`. */
  lemma {:induction false} FirstWithKey(s: seq<Node>, k: real)
    requires exists i :: 0 <= i < |s| && Score(s[i]) == k
    ensures WithKey(s, Score, k) != []
    ensures exists j ::
      (0 <= j < |s| && s[j] == WithKey(s, Score, k)[0] && Score(s[j]) == k
       && forall i :: 0 <= i < j ==> Score(s[i]) != k)
  {
    if Score(s[0]) != k {
      var i :| 0 <= i < |s| && Score(s[i]) == k;
      assert s[1..][i - 1] == s[i];
      FirstWithKey(s[1..], k);
      var j :| 0 <= j < |s[1..]| && s[1..][j] == WithKey(s[1..], Score, k)[0] && Score(s[1..][j]) == k
        && (forall i :: 0 <= i < j ==> Score(s[1..][i]) != k);
      assert s[j + 1] == s[1..][j];
      forall i | 0 <= i < j + 1 ensures Score(s[i]) != k {
        if i > 0 { assert s[i] == s[1..][i - 1]; }
      }
    }
  }

  /** The router and the corrected curation agree whenever the best hit has
      a score. */
  lemma CurateAsWrittenAgrees(nodes: seq<Node>)
    requires forall i :: 0 <= i < |nodes| ==> nodes[i].score.Some?
    ensures CurateAsWritten(nodes) == Some(Curate(nodes))
  {
    if nodes != [] {
      SortedHead(nodes);
    }
  }

  /** A single hit without a score: the router raises, while treating the
      missing score as 0.0 (as the sort key already does) keeps nothing. */
  lemma CurateAsWrittenRaises(text: string)
    ensures CurateAsWritten([Node(None, None, None, None, text)]) == None
    ensures Curate([Node(None, None, None, None, text)]) == []
  {
    var n := Node(None, None, None, None, text);
    assert SortDesc([n], Score) == Insert(n, SortDesc([], Score), Score);
  }

  // ---------------------------------------------------------------------
  // Display list and persisted list
  // ---------------------------------------------------------------------

  /** `metadata.get("file_name", "未知文档")`. */
  function NodeFileName(n: Node): string
  {
    if n.fileName.Some? then n.fileName.value else UnknownDocument
  }

  /** `metadata.get("workspace_id", "")`. */
  function NodeWorkspace(n: Node): string
  {
    if n.workspaceId.Some? then n.workspaceId.value else ""
  }

  function ToDisplay(n: Node): ChatSource
  {
    ChatSource(NodeFileName(n), NodeWorkspace(n), n.text)
  }

  function ToPersisted(n: Node): Source
  {
    Source(NodeFileName(n), n.pageLabel, Score(n), NodeWorkspace(n), n.text)
  }

  function DisplayKey(s: ChatSource): (string, string)
  {
    (s.workspaceId, s.fileName)
  }

  function DisplayEntries(ns: seq<Node>): (r: seq<ChatSource>)
    ensures |r| == |ns|
    ensures forall i :: 0 <= i < |ns| ==> r[i] == ToDisplay(ns[i])
  {
    if ns == [] then [] else DisplayEntries(ns[..|ns| - 1]) + [ToDisplay(ns[|ns| - 1])]
  }

  function PersistedEntries(ns: seq<Node>): (r: seq<Source>)
    ensures |r| == |ns|
    ensures forall i :: 0 <= i < |ns| ==> r[i] == ToPersisted(ns[i])
  {
    if ns == [] then [] else PersistedEntries(ns[..|ns| - 1]) + [ToPersisted(ns[|ns| - 1])]
  }

  /** The `sources` frame's list for the kept hits. */
  function DisplayList(kept: seq<Node>): seq<ChatSource>
  {
    FirstOccurrences(DisplayEntries(kept), DisplayKey)
  }

  /** One more kept hit extends the persisted list by its entry, and the
      display list by its entry exactly when its key is new. */
  lemma EntriesStep(kept: seq<Node>, i: nat)
    requires i < |kept|
    ensures KeySet(DisplayEntries(kept[..i + 1]), DisplayKey)
      == KeySet(DisplayEntries(kept[..i]), DisplayKey) + {DisplayKey(ToDisplay(kept[i]))}
    ensures DisplayKey(ToDisplay(kept[i])) in KeySet(DisplayEntries(kept[..i]), DisplayKey) ==>
      FirstOccurrences(DisplayEntries(kept[..i + 1]), DisplayKey) == FirstOccurrences(DisplayEntries(kept[..i]), DisplayKey)
    ensures DisplayKey(ToDisplay(kept[i])) !in KeySet(DisplayEntries(kept[..i]), DisplayKey) ==>
      FirstOccurrences(DisplayEntries(kept[..i + 1]), DisplayKey)
      == FirstOccurrences(DisplayEntries(kept[..i]), DisplayKey) + [ToDisplay(kept[i])]
    ensures PersistedEntries(kept[..i + 1]) == PersistedEntries(kept[..i]) + [ToPersisted(kept[i])]
  {
    assert kept[..i + 1][..i] == kept[..i];
    var before := DisplayEntries(kept[..i]);
    var after := DisplayEntries(kept[..i + 1]);
    assert after == before + [ToDisplay(kept[i])];
    assert after[..|after| - 1] == before;
    KeySetSnoc(before, ToDisplay(kept[i]), DisplayKey);
  }

  /** The loop over the kept hits: the display list gets a hit only when its
      `(workspace_id, file_name)` was not seen before, the persisted list
      gets every hit. */
  method BuildSourceLists(kept: seq<Node>) returns (display: seq<ChatSource>, persisted: seq<Source>)
    ensures display == DisplayList(kept)
    ensures DistinctKeys(display, DisplayKey)
    ensures KeySet(display, DisplayKey) == KeySet(DisplayEntries(kept), DisplayKey)
    ensures persisted == PersistedEntries(kept)
  {
    var seen: set<(string, string)> := {};
    display, persisted := [], [];
    for i := 0 to |kept|
      invariant seen == KeySet(DisplayEntries(kept[..i]), DisplayKey)
      invariant display == FirstOccurrences(DisplayEntries(kept[..i]), DisplayKey)
      invariant persisted == PersistedEntries(kept[..i])
    {
      var source := ToDisplay(kept[i]);
      EntriesStep(kept, i);
      if DisplayKey(source) !in seen {
        display := display + [source];
        seen := seen + {DisplayKey(source)};
      }
      persisted := persisted + [ToPersisted(kept[i])];
    }
    assert kept[..|kept|] == kept;
    FirstOccurrencesBasics(DisplayEntries(kept), DisplayKey);
  }

  // ---------------------------------------------------------------------
  // Answer streaming and the frame sequence
  // ---------------------------------------------------------------------

  function ContentFrames(tokens: seq<string>): (r: seq<Frame>)
    ensures |r| == |tokens|
    ensures forall i :: 0 <= i < |tokens| ==> r[i] == ContentFrame(tokens[i])
  {
    if tokens == [] then [] else ContentFrames(tokens[..|tokens| - 1]) + [ContentFrame(tokens[|tokens| - 1])]
  }

  /** The token a frame carries, if it is a `content` frame. */
  function FrameText(f: Frame): string
  {
    if f.ContentFrame? then f.token else ""
  }

  /** The text carried by the `content` frames, in order. */
  function ContentText(frames: seq<Frame>): string
  {
    if frames == [] then "" else ContentText(frames[..|frames| - 1]) + FrameText(frames[|frames| - 1])
  }

  /** The `async for` loop: each token becomes a `content` frame and is
      appended to the full answer. */
  method StreamAnswer(tokens: seq<string>) returns (frames: seq<Frame>, answer: string)
    ensures frames == ContentFrames(tokens)
    ensures answer == ContentText(frames)
    ensures answer == Concat(tokens)
  {
    frames, answer := [], "";
    for i := 0 to |tokens|
      invariant frames == ContentFrames(tokens[..i])
      invariant answer == Concat(tokens[..i])
      invariant answer == ContentText(frames)
    {
      assert tokens[..i + 1][..i] == tokens[..i];
      answer := answer + tokens[i];
      frames := frames + [ContentFrame(tokens[i])];
      assert frames[..|frames| - 1] == ContentFrames(tokens[..i]);
    }
    assert tokens[..|tokens|] == tokens;
  }

  /** The frames of a turn whose stream runs to the end. */
  function TurnFrames(isNew: bool, sessionId: string, sources: seq<ChatSource>, tokens: seq<string>): seq<Frame>
  {
    (if isNew then [SessionIdFrame(sessionId)] else [])
    + [SourcesFrame(sources)]
    + ContentFrames(tokens)
  }

  lemma {:induction false} ContentTextAppend(a: seq<Frame>, b: seq<Frame>)
    ensures ContentText(a + b) == ContentText(a) + ContentText(b)
    decreases |b|
  {
    if b == [] {
      assert a + b == a;
    } else {
      var ab := a + b;
      assert ab[..|ab| - 1] == a + b[..|b| - 1];
      assert ab[|ab| - 1] == b[|b| - 1];
      ContentTextAppend(a, b[..|b| - 1]);
      assert ContentText(ab) == ContentText(a + b[..|b| - 1]) + FrameText(b[|b| - 1]);
    }
  }

  lemma {:induction false} ContentTextOfTokens(tokens: seq<string>)
    ensures ContentText(ContentFrames(tokens)) == Concat(tokens)
  {
    if tokens != [] {
      var init := tokens[..|tokens| - 1];
      ContentTextOfTokens(init);
      assert ContentFrames(tokens)[..|tokens| - 1] == ContentFrames(init);
    }
  }

  lemma {:induction false} NoContentText(frames: seq<Frame>)
    requires forall i :: 0 <= i < |frames| ==> !frames[i].ContentFrame?
    ensures ContentText(frames) == ""
  {
    if frames != [] {
      NoContentText(frames[..|frames| - 1]);
    }
  }

  /** The frame order: a `session_id` frame first exactly for a new session,
      then exactly one `sources` frame, then only `content` frames, whose
      payloads concatenate to the answer that is persisted. */
  lemma TurnFramesOrder(isNew: bool, sessionId: string, sources: seq<ChatSource>, tokens: seq<string>)
    ensures var frames := TurnFrames(isNew, sessionId, sources, tokens);
      var s := if isNew then 1 else 0;
      && |frames| == s + 1 + |tokens|
      && (isNew ==> frames[0] == SessionIdFrame(sessionId))
      && (forall i :: s <= i < |frames| ==> !frames[i].SessionIdFrame?)
      && frames[s] == SourcesFrame(sources)
      && (forall i :: s < i < |frames| ==> frames[i].ContentFrame?)
      && ContentText(frames) == Concat(tokens)
  {
    var head := (if isNew then [SessionIdFrame(sessionId)] else []) + [SourcesFrame(sources)];
    TurnFramesShape(head, ContentFrames(tokens), if isNew then 1 else 0);
    ContentTextAppend(head, ContentFrames(tokens));
    ContentTextOfTokens(tokens);
    NoContentText(head);
  }

  lemma TurnFramesShape(head: seq<Frame>, body: seq<Frame>, s: nat)
    requires |head| == s + 1
    requires forall i :: 0 <= i < |body| ==> body[i].ContentFrame?
    ensures forall i :: s < i < |head + body| ==> (head + body)[i].ContentFrame?
    ensures forall i :: s < i < |head + body| ==> (head + body)[i] == body[i - s - 1]
  {
  }

  // ---------------------------------------------------------------------
  // Sessions and history
  // ---------------------------------------------------------------------

  /** The first session with the given id that belongs to the given user
      (`.filter(id == sid, user_id == uid).first()`); another user's session
      is not found. */
  function FindOwned(ss: seq<ChatSession>, sid: string, uid: nat): (r: Option<ChatSession>)
    ensures r.Some? ==> r.value in ss && r.value.id == sid && r.value.userId == uid
    ensures r.None? <==> forall i :: 0 <= i < |ss| ==> ss[i].id != sid || ss[i].userId != uid
  {
    if ss == [] then None
    else if ss[0].id == sid && ss[0].userId == uid then Some(ss[0])
    else FindOwned(ss[1..], sid, uid)
  }

  /** The session a chat request continues: only a non-empty
      `session_id` is looked up. */
  function RequestedSession(ss: seq<ChatSession>, sid: Option<string>, uid: nat): Option<ChatSession>
  {
    if Truthy(sid) then FindOwned(ss, sid.value, uid) else None
  }

  /** One session with its `updated_at` set to `t` when it has the given id. */
  function Bump(s: ChatSession, id: string, t: nat): (r: ChatSession)
    ensures r.id == s.id && r.userId == s.userId && r.title == s.title && r.createdAt == s.createdAt
    ensures r.updatedAt == if s.id == id then t else s.updatedAt
  {
    if s.id == id then s.(updatedAt := t) else s
  }

  /** `updated_at` of the session with the given id set to `t`; every other
      row and every other column is left as it was. */
  function Touch(ss: seq<ChatSession>, id: string, t: nat): (r: seq<ChatSession>)
    ensures |r| == |ss|
    ensures forall i :: 0 <= i < |ss| ==> r[i] == Bump(ss[i], id, t)
  {
    seq(|ss|, i requires 0 <= i < |ss| => Bump(ss[i], id, t))
  }

  function InSession(sid: string): ChatMessage -> bool
  {
    (m: ChatMessage) => m.sessionId == sid
  }

  /** A session's messages, oldest first. */
  function SessionMessages(ms: seq<ChatMessage>, sid: string): seq<ChatMessage>
  {
    Filter(ms, InSession(sid))
  }

  /** `ORDER BY created_at DESC LIMIT n` reversed: the newest `n`, oldest first. */
  function Newest(ms: seq<ChatMessage>, n: nat): seq<ChatMessage>
  {
    if |ms| <= n then ms else ms[|ms| - n..]
  }

  /** The window is the last `min(n, |ms|)` messages, and in a chronological
      table every message left out is older than every message kept. */
  lemma NewestSpec(ms: seq<ChatMessage>, n: nat)
    ensures |Newest(ms, n)| == if |ms| < n then |ms| else n
    ensures Newest(ms, n) == ms[|ms| - |Newest(ms, n)|..]
    ensures Chronological(ms) ==> forall i, j :: 0 <= i < |ms| - |Newest(ms, n)| <= j < |ms| ==> ms[i].createdAt < ms[j].createdAt
  {
  }

  /** A stored message that repeats the current question as a user turn. */
  function IsCurrentQuestion(question: string): ChatMessage -> bool
  {
    (m: ChatMessage) => m.role == UserMessage && m.content == question
  }

  function NotCurrentQuestion(question: string): ChatMessage -> bool
  {
    (m: ChatMessage) => !(m.role == UserMessage && m.content == question)
  }

  function ToEntry(m: ChatMessage): HistoryEntry
  {
    HistoryEntry(m.role, m.content)
  }

  function Entries(ms: seq<ChatMessage>): (r: seq<HistoryEntry>)
    ensures |r| == |ms|
    ensures forall i :: 0 <= i < |ms| ==> r[i] == ToEntry(ms[i])
  {
    if ms == [] then [] else Entries(ms[..|ms| - 1]) + [ToEntry(ms[|ms| - 1])]
  }

  /** The memory handed to the chat engine: the recent messages without the
      user turns that repeat the question. */
  function HistoryWindow(recent: seq<ChatMessage>, question: string): seq<HistoryEntry>
  {
    Entries(Filter(recent, NotCurrentQuestion(question)))
  }

  /** The history loop, which `continue`s past user messages equal to the
      question. */
  method LoadHistory(recent: seq<ChatMessage>, question: string) returns (history: seq<HistoryEntry>)
    ensures history == HistoryWindow(recent, question)
  {
    history := [];
    for i := 0 to |recent|
      invariant history == Entries(Filter(recent[..i], NotCurrentQuestion(question)))
    {
      assert recent[..i + 1] == recent[..i] + [recent[i]];
      FilterSnoc(recent[..i], recent[i], NotCurrentQuestion(question));
      var msg := recent[i];
      if msg.content == question && msg.role == UserMessage {
        continue;
      }
      history := history + [ToEntry(msg)];
      assert history[..|history| - 1] == Entries(Filter(recent[..i], NotCurrentQuestion(question)));
    }
    assert recent[..|recent|] == recent;
  }

  function IsAssistant(m: ChatMessage): bool
  {
    m.role == AssistantMessage
  }

  function IsAssistantEntry(e: HistoryEntry): bool
  {
    e.role == AssistantMessage
  }

  /** No entry of the window is a user turn equal to the question, every
      assistant message is kept, and exactly the repeats are dropped. */
  lemma {:induction false} HistoryWindowSpec(recent: seq<ChatMessage>, question: string)
    ensures forall i :: 0 <= i < |HistoryWindow(recent, question)| ==>
      !(HistoryWindow(recent, question)[i].role == UserMessage
        && HistoryWindow(recent, question)[i].content == question)
    ensures Count(HistoryWindow(recent, question), IsAssistantEntry) == Count(recent, IsAssistant)
    ensures |HistoryWindow(recent, question)| == |recent| - Count(recent, IsCurrentQuestion(question))
  {
    var kept := Filter(recent, NotCurrentQuestion(question));
    FilterMembers(recent, NotCurrentQuestion(question));
    CountEntries(kept);
    AssistantsSurvive(recent, question);
    RepeatsDropped(recent, question);
  }

  lemma {:induction false} CountEntries(ms: seq<ChatMessage>)
    ensures Count(Entries(ms), IsAssistantEntry) == Count(ms, IsAssistant)
  {
    if ms != [] {
      CountEntries(ms[1..]);
      assert Entries(ms)[1..] == Entries(ms[1..]);
    }
  }

  lemma {:induction false} AssistantsSurvive(ms: seq<ChatMessage>, question: string)
    ensures Count(Filter(ms, NotCurrentQuestion(question)), IsAssistant) == Count(ms, IsAssistant)
  {
    if ms != [] {
      AssistantsSurvive(ms[1..], question);
    }
  }

  lemma {:induction false} RepeatsDropped(ms: seq<ChatMessage>, question: string)
    ensures |Filter(ms, NotCurrentQuestion(question))| == |ms| - Count(ms, IsCurrentQuestion(question))
  {
    if ms != [] {
      RepeatsDropped(ms[1..], question);
    }
  }

  /** The example of a stored `[U:"hi", A:"hello", U:"what is X?"]` with the
      question `"what is X?"`: the window is `[U:"hi", A:"hello"]`. */
  lemma HistoryExample(sid: string)
    ensures var q := "what is X?";
      HistoryWindow([ChatMessage(1, sid, UserMessage, "hi", None, 1),
                     ChatMessage(2, sid, AssistantMessage, "hello", None, 2),
                     ChatMessage(3, sid, UserMessage, q, None, 3)], q)
      == [HistoryEntry(UserMessage, "hi"), HistoryEntry(AssistantMessage, "hello")]
  {
    var q := "what is X?";
    var m1 := ChatMessage(1, sid, UserMessage, "hi", None, 1);
    var m2 := ChatMessage(2, sid, AssistantMessage, "hello", None, 2);
    var m3 := ChatMessage(3, sid, UserMessage, q, None, 3);
    assert "hi" != q by { assert |"hi"| != |q|; }
    var p := NotCurrentQuestion(q);
    assert [m1, m2, m3][1..] == [m2, m3];
    assert [m2, m3][1..] == [m3];
    assert [m3][1..] == [];
    assert Filter([m3], p) == [];
    assert Filter([m2, m3], p) == [m2];
    assert Filter([m1, m2, m3], p) == [m1, m2];
    assert [m1, m2][..1] == [m1];
  }

  // ---------------------------------------------------------------------
  // Table invariants kept by the chat endpoints
  // ---------------------------------------------------------------------

  /** Bumping `updated_at` to a time no earlier than the clock keeps the
      session keys and the session timestamps in order. */
  lemma TouchKeys(ss: seq<ChatSession>, id: string, clock: nat, t: nat)
    requires DistinctKeys(ss, SessionId) && SessionTimes(ss, clock) && clock <= t
    ensures DistinctKeys(Touch(ss, id, t), SessionId) && SessionTimes(Touch(ss, id, t), t)
    ensures KeySet(Touch(ss, id, t), SessionId) == KeySet(ss, SessionId)
  {
    var r := Touch(ss, id, t);
    forall k | k in KeySet(r, SessionId) ensures k in KeySet(ss, SessionId) {
      var i :| 0 <= i < |r| && SessionId(r[i]) == k;
      assert SessionId(ss[i]) == k;
    }
    forall k | k in KeySet(ss, SessionId) ensures k in KeySet(r, SessionId) {
      var i :| 0 <= i < |ss| && SessionId(ss[i]) == k;
      assert SessionId(r[i]) == k;
    }
    forall i, j | 0 <= i < j < |r| ensures SessionId(r[i]) != SessionId(r[j]) {
      assert SessionId(r[i]) == SessionId(ss[i]) && SessionId(r[j]) == SessionId(ss[j]);
    }
  }

  /** Appending a message stamped after every other one, with the next
      primary key, to an existing session keeps the message invariants. */
  lemma AppendMessageKeeps(ms: seq<ChatMessage>, ss: seq<ChatSession>, m: ChatMessage, clock: nat, nextId: nat)
    requires ChatTables(ss, ms, clock, nextId)
    requires m.id == nextId && m.createdAt == clock + 1 && m.sessionId in KeySet(ss, SessionId)
    ensures ChatTables(ss, ms + [m], clock + 1, nextId + 1)
  {
    var t := ms + [m];
    assert forall i :: 0 <= i < |ms| ==> t[i] == ms[i];
    assert t[|ms|] == m;
  }

  // ---------------------------------------------------------------------
  // The chat turn
  // ---------------------------------------------------------------------

  /** What the chat engine does with the question, the memory and the
      filter: it raises before streaming, or it streams a node list and
      tokens, possibly raising after the listed tokens. */
  datatype EngineReply =
    | Streamed(nodes: seq<Node>, tokens: seq<string>, completes: bool)
    | Raised(error: string)

  const InternalError: string := "Internal Server Error"

  /** Adding a session stamped at a later time, under an unused id, keeps
      the session invariants and the messages' ones. */
  lemma AddSessionKeeps(ss: seq<ChatSession>, ms: seq<ChatMessage>, s: ChatSession, clock: nat, nextId: nat)
    requires ChatTables(ss, ms, clock, nextId) && s.id !in KeySet(ss, SessionId)
    requires s.createdAt == s.updatedAt == clock + 1
    ensures ChatTables(ss + [s], ms, clock + 1, nextId)
    ensures s.id in KeySet(ss + [s], SessionId)
  {
    var t := ss + [s];
    KeySetSnoc(ss, s, SessionId);
    assert forall i :: 0 <= i < |ss| ==> t[i] == ss[i];
    assert t[|ss|] == s;
  }

  /** Bumping a session's `updated_at` to a later time keeps the invariants. */
  lemma TouchKeeps(ss: seq<ChatSession>, ms: seq<ChatMessage>, id: string, clock: nat, nextId: nat)
    requires ChatTables(ss, ms, clock, nextId)
    ensures ChatTables(Touch(ss, id, clock + 1), ms, clock + 1, nextId)
    ensures KeySet(Touch(ss, id, clock + 1), SessionId) == KeySet(ss, SessionId)
  {
    TouchKeys(ss, id, clock, clock + 1);
  }

  /** Inserts a new session, stamped now, under an unused id. */
  method OpenSession(db: Database, id: string, uid: nat, title: string)
    requires db.Valid()
    requires id !in KeySet(db.sessions, SessionId)
    modifies db
    ensures db.Valid()
    ensures db.clock == old(db.clock) + 1
    ensures db.sessions == old(db.sessions) + [ChatSession(id, uid, title, db.clock, db.clock)]
    ensures id in KeySet(db.sessions, SessionId)
    ensures db.workspaces == old(db.workspaces) && db.users == old(db.users) && db.documents == old(db.documents)
    ensures db.messages == old(db.messages) && db.nextId == old(db.nextId)
  {
    var session := ChatSession(id, uid, title, db.clock + 1, db.clock + 1);
    AddSessionKeeps(db.sessions, db.messages, session, db.clock, db.nextId);
    db.sessions := db.sessions + [session];
    db.clock := db.clock + 1;
  }

  /** Sets the `updated_at` of an existing session to now. */
  method BumpSession(db: Database, id: string)
    requires db.Valid()
    requires id in KeySet(db.sessions, SessionId)
    modifies db
    ensures db.Valid()
    ensures db.clock == old(db.clock) + 1
    ensures db.sessions == Touch(old(db.sessions), id, db.clock)
    ensures KeySet(db.sessions, SessionId) == KeySet(old(db.sessions), SessionId)
    ensures db.workspaces == old(db.workspaces) && db.users == old(db.users) && db.documents == old(db.documents)
    ensures db.messages == old(db.messages) && db.nextId == old(db.nextId)
  {
    TouchKeeps(db.sessions, db.messages, id, db.clock, db.nextId);
    db.sessions, db.clock := Touch(db.sessions, id, db.clock + 1), db.clock + 1;
  }

  /** Resolves the session of a turn: the caller's own session named by the
      request has its `updated_at` bumped; otherwise a new session with the
      fresh id and the question's first 20 characters as title is added. */
  method ResolveSession(db: Database, uid: nat, sid: Option<string>, question: string, freshId: string)
    returns (id: string, isNew: bool)
    requires db.Valid()
    requires freshId !in KeySet(db.sessions, SessionId)
    modifies db
    ensures db.Valid()
    ensures var found := RequestedSession(old(db.sessions), sid, uid);
      && isNew == found.None?
      && id == (if isNew then freshId else found.value.id)
      && db.clock == old(db.clock) + 1
      && db.sessions == (if isNew then old(db.sessions) + [ChatSession(freshId, uid, Prefix(question, TitleLength), db.clock, db.clock)]
                         else Touch(old(db.sessions), id, db.clock))
    ensures id in KeySet(db.sessions, SessionId)
    ensures db.workspaces == old(db.workspaces) && db.users == old(db.users) && db.documents == old(db.documents)
    ensures db.messages == old(db.messages) && db.nextId == old(db.nextId)
  {
    var found := RequestedSession(db.sessions, sid, uid);
    if found.None? {
      isNew, id := true, freshId;
      OpenSession(db, freshId, uid, Prefix(question, TitleLength));
    } else {
      isNew, id := false, found.value.id;
      assert id in KeySet(db.sessions, SessionId) by {
        var i :| 0 <= i < |db.sessions| && db.sessions[i] == found.value;
      }
      BumpSession(db, id);
    }
  }

  /** Appends a message with the next primary key, stamped now. */
  method AppendMessage(db: Database, sessionId: string, role: MessageRole, content: string, sources: Option<seq<Source>>)
    requires db.Valid()
    requires sessionId in KeySet(db.sessions, SessionId)
    modifies db
    ensures db.Valid()
    ensures db.clock == old(db.clock) + 1 && db.nextId == old(db.nextId) + 1
    ensures db.messages == old(db.messages) + [ChatMessage(old(db.nextId), sessionId, role, content, sources, db.clock)]
    ensures db.workspaces == old(db.workspaces) && db.users == old(db.users) && db.documents == old(db.documents)
    ensures db.sessions == old(db.sessions)
  {
    var m := ChatMessage(db.nextId, sessionId, role, content, sources, db.clock + 1);
    AppendMessageKeeps(db.messages, db.sessions, m, db.clock, db.nextId);
    db.messages := db.messages + [m];
    db.clock := db.clock + 1;
    db.nextId := db.nextId + 1;
  }

  /** The part of a turn that is committed before the engine runs: the
      session is resolved, then the question is stored as a user message. */
  method BeginTurn(db: Database, uid: nat, sid: Option<string>, question: string, freshId: string)
    returns (id: string, isNew: bool)
    requires db.Valid()
    requires freshId !in KeySet(db.sessions, SessionId)
    modifies db
    ensures db.Valid()
    ensures var found := RequestedSession(old(db.sessions), sid, uid);
      && isNew == found.None?
      && id == (if isNew then freshId else found.value.id)
      && db.sessions == (if isNew then old(db.sessions) + [ChatSession(freshId, uid, Prefix(question, TitleLength), old(db.clock) + 1, old(db.clock) + 1)]
                         else Touch(old(db.sessions), id, old(db.clock) + 1))
    ensures db.messages == old(db.messages) + [UserTurnMessage(old(db.nextId), id, question, old(db.clock) + 2)]
    ensures id in KeySet(db.sessions, SessionId)
    ensures db.clock == old(db.clock) + 2 && db.nextId == old(db.nextId) + 1
    ensures db.workspaces == old(db.workspaces) && db.users == old(db.users) && db.documents == old(db.documents)
  {
    id, isNew := ResolveSession(db, uid, sid, question, freshId);
    AppendMessage(db, id, UserMessage, question, None);
  }

  /** The memory of a turn: the newest ten messages of the session (the
      question just stored included), oldest first, minus the user turns
      repeating the question. */
  function TurnHistory(ms: seq<ChatMessage>, sessionId: string, question: string): seq<HistoryEntry>
  {
    HistoryWindow(Newest(SessionMessages(ms, sessionId), HistoryLimit), question)
  }

  /** The history query of a turn followed by the history loop. */
  method LoadTurnHistory(messages: seq<ChatMessage>, sid: string, question: string) returns (history: seq<HistoryEntry>)
    ensures history == TurnHistory(messages, sid, question)
  {
    var recent := Newest(SessionMessages(messages, sid), HistoryLimit);
    history := LoadHistory(recent, question);
  }

  /** The event generator of a streamed reply: the optional `session_id`
      frame, the `sources` frame of the curated hits, one `content` frame per
      token; alongside, the list of sources to store and the full answer. */
  method Respond(isNew: bool, sid: string, nodes: seq<Node>, tokens: seq<string>)
    returns (frames: seq<Frame>, persisted: seq<Source>, answer: string)
    ensures frames == TurnFrames(isNew, sid, DisplayList(Curate(nodes)), tokens)
    ensures persisted == PersistedEntries(Curate(nodes))
    ensures answer == Concat(tokens)
  {
    var kept := Curate(nodes);
    var display;
    display, persisted := BuildSourceLists(kept);
    var content;
    content, answer := StreamAnswer(tokens);
    frames := (if isNew then [SessionIdFrame(sid)] else []) + [SourcesFrame(display)] + content;
  }

  /** The user message a turn stores. */
  function UserTurnMessage(id: nat, sid: string, question: string, time: nat): ChatMessage
  {
    ChatMessage(id, sid, UserMessage, question, None, time)
  }

  /** The assistant message a completed turn stores. */
  function AssistantTurnMessage(id: nat, sid: string, nodes: seq<Node>, tokens: seq<string>, time: nat): ChatMessage
  {
    ChatMessage(id, sid, AssistantMessage, Concat(tokens), Some(PersistedEntries(Curate(nodes))), time)
  }

  /** The part of a turn after the user message is stored: the memory is
      loaded, the engine runs, and a streamed reply is answered; the
      assistant message is stored only when the stream completes and the
      commit succeeds. */
  method AnswerTurn(db: Database, caller: User, sid: string, isNew: bool, question: string,
                    engine: (string, seq<HistoryEntry>, Option<AccessScope>) -> EngineReply,
                    commitSucceeds: bool)
    returns (r: Outcome<seq<Frame>>, ghost reply: EngineReply)
    requires db.Valid()
    requires sid in KeySet(db.sessions, SessionId)
    modifies db
    ensures db.Valid()
    ensures db.workspaces == old(db.workspaces) && db.users == old(db.users) && db.documents == old(db.documents)
    ensures db.sessions == old(db.sessions)
    ensures reply == engine(question, TurnHistory(old(db.messages), sid, question), RetrievalFilter(caller))
    ensures reply.Raised? ==> r == Fail(500, reply.error)
    ensures reply.Streamed? ==> r == Ok(TurnFrames(isNew, sid, DisplayList(Curate(reply.nodes)), reply.tokens))
    ensures db.messages == old(db.messages)
      + (if reply.Streamed? && reply.completes && commitSucceeds
         then [AssistantTurnMessage(old(db.nextId), sid, reply.nodes, reply.tokens, old(db.clock) + 1)]
         else [])
  {
    var history := LoadTurnHistory(db.messages, sid, question);
    var answerOrError := engine(question, history, RetrievalFilter(caller));
    reply := answerOrError;
    if answerOrError.Raised? {
      r := Fail(500, answerOrError.error);
      return;
    }
    var frames, persisted, answer := Respond(isNew, sid, answerOrError.nodes, answerOrError.tokens);
    if answerOrError.completes && commitSucceeds {
      AppendMessage(db, sid, AssistantMessage, answer, Some(persisted));
    }
    r := Ok(frames);
  }

  /** One turn of `POST /api/chat`. A request without messages fails before
      anything is stored. Otherwise the session is resolved (`sid`, and
      `isNew` when it was created) and the user message committed before the
      engine runs on the question, the memory of the turn and the caller's
      filter; an engine that raises gives a 500 and leaves both in place. A
      streamed reply yields the frames of `TurnFrames`, and the assistant
      message (the concatenated tokens and every kept hit) is stored only
      when the stream runs to its end and the commit succeeds. */
  method ChatTurn(db: Database, caller: User, req: ChatRequest, freshId: string,
                  engine: (string, seq<HistoryEntry>, Option<AccessScope>) -> EngineReply,
                  commitSucceeds: bool)
    returns (r: Outcome<seq<Frame>>, ghost sid: string, ghost isNew: bool, ghost reply: EngineReply)
    requires db.Valid()
    requires freshId !in KeySet(db.sessions, SessionId)
    modifies db
    ensures db.Valid()
    ensures db.workspaces == old(db.workspaces) && db.users == old(db.users) && db.documents == old(db.documents)
    ensures req.messages == [] ==> r == Fail(500, InternalError) && unchanged(db)
    ensures req.messages != [] ==>
      var found := RequestedSession(old(db.sessions), req.sessionId, caller.id);
      && isNew == found.None?
      && sid == (if isNew then freshId else found.value.id)
    ensures req.messages != [] ==>
      var question := req.messages[|req.messages| - 1].content;
      db.sessions == (if isNew then old(db.sessions) + [ChatSession(freshId, caller.id, Prefix(question, TitleLength), old(db.clock) + 1, old(db.clock) + 1)]
                      else Touch(old(db.sessions), sid, old(db.clock) + 1))
    ensures req.messages != [] ==>
      var question := req.messages[|req.messages| - 1].content;
      var stored := old(db.messages) + [UserTurnMessage(old(db.nextId), sid, question, old(db.clock) + 2)];
      && reply == engine(question, TurnHistory(stored, sid, question), RetrievalFilter(caller))
      && db.messages == stored
         + (if reply.Streamed? && reply.completes && commitSucceeds
            then [AssistantTurnMessage(old(db.nextId) + 1, sid, reply.nodes, reply.tokens, old(db.clock) + 3)]
            else [])
    ensures req.messages != [] && reply.Raised? ==> r == Fail(500, reply.error)
    ensures req.messages != [] && reply.Streamed? ==>
      r == Ok(TurnFrames(isNew, sid, DisplayList(Curate(reply.nodes)), reply.tokens))
  {
    sid, isNew, reply := "", false, Raised("");
    if |req.messages| == 0 {
      r := Fail(500, InternalError);
      return;
    }
    var question := req.messages[|req.messages| - 1].content;
    var id, created := BeginTurn(db, caller.id, req.sessionId, question, freshId);
    sid, isNew := id, created;
    r, reply := AnswerTurn(db, caller, id, created, question, engine, commitSucceeds);
  }

  // ---------------------------------------------------------------------
  // Listing, reading and deleting sessions
  // ---------------------------------------------------------------------

  function OwnedBy(uid: nat): ChatSession -> bool
  {
    (s: ChatSession) => s.userId == uid
  }

  function UpdatedAt(s: ChatSession): real
  {
    s.updatedAt as real
  }

  /** `GET /api/chat/sessions`: the caller's sessions, most recently
      updated first. */
  function ListSessions(ss: seq<ChatSession>, uid: nat): seq<ChatSession>
  {
    SortDesc(Filter(ss, OwnedBy(uid)), UpdatedAt)
  }

  /** The list holds exactly the caller's sessions, each as often as it is
      stored, newest `updated_at` first. */
  lemma ListSessionsSpec(ss: seq<ChatSession>, uid: nat)
    ensures multiset(ListSessions(ss, uid)) == multiset(Filter(ss, OwnedBy(uid)))
    ensures forall i :: 0 <= i < |ListSessions(ss, uid)| ==> ListSessions(ss, uid)[i].userId == uid
    ensures forall i :: 0 <= i < |ss| && ss[i].userId == uid ==> ss[i] in ListSessions(ss, uid)
    ensures SortedDesc(ListSessions(ss, uid), UpdatedAt)
  {
    var mine := Filter(ss, OwnedBy(uid));
    var r := ListSessions(ss, uid);
    FilterMembers(ss, OwnedBy(uid));
    SortDescSorted(mine, UpdatedAt);
    forall i | 0 <= i < |r| ensures r[i].userId == uid {
      assert r[i] in multiset(mine);
    }
    forall i | 0 <= i < |ss| && ss[i].userId == uid ensures ss[i] in r {
      assert ss[i] in multiset(r);
    }
  }

  function SourceKey(s: Source): (string, string)
  {
    (s.workspaceId, s.fileName)
  }

  /** The source list of a message as it is returned: first occurrences by
      `(workspace_id, file_name)` for an assistant message with a non-empty
      list; every other message as stored. */
  function Deduped(m: ChatMessage): ChatMessage
  {
    if m.role == AssistantMessage && m.sources.Some? && m.sources.value != [] then
      m.(sources := Some(FirstOccurrences(m.sources.value, SourceKey)))
    else m
  }

  /** The `seen_sources` loop over one message's sources. */
  method DedupSources(sources: seq<Source>) returns (unique: seq<Source>)
    ensures unique == FirstOccurrences(sources, SourceKey)
  {
    var seen: set<(string, string)> := {};
    unique := [];
    for i := 0 to |sources|
      invariant seen == KeySet(sources[..i], SourceKey)
      invariant unique == FirstOccurrences(sources[..i], SourceKey)
    {
      assert sources[..i + 1] == sources[..i] + [sources[i]];
      assert sources[..i + 1][..i] == sources[..i];
      KeySetSnoc(sources[..i], sources[i], SourceKey);
      if SourceKey(sources[i]) !in seen {
        unique := unique + [sources[i]];
        seen := seen + {SourceKey(sources[i])};
      }
    }
    assert sources[..|sources|] == sources;
  }

  /** A returned message keeps its id, session, role, content and time; its
      sources name the same `(workspace_id, file_name)` pairs as before, each
      once, and reading it again changes nothing. */
  lemma DedupedSpec(m: ChatMessage)
    ensures var d := Deduped(m);
      && d.(sources := m.sources) == m
      && d.sources.Some? == m.sources.Some?
      && (d.sources.Some? ==> KeySet(d.sources.value, SourceKey) == KeySet(m.sources.value, SourceKey))
      && (d.sources.Some? && m.role == AssistantMessage ==> DistinctKeys(d.sources.value, SourceKey))
      && Deduped(d) == d
  {
    if m.sources.Some? {
      FirstOccurrencesBasics(m.sources.value, SourceKey);
      if m.role == AssistantMessage && m.sources.value != [] {
        FirstOccurrencesIdempotent(m.sources.value, SourceKey);
      } else if m.role == AssistantMessage {
        assert DistinctKeys(m.sources.value, SourceKey);
      }
    }
  }

  /** `GET /api/chat/sessions/{id}`: 404 unless the caller owns the session;
      otherwise the session's messages in creation order, each with its
      sources deduplicated. */
  method ReadSessionMessages(sessions: seq<ChatSession>, messages: seq<ChatMessage>, sid: string, uid: nat)
    returns (r: Outcome<seq<ChatMessage>>)
    ensures r.Fail? <==> FindOwned(sessions, sid, uid).None?
    ensures r.Fail? ==> r == Fail(404, SessionNotFound)
    ensures r.Ok? ==> |r.value| == |SessionMessages(messages, sid)|
    ensures r.Ok? ==> forall i :: 0 <= i < |r.value| ==> r.value[i] == Deduped(SessionMessages(messages, sid)[i])
  {
    if FindOwned(sessions, sid, uid).None? {
      return Fail(404, SessionNotFound);
    }
    var msgs := SessionMessages(messages, sid);
    var i := 0;
    while i < |msgs|
      invariant 0 <= i <= |msgs| && |msgs| == |SessionMessages(messages, sid)|
      invariant forall k :: 0 <= k < i ==> msgs[k] == Deduped(SessionMessages(messages, sid)[k])
      invariant forall k :: i <= k < |msgs| ==> msgs[k] == SessionMessages(messages, sid)[k]
    {
      var msg := msgs[i];
      if msg.role == AssistantMessage && msg.sources.Some? && msg.sources.value != [] {
        var unique := DedupSources(msg.sources.value);
        msgs := msgs[i := msg.(sources := Some(unique))];
      }
      i := i + 1;
    }
    r := Ok(msgs);
  }

  /** The messages a session read returns are its own, in creation order,
      when the table is chronological. */
  lemma SessionMessagesChronological(ms: seq<ChatMessage>, sid: string)
    requires Chronological(ms)
    ensures Chronological(SessionMessages(ms, sid))
    ensures forall i :: 0 <= i < |SessionMessages(ms, sid)| ==> SessionMessages(ms, sid)[i].sessionId == sid
  {
    FilterPairwise(ms, InSession(sid), (a: ChatMessage, b: ChatMessage) => a.createdAt < b.createdAt);
    FilterMembers(ms, InSession(sid));
  }

  function NotSession(sid: string): ChatSession -> bool
  {
    (s: ChatSession) => s.id != sid
  }

  function NotInSession(sid: string): ChatMessage -> bool
  {
    (m: ChatMessage) => m.sessionId != sid
  }

  /** `DELETE /api/chat/sessions/{id}`: the caller's own session goes, and
      its messages with it; anything else is left alone. The answer is
      `success` either way. */
  method DeleteSession(db: Database, sid: string, uid: nat) returns (status: string)
    requires db.Valid()
    modifies db
    ensures db.Valid()
    ensures status == "success"
    ensures FindOwned(old(db.sessions), sid, uid).None? ==> unchanged(db)
    ensures FindOwned(old(db.sessions), sid, uid).Some? ==>
      && db.sessions == Filter(old(db.sessions), NotSession(sid))
      && db.messages == Filter(old(db.messages), NotInSession(sid))
      && db.workspaces == old(db.workspaces) && db.users == old(db.users) && db.documents == old(db.documents)
      && db.clock == old(db.clock) && db.nextId == old(db.nextId)
  {
    status := "success";
    if FindOwned(db.sessions, sid, uid).Some? {
      var ss := Filter(db.sessions, NotSession(sid));
      var ms := Filter(db.messages, NotInSession(sid));
      DeleteSessionKeeps(db.sessions, db.messages, sid, db.clock, db.nextId);
      db.sessions, db.messages := ss, ms;
    }
  }

  lemma DeleteSessionKeeps(ss: seq<ChatSession>, ms: seq<ChatMessage>, sid: string, clock: nat, nextId: nat)
    requires ChatTables(ss, ms, clock, nextId)
    ensures ChatTables(Filter(ss, NotSession(sid)), Filter(ms, NotInSession(sid)), clock, nextId)
  {
    var ss', ms' := Filter(ss, NotSession(sid)), Filter(ms, NotInSession(sid));
    FilterDistinct(ss, NotSession(sid), SessionId);
    FilterDistinct(ms, NotInSession(sid), MessageId);
    FilterMembers(ss, NotSession(sid));
    FilterMembers(ms, NotInSession(sid));
    FilterPairwise(ms, NotInSession(sid), (a: ChatMessage, b: ChatMessage) => a.createdAt < b.createdAt);
    forall i | 0 <= i < |ss'| ensures ss'[i].createdAt <= ss'[i].updatedAt <= clock {
      var k :| 0 <= k < |ss| && ss[k] == ss'[i];
    }
    forall i | 0 <= i < |ms'| ensures ms'[i].id < nextId && ms'[i].createdAt <= clock
      && ms'[i].sessionId in KeySet(ss', SessionId)
    {
      var k :| 0 <= k < |ms| && ms[k] == ms'[i];
      var j :| 0 <= j < |ss| && SessionId(ss[j]) == ms[k].sessionId;
      assert ss[j] in ss';
    }
  }
}
