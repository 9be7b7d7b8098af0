/** `GET /api/dashboard/stats`: document and chat counts scoped to the
    caller, the newest uploads, the distribution of file types and the chat
    activity of the last seven days. The clock is a parameter: `today` is
    the current day number and `dayOf` gives the day of a timestamp. */
module Dashboard {
  import opened Common
  import opened Seqs
  import opened Sorting
  import opened Models
  import Documents

  const PublicArea: string := "公共区"
  const RecentLimit: nat := 5
  const WindowDays: nat := 7

  // ---------------------------------------------------------------------
  // Scope
  // ---------------------------------------------------------------------

  /** Admins count every document; anyone else the documents of their own
      department and the global ones. */
  function DocScope(caller: User): DocumentRecord -> bool
  {
    (d: DocumentRecord) => caller.role == Admin || Some(d.workspaceId) == caller.departmentId || d.isGlobal
  }

  /** Admins count every chat session; anyone else only their own. */
  function ChatScope(caller: User): ChatSession -> bool
  {
    (s: ChatSession) => caller.role == Admin || s.userId == caller.id
  }

  /** An admin's counts cover the whole tables; a member's documents are
      exactly those of their department or marked global, and a member's
      sessions exactly their own. */
  lemma ScopeSpec(ds: seq<DocumentRecord>, ss: seq<ChatSession>, caller: User)
    ensures caller.role == Admin ==> Filter(ds, DocScope(caller)) == ds && Filter(ss, ChatScope(caller)) == ss
    ensures caller.role != Admin ==>
      forall i :: 0 <= i < |ds| ==>
        (ds[i] in Filter(ds, DocScope(caller)) <==> Some(ds[i].workspaceId) == caller.departmentId || ds[i].isGlobal)
    ensures caller.role != Admin ==>
      forall i :: 0 <= i < |ss| ==> (ss[i] in Filter(ss, ChatScope(caller)) <==> ss[i].userId == caller.id)
  {
    FilterMembers(ds, DocScope(caller));
    FilterMembers(ss, ChatScope(caller));
    if caller.role == Admin {
      FilterAll(ds, DocScope(caller));
      FilterAll(ss, ChatScope(caller));
    }
    forall i | 0 <= i < |ds| && ds[i] in Filter(ds, DocScope(caller)) ensures DocScope(caller)(ds[i]) {
      var k :| 0 <= k < |Filter(ds, DocScope(caller))| && Filter(ds, DocScope(caller))[k] == ds[i];
    }
    forall i | 0 <= i < |ss| && ss[i] in Filter(ss, ChatScope(caller)) ensures ChatScope(caller)(ss[i]) {
      var k :| 0 <= k < |Filter(ss, ChatScope(caller))| && Filter(ss, ChatScope(caller))[k] == ss[i];
    }
  }

  /** For a member, the dashboard counts what the document listing shows
      when it is asked for the member's own department. */
  lemma ScopeMatchesListing(caller: User, dept: string, d: DocumentRecord)
    requires caller.role != Admin && caller.departmentId == Some(dept)
    ensures DocScope(caller)(d) == Documents.Visible(caller, dept)(d)
  {
  }

  // ---------------------------------------------------------------------
  // Newest uploads
  // ---------------------------------------------------------------------

  /** One of the newest uploads as shown on the dashboard. */
  datatype RecentDoc = RecentDoc(id: nat, name: string, date: nat, uploader: string)

  /** `ORDER BY upload_date DESC LIMIT 5`. */
  function Newest(ds: seq<DocumentRecord>): seq<DocumentRecord>
  {
    var sorted := SortDesc(ds, Documents.UploadDate);
    if |sorted| <= RecentLimit then sorted else sorted[..RecentLimit]
  }

  /** At most five uploads, newest first, all from the scope. */
  lemma NewestSpec(ds: seq<DocumentRecord>)
    ensures |Newest(ds)| == if |ds| < RecentLimit then |ds| else RecentLimit
    ensures SortedDesc(Newest(ds), Documents.UploadDate)
    ensures multiset(Newest(ds)) <= multiset(ds)
  {
    var sorted := SortDesc(ds, Documents.UploadDate);
    SortDescSorted(ds, Documents.UploadDate);
    if |sorted| > RecentLimit {
      assert sorted == sorted[..RecentLimit] + sorted[RecentLimit..];
      assert multiset(sorted) == multiset(sorted[..RecentLimit]) + multiset(sorted[RecentLimit..]);
    }
  }

  /** No upload left out of the five is newer than any listed one. */
  lemma NewestTop(ds: seq<DocumentRecord>)
    ensures forall x, i :: x in multiset(ds) - multiset(Newest(ds)) && 0 <= i < |Newest(ds)| ==>
      x.uploadDate <= Newest(ds)[i].uploadDate
  {
    var sorted := SortDesc(ds, Documents.UploadDate);
    SortDescSorted(ds, Documents.UploadDate);
    var n := if |sorted| <= RecentLimit then |sorted| else RecentLimit;
    assert Newest(ds) == sorted[..n];
    SortedPrefixTop(sorted, Documents.UploadDate, n);
  }

  /** The uploader's user name, or `Unknown` when the record has none or the
      user is gone. */
  function Uploader(us: seq<User>, d: DocumentRecord): string
  {
    if d.uploaderId.Some? && FindUser(us, d.uploaderId.value).Some? then
      FindUser(us, d.uploaderId.value).value.username
    else Documents.UnknownUploader
  }

  function RecentRow(us: seq<User>, d: DocumentRecord): RecentDoc
  {
    RecentDoc(d.id, d.filename, d.uploadDate, Uploader(us, d))
  }

  /** The loop over the newest uploads looking up each uploader. */
  method RecentRows(top: seq<DocumentRecord>, us: seq<User>) returns (rows: seq<RecentDoc>)
    ensures |rows| == |top|
    ensures forall i :: 0 <= i < |top| ==> rows[i] == RecentRow(us, top[i])
  {
    rows := [];
    for i := 0 to |top|
      invariant |rows| == i
      invariant forall k :: 0 <= k < i ==> rows[k] == RecentRow(us, top[k])
    {
      var d := top[i];
      var uploader := Documents.UnknownUploader;
      if d.uploaderId.Some? {
        var u := FindUser(us, d.uploaderId.value);
        if u.Some? {
          uploader := u.value.username;
        }
      }
      rows := rows + [RecentDoc(d.id, d.filename, d.uploadDate, uploader)];
    }
  }

  // ---------------------------------------------------------------------
  // File types
  // ---------------------------------------------------------------------

  datatype FileType = Pdf | Word | Text | Other

  /** `filename.split('.')[-1].lower()`: the text after the last `.`, or
      the whole name when there is none, in lower case. */
  function Extension(filename: string): string
  {
    var parts := Split(filename, '.');
    AsciiLower(parts[|parts| - 1])
  }

  /** The extension is the lower-cased longest suffix without a `.`. */
  lemma ExtensionSpec(filename: string)
    ensures var k := |filename| - |Extension(filename)|;
      && 0 <= k
      && Extension(filename) == AsciiLower(filename[k..])
      && (forall j :: k <= j < |filename| ==> filename[j] != '.')
      && (k > 0 ==> filename[k - 1] == '.')
  {
    var parts := Split(filename, '.');
    var l := parts[|parts| - 1];
    var k := |filename| - |l|;
    assert 0 <= k && filename[k..] == l && (k > 0 ==> filename[k - 1] == '.') by {
      SplitLast(filename, '.');
    }
    assert Extension(filename) == AsciiLower(l);
    assert forall j :: k <= j < |filename| ==> filename[j] != '.' by {
      assert '.' !in l;
      forall j | k <= j < |filename| ensures filename[j] != '.' {
        assert filename[j] == l[j - k];
      }
    }
  }

  function TypeOf(filename: string): FileType
  {
    var ext := Extension(filename);
    if ext == "pdf" then Pdf
    else if ext == "doc" || ext == "docx" then Word
    else if ext == "txt" || ext == "md" then Text
    else Other
  }

  function OfType(t: FileType): DocumentRecord -> bool
  {
    (d: DocumentRecord) => TypeOf(d.filename) == t
  }

  /** `type_stats`: the number of documents in each bucket. */
  datatype TypeCounts = TypeCounts(pdf: nat, word: nat, text: nat, other: nat)

  function Tally(ds: seq<DocumentRecord>): TypeCounts
  {
    TypeCounts(Count(ds, OfType(Pdf)), Count(ds, OfType(Word)), Count(ds, OfType(Text)), Count(ds, OfType(Other)))
  }

  /** Every document lands in exactly one bucket, so the buckets add up to
      the number of documents. */
  lemma {:induction false} TallySum(ds: seq<DocumentRecord>)
    ensures var t := Tally(ds); t.pdf + t.word + t.text + t.other == |ds|
  {
    if ds != [] {
      TallySum(ds[1..]);
    }
  }

  /** `t` with one more document of type `ft`. */
  function Bump(t: TypeCounts, ft: FileType): TypeCounts
  {
    match ft
    case Pdf => t.(pdf := t.pdf + 1)
    case Word => t.(word := t.word + 1)
    case Text => t.(text := t.text + 1)
    case Other => t.(other := t.other + 1)
  }

  /** One more document moves exactly its own bucket. */
  lemma TallySnoc(ds: seq<DocumentRecord>, d: DocumentRecord)
    ensures Tally(ds + [d]) == Bump(Tally(ds), TypeOf(d.filename))
  {
    CountSnoc(ds, d, OfType(Pdf));
    CountSnoc(ds, d, OfType(Word));
    CountSnoc(ds, d, OfType(Text));
    CountSnoc(ds, d, OfType(Other));
  }

  /** The per-document branch on the extension. */
  method CountType(t: TypeCounts, filename: string) returns (t': TypeCounts)
    ensures t' == Bump(t, TypeOf(filename))
  {
    var ext := Extension(filename);
    if ext == "pdf" {
      t' := t.(pdf := t.pdf + 1);
    } else if ext == "doc" || ext == "docx" {
      t' := t.(word := t.word + 1);
    } else if ext == "txt" || ext == "md" {
      t' := t.(text := t.text + 1);
    } else {
      t' := t.(other := t.other + 1);
    }
  }

  /** The bucket loop over the scoped documents. */
  method TypeStats(ds: seq<DocumentRecord>) returns (t: TypeCounts)
    ensures t == Tally(ds)
  {
    t := TypeCounts(0, 0, 0, 0);
    for i := 0 to |ds|
      invariant t == Tally(ds[..i])
    {
      assert ds[..i + 1] == ds[..i] + [ds[i]];
      TallySnoc(ds[..i], ds[i]);
      t := CountType(t, ds[i].filename);
    }
    assert ds[..|ds|] == ds;
  }

  /** One entry of the `file_types` chart. */
  datatype TypeEntry = TypeEntry(name: string, value: nat)

  /** The entry of one bucket, or none when the bucket is empty. */
  function Entry(name: string, n: nat): seq<TypeEntry>
  {
    if n > 0 then [TypeEntry(name, n)] else []
  }

  /** The chart keeps the buckets in the order PDF, Word, Text, Other and
      drops the empty ones. */
  function FileTypes(t: TypeCounts): seq<TypeEntry>
  {
    Entry("PDF", t.pdf) + Entry("Word", t.word) + Entry("Text", t.text) + Entry("Other", t.other)
  }

  function SumValues(es: seq<TypeEntry>): nat
  {
    if es == [] then 0 else es[0].value + SumValues(es[1..])
  }

  lemma {:induction false} SumValuesAppend(a: seq<TypeEntry>, b: seq<TypeEntry>)
    ensures SumValues(a + b) == SumValues(a) + SumValues(b)
  {
    if a != [] {
      assert SumValues(a + b) == (a + b)[0].value + SumValues((a + b)[1..]);
      assert (a + b)[0] == a[0];
      assert (a + b)[1..] == a[1..] + b;
      SumValuesAppend(a[1..], b);
    } else {
      assert a + b == b;
    }
  }

  /** Every chart entry is non-empty and a bucket appears exactly when it
      holds a document. */
  lemma FileTypesSpec(t: TypeCounts)
    ensures forall e :: e in FileTypes(t) ==> e.value > 0
    ensures TypeEntry("PDF", t.pdf) in FileTypes(t) <==> t.pdf > 0
    ensures TypeEntry("Word", t.word) in FileTypes(t) <==> t.word > 0
    ensures TypeEntry("Text", t.text) in FileTypes(t) <==> t.text > 0
    ensures TypeEntry("Other", t.other) in FileTypes(t) <==> t.other > 0
  {
    var a, b, c, d := Entry("PDF", t.pdf), Entry("Word", t.word), Entry("Text", t.text), Entry("Other", t.other);
    assert forall e :: e in FileTypes(t) <==> e in a || e in b || e in c || e in d;
  }

  /** The entries add up to the buckets. */
  lemma FileTypesSum(t: TypeCounts)
    ensures SumValues(FileTypes(t)) == t.pdf + t.word + t.text + t.other
  {
    var a, b, c, d := Entry("PDF", t.pdf), Entry("Word", t.word), Entry("Text", t.text), Entry("Other", t.other);
    SumValuesAppend(a + b + c, d);
    SumValuesAppend(a + b, c);
    SumValuesAppend(a, b);
    assert SumValues(a) == t.pdf && SumValues(b) == t.word && SumValues(c) == t.text && SumValues(d) == t.other;
  }

  /** The chart accounts for every document in the scope. */
  lemma FileTypesTotal(ds: seq<DocumentRecord>)
    ensures SumValues(FileTypes(Tally(ds))) == |ds|
  {
    FileTypesSum(Tally(ds));
    TallySum(ds);
  }

  // ---------------------------------------------------------------------
  // Activity
  // ---------------------------------------------------------------------

  /** The activity chart: the day numbers on the axis and the session count
      of each. */
  datatype Activity = Activity(dates: seq<int>, counts: seq<nat>)

  function CreatedOn(dayOf: nat -> int, day: int): ChatSession -> bool
  {
    (s: ChatSession) => dayOf(s.createdAt) == day
  }

  /** `created_at >= seven_days_ago`. */
  function InWindow(dayOf: nat -> int, today: int): ChatSession -> bool
  {
    (s: ChatSession) => dayOf(s.createdAt) >= today - (WindowDays - 1)
  }

  function SessionsOn(ss: seq<ChatSession>, dayOf: nat -> int, day: int): nat
  {
    Count(ss, CreatedOn(dayOf, day))
  }

  /** The axis: the seven days ending today, oldest first. */
  function Window(today: int): seq<int>
  {
    seq(WindowDays, i requires 0 <= i < WindowDays => today - (WindowDays - 1) + i)
  }

  function DailyCounts(ss: seq<ChatSession>, dayOf: nat -> int, days: seq<int>): (r: seq<nat>)
    ensures |r| == |days|
  {
    if days == [] then [] else [SessionsOn(ss, dayOf, days[0])] + DailyCounts(ss, dayOf, days[1..])
  }

  lemma {:induction false} DailyCountsAt(ss: seq<ChatSession>, dayOf: nat -> int, days: seq<int>, i: nat)
    requires i < |days|
    ensures DailyCounts(ss, dayOf, days)[i] == SessionsOn(ss, dayOf, days[i])
  {
    if i > 0 {
      DailyCountsAt(ss, dayOf, days[1..], i - 1);
    }
  }

  /** The series the chart should show: the seven days ending today, oldest
      first, each with the number of sessions created that day. */
  function ActivityOf(ss: seq<ChatSession>, dayOf: nat -> int, today: int): Activity
  {
    Activity(Window(today), DailyCounts(ss, dayOf, Window(today)))
  }

  /** Seven consecutive days ending today; a day without sessions shows 0
      and a day with sessions shows how many. */
  lemma ActivitySpec(ss: seq<ChatSession>, dayOf: nat -> int, today: int)
    ensures var a := ActivityOf(ss, dayOf, today);
      && |a.dates| == WindowDays && |a.counts| == WindowDays
      && a.dates[WindowDays - 1] == today
      && (forall i :: 0 < i < WindowDays ==> a.dates[i] == a.dates[i - 1] + 1)
      && (forall i :: 0 <= i < WindowDays ==>
            (a.counts[i] == 0 <==> forall k :: 0 <= k < |ss| ==> dayOf(ss[k].createdAt) != a.dates[i]))
  {
    var a := ActivityOf(ss, dayOf, today);
    DailyCountsAt(ss, dayOf, a.dates, 0);
    forall i | 0 <= i < WindowDays
      ensures a.counts[i] == 0 <==> forall k :: 0 <= k < |ss| ==> dayOf(ss[k].createdAt) != a.dates[i]
    {
      DailyCountsAt(ss, dayOf, a.dates, i);
      CountZero(ss, CreatedOn(dayOf, a.dates[i]));
    }
  }

  function Get(m: map<int, nat>, k: int): nat
  {
    if k in m then m[k] else 0
  }

  /** The per-day map of session counts. */
  method DailyTally(recent: seq<ChatSession>, dayOf: nat -> int) returns (daily: map<int, nat>)
    ensures forall d :: Get(daily, d) == SessionsOn(recent, dayOf, d)
  {
    daily := map[];
    for k := 0 to |recent|
      invariant forall d :: Get(daily, d) == SessionsOn(recent[..k], dayOf, d)
    {
      var day := dayOf(recent[k].createdAt);
      assert recent[..k + 1] == recent[..k] + [recent[k]];
      var next := daily[day := Get(daily, day) + 1];
      forall d ensures Get(next, d) == SessionsOn(recent[..k + 1], dayOf, d) {
        CountSnoc(recent[..k], recent[k], CreatedOn(dayOf, d));
        assert Get(next, d) == Get(daily, d) + (if d == day then 1 else 0);
      }
      daily := next;
    }
    assert recent[..|recent|] == recent;
  }

  /** The activity block: the sessions of the window are counted per day in
      a map, then the axis is walked from six days ago to today, filling
      days without sessions with 0. */
  method ActivitySeries(ss: seq<ChatSession>, dayOf: nat -> int, today: int) returns (a: Activity)
    ensures a == ActivityOf(ss, dayOf, today)
  {
    var recent := Filter(ss, InWindow(dayOf, today));
    var daily := DailyTally(recent, dayOf);
    var dates: seq<int> := [];
    var counts: seq<nat> := [];
    var i: int := WindowDays - 1;
    while i >= 0
      invariant -1 <= i < WindowDays
      invariant |dates| == |counts| == WindowDays - 1 - i
      invariant forall j :: 0 <= j < |dates| ==> dates[j] == today - (WindowDays - 1) + j
      invariant forall j :: 0 <= j < |counts| ==> counts[j] == Get(daily, today - (WindowDays - 1) + j)
    {
      var date := today - i;
      dates := dates + [date];
      counts := counts + [Get(daily, date)];
      i := i - 1;
    }
    var window := Window(today);
    DailyCountsAt(ss, dayOf, window, 0);
    forall j | 0 <= j < WindowDays ensures counts[j] == DailyCounts(ss, dayOf, window)[j] {
      DailyCountsAt(ss, dayOf, window, j);
      CountOfFilter(ss, InWindow(dayOf, today), CreatedOn(dayOf, window[j]));
    }
    assert dates == window;
    assert counts == DailyCounts(ss, dayOf, window);
    a := Activity(dates, counts);
  }

  /** The activity as the code produces it: the series is recomputed inside
      the per-document loop and stored in module globals, so with no scoped
      document the globals are read as they are, `None` standing for never
      assigned (a `NameError`). */
  function ActivityAsWritten(ds: seq<DocumentRecord>, ss: seq<ChatSession>, dayOf: nat -> int, today: int,
                             globals: Option<Activity>): Option<Activity>
  {
    if |ds| > 0 then Some(ActivityOf(ss, dayOf, today)) else globals
  }

  /** The per-document loop as written: the bucket update, then the whole
      activity block again for every document. */
  method TypeAndActivityAsWritten(ds: seq<DocumentRecord>, ss: seq<ChatSession>, dayOf: nat -> int, today: int,
                                  globals: Option<Activity>)
    returns (t: TypeCounts, activity: Option<Activity>)
    ensures t == Tally(ds)
    ensures activity == ActivityAsWritten(ds, ss, dayOf, today, globals)
  {
    t := TypeCounts(0, 0, 0, 0);
    activity := globals;
    for i := 0 to |ds|
      invariant t == Tally(ds[..i])
      invariant activity == if i > 0 then Some(ActivityOf(ss, dayOf, today)) else globals
    {
      assert ds[..i + 1] == ds[..i] + [ds[i]];
      TallySnoc(ds[..i], ds[i]);
      t := CountType(t, ds[i].filename);
      var a := ActivitySeries(ss, dayOf, today);
      activity := Some(a);
    }
    assert ds[..|ds|] == ds;
  }

  /** With no scoped document the code answers either nothing (the first
      request: the globals were never assigned) or the series of an
      earlier request: here a session was created today, yet the chart
      shows the empty series left behind by a request that saw none. */
  lemma StaleActivity(s: ChatSession, dayOf: nat -> int, today: int)
    requires dayOf(s.createdAt) == today
    ensures ActivityAsWritten([], [s], dayOf, today, None) == None
    ensures ActivityOf([s], dayOf, today).counts[WindowDays - 1] == 1
    ensures ActivityAsWritten([], [s], dayOf, today, Some(ActivityOf([], dayOf, today))).value.counts[WindowDays - 1] == 0
  {
    DailyCountsAt([s], dayOf, Window(today), WindowDays - 1);
    DailyCountsAt([], dayOf, Window(today), WindowDays - 1);
    assert [s][1..] == [];
  }

  // ---------------------------------------------------------------------
  // The endpoint
  // ---------------------------------------------------------------------

  /** The caller's department name, or the public-area label. */
  function DepartmentName(ws: seq<Workspace>, caller: User): string
  {
    if caller.departmentId.Some? && FindWorkspace(ws, caller.departmentId.value).Some? then
      FindWorkspace(ws, caller.departmentId.value).value.name
    else PublicArea
  }

  datatype Stats = Stats(
    totalDocs: nat,
    totalChats: nat,
    userCount: nat,
    deptName: string,
    fileTypes: seq<TypeEntry>,
    activity: Activity,
    recent: seq<RecentDoc>)

  /** The statistics with the activity computed once, whatever the number
      of documents. Counts and charts cover only the caller's scope, the
      user count is shown to admins only. */
  method DashboardStats(ds: seq<DocumentRecord>, ss: seq<ChatSession>, us: seq<User>, ws: seq<Workspace>,
                        caller: User, dayOf: nat -> int, today: int)
    returns (s: Stats)
    ensures s.totalDocs == Count(ds, DocScope(caller))
    ensures s.totalChats == Count(ss, ChatScope(caller))
    ensures s.userCount == if caller.role == Admin then |us| else 0
    ensures s.deptName == DepartmentName(ws, caller)
    ensures s.fileTypes == FileTypes(Tally(Filter(ds, DocScope(caller))))
    ensures s.activity == ActivityOf(Filter(ss, ChatScope(caller)), dayOf, today)
    ensures |s.recent| == |Newest(Filter(ds, DocScope(caller)))|
    ensures forall i :: 0 <= i < |s.recent| ==> s.recent[i] == RecentRow(us, Newest(Filter(ds, DocScope(caller)))[i])
  {
    var docs := Filter(ds, DocScope(caller));
    var chats := Filter(ss, ChatScope(caller));
    CountIsFilterLength(ds, DocScope(caller));
    CountIsFilterLength(ss, ChatScope(caller));
    var recent := RecentRows(Newest(docs), us);
    var types := TypeStats(docs);
    var activity := ActivitySeries(chats, dayOf, today);
    var userCount := if caller.role == Admin then |us| else 0;
    s := Stats(|docs|, |chats|, userCount, DepartmentName(ws, caller), FileTypes(types), activity, recent);
  }

  /** A member's activity counts, for each day, the member's own sessions
      created that day. */
  lemma MemberActivityOwnSessions(ss: seq<ChatSession>, caller: User, dayOf: nat -> int, today: int, i: nat)
    requires caller.role != Admin && i < WindowDays
    ensures ActivityOf(Filter(ss, ChatScope(caller)), dayOf, today).counts[i] ==
      Count(ss, (s: ChatSession) => s.userId == caller.id && dayOf(s.createdAt) == today - (WindowDays - 1) + i)
  {
    var day := today - (WindowDays - 1) + i;
    DailyCountsAt(Filter(ss, ChatScope(caller)), dayOf, Window(today), i);
    CountWithin(ss, ChatScope(caller), CreatedOn(dayOf, day),
      (s: ChatSession) => s.userId == caller.id && dayOf(s.createdAt) == day);
  }
}
