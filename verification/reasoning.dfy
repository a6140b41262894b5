/** One run of the rule-based reasoning loop: every readable `.md` record in
    `Needs_Action` is categorised, an approval request is written to
    `Pending_Approval` for each record that needs one, and the records move to
    `Done`; and the dashboard's processing-log edit. */
module Reasoning {
  import opened Wrappers
  import opened Text
  import opened Store
  import opened Metadata
  import opened Classify

  /** The workflow folders the loop creates when it starts (`Plans` and `Logs` are not modelled). */
  const RunFolders: set<Folder> := {NeedsAction, Done, PendingApproval}

  /** `glob('*.md')`: any entry whose name ends in `.md`, directories and dot-files included. */
  predicate Globbed(n: string) {
    EndsWith(n, ".md")
  }

  /** `str(md_file)` for a record in `Needs_Action`. */
  function PathOf(n: string): string {
    "Needs_Action/" + n
  }

  /** The globbed entries that read successfully: regular files (reading a directory raises). */
  function ReadNames(d: Dir): (r: set<string>)
    ensures forall n :: n in r <==> n in d && Globbed(n) && d[n].File?
  {
    set n | n in d && Globbed(n) && d[n].File?
  }

  /** The texts of the records a run moves, by name. */
  function Moved(d: Dir): (r: map<string, string>)
    ensures r.Keys == ReadNames(d)
    ensures forall n :: n in r ==> d[n] == File(r[n])
  {
    map n | n in ReadNames(d) :: TextOf(d, n)
  }

  /** What a run leaves in `Needs_Action`. */
  function Unread(d: Dir): Dir {
    Remaining(d, Moved(d))
  }

  /** `Done` after a run. */
  function FileRecords(done: Dir, d: Dir): Dir {
    done + Deposit(Moved(d))
  }

  /** A run leaves in `Needs_Action` exactly the entries that did not read as records,
      unchanged. */
  lemma UnreadStay(d: Dir)
    ensures forall n :: n in Unread(d) <==> n in d && n !in ReadNames(d)
    ensures forall n :: n in Unread(d) ==> Unread(d)[n] == d[n]
  {
  }

  /** A run files each record in `Done` under its own name, unchanged, replacing a file
      of that name; the rest of `Done` stays as it was. */
  lemma RecordsFiled(done: Dir, d: Dir)
    ensures forall n :: n in FileRecords(done, d) <==> n in done || n in ReadNames(d)
    ensures forall n :: n in ReadNames(d) ==> FileRecords(done, d)[n] == d[n]
    ensures forall n :: n in done && n !in ReadNames(d) ==> FileRecords(done, d)[n] == done[n]
  {
  }

  /** The enumeration order `glob` produced: every globbed entry exactly once. */
  ghost predicate Enumerates(order: seq<string>, d: Dir) {
    && (forall n :: n in order <==> n in d && Globbed(n))
    && (forall i, j :: 0 <= i < j < |order| ==> order[i] != order[j])
  }

  /** `categorize_file(read_file_metadata(f))` for one readable record. */
  function Record(d: Dir, n: string): (c: Categorized)
    requires n in d && d[n].File?
    ensures c.meta == ReadMetadata(PathOf(n), n, TextOf(d, n))
    ensures Readable(c.meta)
  {
    var m := ReadMetadata(PathOf(n), n, TextOf(d, n));
    Categorize(m)
  }

  /** The categorised records in enumeration order, skipping the ones that fail to read. */
  function Records(d: Dir, order: seq<string>): (r: seq<Categorized>)
    requires forall n :: n in order ==> n in d
    ensures |r| <= |order|
    ensures forall c :: c in r ==> Readable(c.meta)
    decreases |order|
  {
    if |order| == 0 then []
    else
      var n := order[0];
      (if d[n].File? then [Record(d, n)] else []) + Records(d, order[1..])
  }

  /** Every record read comes from a readable entry of the enumeration, and every
      readable entry of the enumeration yields a record. */
  lemma {:induction false} RecordsComplete(d: Dir, order: seq<string>)
    requires forall n :: n in order ==> n in d
    ensures forall n :: n in order && d[n].File? ==> Record(d, n) in Records(d, order)
    ensures forall c :: c in Records(d, order) ==> exists n :: n in order && d[n].File? && c == Record(d, n)
    decreases |order|
  {
    if |order| > 0 {
      RecordsComplete(d, order[1..]);
      var n := order[0];
      var head := if d[n].File? then [Record(d, n)] else [];
      assert Records(d, order) == head + Records(d, order[1..]);
      forall m | m in order && d[m].File? ensures Record(d, m) in Records(d, order) {
        if m != n {
          assert m in order[1..];
        }
      }
      forall c | c in Records(d, order) ensures exists m :: m in order && d[m].File? && c == Record(d, m) {
        if c !in head {
          var m :| m in order[1..] && d[m].File? && c == Record(d, m);
          assert m in order;
        }
      }
    }
  }

  // ---------------------------------------------------------------------------
  // Approval requests

  /** The approval request names a run writes. */
  function RequestNames(items: seq<Categorized>, ts: string): (r: set<string>)
    requires forall c :: c in items ==> Readable(c.meta)
  {
    set c | c in items && c.requiresApproval && "filename" in c.meta :: ApprovalName(c, ts)
  }

  lemma RequestNamesSnoc(init: seq<Categorized>, c: Categorized, ts: string)
    requires forall d :: d in init ==> Readable(d.meta)
    requires Readable(c.meta)
    ensures RequestNames(init + [c], ts)
         == RequestNames(init, ts) + (if c.requiresApproval then {ApprovalName(c, ts)} else {})
  {
    var items := init + [c];
    assert forall d :: d in items <==> d in init || d == c;
  }

  /** Writes one request per record needing approval, in order (a later request with
      the same name replaces an earlier one). `render` stands for the request's text. */
  function WriteRequests(pending: Dir, items: seq<Categorized>, ts: string, render: Categorized -> string): (r: Dir)
    requires forall c :: c in items ==> Readable(c.meta)
    ensures forall m :: m in r <==> m in pending || m in RequestNames(items, ts)
    ensures forall m :: m in r ==> if m in RequestNames(items, ts) then r[m].File? else r[m] == pending[m]
    decreases |items|
  {
    if |items| == 0 then pending
    else
      var c := items[|items| - 1];
      var init := items[..|items| - 1];
      assert items == init + [c];
      var r := WriteRequests(pending, init, ts, render);
      RequestNamesSnoc(init, c, ts);
      if c.requiresApproval then
        var n := ApprovalName(c, ts);
        assert RequestNames(items, ts) == RequestNames(init, ts) + {n};
        PutRequest(pending, r, RequestNames(init, ts), n, render(c));
        r[n := File(render(c))]
      else
        assert RequestNames(items, ts) == RequestNames(init, ts);
        r
  }

  /** Writing one more request keeps the shape `WriteRequests` promises. */
  lemma PutRequest(pending: Dir, r: Dir, names: set<string>, n: string, text: string)
    requires forall m :: m in r <==> m in pending || m in names
    requires forall m :: m in r ==> if m in names then r[m].File? else r[m] == pending[m]
    ensures forall m :: m in r[n := File(text)] <==> m in pending || m in names + {n}
    ensures forall m :: m in r[n := File(text)] ==>
              if m in names + {n} then r[n := File(text)][m].File? else r[n := File(text)][m] == pending[m]
  {
  }

  // ---------------------------------------------------------------------------
  // The run

  /** `run_reasoning_loop` over the store, with `glob`'s order, one clock reading `ts`
      for the request names, and the request text left abstract. */
  function Run(s: Store, order: seq<string>, ts: string, render: Categorized -> string): Store
    requires Enumerates(order, Contents(s, NeedsAction))
  {
    var s0 := EnsureFolders(s, RunFolders);
    var na := Contents(s0, NeedsAction);
    var names := ReadNames(na);
    if names == {} then s0
    else
      var items := Records(na, order);
      s0[NeedsAction := Unread(na)]
        [Done := FileRecords(Contents(s0, Done), na)]
        [PendingApproval := WriteRequests(Contents(s0, PendingApproval), items, ts, render)]
  }

  /** A run that finds nothing readable only creates its folders. */
  lemma RunIdle(s: Store, order: seq<string>, ts: string, render: Categorized -> string)
    requires Enumerates(order, Contents(s, NeedsAction))
    requires ReadNames(Contents(s, NeedsAction)) == {}
    ensures Run(s, order, ts, render) == EnsureFolders(s, RunFolders)
  {
    assert Contents(EnsureFolders(s, RunFolders), NeedsAction) == Contents(s, NeedsAction);
  }

  /** A run's result, spelled out once for a run that has records to read. */
  lemma RunBusy(s: Store, order: seq<string>, ts: string, render: Categorized -> string)
    requires Enumerates(order, Contents(s, NeedsAction))
    requires ReadNames(Contents(s, NeedsAction)) != {}
    ensures var na := Contents(s, NeedsAction);
      var s0 := EnsureFolders(s, RunFolders);
      Run(s, order, ts, render)
      == s0[NeedsAction := Unread(na)]
           [Done := FileRecords(Contents(s, Done), na)]
           [PendingApproval := WriteRequests(Contents(s, PendingApproval), Records(na, order), ts, render)]
  {
    var s0 := EnsureFolders(s, RunFolders);
    assert Contents(s0, NeedsAction) == Contents(s, NeedsAction);
    assert Contents(s0, Done) == Contents(s, Done);
    assert Contents(s0, PendingApproval) == Contents(s, PendingApproval);
  }

  /** A run creates its folders and touches no folder but `Needs_Action`, `Done` and
      `Pending_Approval`. */
  lemma RunKeepsOthers(s: Store, order: seq<string>, ts: string, render: Categorized -> string)
    requires Enumerates(order, Contents(s, NeedsAction))
    ensures var r := Run(s, order, ts, render);
      && (forall f :: f in r <==> f in s || f in RunFolders)
      && (forall f :: f !in RunFolders ==> Contents(r, f) == Contents(s, f))
  {
    if ReadNames(Contents(s, NeedsAction)) == {} {
      RunIdle(s, order, ts, render);
    } else {
      RunBusy(s, order, ts, render);
    }
  }

  /** With nothing readable, `Needs_Action` keeps all it holds. */
  lemma UnreadIdle(d: Dir)
    requires ReadNames(d) == {}
    ensures Unread(d) == d
  {
    UnreadStay(d);
  }

  /** With nothing readable, `Done` gains nothing. */
  lemma FileRecordsIdle(done: Dir, d: Dir)
    requires ReadNames(d) == {}
    ensures FileRecords(done, d) == done
  {
    RecordsFiled(done, d);
  }

  /** A run leaves in `Needs_Action` only what did not read as a record. */
  lemma RunLeavesUnread(s: Store, order: seq<string>, ts: string, render: Categorized -> string)
    requires Enumerates(order, Contents(s, NeedsAction))
    ensures Contents(Run(s, order, ts, render), NeedsAction) == Unread(Contents(s, NeedsAction))
  {
    var na := Contents(s, NeedsAction);
    var s0 := EnsureFolders(s, RunFolders);
    if ReadNames(na) == {} {
      RunIdle(s, order, ts, render);
      UnreadIdle(na);
      assert Contents(s0, NeedsAction) == na;
    } else {
      RunBusy(s, order, ts, render);
      var pa := WriteRequests(Contents(s, PendingApproval), Records(na, order), ts, render);
      FolderWrites(s0, Unread(na), FileRecords(Contents(s, Done), na), pa);
    }
  }

  /** The three folders a run writes, each read back as written. */
  lemma FolderWrites(s0: Store, na: Dir, done: Dir, pa: Dir)
    ensures var r := s0[NeedsAction := na][Done := done][PendingApproval := pa];
      Contents(r, NeedsAction) == na && Contents(r, Done) == done && Contents(r, PendingApproval) == pa
  {
  }

  /** A run files in `Done` every record it read. */
  lemma RunFilesRecords(s: Store, order: seq<string>, ts: string, render: Categorized -> string)
    requires Enumerates(order, Contents(s, NeedsAction))
    ensures Contents(Run(s, order, ts, render), Done) == FileRecords(Contents(s, Done), Contents(s, NeedsAction))
  {
    var na := Contents(s, NeedsAction);
    var s0 := EnsureFolders(s, RunFolders);
    if ReadNames(na) == {} {
      RunIdle(s, order, ts, render);
      FileRecordsIdle(Contents(s, Done), na);
      assert Contents(s0, Done) == Contents(s, Done);
    } else {
      RunBusy(s, order, ts, render);
      var pa := WriteRequests(Contents(s, PendingApproval), Records(na, order), ts, render);
      FolderWrites(s0, Unread(na), FileRecords(Contents(s, Done), na), pa);
    }
  }

  /** Writing the requests of the records read from `d` lists one `.md` request per record
      that needs approval, and leaves every other pending file as it was. */
  lemma RequestsListed(pending: Dir, d: Dir, order: seq<string>, ts: string, render: Categorized -> string)
    requires forall n :: n in order ==> n in d
    ensures var items := Records(d, order);
      var r := WriteRequests(pending, items, ts, render);
      && (forall n :: n in order && d[n].File? && Record(d, n).requiresApproval ==>
            ApprovalName(Record(d, n), ts) in MdNames(r))
      && (forall m :: m in r <==> m in pending || m in RequestNames(items, ts))
      && (forall m :: m in pending && m !in RequestNames(items, ts) ==> r[m] == pending[m])
  {
    RecordsComplete(d, order);
    var items := Records(d, order);
    var r := WriteRequests(pending, items, ts, render);
    forall n | n in order && d[n].File? && Record(d, n).requiresApproval
      ensures ApprovalName(Record(d, n), ts) in MdNames(r)
    {
      assert ApprovalName(Record(d, n), ts) in RequestNames(items, ts);
    }
  }

  /** Entries that are all directories yield no records. */
  lemma {:induction false} NoRecordsFromDirectories(d: Dir, order: seq<string>)
    requires forall n :: n in order ==> n in d && !d[n].File?
    ensures Records(d, order) == []
    decreases |order|
  {
    if |order| > 0 {
      assert order[0] in order;
      NoRecordsFromDirectories(d, order[1..]);
    }
  }

  /** With nothing readable there are no records, hence no requests. */
  lemma NoRecordsIdle(d: Dir, order: seq<string>, ts: string)
    requires Enumerates(order, d)
    requires ReadNames(d) == {}
    ensures Records(d, order) == []
    ensures RequestNames(Records(d, order), ts) == {}
  {
    NoRecordsFromDirectories(d, order);
  }

  /** A run writes one approval request per record that needs approval, under a `.md`
      name the orchestrator will list, and no other pending file changes. */
  lemma RunWritesRequests(s: Store, order: seq<string>, ts: string, render: Categorized -> string)
    requires Enumerates(order, Contents(s, NeedsAction))
    ensures var r := Run(s, order, ts, render);
      var na := Contents(s, NeedsAction);
      var items := Records(na, order);
      Contents(r, PendingApproval) == WriteRequests(Contents(s, PendingApproval), items, ts, render)
  {
    var na := Contents(s, NeedsAction);
    var s0 := EnsureFolders(s, RunFolders);
    if ReadNames(na) == {} {
      RunIdle(s, order, ts, render);
      NoRecordsIdle(na, order, ts);
      assert Contents(s0, PendingApproval) == Contents(s, PendingApproval);
    } else {
      RunBusy(s, order, ts, render);
      var pa := WriteRequests(Contents(s, PendingApproval), Records(na, order), ts, render);
      FolderWrites(s0, Unread(na), FileRecords(Contents(s, Done), na), pa);
    }
  }

  /** A run on a store whose folders exist and whose `Needs_Action` holds nothing
      readable changes nothing. */
  lemma RunOnSettled(s: Store, order: seq<string>, ts: string, render: Categorized -> string)
    requires Enumerates(order, Contents(s, NeedsAction))
    requires RunFolders <= s.Keys
    requires ReadNames(Contents(s, NeedsAction)) == {}
    ensures Run(s, order, ts, render) == s
  {
    RunIdle(s, order, ts, render);
    EnsureExisting(s, RunFolders);
  }

  /** After a run its folders exist and nothing readable is left in `Needs_Action`. */
  lemma RunSettles(s: Store, order: seq<string>, ts: string, render: Categorized -> string)
    requires Enumerates(order, Contents(s, NeedsAction))
    ensures RunFolders <= Run(s, order, ts, render).Keys
    ensures ReadNames(Contents(Run(s, order, ts, render), NeedsAction)) == {}
  {
    RunLeavesUnread(s, order, ts, render);
    RunKeepsOthers(s, order, ts, render);
    UnreadStay(Contents(s, NeedsAction));
  }

  /** A second run right after a run finds nothing to read and changes nothing. */
  lemma RunTwiceIsRun(s: Store, order: seq<string>, order2: seq<string>, ts: string, ts2: string,
                      render: Categorized -> string)
    requires Enumerates(order, Contents(s, NeedsAction))
    requires Enumerates(order2, Contents(Run(s, order, ts, render), NeedsAction))
    ensures Run(Run(s, order, ts, render), order2, ts2, render) == Run(s, order, ts, render)
  {
    RunSettles(s, order, ts, render);
    RunOnSettled(Run(s, order, ts, render), order2, ts2, render);
  }

  // ---------------------------------------------------------------------------
  // Dashboard

  const LogHeading := "## Processing Log"

  /** The processing-log line a run adds. */
  function LogEntry(stamp: string): string {
    "\n- [" + stamp + "] Reasoning Loop: Auto-processed files"
  }

  /** `update_dashboard`: a missing dashboard stays missing; otherwise the entry follows
      every `## Processing Log` heading, or a new log section is appended when there is none. */
  function UpdateDashboard(dashboard: Option<string>, stamp: string): (r: Option<string>)
    ensures r.Some? <==> dashboard.Some?
  {
    match dashboard
    case None => None
    case Some(content) =>
      var line := LogHeading + LogEntry(stamp);
      if Contains(content, LogHeading) then Some(ReplaceAll(content, LogHeading, line))
      else Some(content + "\n\n" + line + "\n")
  }

  /** A dashboard without a processing log keeps its text and gains a log section that
      holds the entry. */
  lemma DashboardGainsLog(content: string, stamp: string)
    requires !Contains(content, LogHeading)
    ensures StartsWith(UpdateDashboard(Some(content), stamp).value, content)
    ensures Contains(UpdateDashboard(Some(content), stamp).value, LogHeading + LogEntry(stamp))
  {
    var line := LogHeading + LogEntry(stamp);
    var r := content + "\n\n" + line + "\n";
    assert UpdateDashboard(Some(content), stamp).value == r;
    assert r[..|content|] == content;
    assert StartsWith(r, content + "\n\n" + line) by {
      assert r == (content + "\n\n" + line) + "\n";
    }
    ContainedAfterPrefix(r, content + "\n\n", line);
  }

  /** With a processing log, the update is the replacement of every heading. */
  lemma DashboardReplaces(content: string, stamp: string)
    requires Contains(content, LogHeading)
    ensures UpdateDashboard(Some(content), stamp) == Some(ReplaceAll(content, LogHeading, LogHeading + LogEntry(stamp)))
  {
  }

  /** With a processing log, the text up to its first heading is kept and the entry
      follows that heading at once. */
  lemma DashboardExtendsLog(content: string, stamp: string, i: nat)
    requires IndexOf(content, LogHeading, 0) == Some(i)
    ensures StartsWith(UpdateDashboard(Some(content), stamp).value, content[..i] + LogHeading + LogEntry(stamp))
    ensures Contains(UpdateDashboard(Some(content), stamp).value, LogHeading + LogEntry(stamp))
  {
    var line := LogHeading + LogEntry(stamp);
    assert Contains(content, LogHeading);
    DashboardReplaces(content, stamp);
    var r := ReplaceAll(content, LogHeading, line);
    assert StartsWith(r, content[..i] + line);
    assert content[..i] + LogHeading + LogEntry(stamp) == content[..i] + line;
    ContainedAfterPrefix(r, content[..i], line);
  }

  /** With a processing log, the text between headings is kept and every heading is
      followed by the entry: the old dashboard is its pieces joined by the heading, the
      new one is the same pieces joined by the heading and the entry. */
  lemma DashboardEveryHeading(content: string, stamp: string)
    requires Contains(content, LogHeading)
    ensures |SplitOn(content, LogHeading)| >= 2
    ensures JoinOn(SplitOn(content, LogHeading), LogHeading) == content
    ensures UpdateDashboard(Some(content), stamp).value
              == JoinOn(SplitOn(content, LogHeading), LogHeading + LogEntry(stamp))
  {
    DashboardReplaces(content, stamp);
    ReplaceIsSplitJoin(content, LogHeading, LogHeading + LogEntry(stamp));
  }
}
