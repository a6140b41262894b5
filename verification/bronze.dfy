/** The bronze orchestrator: the pending `.md` files of `Needs_Action` in
    modification-time order, and the poll that prompts when their number changes. */
module Bronze {
  import opened Wrappers
  import opened Text
  import opened Store
  import opened Poll

  /** One directory entry as `iterdir` yields it, with its modification time. */
  datatype Listing = Listing(name: string, entry: Entry, mtime: int)

  /** A pending file: a regular file with the `.md` suffix whose name does not start with `~`. */
  predicate Pending(l: Listing) {
    l.entry.File? && HasMdSuffix(l.name) && !StartsWith(l.name, "~")
  }

  /** The pending entries, in listing order: each pending entry as often as the listing
      yields it, and nothing else. */
  function PendingOf(ls: seq<Listing>): (r: seq<Listing>)
    ensures forall x :: x in r <==> x in ls && Pending(x)
    ensures forall x :: multiset(r)[x] == if Pending(x) then multiset(ls)[x] else 0
    ensures |r| <= |ls|
    decreases |ls|
  {
    if |ls| == 0 then []
    else
      assert ls == [ls[0]] + ls[1..];
      (if Pending(ls[0]) then [ls[0]] else []) + PendingOf(ls[1..])
  }

  /** Ascending modification time. */
  predicate SortedByMtime(s: seq<Listing>) {
    forall i, j :: 0 <= i < j < |s| ==> s[i].mtime <= s[j].mtime
  }

  /** Puts `x` before the first entry that is not older than it. */
  function Insert(x: Listing, s: seq<Listing>): (r: seq<Listing>)
    requires SortedByMtime(s)
    ensures SortedByMtime(r)
    ensures multiset(r) == multiset(s) + multiset{x}
    decreases |s|
  {
    if |s| == 0 then [x]
    else if x.mtime <= s[0].mtime then [x] + s
    else
      var rest := Insert(x, s[1..]);
      assert s == [s[0]] + s[1..];
      LowerBound(s[0].mtime, x, s[1..], rest);
      [s[0]] + rest
  }

  /** A bound below `x` and every entry of `s` bounds every entry of a permutation of both. */
  lemma LowerBound(b: int, x: Listing, s: seq<Listing>, r: seq<Listing>)
    requires b <= x.mtime
    requires forall i :: 0 <= i < |s| ==> b <= s[i].mtime
    requires multiset(r) == multiset(s) + multiset{x}
    ensures forall i :: 0 <= i < |r| ==> b <= r[i].mtime
  {
    forall i | 0 <= i < |r| ensures b <= r[i].mtime {
      assert r[i] in multiset(r);
      if r[i] != x {
        assert r[i] in multiset(s);
      }
    }
  }

  /** `sorted(..., key=lambda x: x.stat().st_mtime)`. */
  function SortByMtime(s: seq<Listing>): (r: seq<Listing>)
    ensures SortedByMtime(r)
    ensures multiset(r) == multiset(s)
    decreases |s|
  {
    if |s| == 0 then []
    else
      assert s == [s[0]] + s[1..];
      Insert(s[0], SortByMtime(s[1..]))
  }

  /** `get_pending_files`: a missing folder has no pending files. */
  function PendingFiles(folder: Option<seq<Listing>>): (r: seq<Listing>)
    ensures folder.None? ==> r == []
    ensures folder.Some? ==> multiset(r) == multiset(PendingOf(folder.value))
    ensures SortedByMtime(r)
  {
    match folder
    case None => []
    case Some(ls) => SortByMtime(PendingOf(ls))
  }

  /** The pending list holds exactly the pending entries of the folder, each as often as
      the listing yields it, oldest first. */
  lemma PendingFilesExact(ls: seq<Listing>)
    ensures var r := PendingFiles(Some(ls));
      && (forall x :: x in r <==> x in ls && Pending(x))
      && (forall x :: multiset(r)[x] == if Pending(x) then multiset(ls)[x] else 0)
      && |r| == |PendingOf(ls)|
      && SortedByMtime(r)
  {
    var r := PendingFiles(Some(ls));
    assert |multiset(r)| == |multiset(PendingOf(ls))|;
    forall x ensures x in r <==> x in PendingOf(ls) {
      assert x in r <==> x in multiset(r);
      assert x in PendingOf(ls) <==> x in multiset(PendingOf(ls));
    }
  }

  // ---------------------------------------------------------------------------
  // The poll

  /** One bronze poll: the files the prompt lists (if a prompt is printed) and the
      remembered count afterwards. */
  datatype Check = Check(prompt: Option<seq<Listing>>, last: nat)

  function BronzePoll(folder: Option<seq<Listing>>, last: nat): (c: Check)
    ensures var pending := PendingFiles(folder);
      && (c.prompt.Some? <==> |pending| > 0 && |pending| != last)
      && (c.prompt.Some? ==> c.prompt.value == pending)
      && c.last == |pending|
  {
    var pending := PendingFiles(folder);
    var d := CountChange(|pending|, last);
    Check(if d.prompt then Some(pending) else None, d.last)
  }

  /** A listing without pending entries yields none. */
  lemma {:induction false} NothingPending(ls: seq<Listing>)
    requires forall i :: 0 <= i < |ls| ==> !Pending(ls[i])
    ensures PendingOf(ls) == []
    decreases |ls|
  {
    if |ls| > 0 {
      assert !Pending(ls[0]);
      assert forall i :: 0 <= i < |ls[1..]| ==> ls[1..][i] == ls[i + 1];
      NothingPending(ls[1..]);
    }
  }

  /** A missing or empty `Needs_Action` never prompts and resets the remembered count. */
  lemma QuietWhenEmpty(folder: Option<seq<Listing>>, last: nat)
    requires folder.None? || forall i :: 0 <= i < |folder.value| ==> !Pending(folder.value[i])
    ensures BronzePoll(folder, last) == Check(None, 0)
  {
    if folder.Some? {
      NothingPending(folder.value);
      assert |multiset(PendingFiles(folder))| == 0;
    }
  }

  /** A poll that follows a prompting poll over the same folder does not prompt again. */
  lemma NoPromptTwice(folder: Option<seq<Listing>>, last: nat)
    ensures !BronzePoll(folder, BronzePoll(folder, last).last).prompt.Some?
  {
  }
}
