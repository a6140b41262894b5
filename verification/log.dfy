/** The orchestrator's approval log: one line per executed, failed or rejected
    approval. `log_approval_action` writes each line with `write_text`, which
    replaces the file, so only the latest line survives; the reasoning loop's
    own log appends. Both readings are here, with what each keeps. */
module ApprovalLog {
  import opened Text

  /** `f"[{timestamp}] {message}\n"`. */
  function Entry(stamp: string, message: string): string {
    "[" + stamp + "] " + message + "\n"
  }

  /** One write as the orchestrator performs it: the file becomes the new line. */
  function WriteAsWritten(log: string, entry: string): string {
    entry
  }

  /** One write as a log is meant to work: the new line follows everything before it. */
  function Append(log: string, entry: string): (r: string)
    ensures StartsWith(r, log) && EndsWith(r, entry)
    ensures |r| == |log| + |entry|
  {
    assert (log + entry)[..|log|] == log;
    assert (log + entry)[|log + entry| - |entry|..] == entry;
    log + entry
  }

  /** The file after a run of entries, written as the orchestrator writes them. */
  function LogAsWritten(entries: seq<string>): string
    decreases |entries|
  {
    if |entries| == 0 then ""
    else WriteAsWritten(LogAsWritten(entries[..|entries| - 1]), entries[|entries| - 1])
  }

  /** The file after a run of entries, each appended. */
  function Log(entries: seq<string>): string
    decreases |entries|
  {
    if |entries| == 0 then ""
    else Append(Log(entries[..|entries| - 1]), entries[|entries| - 1])
  }

  /** A text can only contain a text of its own length by being equal to it. */
  lemma SameLengthContains(s: string, p: string)
    requires |s| == |p| && Contains(s, p)
    ensures s == p
  {
    var i :| 0 <= i <= |s| && OccursAt(s, p, i);
    assert i == 0;
    assert s[..|s|] == s;
  }

  /** As written, an execution followed by a rejection leaves no trace of the execution. */
  lemma FirstEntryLost()
    ensures var first := Entry("2026-01-01T08:00:00", "EXECUTED: a.md");
      var second := Entry("2026-01-01T08:00:30", "REJECTED: b.md");
      !Contains(LogAsWritten([first, second]), first)
  {
    var first := Entry("2026-01-01T08:00:00", "EXECUTED: a.md");
    var second := Entry("2026-01-01T08:00:30", "REJECTED: b.md");
    assert [first, second][..1] == [first];
    assert LogAsWritten([first, second]) == second;
    assert |first| == |second|;
    assert first[22] == 'E' && second[22] == 'R';
    if Contains(second, first) {
      SameLengthContains(second, first);
    }
  }

  /** Appending keeps every entry ever written. */
  lemma {:induction false} LogKeepsEvery(entries: seq<string>, i: nat)
    requires i < |entries|
    ensures Contains(Log(entries), entries[i])
    decreases |entries|
  {
    var init := entries[..|entries| - 1];
    var last := entries[|entries| - 1];
    assert Log(entries) == Log(init) + last;
    if i == |entries| - 1 {
      SuffixIsContained(Log(init), last);
    } else {
      assert entries[i] == init[i];
      LogKeepsEvery(init, i);
      ContainsAppendRight(Log(init), last, entries[i]);
    }
  }

  /** Appending keeps the entries in the order they were written: the log of a run is the
      log of its first part followed by the log of the rest. */
  lemma {:induction false} LogConcat(a: seq<string>, b: seq<string>)
    ensures Log(a + b) == Log(a) + Log(b)
    decreases |b|
  {
    if |b| == 0 {
      assert a + b == a;
    } else {
      var init := b[..|b| - 1];
      var last := b[|b| - 1];
      assert (a + b)[..|a + b| - 1] == a + init;
      assert (a + b)[|a + b| - 1] == last;
      assert Log(a + b) == Log(a + init) + last;
      LogConcat(a, init);
      assert Log(b) == Log(init) + last;
      assert Log(a) + Log(init) + last == Log(a) + (Log(init) + last);
    }
  }
}
