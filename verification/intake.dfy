/** What the message watchers share: the file-name sanitiser, the
    `processed_ids` de-duplication of a poll, and the suggested-action table
    that fills a new record's checklist. */
module Intake {
  import opened Text

  // ---------------------------------------------------------------------------
  // File-name sanitiser

  /** A character the sanitiser keeps: alphanumeric, space, `-` or `_`. */
  predicate SafeChar(c: char) {
    IsAlnum(c) || c == ' ' || c == '-' || c == '_'
  }

  /** Every character is one the sanitiser keeps. */
  predicate SafeName(s: string) {
    forall i :: 0 <= i < |s| ==> SafeChar(s[i])
  }

  /** `"".join(c if c.isalnum() or c in ' -_' else '_' for c in s[:limit])`. */
  function Sanitize(s: string, limit: nat): (r: string)
    ensures |r| == if |s| <= limit then |s| else limit
    ensures forall i :: 0 <= i < |r| ==> r[i] == if SafeChar(s[i]) then s[i] else '_'
  {
    var t := if |s| <= limit then s else s[..limit];
    seq(|t|, i requires 0 <= i < |t| => if SafeChar(t[i]) then t[i] else '_')
  }

  /** The sanitised text is made of safe characters only: no dot, slash, colon or newline
      survives into a file name. */
  lemma SanitizeIsSafe(s: string, limit: nat)
    ensures SafeName(Sanitize(s, limit))
    ensures '.' !in Sanitize(s, limit) && '/' !in Sanitize(s, limit)
    ensures ':' !in Sanitize(s, limit) && '\n' !in Sanitize(s, limit)
  {
    var r := Sanitize(s, limit);
    forall i | 0 <= i < |r| ensures SafeChar(r[i]) {
    }
  }

  /** Text that is already safe and short enough comes back unchanged. */
  lemma SanitizeKeepsSafe(s: string, limit: nat)
    requires SafeName(s) && |s| <= limit
    ensures Sanitize(s, limit) == s
  {
  }

  /** Sanitising twice is sanitising once. */
  lemma SanitizeIdempotent(s: string, limit: nat)
    ensures Sanitize(Sanitize(s, limit), limit) == Sanitize(s, limit)
  {
    SanitizeIsSafe(s, limit);
    SanitizeKeepsSafe(Sanitize(s, limit), limit);
  }

  // ---------------------------------------------------------------------------
  // De-duplication by id

  /** The outcome of one poll: the items that get a file, in order, and the ids seen afterwards. */
  datatype Admitted<T> = Admitted(created: seq<T>, seen: set<string>)

  /** The ids of a sequence of items. */
  function Keys<T(==)>(items: seq<T>, key: T -> string): set<string> {
    set x | x in items :: key(x)
  }

  /** The loop of `check_for_new_items`: an item gets a file when its id has not been seen
      and the watcher wants it; its id is recorded right after the file is written. */
  function Admit<T(==)>(seen: set<string>, items: seq<T>, key: T -> string, wanted: T -> bool): (r: Admitted<T>)
    ensures forall x :: x in r.created ==> x in items && wanted(x) && key(x) !in seen
    ensures forall i, j :: 0 <= i < j < |r.created| ==> key(r.created[i]) != key(r.created[j])
    ensures r.seen == seen + Keys(r.created, key)
    decreases |items|
  {
    if |items| == 0 then Admitted([], seen)
    else
      var x := items[0];
      if key(x) !in seen && wanted(x) then
        var rest := Admit(seen + {key(x)}, items[1..], key, wanted);
        var created := [x] + rest.created;
        Admitted(created, rest.seen)
      else
        Admit(seen, items[1..], key, wanted)
  }

  /** Every wanted item whose id was new when the poll began has its id covered by a
      file written in that poll: by itself, or by an earlier item with the same id. */
  lemma {:induction false} AdmitCovers<T>(seen: set<string>, items: seq<T>, key: T -> string, wanted: T -> bool, x: T)
    requires x in items && wanted(x) && key(x) !in seen
    ensures key(x) in Keys(Admit(seen, items, key, wanted).created, key)
    decreases |items|
  {
    var y := items[0];
    if key(y) !in seen && wanted(y) {
      var rest := Admit(seen + {key(y)}, items[1..], key, wanted);
      assert Admit(seen, items, key, wanted).created == [y] + rest.created;
      if key(x) != key(y) {
        assert x in items[1..];
        AdmitCovers(seen + {key(y)}, items[1..], key, wanted, x);
      }
    } else {
      assert x != y;
      assert x in items[1..];
      AdmitCovers(seen, items[1..], key, wanted, x);
    }
  }

  /** The polls of one watcher lifetime, the seen ids carried from one to the next. */
  function Lifetime<T(==)>(seen: set<string>, polls: seq<seq<T>>, key: T -> string, wanted: T -> bool): (r: Admitted<T>)
    decreases |polls|
  {
    if |polls| == 0 then Admitted([], seen)
    else
      var first := Admit(seen, polls[0], key, wanted);
      var rest := Lifetime(first.seen, polls[1..], key, wanted);
      Admitted(first.created + rest.created, rest.seen)
  }

  /** Two runs of distinct ids stay distinct when joined, provided the second avoids every
      id the first had recorded. */
  lemma JoinDistinct<T>(a: seq<T>, b: seq<T>, key: T -> string, recorded: set<string>)
    requires forall i, j :: 0 <= i < j < |a| ==> key(a[i]) != key(a[j])
    requires forall i, j :: 0 <= i < j < |b| ==> key(b[i]) != key(b[j])
    requires forall i :: 0 <= i < |a| ==> key(a[i]) in recorded
    requires forall i :: 0 <= i < |b| ==> key(b[i]) !in recorded
    ensures forall i, j :: 0 <= i < j < |a + b| ==> key((a + b)[i]) != key((a + b)[j])
  {
    forall i, j | 0 <= i < j < |a + b| ensures key((a + b)[i]) != key((a + b)[j]) {
      if j >= |a| && i < |a| {
        assert key((a + b)[i]) in recorded;
        assert (a + b)[j] == b[j - |a|];
      } else if i >= |a| {
        assert (a + b)[i] == b[i - |a|];
        assert (a + b)[j] == b[j - |a|];
      }
    }
  }

  /** No id produces two files in a watcher's lifetime, and none that was seen at the start. */
  lemma {:induction false} LifetimeOnce<T>(seen: set<string>, polls: seq<seq<T>>, key: T -> string, wanted: T -> bool)
    ensures var r := Lifetime(seen, polls, key, wanted);
      && (forall x :: x in r.created ==> key(x) !in seen)
      && (forall i, j :: 0 <= i < j < |r.created| ==> key(r.created[i]) != key(r.created[j]))
      && r.seen == seen + Keys(r.created, key)
    decreases |polls|
  {
    if |polls| > 0 {
      var first := Admit(seen, polls[0], key, wanted);
      LifetimeOnce(first.seen, polls[1..], key, wanted);
      var rest := Lifetime(first.seen, polls[1..], key, wanted);
      var all := first.created + rest.created;
      assert Lifetime(seen, polls, key, wanted).created == all;
      assert forall i :: 0 <= i < |first.created| ==> key(first.created[i]) in first.seen by {
        forall i | 0 <= i < |first.created| ensures key(first.created[i]) in first.seen {
          assert first.created[i] in first.created;
        }
      }
      assert forall i :: 0 <= i < |rest.created| ==> key(rest.created[i]) !in first.seen by {
        forall i | 0 <= i < |rest.created| ensures key(rest.created[i]) !in first.seen {
          assert rest.created[i] in rest.created;
        }
      }
      JoinDistinct(first.created, rest.created, key, first.seen);
      assert forall x :: x in all <==> x in first.created || x in rest.created;
      assert Keys(all, key) == Keys(first.created, key) + Keys(rest.created, key);
    }
  }

  // ---------------------------------------------------------------------------
  // Suggested actions

  /** One row of a suggestion table: whether its words were found, and the lines it adds. */
  datatype Row = Row(hit: bool, lines: seq<string>)

  /** The lines of the rows that hit, in table order. */
  function Hits(rows: seq<Row>): seq<string>
    decreases |rows|
  {
    if |rows| == 0 then []
    else (if rows[0].hit then rows[0].lines else []) + Hits(rows[1..])
  }

  /** Some row of the table hit. */
  predicate AnyHit(rows: seq<Row>) {
    exists i :: 0 <= i < |rows| && rows[i].hit
  }

  /** Every row adds at least one line. */
  predicate Productive(rows: seq<Row>) {
    forall i :: 0 <= i < |rows| ==> |rows[i].lines| > 0
  }

  /** `_generate_suggested_actions`: the lines of the rows that hit, or the default lines
      when none did. */
  function Suggest(rows: seq<Row>, defaults: seq<string>): seq<string> {
    var hits := Hits(rows);
    if hits == [] then defaults else hits
  }

  /** Lines come only from rows that hit; rows that add lines produce something whenever
      one of them hits. */
  lemma {:induction false} HitsEmpty(rows: seq<Row>)
    requires Productive(rows)
    ensures Hits(rows) == [] <==> !AnyHit(rows)
    decreases |rows|
  {
    if |rows| > 0 {
      HitsEmpty(rows[1..]);
      if rows[0].hit {
        assert |Hits(rows)| >= |rows[0].lines|;
      } else {
        assert Hits(rows) == Hits(rows[1..]);
        if AnyHit(rows) {
          var i :| 0 <= i < |rows| && rows[i].hit;
          assert rows[1..][i - 1].hit;
        }
        if AnyHit(rows[1..]) {
          var i :| 0 <= i < |rows[1..]| && rows[1..][i].hit;
          assert rows[i + 1].hit;
        }
      }
    }
  }

  /** The table in row order: the lines of row `i` (if it hit) follow those of the rows
      before it and precede those of the rows after it. */
  lemma {:induction false} HitsSplit(rows: seq<Row>, i: nat)
    requires i < |rows|
    ensures Hits(rows) == Hits(rows[..i]) + (if rows[i].hit then rows[i].lines else []) + Hits(rows[i + 1..])
    decreases i
  {
    if i > 0 {
      HitsSplit(rows[1..], i - 1);
      assert rows[1..][..i - 1] == rows[1..i];
      assert rows[1..][i - 1 + 1..] == rows[i + 1..];
      assert rows[..i] == [rows[0]] + rows[1..i];
      assert Hits(rows[..i]) == (if rows[0].hit then rows[0].lines else []) + Hits(rows[1..i]) by {
        assert rows[..i][1..] == rows[1..i];
      }
    } else {
      assert rows[..0] == [];
      assert Hits(rows[..0]) == [];
    }
  }

  /** The suggestion list is never empty, and it is the default list exactly when no row
      hit (given that no hit row's line is the first default line). */
  lemma SuggestDefaults(rows: seq<Row>, defaults: seq<string>)
    requires Productive(rows) && |defaults| > 0
    requires forall i :: 0 <= i < |rows| ==> defaults[0] !in rows[i].lines
    ensures |Suggest(rows, defaults)| > 0
    ensures Suggest(rows, defaults) == defaults <==> !AnyHit(rows)
    ensures !AnyHit(rows) <==> defaults[0] in Suggest(rows, defaults)
  {
    HitsEmpty(rows);
    if AnyHit(rows) {
      HitsFrom(rows, defaults[0]);
      assert Suggest(rows, defaults) == Hits(rows);
      assert defaults[0] !in Hits(rows);
    }
  }

  /** A line that no row adds is not among the hits. */
  lemma {:induction false} HitsFrom(rows: seq<Row>, line: string)
    requires forall i :: 0 <= i < |rows| ==> line !in rows[i].lines
    ensures line !in Hits(rows)
    decreases |rows|
  {
    if |rows| > 0 {
      assert line !in rows[0].lines;
      HitsFrom(rows[1..], line);
      assert forall i :: 0 <= i < |rows[1..]| ==> rows[1..][i] == rows[i + 1];
    }
  }
}
