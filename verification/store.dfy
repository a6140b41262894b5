/** The filesystem-as-database: each workflow state is a folder, and a task
    record's state is the folder that currently holds its file. */
module Store {
  import opened Wrappers
  import opened Text

  /** The folders the watchers and orchestrators use as states. */
  datatype Folder = Inbox | NeedsAction | PendingApproval | Approved | Rejected | Done

  /** One directory entry: a regular file with its text, or a sub-directory. */
  datatype Entry = File(content: string) | Directory

  type Dir = map<string, Entry>

  /** Folder name -> (file name -> entry). A folder that does not exist has no key. */
  type Store = map<Folder, Dir>

  /** The entries of a folder; a missing folder reads as empty. */
  function Contents(s: Store, f: Folder): Dir {
    if f in s then s[f] else map[]
  }

  /** The text of a regular file. */
  function TextOf(d: Dir, n: string): string
    requires n in d && d[n].File?
  {
    d[n].content
  }

  /** `mkdir(exist_ok=True)` for each of `fs`: those folders exist afterwards, no contents change. */
  function EnsureFolders(s: Store, fs: set<Folder>): (r: Store)
    ensures forall f :: f in r <==> f in s || f in fs
    ensures forall f :: Contents(r, f) == Contents(s, f)
  {
    map f | f in s.Keys + fs :: Contents(s, f)
  }

  /** Creating folders that already exist changes nothing. */
  lemma EnsureExisting(s: Store, fs: set<Folder>)
    requires fs <= s.Keys
    ensures EnsureFolders(s, fs) == s
  {
  }

  // ---------------------------------------------------------------------------
  // pathlib name arithmetic

  /** Index of the last `c` in `s`. */
  function LastIndexOfChar(s: string, c: char): (r: Option<nat>)
    ensures r.None? <==> c !in s
    ensures r.Some? ==> r.value < |s| && s[r.value] == c && c !in s[r.value + 1..]
    decreases |s|
  {
    if |s| == 0 then None
    else if s[|s| - 1] == c then Some(|s| - 1)
    else
      var r := LastIndexOfChar(s[..|s| - 1], c);
      assert r.Some? ==> s[r.value + 1..] == s[..|s| - 1][r.value + 1..] + [s[|s| - 1]];
      r
  }

  /** `Path(name).suffix`: from the last dot, unless that dot leads or ends the name. */
  function Suffix(name: string): string {
    match LastIndexOfChar(name, '.')
    case Some(i) => if 0 < i < |name| - 1 then name[i..] else ""
    case None => ""
  }

  /** `Path(name).stem`: the name without its suffix. */
  function Stem(name: string): (r: string)
    ensures r + Suffix(name) == name
  {
    match LastIndexOfChar(name, '.')
    case Some(i) => if 0 < i < |name| - 1 then name[..i] else name
    case None => name
  }

  /** `Path(name).suffix == '.md'`. */
  predicate HasMdSuffix(name: string) {
    Suffix(name) == ".md"
  }

  /** The suffix test is "ends in .md and is longer than .md": a file named
      just `.md` has no suffix, because its only dot leads the name. */
  lemma {:induction false} MdSuffixCharacterization(name: string)
    ensures HasMdSuffix(name) <==> EndsWith(name, ".md") && |name| > 3
  {
    var li := LastIndexOfChar(name, '.');
    if EndsWith(name, ".md") && |name| > 3 {
      assert name[|name| - 3] == '.';
      assert name[|name| - 3 + 1..] == "md";
      assert li == Some(|name| - 3);
      assert name[|name| - 3..] == ".md";
    }
    if HasMdSuffix(name) {
      var i := li.value;
      assert name[i..] == ".md";
      assert |name| - i == 3;
    }
  }

  /** A name with the `.md` suffix has as stem the name less its last three characters. */
  lemma StemOfMd(name: string)
    requires HasMdSuffix(name)
    ensures Stem(name) == name[..|name| - 3]
    ensures name == Stem(name) + ".md"
  {
    MdSuffixCharacterization(name);
  }

  /** Appending `.md` to any non-empty stem gives a name with the `.md` suffix and that stem. */
  lemma {:induction false} MdSuffixOfAppended(stem: string)
    requires |stem| > 0
    ensures HasMdSuffix(stem + ".md")
    ensures Stem(stem + ".md") == stem
  {
    var n := stem + ".md";
    assert EndsWith(n, ".md");
    MdSuffixCharacterization(n);
    StemOfMd(n);
    assert n[..|n| - 3] == stem;
  }

  /** The `.md` regular files of a directory (`get_approved_files`, also used for Rejected). */
  function MdNames(d: Dir): (r: set<string>)
    ensures forall n :: n in r <==> n in d && d[n].File? && HasMdSuffix(n)
  {
    set n | n in d && d[n].File? && HasMdSuffix(n)
  }

  // ---------------------------------------------------------------------------
  // Moves

  /** The files a move leaves behind. */
  function Remaining(src: Dir, moved: map<string, string>): (r: Dir)
    ensures forall n :: n in r <==> n in src && n !in moved
    ensures forall n :: n in r ==> r[n] == src[n]
  {
    map n | n in src && n !in moved :: src[n]
  }

  /** The files a move brings under their own names: `name` holding `moved[name]`. */
  function Deposit(moved: map<string, string>): (r: Dir)
    ensures r.Keys == moved.Keys
    ensures forall n :: n in r ==> r[n] == File(moved[n])
  {
    map n | n in moved :: File(moved[n])
  }

  /** The files a move brings: `prefix + name` holding `moved[name]`, and nothing else. */
  function Arrivals(prefix: string, moved: map<string, string>): (r: Dir)
    ensures forall n :: n in moved ==> prefix + n in r && r[prefix + n] == File(moved[n])
    ensures forall m :: m in r ==> exists n :: n in moved && m == prefix + n
  {
    forall a, b | a in moved && b in moved && prefix + a == prefix + b ensures a == b {
      assert (prefix + a)[|prefix|..] == a && (prefix + b)[|prefix|..] == b;
    }
    var r := map n | n in moved :: prefix + n := File(moved[n]);
    assert forall n :: n in moved ==> prefix + n in r && r[prefix + n] == File(moved[n]);
    r
  }
}
