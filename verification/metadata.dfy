/** `read_file_metadata`: the defaults every task record starts from, the
    `---` frontmatter split, the flat `key: value` reader whose later lines
    overwrite earlier ones, and the type taken from the file name's prefix. */
module Metadata {
  import opened Wrappers
  import opened Text
  import opened Store

  /** The metadata dictionary: key -> value, every value a string. */
  type Meta = map<string, string>

  /** The dictionary before any frontmatter is read. */
  function Defaults(path: string, name: string, content: string): (m: Meta)
    ensures m.Keys == {"full_path", "content", "filename", "type", "priority", "from", "subject", "body"}
  {
    map["full_path" := path, "content" := content, "filename" := Stem(name), "type" := "unknown",
        "priority" := "normal", "from" := "", "subject" := "", "body" := content]
  }

  const Fence := "---"

  // ---------------------------------------------------------------------------
  // Frontmatter split: `content.split('---', 2)` on content that starts with `---`

  /** The frontmatter text and the body, when the content opens with `---` and a
      second `---` follows; `None` when `split` yields fewer than three parts. */
  function SplitFrontmatter(content: string): (r: Option<(string, string)>)
    ensures r.Some? <==> StartsWith(content, Fence) && exists j :: 3 <= j && OccursAt(content, Fence, j)
    ensures r.Some? ==> content == Fence + r.value.0 + Fence + r.value.1
    ensures r.Some? ==> !Contains(r.value.0 + "--", Fence)
  {
    if !StartsWith(content, Fence) then None
    else match IndexOf(content, Fence, 3)
      case None => None
      case Some(j) =>
        var yaml := content[3..j];
        assert content == Fence + yaml + Fence + content[j + 3..] by {
          assert content[..3] == Fence && content[j..j + 3] == Fence;
          assert content == content[..3] + content[3..j] + content[j..j + 3] + content[j + 3..];
        }
        forall i | 0 <= i <= |yaml + "--"| ensures !OccursAt(yaml + "--", Fence, i) {
          if OccursAt(yaml + "--", Fence, i) {
            assert (yaml + "--")[i..i + 3] == content[3 + i..3 + i + 3];
            assert OccursAt(content, Fence, 3 + i);
          }
        }
        Some((yaml, content[j + 3..]))
  }

  /** The split undoes writing a frontmatter block: any text that does not itself
      close the block comes back as the frontmatter, the rest as the body. */
  lemma FrontmatterRoundTrip(yaml: string, body: string)
    requires !Contains(yaml + "--", Fence)
    ensures SplitFrontmatter(Fence + yaml + Fence + body) == Some((yaml, body))
  {
    var content := Fence + yaml + Fence + body;
    var j := 3 + |yaml|;
    assert OccursAt(content, Fence, j) by {
      assert content[j..j + 3] == Fence;
    }
    assert StartsWith(content, Fence) by {
      assert content[..3] == Fence;
    }
    forall k | 3 <= k < j ensures !OccursAt(content, Fence, k) {
      if OccursAt(content, Fence, k) {
        assert content[k..k + 3] == (yaml + "--")[k - 3..k];
        assert OccursAt(yaml + "--", Fence, k - 3);
      }
    }
    var r := SplitFrontmatter(content);
    assert IndexOf(content, Fence, 3) == Some(j);
    assert content[3..j] == yaml;
    assert content[j + 3..] == body;
  }

  // ---------------------------------------------------------------------------
  // Flat key: value lines

  /** A line with a colon is a pair. */
  predicate IsPair(line: string) {
    ':' in line
  }

  /** `key.strip()` of `line.split(':', 1)`. */
  function PairKey(line: string): string {
    Strip(BeforeFirst(line, ':'))
  }

  /** `value.strip()` of `line.split(':', 1)`. */
  function PairValue(line: string): string {
    Strip(AfterFirst(line, ':'))
  }

  /** Applies the pair lines in document order. */
  function ApplyPairs(m: Meta, lines: seq<string>): (r: Meta)
    ensures m.Keys <= r.Keys
    decreases |lines|
  {
    if |lines| == 0 then m
    else
      var line := lines[0];
      ApplyPairs(if IsPair(line) then m[PairKey(line) := PairValue(line)] else m, lines[1..])
  }

  /** Reference reading: the value of the last pair line with key `k`, if any. */
  function LastPair(k: string, lines: seq<string>): Option<string>
    decreases |lines|
  {
    if |lines| == 0 then None
    else
      var line := lines[|lines| - 1];
      if IsPair(line) && PairKey(line) == k then Some(PairValue(line))
      else LastPair(k, lines[..|lines| - 1])
  }

  lemma {:induction false} ApplyPairsAppend(m: Meta, lines: seq<string>, line: string)
    ensures ApplyPairs(m, lines + [line])
         == if IsPair(line) then ApplyPairs(m, lines)[PairKey(line) := PairValue(line)] else ApplyPairs(m, lines)
    decreases |lines|
  {
    if |lines| > 0 {
      var m' := if IsPair(lines[0]) then m[PairKey(lines[0]) := PairValue(lines[0])] else m;
      assert (lines + [line])[1..] == lines[1..] + [line];
      ApplyPairsAppend(m', lines[1..], line);
    }
  }

  /** Later lines overwrite earlier ones: a key read from the frontmatter holds the
      value of its last pair line, and a key no line names keeps its previous value. */
  lemma {:induction false} ApplyPairsLastWins(m: Meta, lines: seq<string>, k: string)
    ensures var r := ApplyPairs(m, lines);
      match LastPair(k, lines)
      case Some(v) => k in r && r[k] == v
      case None => (k in r <==> k in m) && (k in m ==> r[k] == m[k])
    decreases |lines|
  {
    if |lines| > 0 {
      var init := lines[..|lines| - 1];
      var line := lines[|lines| - 1];
      assert lines == init + [line];
      ApplyPairsAppend(m, init, line);
      ApplyPairsLastWins(m, init, k);
      var before := ApplyPairs(m, init);
      if IsPair(line) && PairKey(line) == k {
        assert LastPair(k, lines) == Some(PairValue(line));
        assert ApplyPairs(m, lines) == before[k := PairValue(line)];
      } else {
        assert LastPair(k, lines) == LastPair(k, init);
        if IsPair(line) {
          assert ApplyPairs(m, lines) == before[PairKey(line) := PairValue(line)];
        }
      }
    }
  }

  // ---------------------------------------------------------------------------
  // The whole reader

  /** The type a file name's prefix implies, if any. */
  function TypeFromName(filename: string): Option<string> {
    if StartsWith(filename, "EMAIL_") then Some("email")
    else if StartsWith(filename, "WHATSAPP_") then Some("whatsapp")
    else if StartsWith(filename, "FILE_") then Some("file")
    else None
  }

  /** The frontmatter lines: the block stripped and cut at newlines. */
  function FrontmatterLines(yaml: string): seq<string> {
    Split(Strip(yaml), '\n')
  }

  /** `read_file_metadata(path)` for a file called `name` holding `content`. */
  function ReadMetadata(path: string, name: string, content: string): (m: Meta)
    ensures Defaults(path, name, content).Keys <= m.Keys
  {
    var d := Defaults(path, name, content);
    match SplitFrontmatter(content)
    case None => d
    case Some((yaml, body)) => Typed(ApplyPairs(d["body" := body], FrontmatterLines(yaml)))
  }

  /** The type overwrite that ends the frontmatter branch. */
  function Typed(m: Meta): (r: Meta)
    requires "filename" in m && "type" in m
    ensures r.Keys == m.Keys && r["filename"] == m["filename"]
    ensures r["type"] == TypeFromName(m["filename"]).GetOr(m["type"])
    ensures forall k :: k in m && k != "type" ==> r[k] == m[k]
  {
    match TypeFromName(m["filename"])
    case Some(t) => m["type" := t]
    case None => m
  }

  /** What the frontmatter branch reads, spelled out once. */
  lemma ReadFrontmatter(path: string, name: string, yaml: string, body: string)
    requires !Contains(yaml + "--", Fence)
    ensures var content := Fence + yaml + Fence + body;
      ReadMetadata(path, name, content)
      == Typed(ApplyPairs(Defaults(path, name, content)["body" := body], FrontmatterLines(yaml)))
  {
    FrontmatterRoundTrip(yaml, body);
  }

  /** Without a complete frontmatter block every field keeps its default: type
      `unknown`, priority `normal`, no sender or subject, and the whole text as body. */
  lemma NoFrontmatterDefaults(path: string, name: string, content: string)
    requires !StartsWith(content, Fence) || forall j :: 3 <= j ==> !OccursAt(content, Fence, j)
    ensures var m := ReadMetadata(path, name, content);
      && m["type"] == "unknown" && m["priority"] == "normal" && m["from"] == "" && m["subject"] == ""
      && m["body"] == content && m["content"] == content && m["filename"] == Stem(name)
  {
  }

  /** With a frontmatter block, every key other than `type` holds its last value in the
      block, or its default when no line names it (the body default being the text
      after the closing `---`). */
  lemma FrontmatterFields(path: string, name: string, yaml: string, body: string, k: string)
    requires !Contains(yaml + "--", Fence)
    requires k != "type"
    ensures var m := ReadMetadata(path, name, Fence + yaml + Fence + body);
      var base := Defaults(path, name, Fence + yaml + Fence + body)["body" := body];
      match LastPair(k, FrontmatterLines(yaml))
      case Some(v) => k in m && m[k] == v
      case None => (k in m <==> k in base) && (k in base ==> m[k] == base[k])
  {
    var content := Fence + yaml + Fence + body;
    ReadFrontmatter(path, name, yaml, body);
    var base := Defaults(path, name, content)["body" := body];
    ApplyPairsLastWins(base, FrontmatterLines(yaml), k);
  }

  /** The file name and type the pair lines leave behind. */
  lemma PairsFilenameType(path: string, name: string, content: string, body: string, lines: seq<string>)
    ensures var m := ApplyPairs(Defaults(path, name, content)["body" := body], lines);
      && "filename" in m && m["filename"] == LastPair("filename", lines).GetOr(Stem(name))
      && "type" in m && m["type"] == LastPair("type", lines).GetOr("unknown")
  {
    var base := Defaults(path, name, content)["body" := body];
    assert base["filename"] == Stem(name) && base["type"] == "unknown";
    ApplyPairsLastWins(base, lines, "filename");
    ApplyPairsLastWins(base, lines, "type");
  }

  /** With a frontmatter block the type comes from the prefix of the file name (as the
      block may have overwritten it); only when no prefix matches does the block's own
      `type` line, or the default `unknown`, stand. */
  lemma FrontmatterType(path: string, name: string, yaml: string, body: string)
    requires !Contains(yaml + "--", Fence)
    ensures var m := ReadMetadata(path, name, Fence + yaml + Fence + body);
      var filename := LastPair("filename", FrontmatterLines(yaml)).GetOr(Stem(name));
      m["filename"] == filename
      && m["type"] == TypeFromName(filename).GetOr(LastPair("type", FrontmatterLines(yaml)).GetOr("unknown"))
  {
    var content := Fence + yaml + Fence + body;
    ReadFrontmatter(path, name, yaml, body);
    PairsFilenameType(path, name, content, body, FrontmatterLines(yaml));
  }
}
