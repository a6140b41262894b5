/** The approval document: the line scanner that recovers an action and its
    fields from a hand-editable markdown file, and the dispatcher that turns
    the recovered action into a backend call. */
module Approval {
  import opened Wrappers
  import opened Text

  // ---------------------------------------------------------------------------
  // Parsed form

  /** The keyed fields the scanner fills in, one line at a time. */
  datatype Field = Action | To | Subject | Attachment | Cc | SourcePlan

  /** What the parser returns: every field is absent (`None`) until a line sets it. */
  datatype Parsed = Parsed(
    action: Option<string>,
    to: Option<string>,
    subject: Option<string>,
    body: Option<string>,
    attachment: Option<string>,
    cc: Option<string>,
    sourcePlan: Option<string>)

  /** The scanner's state between lines: fields found so far and the body capture. */
  datatype Scan = Scan(found: map<Field, string>, inBody: bool, bodyLines: seq<string>)

  const Start := Scan(map[], false, [])

  function Get(found: map<Field, string>, f: Field): Option<string> {
    if f in found then Some(found[f]) else None
  }

  function FieldOf(p: Parsed, f: Field): Option<string> {
    match f
    case Action => p.action
    case To => p.to
    case Subject => p.subject
    case Attachment => p.attachment
    case Cc => p.cc
    case SourcePlan => p.sourcePlan
  }

  // ---------------------------------------------------------------------------
  // Per-line rules

  /** `v.strip().strip('"').strip()`: the clean-up applied to keyed values. */
  function Clean(v: string): string {
    Strip(StripChars(Strip(v), {'"'}))
  }

  /** The value part of a keyed line: everything after its first colon. */
  function ValueOf(line: string): string {
    AfterFirst(line, ':')
  }

  /** A title (`# Approval Required: ...`) or `## Action: ...` line. */
  predicate IsActionHeading(lower: string) {
    StartsWith(lower, "# approval required:") || StartsWith(lower, "## action:")
  }

  /** The action a heading names, by the first keyword that matches; `None` keeps the old one. */
  function HeadingAction(lower: string): Option<string> {
    if Contains(lower, "email") then Some("send_email")
    else if Contains(lower, "whatsapp") || Contains(lower, "message") then Some("send_message")
    else if Contains(lower, "payment") then Some("process_payment")
    else if Contains(lower, "schedule") || Contains(lower, "meeting") then Some("schedule_meeting")
    else None
  }

  /** The attachment a line carries, unless it is empty or `none` in any case. */
  function AttachmentValue(line: string): Option<string> {
    var v := Strip(ValueOf(line));
    if v != "" && Lower(v) != "none" then Some(Strip(StripChars(v, {'"'}))) else None
  }

  function SetAttachment(found: map<Field, string>, att: Option<string>): map<Field, string> {
    match att
    case Some(a) => found[Attachment := a]
    case None => found
  }

  predicate IsBodyStart(lower: string) {
    StartsWith(lower, "- **body:**") || StartsWith(lower, "- body:")
  }

  /** A line that ends a body capture: a `## ` heading, a rule, or an open checkbox. */
  predicate IsBodyStop(stripped: string) {
    StartsWith(stripped, "## ") || StartsWith(stripped, "---") || StartsWith(stripped, "- [ ]")
  }

  /** Block 1 of the loop body: a title or `## Action:` heading names the action by keyword. */
  function HeadingBlock(found: map<Field, string>, lower: string): map<Field, string> {
    if IsActionHeading(lower) && HeadingAction(lower).Some? then found[Action := HeadingAction(lower).value]
    else found
  }

  /** Block 2 of the loop body: frontmatter-style `key: value` lines. */
  function KeyBlock(found: map<Field, string>, line: string, lower: string, att: Option<string>): map<Field, string> {
    if StartsWith(lower, "action:") then found[Action := Strip(ValueOf(line))]
    else if StartsWith(lower, "to:") then found[To := Clean(ValueOf(line))]
    else if StartsWith(lower, "subject:") then found[Subject := Clean(ValueOf(line))]
    else if StartsWith(lower, "attachment:") then SetAttachment(found, att)
    else if StartsWith(lower, "cc:") then found[Cc := Clean(ValueOf(line))]
    else if StartsWith(lower, "source plan:") then found[SourcePlan := Clean(ValueOf(line))]
    else found
  }

  /** The `to` bullet of block 3 (the source also tests `'to:' in line_lower`). */
  predicate ToBullet(lower: string) {
    StartsWith(lower, "- **to:**") || (StartsWith(lower, "- to:") && Contains(lower, "to:"))
  }

  predicate SubjectBullet(lower: string) {
    StartsWith(lower, "- **subject:**") || (StartsWith(lower, "- subject:") && Contains(lower, "subject:"))
  }

  predicate AttachmentBullet(lower: string) {
    StartsWith(lower, "- **attachment:**") || StartsWith(lower, "- attachment:")
  }

  /** Block 3's field bullets, which come first in its `elif` chain. */
  predicate FieldBullet(lower: string) {
    ToBullet(lower) || SubjectBullet(lower) || AttachmentBullet(lower)
  }

  /** What block 3 does to the fields: only its field bullets set one. */
  function BulletFound(found: map<Field, string>, line: string, lower: string, att: Option<string>): map<Field, string> {
    if ToBullet(lower) then found[To := Clean(ValueOf(line))]
    else if SubjectBullet(lower) then found[Subject := Clean(ValueOf(line))]
    else if AttachmentBullet(lower) then SetAttachment(found, att)
    else found
  }

  /** What block 3 does to the body capture: a field bullet leaves it alone; otherwise a
      body-start bullet opens it (keeping any text after the colon), and inside a body a
      stop line closes it and any other non-blank line is kept. */
  function BodyStep(st: Scan, line: string, stripped: string, lower: string): (bool, seq<string>) {
    if FieldBullet(lower) then (st.inBody, st.bodyLines)
    else if IsBodyStart(lower) then
      var first := Strip(ValueOf(line));
      (true, if first != "" then st.bodyLines + [Strip(StripChars(StripChars(first, {'"'}), {'>', ' '}))] else st.bodyLines)
    else if st.inBody then
      if IsBodyStop(stripped) then (false, st.bodyLines)
      else if stripped != "" then (true, st.bodyLines + [RStrip(StripChars(line, {'>', ' '}), Whitespace)])
      else (true, st.bodyLines)
    else (false, st.bodyLines)
  }

  /** Block 3 of the loop body: bullet lines, the start of the body, and lines inside it.
      `inBody` and `bodyLines` are those before the line; `found` is after blocks 1 and 2. */
  function BulletBlock(st: Scan, found: map<Field, string>, line: string, stripped: string, lower: string, att: Option<string>): Scan {
    var body := BodyStep(st, line, stripped, lower);
    Scan(BulletFound(found, line, lower, att), body.0, body.1)
  }

  /** One iteration of the scanning loop: its three blocks in order, on the
      stripped, lower-cased line. */
  function ScanLine(st: Scan, line: string): Scan {
    var stripped := Strip(line);
    ScanLineAs(st, line, stripped, Lower(stripped))
  }

  /** The loop body with the line's stripped and lower-cased forms given. */
  function ScanLineAs(st: Scan, line: string, stripped: string, lower: string): Scan {
    var att := AttachmentValue(line);
    BulletBlock(st, KeyBlock(HeadingBlock(st.found, lower), line, lower, att), line, stripped, lower, att)
  }

  function ScanLines(st: Scan, lines: seq<string>): Scan
    decreases |lines|
  {
    if |lines| == 0 then st else ScanLines(ScanLine(st, lines[0]), lines[1..])
  }

  /** `parse_approval_file`: scan `content.split('\n')`; the body is the captured
      lines joined by newlines, or `None` when nothing was captured. */
  function ParseApproval(content: string): Parsed {
    var st := ScanLines(Start, Split(content, '\n'));
    Parsed(
      Get(st.found, Action),
      Get(st.found, To),
      Get(st.found, Subject),
      if st.bodyLines == [] then None else Some(Join(st.bodyLines, '\n')),
      Get(st.found, Attachment),
      Get(st.found, Cc),
      Get(st.found, SourcePlan))
  }

  /** The parsed document's field `f` is what the scan found for it. */
  lemma ParsedFieldIsFound(content: string, f: Field)
    ensures FieldOf(ParseApproval(content), f) == Get(ScanLines(Start, Split(content, '\n')).found, f)
  {
  }

  /** Every keyed field of the parsed document is the value the last line setting it gives. */
  lemma ParseApprovalFields(content: string)
    ensures forall f :: FieldOf(ParseApproval(content), f) == LastUpdate(f, Split(content, '\n'))
  {
    var lines := Split(content, '\n');
    forall f ensures FieldOf(ParseApproval(content), f) == LastUpdate(f, lines) {
      ParsedFieldIsFound(content, f);
      ScanLinesField(Start, lines, f);
    }
  }

  /** The body is the reference's captured lines joined by newlines, or `None` when
      there are none; splitting it at newlines gives those lines back. A body is only
      ever found after a body-start bullet. */
  lemma ParseApprovalBody(content: string)
    ensures var captured := CapturedLines(Split(content, '\n'));
            ParseApproval(content).body == if captured == [] then None else Some(Join(captured, '\n'))
    ensures ParseApproval(content).body.Some? ==>
              Split(ParseApproval(content).body.value, '\n') == CapturedLines(Split(content, '\n'))
    ensures ParseApproval(content).body.Some? ==>
              exists i :: 0 <= i < |Split(content, '\n')| && IsBodyStart(Lower(Strip(Split(content, '\n')[i])))
  {
    var lines := Split(content, '\n');
    ScanLinesBody(lines);
    var captured := CapturedLines(lines);
    if captured != [] {
      var roles := Roles(lines);
      forall i | 0 <= i < |roles| ensures RoleFree(roles[i]) {
        RoleNoNewline(lines[i]);
      }
      CapturedNoNewline(roles);
      SplitJoin(captured, '\n');
    }
    if !exists i :: 0 <= i < |lines| && IsBodyStart(Lower(Strip(lines[i]))) {
      NoBodyStartNoBody(Start, lines);
    }
  }

  // ---------------------------------------------------------------------------
  // Reference semantics of the keyed fields: the last line that speaks wins

  /** What one line says about one field, read field by field rather than block by block. */
  function Update(f: Field, line: string): Option<string> {
    UpdateAs(f, line, Lower(Strip(line)))
  }

  function UpdateAs(f: Field, line: string, lower: string): Option<string> {
    match f
    case Action =>
      if StartsWith(lower, "action:") then Some(Strip(ValueOf(line)))
      else if IsActionHeading(lower) then HeadingAction(lower)
      else None
    case To =>
      if StartsWith(lower, "to:") || StartsWith(lower, "- **to:**") || StartsWith(lower, "- to:") then Some(Clean(ValueOf(line)))
      else None
    case Subject =>
      if StartsWith(lower, "subject:") || StartsWith(lower, "- **subject:**") || StartsWith(lower, "- subject:") then Some(Clean(ValueOf(line)))
      else None
    case Attachment =>
      if StartsWith(lower, "attachment:") || StartsWith(lower, "- **attachment:**") || StartsWith(lower, "- attachment:") then AttachmentValue(line)
      else None
    case Cc =>
      if StartsWith(lower, "cc:") then Some(Clean(ValueOf(line))) else None
    case SourcePlan =>
      if StartsWith(lower, "source plan:") then Some(Clean(ValueOf(line))) else None
  }

  /** A bold bullet keeps its closing stars: the value starts after the first colon,
      which sits inside the `**To:**` label, so whatever follows the label, the recipient
      read from the line is the cleaned rest of the line, and begins with `**`. */
  lemma BoldBulletKeepsStars(line: string)
    requires StartsWith(line, "- **To:**")
    ensures Update(To, line) == Some(Clean(line[7..]))
    ensures StartsWith(Clean(line[7..]), "**")
  {
    BoldLabelLower(line);
    BoldBulletUpdate(line, Lower(Strip(line)));
    BoldBulletValue(line);
    CleanKeepsStars(line[7..]);
  }

  /** A line that opens with the bold `To` label reads, stripped and lower-cased, as a bold `to` bullet. */
  lemma BoldLabelLower(line: string)
    requires StartsWith(line, "- **To:**")
    ensures StartsWith(Lower(Strip(line)), "- **to:**")
  {
    StripCharsKeepsPrefix(line, Whitespace, "- **To:**");
    var stripped := Strip(line);
    var lower := Lower(stripped);
    assert stripped[..9] == "- **To:**";
    assert lower[0] == '-' && lower[1] == ' ' && lower[2] == '*' && lower[3] == '*' && lower[4] == 't';
    assert lower[5] == 'o' && lower[6] == ':' && lower[7] == '*' && lower[8] == '*';
    assert lower[..9] == "- **to:**";
  }

  /** Cleaning a value that opens with `**` keeps the stars. */
  lemma CleanKeepsStars(x: string)
    requires StartsWith(x, "**")
    ensures StartsWith(Clean(x), "**")
  {
    StripCharsKeepsPrefix(x, Whitespace, "**");
    StripCharsKeepsPrefix(Strip(x), {'"'}, "**");
    StripCharsKeepsPrefix(StripChars(Strip(x), {'"'}), Whitespace, "**");
  }

  lemma BoldBulletUpdate(line: string, lower: string)
    requires StartsWith(lower, "- **to:**")
    ensures UpdateAs(To, line, lower) == Some(Clean(ValueOf(line)))
  {
    assert lower[0] == '-';
  }

  /** The value of a bold `To` bullet starts right after the label's colon. */
  lemma BoldBulletValue(line: string)
    requires StartsWith(line, "- **To:**")
    ensures ValueOf(line) == line[7..]
    ensures StartsWith(line[7..], "**")
  {
    assert line[..9] == "- **To:**";
    assert line[7..][..2] == line[7..9] == "**";
    assert line[6] == ':' && ':' !in line[..6];
    var r := AfterFirst(line, ':');
    var i :| 0 <= i < |line| && line[i] == ':' && ':' !in line[..i] && r == line[i + 1..];
  }

  /** A new value if there is one, the old one otherwise. */
  function Override(later: Option<string>, earlier: Option<string>): Option<string> {
    if later.Some? then later else earlier
  }

  /** The value of the last line that sets `f`, or `None` when no line does. */
  function LastUpdate(f: Field, lines: seq<string>): Option<string>
    decreases |lines|
  {
    if |lines| == 0 then None
    else match Update(f, lines[|lines| - 1])
      case Some(v) => Some(v)
      case None => LastUpdate(f, lines[..|lines| - 1])
  }

  /** Two prefixes that differ at position `k` cannot both start a string. */
  lemma DistinctStarts(s: string, p: string, q: string, k: nat)
    requires k < |p| && k < |q| && p[k] != q[k]
    ensures !(StartsWith(s, p) && StartsWith(s, q))
  {
    if StartsWith(s, p) && |q| <= |s| {
      assert s[..|q|][k] == s[..|p|][k];
    }
  }

  /** A `- to:` style bullet passes the source's redundant `key in line` test. */
  lemma BulletContainsKey(lower: string, key: string)
    requires StartsWith(lower, "- " + key)
    ensures Contains(lower, key)
  {
    assert lower[2..2 + |key|] == key;
    assert OccursAt(lower, key, 2);
  }

  // Block-level facts: within a block, at most one prefix matches, so each
  // field changes only on its own key.

  lemma KeyBlockAction(found: map<Field, string>, line: string, lower: string, att: Option<string>)
    ensures Get(KeyBlock(found, line, lower, att), Action) ==
      if StartsWith(lower, "action:") then Some(Strip(ValueOf(line))) else Get(found, Action)
  {
    if !StartsWith(lower, "action:") && !StartsWith(lower, "to:") && !StartsWith(lower, "subject:") && StartsWith(lower, "attachment:") {
      SetAttachmentOthers(found, att, Action);
    }
  }

  lemma KeyBlockTo(found: map<Field, string>, line: string, lower: string, att: Option<string>)
    ensures Get(KeyBlock(found, line, lower, att), To) ==
      if StartsWith(lower, "to:") then Some(Clean(ValueOf(line))) else Get(found, To)
  {
    DistinctStarts(lower, "action:", "to:", 0);
    SetAttachmentOthers(found, att, To);
  }

  lemma KeyBlockSubject(found: map<Field, string>, line: string, lower: string, att: Option<string>)
    ensures Get(KeyBlock(found, line, lower, att), Subject) ==
      if StartsWith(lower, "subject:") then Some(Clean(ValueOf(line))) else Get(found, Subject)
  {
    DistinctStarts(lower, "action:", "subject:", 0);
    DistinctStarts(lower, "to:", "subject:", 0);
  }

  lemma KeyBlockAttachment(found: map<Field, string>, line: string, lower: string, att: Option<string>)
    ensures Get(KeyBlock(found, line, lower, att), Attachment) ==
      if StartsWith(lower, "attachment:") then Override(att, Get(found, Attachment)) else Get(found, Attachment)
  {
    if StartsWith(lower, "attachment:") {
      KeyBlockAttachmentHit(found, line, lower, att);
    } else {
      KeyBlockAttachmentMiss(found, line, lower, att);
    }
  }

  lemma KeyBlockAttachmentHit(found: map<Field, string>, line: string, lower: string, att: Option<string>)
    requires StartsWith(lower, "attachment:")
    ensures KeyBlock(found, line, lower, att) == SetAttachment(found, att)
  {
    DistinctStarts(lower, "action:", "attachment:", 1);
    DistinctStarts(lower, "to:", "attachment:", 0);
    DistinctStarts(lower, "subject:", "attachment:", 0);
  }

  lemma KeyBlockAttachmentMiss(found: map<Field, string>, line: string, lower: string, att: Option<string>)
    requires !StartsWith(lower, "attachment:")
    ensures Get(KeyBlock(found, line, lower, att), Attachment) == Get(found, Attachment)
  {
    if StartsWith(lower, "action:") {
    } else if StartsWith(lower, "to:") {
    } else if StartsWith(lower, "subject:") {
    } else if StartsWith(lower, "cc:") {
    } else if StartsWith(lower, "source plan:") {
    }
  }

  lemma KeyBlockCc(found: map<Field, string>, line: string, lower: string, att: Option<string>)
    ensures Get(KeyBlock(found, line, lower, att), Cc) ==
      if StartsWith(lower, "cc:") then Some(Clean(ValueOf(line))) else Get(found, Cc)
  {
    DistinctStarts(lower, "action:", "cc:", 0);
    DistinctStarts(lower, "to:", "cc:", 0);
    DistinctStarts(lower, "subject:", "cc:", 0);
    DistinctStarts(lower, "attachment:", "cc:", 0);
  }

  lemma KeyBlockSourcePlan(found: map<Field, string>, line: string, lower: string, att: Option<string>)
    ensures Get(KeyBlock(found, line, lower, att), SourcePlan) ==
      if StartsWith(lower, "source plan:") then Some(Clean(ValueOf(line))) else Get(found, SourcePlan)
  {
    DistinctStarts(lower, "action:", "source plan:", 0);
    DistinctStarts(lower, "to:", "source plan:", 0);
    DistinctStarts(lower, "subject:", "source plan:", 1);
    DistinctStarts(lower, "attachment:", "source plan:", 0);
    DistinctStarts(lower, "cc:", "source plan:", 0);
  }

  lemma BulletBlockTo(st: Scan, found: map<Field, string>, line: string, stripped: string, lower: string, att: Option<string>)
    ensures Get(BulletBlock(st, found, line, stripped, lower, att).found, To) ==
      if StartsWith(lower, "- **to:**") || StartsWith(lower, "- to:") then Some(Clean(ValueOf(line))) else Get(found, To)
  {
    if StartsWith(lower, "- to:") {
      BulletContainsKey(lower, "to:");
    }
  }

  lemma BulletBlockSubject(st: Scan, found: map<Field, string>, line: string, stripped: string, lower: string, att: Option<string>)
    ensures Get(BulletBlock(st, found, line, stripped, lower, att).found, Subject) ==
      if StartsWith(lower, "- **subject:**") || StartsWith(lower, "- subject:") then Some(Clean(ValueOf(line))) else Get(found, Subject)
  {
    if StartsWith(lower, "- subject:") {
      BulletContainsKey(lower, "subject:");
    }
    DistinctStarts(lower, "- **to:**", "- **subject:**", 4);
    DistinctStarts(lower, "- **to:**", "- subject:", 2);
    DistinctStarts(lower, "- to:", "- **subject:**", 2);
    DistinctStarts(lower, "- to:", "- subject:", 2);
  }

  lemma BulletBlockAttachment(st: Scan, found: map<Field, string>, line: string, stripped: string, lower: string, att: Option<string>)
    ensures Get(BulletBlock(st, found, line, stripped, lower, att).found, Attachment) ==
      if StartsWith(lower, "- **attachment:**") || StartsWith(lower, "- attachment:") then Override(att, Get(found, Attachment)) else Get(found, Attachment)
  {
    DistinctStarts(lower, "- **to:**", "- **attachment:**", 4);
    DistinctStarts(lower, "- **to:**", "- attachment:", 2);
    DistinctStarts(lower, "- to:", "- **attachment:**", 2);
    DistinctStarts(lower, "- to:", "- attachment:", 2);
    DistinctStarts(lower, "- **subject:**", "- **attachment:**", 4);
    DistinctStarts(lower, "- **subject:**", "- attachment:", 2);
    DistinctStarts(lower, "- subject:", "- **attachment:**", 2);
    DistinctStarts(lower, "- subject:", "- attachment:", 2);
  }

  lemma BulletBlockOthers(st: Scan, found: map<Field, string>, line: string, stripped: string, lower: string, att: Option<string>, f: Field)
    requires f !in {To, Subject, Attachment}
    ensures Get(BulletBlock(st, found, line, stripped, lower, att).found, f) == Get(found, f)
  {
    SetAttachmentOthers(found, att, f);
  }

  lemma SetAttachmentOthers(found: map<Field, string>, att: Option<string>, f: Field)
    requires f != Attachment
    ensures Get(SetAttachment(found, att), f) == Get(found, f)
  {
  }

  /** The value of the first speaking block, heading before key before bullet. */
  function Speaking(hHit: bool, hVal: Option<string>, kHit: bool, kVal: Option<string>, bHit: bool, bVal: Option<string>): Option<string> {
    if hHit then hVal else if kHit then kVal else if bHit then bVal else None
  }

  /** Three blocks applied in turn, at most one of which speaks to a field: the field ends
      as the speaking block says, or as it was. */
  lemma ComposeBlocks(before: Option<string>, hv: Option<string>, kv: Option<string>, bv: Option<string>,
                      hHit: bool, hVal: Option<string>, kHit: bool, kVal: Option<string>, bHit: bool, bVal: Option<string>)
    requires hv == if hHit then Override(hVal, before) else before
    requires kv == if kHit then Override(kVal, hv) else hv
    requires bv == if bHit then Override(bVal, kv) else kv
    requires !(hHit && kHit) && !(hHit && bHit) && !(kHit && bHit)
    ensures bv == Override(Speaking(hHit, hVal, kHit, kVal, bHit, bVal), before)
  {
  }

  lemma UpdateAsAction(line: string, lower: string)
    ensures UpdateAs(Action, line, lower) ==
      Speaking(IsActionHeading(lower), HeadingAction(lower), StartsWith(lower, "action:"), Some(Strip(ValueOf(line))), false, None)
  {
    DistinctStarts(lower, "action:", "# approval required:", 0);
    DistinctStarts(lower, "action:", "## action:", 0);
  }

  lemma UpdateAsTo(line: string, lower: string)
    ensures UpdateAs(To, line, lower) ==
      Speaking(false, None, StartsWith(lower, "to:"), Some(Clean(ValueOf(line))),
               StartsWith(lower, "- **to:**") || StartsWith(lower, "- to:"), Some(Clean(ValueOf(line))))
  {
  }

  lemma UpdateAsSubject(line: string, lower: string)
    ensures UpdateAs(Subject, line, lower) ==
      Speaking(false, None, StartsWith(lower, "subject:"), Some(Clean(ValueOf(line))),
               StartsWith(lower, "- **subject:**") || StartsWith(lower, "- subject:"), Some(Clean(ValueOf(line))))
  {
  }

  lemma UpdateAsAttachment(line: string, lower: string)
    ensures UpdateAs(Attachment, line, lower) ==
      Speaking(false, None, StartsWith(lower, "attachment:"), AttachmentValue(line),
               StartsWith(lower, "- **attachment:**") || StartsWith(lower, "- attachment:"), AttachmentValue(line))
  {
  }

  lemma UpdateAsCc(line: string, lower: string)
    ensures UpdateAs(Cc, line, lower) == Speaking(false, None, StartsWith(lower, "cc:"), Some(Clean(ValueOf(line))), false, None)
  {
  }

  lemma UpdateAsSourcePlan(line: string, lower: string)
    ensures UpdateAs(SourcePlan, line, lower) ==
      Speaking(false, None, StartsWith(lower, "source plan:"), Some(Clean(ValueOf(line))), false, None)
  {
  }

  /** Block 1 touches only the action. */
  lemma HeadingBlockOthers(found: map<Field, string>, lower: string, f: Field)
    requires f != Action
    ensures Get(HeadingBlock(found, lower), f) == Get(found, f)
  {
  }

  lemma ScanLineAction(st: Scan, line: string, stripped: string, lower: string)
    ensures Get(ScanLineAs(st, line, stripped, lower).found, Action) == Override(UpdateAs(Action, line, lower), Get(st.found, Action))
  {
    var before := Get(st.found, Action);
    var h := HeadingBlock(st.found, lower);
    var att := AttachmentValue(line);
    var k := KeyBlock(h, line, lower, att);
    var b := BulletBlock(st, k, line, stripped, lower, att);
    assert Get(h, Action) == if IsActionHeading(lower) then Override(HeadingAction(lower), before) else before;
    KeyBlockAction(h, line, lower, att);
    BulletBlockOthers(st, k, line, stripped, lower, att, Action);
    DistinctStarts(lower, "action:", "# approval required:", 0);
    DistinctStarts(lower, "action:", "## action:", 0);
    ComposeBlocks(before, Get(h, Action), Get(k, Action), Get(b.found, Action),
                  IsActionHeading(lower), HeadingAction(lower), StartsWith(lower, "action:"), Some(Strip(ValueOf(line))), false, None);
    UpdateAsAction(line, lower);
  }

  lemma ScanLineTo(st: Scan, line: string, stripped: string, lower: string)
    ensures Get(ScanLineAs(st, line, stripped, lower).found, To) == Override(UpdateAs(To, line, lower), Get(st.found, To))
  {
    var before := Get(st.found, To);
    var h := HeadingBlock(st.found, lower);
    var att := AttachmentValue(line);
    var k := KeyBlock(h, line, lower, att);
    var b := BulletBlock(st, k, line, stripped, lower, att);
    var v := Some(Clean(ValueOf(line)));
    HeadingBlockOthers(st.found, lower, To);
    KeyBlockTo(h, line, lower, att);
    BulletBlockTo(st, k, line, stripped, lower, att);
    DistinctStarts(lower, "to:", "- **to:**", 0);
    DistinctStarts(lower, "to:", "- to:", 0);
    ComposeBlocks(before, Get(h, To), Get(k, To), Get(b.found, To),
                  false, None, StartsWith(lower, "to:"), v, StartsWith(lower, "- **to:**") || StartsWith(lower, "- to:"), v);
    UpdateAsTo(line, lower);
  }

  lemma ScanLineSubject(st: Scan, line: string, stripped: string, lower: string)
    ensures Get(ScanLineAs(st, line, stripped, lower).found, Subject) == Override(UpdateAs(Subject, line, lower), Get(st.found, Subject))
  {
    var before := Get(st.found, Subject);
    var h := HeadingBlock(st.found, lower);
    var att := AttachmentValue(line);
    var k := KeyBlock(h, line, lower, att);
    var b := BulletBlock(st, k, line, stripped, lower, att);
    var v := Some(Clean(ValueOf(line)));
    HeadingBlockOthers(st.found, lower, Subject);
    KeyBlockSubject(h, line, lower, att);
    BulletBlockSubject(st, k, line, stripped, lower, att);
    DistinctStarts(lower, "subject:", "- **subject:**", 0);
    DistinctStarts(lower, "subject:", "- subject:", 0);
    ComposeBlocks(before, Get(h, Subject), Get(k, Subject), Get(b.found, Subject),
                  false, None, StartsWith(lower, "subject:"), v, StartsWith(lower, "- **subject:**") || StartsWith(lower, "- subject:"), v);
    UpdateAsSubject(line, lower);
  }

  lemma ScanLineAttachment(st: Scan, line: string, stripped: string, lower: string)
    ensures Get(ScanLineAs(st, line, stripped, lower).found, Attachment) == Override(UpdateAs(Attachment, line, lower), Get(st.found, Attachment))
  {
    var before := Get(st.found, Attachment);
    var h := HeadingBlock(st.found, lower);
    var att := AttachmentValue(line);
    var k := KeyBlock(h, line, lower, att);
    var b := BulletBlock(st, k, line, stripped, lower, att);
    var v := AttachmentValue(line);
    HeadingBlockOthers(st.found, lower, Attachment);
    KeyBlockAttachment(h, line, lower, att);
    BulletBlockAttachment(st, k, line, stripped, lower, att);
    DistinctStarts(lower, "attachment:", "- **attachment:**", 0);
    DistinctStarts(lower, "attachment:", "- attachment:", 0);
    ComposeBlocks(before, Get(h, Attachment), Get(k, Attachment), Get(b.found, Attachment),
                  false, None, StartsWith(lower, "attachment:"), v, StartsWith(lower, "- **attachment:**") || StartsWith(lower, "- attachment:"), v);
    UpdateAsAttachment(line, lower);
  }

  lemma ScanLineCc(st: Scan, line: string, stripped: string, lower: string)
    ensures Get(ScanLineAs(st, line, stripped, lower).found, Cc) == Override(UpdateAs(Cc, line, lower), Get(st.found, Cc))
  {
    var before := Get(st.found, Cc);
    var h := HeadingBlock(st.found, lower);
    var att := AttachmentValue(line);
    var k := KeyBlock(h, line, lower, att);
    var b := BulletBlock(st, k, line, stripped, lower, att);
    HeadingBlockOthers(st.found, lower, Cc);
    KeyBlockCc(h, line, lower, att);
    BulletBlockOthers(st, k, line, stripped, lower, att, Cc);
    ComposeBlocks(before, Get(h, Cc), Get(k, Cc), Get(b.found, Cc),
                  false, None, StartsWith(lower, "cc:"), Some(Clean(ValueOf(line))), false, None);
    UpdateAsCc(line, lower);
  }

  lemma ScanLineSourcePlan(st: Scan, line: string, stripped: string, lower: string)
    ensures Get(ScanLineAs(st, line, stripped, lower).found, SourcePlan) == Override(UpdateAs(SourcePlan, line, lower), Get(st.found, SourcePlan))
  {
    var before := Get(st.found, SourcePlan);
    var h := HeadingBlock(st.found, lower);
    var att := AttachmentValue(line);
    var k := KeyBlock(h, line, lower, att);
    var b := BulletBlock(st, k, line, stripped, lower, att);
    HeadingBlockOthers(st.found, lower, SourcePlan);
    KeyBlockSourcePlan(h, line, lower, att);
    BulletBlockOthers(st, k, line, stripped, lower, att, SourcePlan);
    ComposeBlocks(before, Get(h, SourcePlan), Get(k, SourcePlan), Get(b.found, SourcePlan),
                  false, None, StartsWith(lower, "source plan:"), Some(Clean(ValueOf(line))), false, None);
    UpdateAsSourcePlan(line, lower);
  }

  /** The block-ordered scanner changes each field exactly as the field's own rule says. */
  lemma ScanLineField(st: Scan, line: string, f: Field)
    ensures Get(ScanLine(st, line).found, f) == Override(Update(f, line), Get(st.found, f))
  {
    var stripped := Strip(line);
    var lower := Lower(stripped);
    match f
    case Action => ScanLineAction(st, line, stripped, lower);
    case To => ScanLineTo(st, line, stripped, lower);
    case Subject => ScanLineSubject(st, line, stripped, lower);
    case Attachment => ScanLineAttachment(st, line, stripped, lower);
    case Cc => ScanLineCc(st, line, stripped, lower);
    case SourcePlan => ScanLineSourcePlan(st, line, stripped, lower);
  }

  /** Scanning a document sets each field to the value of the last line that sets it. */
  lemma {:induction false} ScanLinesField(st: Scan, lines: seq<string>, f: Field)
    ensures Get(ScanLines(st, lines).found, f) == Override(LastUpdate(f, lines), Get(st.found, f))
    decreases |lines|
  {
    if |lines| > 0 {
      var init := lines[..|lines| - 1];
      var last := lines[|lines| - 1];
      ScanLinesLast(st, lines, f);
      ScanLinesField(st, init, f);
      LastUpdateSnoc(f, lines);
      OverrideAssoc(Update(f, last), LastUpdate(f, init), Get(st.found, f));
    }
  }

  /** The last line of a document has the last word on each field. */
  lemma ScanLinesLast(st: Scan, lines: seq<string>, f: Field)
    requires |lines| > 0
    ensures Get(ScanLines(st, lines).found, f) ==
              Override(Update(f, lines[|lines| - 1]), Get(ScanLines(st, lines[..|lines| - 1]).found, f))
  {
    ScanLinesSnoc(st, lines);
    ScanLineField(ScanLines(st, lines[..|lines| - 1]), lines[|lines| - 1], f);
  }

  lemma LastUpdateSnoc(f: Field, lines: seq<string>)
    requires |lines| > 0
    ensures LastUpdate(f, lines) == Override(Update(f, lines[|lines| - 1]), LastUpdate(f, lines[..|lines| - 1]))
  {
  }

  lemma OverrideAssoc(a: Option<string>, b: Option<string>, c: Option<string>)
    ensures Override(a, Override(b, c)) == Override(Override(a, b), c)
  {
  }

  /** Scanning a non-empty document is scanning its last line after the others. */
  lemma ScanLinesSnoc(st: Scan, lines: seq<string>)
    requires |lines| > 0
    ensures ScanLines(st, lines) == ScanLine(ScanLines(st, lines[..|lines| - 1]), lines[|lines| - 1])
  {
    var init := lines[..|lines| - 1];
    var last := lines[|lines| - 1];
    assert lines == init + [last];
    ScanLinesAppend(st, init, [last]);
    assert ScanLines(ScanLines(st, init), [last]) == ScanLines(ScanLine(ScanLines(st, init), last), []);
  }

  /** Scanning a concatenation scans the second part from where the first left off. */
  lemma {:induction false} ScanLinesAppend(st: Scan, a: seq<string>, b: seq<string>)
    ensures ScanLines(st, a + b) == ScanLines(ScanLines(st, a), b)
    decreases |a|
  {
    if |a| > 0 {
      assert (a + b)[0] == a[0];
      assert (a + b)[1..] == a[1..] + b;
      ScanLinesAppend(ScanLine(st, a[0]), a[1..], b);
    } else {
      assert a + b == b;
    }
  }

  lemma BulletBlockOutsideBody(st: Scan, found: map<Field, string>, line: string, stripped: string, lower: string, att: Option<string>)
    requires !st.inBody && !IsBodyStart(lower)
    ensures !BulletBlock(st, found, line, stripped, lower, att).inBody
    ensures BulletBlock(st, found, line, stripped, lower, att).bodyLines == st.bodyLines
  {
  }

  /** One line that does not start a body leaves the scan outside a body. */
  lemma ScanLineOutsideBody(st: Scan, line: string)
    requires !st.inBody && !IsBodyStart(Lower(Strip(line)))
    ensures !ScanLine(st, line).inBody && ScanLine(st, line).bodyLines == st.bodyLines
  {
    var stripped := Strip(line);
    var att := AttachmentValue(line);
    var k := KeyBlock(HeadingBlock(st.found, Lower(stripped)), line, Lower(stripped), att);
    BulletBlockOutsideBody(st, k, line, stripped, Lower(stripped), att);
  }

  /** Outside a body, only a body-start line can begin a capture. */
  lemma {:induction false} NoBodyStartNoBody(st: Scan, lines: seq<string>)
    requires !st.inBody
    requires forall i :: 0 <= i < |lines| ==> !IsBodyStart(Lower(Strip(lines[i])))
    ensures !ScanLines(st, lines).inBody && ScanLines(st, lines).bodyLines == st.bodyLines
    decreases |lines|
  {
    if |lines| > 0 {
      ScanLineOutsideBody(st, lines[0]);
      assert forall i :: 0 <= i < |lines[1..]| ==> lines[1..][i] == lines[i + 1];
      NoBodyStartNoBody(ScanLine(st, lines[0]), lines[1..]);
    }
  }

  // ---------------------------------------------------------------------------
  // Reference semantics of the body: segments from a start line to a stop line

  /** What a line means for the body, whether or not a body is open. */
  datatype Role =
    | Opener(first: seq<string>)  // a body-start bullet, with its own value when it has one
    | Closer                      // a stop line: `## `, `---` or `- [ ]`
    | Kept(text: string)          // a non-blank line, kept when a body is open
    | Skipped                     // a field bullet or a blank line

  /** The text a body-start bullet contributes: its value with quotes and `> ` trimmed. */
  function StartText(line: string): string {
    Strip(StripChars(StripChars(Strip(ValueOf(line)), {'"'}), {'>', ' '}))
  }

  /** The text a line inside a body contributes: the line with `> ` trimmed. */
  function InnerText(line: string): string {
    RStrip(StripChars(line, {'>', ' '}), Whitespace)
  }

  /** A line's role, by block 3's `elif` chain: field bullets first, then a body start,
      then stop lines, then non-blank text. */
  function RoleAs(line: string, stripped: string, lower: string): Role {
    if FieldBullet(lower) then Skipped
    else if IsBodyStart(lower) then Opener(if Strip(ValueOf(line)) != "" then [StartText(line)] else [])
    else if IsBodyStop(stripped) then Closer
    else if stripped != "" then Kept(InnerText(line))
    else Skipped
  }

  function RoleOf(line: string): Role {
    RoleAs(line, Strip(line), Lower(Strip(line)))
  }

  /** The role of every line, in order. */
  function Roles(lines: seq<string>): (r: seq<Role>)
    ensures |r| == |lines|
  {
    seq(|lines|, i requires 0 <= i < |lines| => RoleOf(lines[i]))
  }

  /** A body is open after `roles` when the last opener or closer among them is an opener. */
  predicate OpenAfter(roles: seq<Role>)
    decreases |roles|
  {
    |roles| > 0 &&
    (roles[|roles| - 1].Opener? || (!roles[|roles| - 1].Closer? && OpenAfter(roles[..|roles| - 1])))
  }

  /** What a line adds to the body, given whether one is open before it. */
  function Piece(open: bool, role: Role): seq<string> {
    match role
    case Opener(first) => first
    case Kept(text) => if open then [text] else []
    case _ => []
  }

  /** The lines a body collects: every line's piece, in document order. */
  function Captured(roles: seq<Role>): seq<string>
    decreases |roles|
  {
    if |roles| == 0 then []
    else Captured(roles[..|roles| - 1]) + Piece(OpenAfter(roles[..|roles| - 1]), roles[|roles| - 1])
  }

  function CapturedLines(lines: seq<string>): seq<string> {
    Captured(Roles(lines))
  }

  /** Block 3's body capture, read through the roles: the capture is open after the line
      exactly when the line opens it, or it was open and the line does not close it; the
      line adds its piece. */
  lemma BodyStepPiece(st: Scan, line: string, stripped: string, lower: string)
    ensures var role := RoleAs(line, stripped, lower);
            BodyStep(st, line, stripped, lower).0 == (role.Opener? || (!role.Closer? && st.inBody))
    ensures BodyStep(st, line, stripped, lower).1 == st.bodyLines + Piece(st.inBody, RoleAs(line, stripped, lower))
  {
    if FieldBullet(lower) {
      assert st.bodyLines + [] == st.bodyLines;
    } else if IsBodyStart(lower) {
      if Strip(ValueOf(line)) == "" {
        assert st.bodyLines + [] == st.bodyLines;
      }
    } else if st.inBody && !IsBodyStop(stripped) && stripped != "" {
    } else {
      assert st.bodyLines + [] == st.bodyLines;
    }
  }

  lemma BulletBlockBody(st: Scan, found: map<Field, string>, line: string, stripped: string, lower: string, att: Option<string>)
    ensures BulletBlock(st, found, line, stripped, lower, att).inBody == BodyStep(st, line, stripped, lower).0
    ensures BulletBlock(st, found, line, stripped, lower, att).bodyLines == BodyStep(st, line, stripped, lower).1
  {
  }

  /** One iteration of the loop, as far as the body is concerned. */
  lemma ScanLineBody(st: Scan, line: string)
    ensures ScanLine(st, line).inBody == (RoleOf(line).Opener? || (!RoleOf(line).Closer? && st.inBody))
    ensures ScanLine(st, line).bodyLines == st.bodyLines + Piece(st.inBody, RoleOf(line))
  {
    var stripped := Strip(line);
    var lower := Lower(stripped);
    var att := AttachmentValue(line);
    var k := KeyBlock(HeadingBlock(st.found, lower), line, lower, att);
    assert ScanLine(st, line) == BulletBlock(st, k, line, stripped, lower, att);
    BulletBlockBody(st, k, line, stripped, lower, att);
    BodyStepPiece(st, line, stripped, lower);
  }

  lemma RolesPrefix(lines: seq<string>, n: nat)
    requires n <= |lines|
    ensures Roles(lines[..n]) == Roles(lines)[..n]
  {
    assert forall k :: 0 <= k < n ==> Roles(lines[..n])[k] == Roles(lines)[k];
  }

  /** The scan collects exactly the reference's body lines and ends inside a body exactly
      when the reference says one is open. */
  lemma {:induction false} ScanLinesBody(lines: seq<string>)
    ensures ScanLines(Start, lines).inBody == OpenAfter(Roles(lines))
    ensures ScanLines(Start, lines).bodyLines == CapturedLines(lines)
    decreases |lines|
  {
    if |lines| > 0 {
      var n := |lines| - 1;
      var init := lines[..n];
      ScanLinesSnoc(Start, lines);
      ScanLinesBody(init);
      RolesPrefix(lines, n);
      ScanLineBody(ScanLines(Start, init), lines[n]);
    }
  }

  /** The piece line `i` yields, given the lines before it. */
  function PieceAt(roles: seq<Role>, i: nat): seq<string>
    requires i < |roles|
  {
    Piece(OpenAfter(roles[..i]), roles[i])
  }

  /** Some line yields a piece: a start line with a value, or a kept line while a body is open. */
  predicate YieldsPiece(roles: seq<Role>) {
    exists i :: 0 <= i < |roles| && PieceAt(roles, i) != []
  }

  /** A document collects body lines exactly when one of its lines yields a piece. */
  lemma {:induction false} CapturedNonEmpty(roles: seq<Role>)
    ensures Captured(roles) != [] <==> YieldsPiece(roles)
    decreases |roles|
  {
    if |roles| > 0 {
      var n := |roles| - 1;
      var init := roles[..n];
      var last := Piece(OpenAfter(init), roles[n]);
      CapturedNonEmpty(init);
      assert Captured(roles) == Captured(init) + last;
      if YieldsPiece(init) {
        var i :| 0 <= i < n && PieceAt(init, i) != [];
        assert init[..i] == roles[..i] && init[i] == roles[i];
        assert PieceAt(roles, i) != [];
      }
      if last != [] {
        assert PieceAt(roles, n) != [];
      }
      if YieldsPiece(roles) {
        var i :| 0 <= i < |roles| && PieceAt(roles, i) != [];
        if i < n {
          assert init[..i] == roles[..i] && init[i] == roles[i];
          assert PieceAt(init, i) != [];
        }
      }
    } else {
      assert !YieldsPiece(roles);
    }
  }

  /** No collected line holds a newline when no line of the document does. */
  lemma {:induction false} CapturedNoNewline(roles: seq<Role>)
    requires forall i :: 0 <= i < |roles| ==> RoleFree(roles[i])
    ensures forall k :: 0 <= k < |Captured(roles)| ==> '\n' !in Captured(roles)[k]
    decreases |roles|
  {
    if |roles| > 0 {
      CapturedNoNewline(roles[..|roles| - 1]);
    }
  }

  /** A role whose texts hold no newline. */
  predicate RoleFree(role: Role) {
    (role.Opener? ==> forall k :: 0 <= k < |role.first| ==> '\n' !in role.first[k]) &&
    (role.Kept? ==> '\n' !in role.text)
  }

  /** The texts a role carries are the line's start text or inner text. */
  lemma RoleTexts(line: string, stripped: string, lower: string)
    ensures var r := RoleAs(line, stripped, lower);
            (r.Opener? ==> r.first == [] || r.first == [StartText(line)]) && (r.Kept? ==> r.text == InnerText(line))
  {
    if FieldBullet(lower) {
    } else if IsBodyStart(lower) {
    } else if IsBodyStop(stripped) {
    } else if stripped != "" {
    }
  }

  lemma RoleNoNewline(line: string)
    requires '\n' !in line
    ensures RoleFree(RoleOf(line))
  {
    RoleTexts(line, Strip(line), Lower(Strip(line)));
    StartTextNoNewline(line);
    InnerTextNoNewline(line);
    RoleFreeOf(RoleOf(line), StartText(line), InnerText(line));
  }

  /** A role whose texts are two newline-free strings is newline-free. */
  lemma RoleFreeOf(r: Role, start: string, inner: string)
    requires r.Opener? ==> r.first == [] || r.first == [start]
    requires r.Kept? ==> r.text == inner
    requires '\n' !in start && '\n' !in inner
    ensures RoleFree(r)
  {
  }

  lemma StartTextNoNewline(line: string)
    requires '\n' !in line
    ensures '\n' !in StartText(line)
  {
    var v := ValueOf(line);
    assert '\n' !in v by {
      assert forall j :: 0 <= j < |v| ==> v[j] in line;
    }
    StripKeepsOut(v, Whitespace, '\n');
    var first := Strip(v);
    StripKeepsOut(first, {'"'}, '\n');
    StripKeepsOut(StripChars(first, {'"'}), {'>', ' '}, '\n');
    StripKeepsOut(StripChars(StripChars(first, {'"'}), {'>', ' '}), Whitespace, '\n');
  }

  lemma InnerTextNoNewline(line: string)
    requires '\n' !in line
    ensures '\n' !in InnerText(line)
  {
    StripKeepsOut(line, {'>', ' '}, '\n');
    StripKeepsOut(StripChars(line, {'>', ' '}), Whitespace, '\n');
  }

  /** A body is open after `roles` exactly when some line opens it and no later line
      closes it: the body runs from a start line to the next stop line. */
  lemma {:induction false} OpenAfterSegment(roles: seq<Role>)
    ensures OpenAfter(roles) <==>
              exists j :: 0 <= j < |roles| && roles[j].Opener? && forall k :: j < k < |roles| ==> !roles[k].Closer?
    decreases |roles|
  {
    if |roles| > 0 {
      var n := |roles| - 1;
      var init := roles[..n];
      OpenAfterSegment(init);
      assert forall i :: 0 <= i < n ==> init[i] == roles[i];
      if OpenAfter(roles) {
        if !roles[n].Opener? {
          var j :| 0 <= j < n && init[j].Opener? && forall k :: j < k < n ==> !init[k].Closer?;
          assert roles[j].Opener?;
        }
      } else {
        forall j | 0 <= j < |roles| && roles[j].Opener?
          ensures exists k :: j < k < |roles| && roles[k].Closer?
        {
          if j < n && !roles[n].Closer? {
            assert init[j].Opener?;
          }
        }
      }
    }
  }

  /** Every piece a line yields is among the lines the document collects. */
  lemma {:induction false} PieceInCaptured(roles: seq<Role>, i: nat)
    requires i < |roles|
    ensures forall t :: t in PieceAt(roles, i) ==> t in Captured(roles)
    decreases |roles|
  {
    var n := |roles| - 1;
    if i < n {
      PieceInCaptured(roles[..n], i);
      assert roles[..n][..i] == roles[..i];
    }
  }

  /** No body-start bullet is a field bullet. */
  lemma BodyStartNotField(lower: string)
    requires IsBodyStart(lower)
    ensures !FieldBullet(lower)
  {
    if StartsWith(lower, "- **body:**") {
      DistinctStarts(lower, "- **body:**", "- **to:**", 4);
      DistinctStarts(lower, "- **body:**", "- to:", 2);
      DistinctStarts(lower, "- **body:**", "- **subject:**", 4);
      DistinctStarts(lower, "- **body:**", "- subject:", 2);
      DistinctStarts(lower, "- **body:**", "- **attachment:**", 4);
      DistinctStarts(lower, "- **body:**", "- attachment:", 2);
    } else {
      DistinctStarts(lower, "- body:", "- **to:**", 2);
      DistinctStarts(lower, "- body:", "- to:", 2);
      DistinctStarts(lower, "- body:", "- **subject:**", 2);
      DistinctStarts(lower, "- body:", "- subject:", 2);
      DistinctStarts(lower, "- body:", "- **attachment:**", 2);
      DistinctStarts(lower, "- body:", "- attachment:", 2);
    }
  }

  /** A body-start bullet opens a body, and collects its own value when it has one. */
  lemma StartLineOpens(line: string)
    requires IsBodyStart(Lower(Strip(line)))
    ensures RoleOf(line).Opener?
    ensures Strip(ValueOf(line)) != "" ==> RoleOf(line).first == [StartText(line)]
  {
    BodyStartNotField(Lower(Strip(line)));
  }

  /** A document has a body exactly when one of its lines yields a piece: a start line
      with a value, or a kept line while a body is open. */
  lemma BodyFoundIff(content: string)
    ensures ParseApproval(content).body.Some? <==> YieldsPiece(Roles(Split(content, '\n')))
  {
    var roles := Roles(Split(content, '\n'));
    assert ParseApproval(content).body.Some? <==> Captured(roles) != [] by {
      ParseApprovalBody(content);
    }
    CapturedNonEmpty(roles);
  }

  /** A body-start bullet with a value gives the document a body that holds that value,
      trimmed, as one of its lines. */
  lemma StartLineCaptured(content: string, i: nat)
    requires i < |Split(content, '\n')|
    requires IsBodyStart(Lower(Strip(Split(content, '\n')[i])))
    requires Strip(ValueOf(Split(content, '\n')[i])) != ""
    ensures ParseApproval(content).body.Some?
    ensures StartText(Split(content, '\n')[i]) in Split(ParseApproval(content).body.value, '\n')
  {
    var lines := Split(content, '\n');
    var roles := Roles(lines);
    StartLineOpens(lines[i]);
    assert PieceAt(roles, i) == [StartText(lines[i])];
    PieceInCaptured(roles, i);
    assert StartText(lines[i]) in Captured(roles);
    ParseApprovalBody(content);
    assert Split(ParseApproval(content).body.value, '\n') == Captured(roles);
  }

  /** A non-blank line that is neither a field bullet, a start line nor a stop line, after a
      body-start bullet with no stop line between them, is one of the body's lines. */
  lemma InsideLineCaptured(content: string, i: nat, j: nat)
    requires i < j < |Split(content, '\n')|
    requires IsBodyStart(Lower(Strip(Split(content, '\n')[i])))
    requires forall k :: i < k < j ==> !RoleOf(Split(content, '\n')[k]).Closer?
    requires RoleOf(Split(content, '\n')[j]).Kept?
    ensures ParseApproval(content).body.Some?
    ensures InnerText(Split(content, '\n')[j]) in Split(ParseApproval(content).body.value, '\n')
  {
    var lines := Split(content, '\n');
    var roles := Roles(lines);
    StartLineOpens(lines[i]);
    RoleTexts(lines[j], Strip(lines[j]), Lower(Strip(lines[j])));
    KeptInsideSegment(roles, i, j);
    assert PieceAt(roles, j) == [InnerText(lines[j])];
    PieceInCaptured(roles, j);
    assert InnerText(lines[j]) in Captured(roles);
    ParseApprovalBody(content);
    assert Split(ParseApproval(content).body.value, '\n') == Captured(roles);
  }

  /** A kept line after an opener, with no closer between them, yields its text. */
  lemma KeptInsideSegment(roles: seq<Role>, i: nat, j: nat)
    requires i < j < |roles|
    requires roles[i].Opener? && roles[j].Kept?
    requires forall k :: i < k < j ==> !roles[k].Closer?
    ensures PieceAt(roles, j) == [roles[j].text]
  {
    var pre := roles[..j];
    assert pre[i].Opener?;
    assert forall k :: i < k < |pre| ==> !pre[k].Closer?;
    OpenAfterSegment(pre);
    assert OpenAfter(pre);
  }

  // ---------------------------------------------------------------------------
  // Execution

  /** The arguments of the email backend's `send_email`. */
  datatype EmailRequest = EmailRequest(to: string, subject: string, body: string, attachment: Option<string>, cc: Option<string>)

  /** What the email backend returns. */
  datatype SendResult = SendResult(success: bool, message: string, messageId: Option<string>)

  /** The email backend: whether its module imported, and its send function. */
  datatype Mailer = Mailer(available: bool, send: EmailRequest -> SendResult)

  /** What `execute_approved_action` returns (the `details` entry is the parsed document). */
  datatype Outcome = Outcome(success: bool, message: string, action: Option<string>, messageId: Option<string>)

  /** Python truthiness of an optional string: present and non-empty. */
  predicate Truthy(o: Option<string>) {
    o.Some? && o.value != ""
  }

  /** The request handed to the backend; a missing or empty subject becomes `[No Subject]`. */
  function RequestOf(p: Parsed): EmailRequest
    requires Truthy(p.to) && Truthy(p.body)
  {
    EmailRequest(p.to.value, if Truthy(p.subject) then p.subject.value else "[No Subject]", p.body.value, p.attachment, p.cc)
  }

  /** Every action the dispatcher knows by name. */
  const KnownActions: set<string> := {"send_email", "send_message", "process_payment", "schedule_meeting"}

  const ManualActionNeeded := "manual action needed"

  /** The failure reported for an action no integration performs: a reason, then a request for a human. */
  function ManualOutcome(reason: string, action: Option<string>): (r: Outcome)
    ensures !r.success && EndsWith(r.message, ManualActionNeeded)
  {
    var msg := reason + ManualActionNeeded;
    assert msg[|msg| - |ManualActionNeeded|..] == ManualActionNeeded;
    Outcome(false, msg, action, None)
  }

  /** `execute_approved_action` on an already parsed document. */
  function Execute(p: Parsed, mailer: Mailer): (r: Outcome)
    ensures r.action == p.action
    // Success only ever comes from a successful backend call with a recipient and a body.
    ensures r.success ==> p.action == Some("send_email") && mailer.available && Truthy(p.to) && Truthy(p.body)
                          && mailer.send(RequestOf(p)).success
    ensures !Truthy(p.action) ==> r == Outcome(false, "Could not determine action type from approval file", p.action, None)
    ensures p.action == Some("send_email") && !mailer.available ==> !r.success && r.message == "Email MCP not available"
    ensures p.action == Some("send_email") && mailer.available && !Truthy(p.to) ==>
              !r.success && r.message == "Recipient email address not found"
    ensures p.action == Some("send_email") && mailer.available && Truthy(p.to) && !Truthy(p.body) ==>
              !r.success && r.message == "Email body not found"
    // With a recipient and a body the backend's verdict is passed through unchanged.
    ensures p.action == Some("send_email") && mailer.available && Truthy(p.to) && Truthy(p.body) ==>
              var sent := mailer.send(RequestOf(p));
              r.success == sent.success && r.message == sent.message && r.messageId == sent.messageId
    // Actions without an integration never succeed and ask for a human.
    ensures p.action in {Some("send_message"), Some("process_payment"), Some("schedule_meeting")} ==>
              !r.success && EndsWith(r.message, ManualActionNeeded)
    ensures Truthy(p.action) && p.action.value !in KnownActions ==>
              !r.success && r.message == "Unknown action type: " + p.action.value
  {
    if !Truthy(p.action) then Outcome(false, "Could not determine action type from approval file", p.action, None)
    else if p.action.value == "send_email" then
      if !mailer.available then Outcome(false, "Email MCP not available", p.action, None)
      else if !Truthy(p.to) then Outcome(false, "Recipient email address not found", p.action, None)
      else if !Truthy(p.body) then Outcome(false, "Email body not found", p.action, None)
      else
        var sent := mailer.send(RequestOf(p));
        Outcome(sent.success, sent.message, p.action, sent.messageId)
    else if p.action.value == "send_message" then
      ManualOutcome("WhatsApp messaging requires WhatsApp Business API - ", p.action)
    else if p.action.value == "process_payment" then
      ManualOutcome("Payment processing requires banking integration - ", p.action)
    else if p.action.value == "schedule_meeting" then
      ManualOutcome("Calendar scheduling requires integration - ", p.action)
    else Outcome(false, "Unknown action type: " + p.action.value, p.action, None)
  }

  /** `execute_approved_action(path)`: parse the file's text, then dispatch. */
  function ExecuteApproved(content: string, mailer: Mailer): (r: Outcome)
    ensures r.success ==> mailer.available && Truthy(LastUpdate(To, Split(content, '\n')))
    ensures r.action == LastUpdate(Action, Split(content, '\n'))
  {
    var p := ParseApproval(content);
    ParseApprovalFields(content);
    assert FieldOf(p, To) == p.to;
    assert FieldOf(p, Action) == p.action;
    Execute(p, mailer)
  }
}
