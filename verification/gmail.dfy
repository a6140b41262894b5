/** The Gmail watcher's decisions: the headers it keeps, the defaults for a
    missing sender or subject, the suggested actions, the record's name, and
    the `processed_ids` check on message ids. */
module Gmail {
  import opened Wrappers
  import opened Text
  import opened Store
  import opened Metadata
  import opened Classify
  import opened Intake

  /** One message header as the API returns it. */
  datatype Header = Header(name: string, value: string)

  /** The headers the watcher keeps, by lower-cased name. */
  const KeptHeaders: set<string> := {"from", "to", "subject", "date"}

  /** `_get_email_headers`: the kept headers by lower-cased name, applied in order. */
  function Headers(hs: seq<Header>): (r: map<string, string>)
    ensures r.Keys <= KeptHeaders
    decreases |hs|
  {
    if |hs| == 0 then map[]
    else
      var init := Headers(hs[..|hs| - 1]);
      var h := hs[|hs| - 1];
      var n := Lower(h.name);
      if n in KeptHeaders then init[n := h.value] else init
  }

  /** Reference reading: the value of the last header whose lower-cased name is `k`. */
  function LastHeader(k: string, hs: seq<Header>): Option<string>
    decreases |hs|
  {
    if |hs| == 0 then None
    else if Lower(hs[|hs| - 1].name) == k then Some(hs[|hs| - 1].value)
    else LastHeader(k, hs[..|hs| - 1])
  }

  /** A kept header holds the value of its last occurrence, in any case of its name;
      a kept header that never occurs is absent. */
  lemma {:induction false} HeadersLastWins(hs: seq<Header>, k: string)
    requires k in KeptHeaders
    ensures match LastHeader(k, hs)
      case Some(v) => k in Headers(hs) && Headers(hs)[k] == v
      case None => k !in Headers(hs)
    decreases |hs|
  {
    if |hs| > 0 {
      HeadersLastWins(hs[..|hs| - 1], k);
    }
  }

  /** `headers.get(k, default)`, as used for the sender (`'from'`, `'Unknown'`) and the
      subject (`'subject'`, `'No Subject'`). */
  function HeaderOr(hs: seq<Header>, k: string, default: string): (r: string)
    requires k in KeptHeaders
    ensures r == LastHeader(k, hs).GetOr(default)
  {
    HeadersLastWins(hs, k);
    var h := Headers(hs);
    if k in h then h[k] else default
  }

  // ---------------------------------------------------------------------------
  // Suggested actions

  const EmailDefaults: seq<string> :=
    ["- [ ] Read full email content", "- [ ] Determine required response/action",
     "- [ ] Respond or delegate as needed"]

  /** The suggestion table: every row tests the subject except the attachment row,
      which tests the snippet. */
  function EmailRows(subject: string, snippet: string): (rows: seq<Row>)
    ensures Productive(rows)
    ensures |rows| == 5
    ensures forall i :: 0 <= i < |rows| ==> EmailDefaults[0] !in rows[i].lines
  {
    var s := Lower(subject);
    [ Row(ContainsAny(s, ["meeting", "schedule", "calendar"]), ["- [ ] Review meeting details and add to calendar"]),
      Row(ContainsAny(s, ["invoice", "payment", "bill"]),
          ["- [ ] Process payment/invoice", "- [ ] Forward to accounting if needed"]),
      Row(ContainsAny(s, ["urgent", "asap", "immediate"]), ["- [ ] Prioritize - marked as urgent"]),
      Row(Contains(Lower(snippet), "attachment"), ["- [ ] Download and review attachments"]),
      Row(ContainsAny(s, ["review", "approve", "feedback"]), ["- [ ] Provide review/feedback"]) ]
  }

  /** `_generate_suggested_actions`. */
  function EmailSuggestions(subject: string, snippet: string): seq<string> {
    Suggest(EmailRows(subject, snippet), EmailDefaults)
  }

  /** The list is never empty, and the default lines appear exactly when nothing matched. */
  lemma EmailSuggestionsDefaults(subject: string, snippet: string)
    ensures |EmailSuggestions(subject, snippet)| > 0
    ensures EmailSuggestions(subject, snippet) == EmailDefaults <==> !AnyHit(EmailRows(subject, snippet))
    ensures EmailDefaults[0] in EmailSuggestions(subject, snippet) <==> !AnyHit(EmailRows(subject, snippet))
  {
    SuggestDefaults(EmailRows(subject, snippet), EmailDefaults);
  }

  /** Only the attachment row reads the snippet: a snippet change that keeps the
      word `attachment` present (or absent) leaves the suggestions unchanged. */
  lemma SnippetOnlyForAttachments(subject: string, a: string, b: string)
    requires Contains(Lower(a), "attachment") <==> Contains(Lower(b), "attachment")
    ensures EmailSuggestions(subject, a) == EmailSuggestions(subject, b)
  {
    assert EmailRows(subject, a) == EmailRows(subject, b);
  }

  // ---------------------------------------------------------------------------
  // The record's name

  const EmailPrefix := "EMAIL_"

  /** The record's stem: the prefix, the message id, and the subject sanitised to 30 characters. */
  function EmailStem(id: string, subject: string): string {
    EmailPrefix + id + "_" + Sanitize(subject, 30)
  }

  /** `EMAIL_<message_id>_<safe_subject>.md`: the clock reading is not part of the name. */
  function EmailFileName(id: string, subject: string): (n: string)
    ensures HasMdSuffix(n)
    ensures Stem(n) == EmailStem(id, subject)
  {
    MdSuffixOfAppended(EmailStem(id, subject));
    EmailStem(id, subject) + ".md"
  }

  /** Ids without `_` can be read back from the name: two messages with different such
      ids never share a record name. */
  lemma EmailNameKeepsId(a: string, sa: string, b: string, sb: string)
    requires '_' !in a && '_' !in b
    requires EmailFileName(a, sa) == EmailFileName(b, sb)
    ensures a == b
  {
    EmailNameShape(a, sa);
    EmailNameShape(b, sb);
    FieldBeforeSeparator(EmailPrefix, a, b, '_', Sanitize(sa, 30) + ".md", Sanitize(sb, 30) + ".md");
  }

  /** The name read as prefix, id, separator and the rest. */
  lemma EmailNameShape(id: string, subject: string)
    ensures EmailFileName(id, subject) == EmailPrefix + id + ['_'] + (Sanitize(subject, 30) + ".md")
  {
    var x := EmailPrefix + id + "_";
    var t := Sanitize(subject, 30);
    assert EmailFileName(id, subject) == x + t + ".md";
    assert x + t + ".md" == x + (t + ".md");
  }

  /** The name's prefix is one the metadata reader types as `email`. */
  lemma EmailNameTyped(id: string, subject: string)
    ensures TypeFromName(Stem(EmailFileName(id, subject))) == Some("email")
  {
    var stem := EmailStem(id, subject);
    assert stem[..|EmailPrefix|] == EmailPrefix;
  }

  /** A record written by the watcher (with a frontmatter block that names no `filename`)
      reads back as type `email` and is always categorised as an email. */
  lemma EmailRecordCategory(path: string, id: string, subject: string, yaml: string, body: string)
    requires !Contains(yaml + "--", Fence)
    requires LastPair("filename", FrontmatterLines(yaml)).None?
    ensures var m := ReadMetadata(path, EmailFileName(id, subject), Fence + yaml + Fence + body);
      && Readable(m)
      && m["type"] == "email"
      && Categorize(m).category == Email
  {
    var name := EmailFileName(id, subject);
    FrontmatterType(path, name, yaml, body);
    EmailNameTyped(id, subject);
  }

  // ---------------------------------------------------------------------------
  // De-duplication

  /** A message as the list call returns it. */
  datatype Message = Message(id: string, snippet: string)

  function MessageKey(m: Message): string {
    m.id
  }

  /** Every listed message is wanted; only the id decides. */
  predicate Listed(m: Message) {
    true
  }

  /** `check_for_new_items` over the messages of one poll. */
  function PollMessages(processed: set<string>, messages: seq<Message>): (r: Admitted<Message>)
    ensures forall m :: m in r.created ==> m in messages && m.id !in processed
    ensures forall i, j :: 0 <= i < j < |r.created| ==> r.created[i].id != r.created[j].id
    ensures r.seen == processed + Keys(r.created, MessageKey)
  {
    Admit(processed, messages, MessageKey, Listed)
  }

  /** Every message whose id is new gets a record in the poll that first lists it. */
  lemma PollMessagesCovers(processed: set<string>, messages: seq<Message>, m: Message)
    requires m in messages && m.id !in processed
    ensures m.id in Keys(PollMessages(processed, messages).created, MessageKey)
  {
    AdmitCovers(processed, messages, MessageKey, Listed, m);
  }
}
