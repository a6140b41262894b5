/** The WhatsApp watcher's decisions: which chats deserve a record, what the
    record is called, its priority and its suggested actions, and the
    `processed_ids` check that keeps a chat from being filed twice. */
module WhatsApp {
  import opened Wrappers
  import opened Text
  import opened Store
  import opened Metadata
  import opened Classify
  import opened Intake

  /** A chat row as the watcher reads it from the page. */
  datatype Chat = Chat(name: string, preview: string, timestamp: string, unread: bool)

  /** The words that make a message a priority. */
  const PriorityKeywords: seq<string> :=
    ["urgent", "invoice", "payment", "asap", "emergency", "important", "deadline", "reply", "call", "meeting"]

  /** `_contains_priority_keyword`: a keyword occurs in the lower-cased text. */
  predicate HasPriorityKeyword(text: string) {
    ContainsAny(Lower(text), PriorityKeywords)
  }

  /** The keyword test ignores case: upper-casing the text changes nothing. */
  lemma PriorityKeywordIgnoresCase(text: string)
    ensures HasPriorityKeyword(Upper(text)) <==> HasPriorityKeyword(text)
  {
    LowerOfUpper(text);
  }

  /** A text naming a keyword in any case is a priority. */
  lemma KeywordMakesPriority(text: string, i: nat)
    requires i < |PriorityKeywords|
    requires Contains(Lower(text), PriorityKeywords[i])
    ensures HasPriorityKeyword(text)
  {
    assert PriorityKeywords[i] in PriorityKeywords;
  }

  /** The record's priority. */
  function Priority(preview: string): (p: string)
    ensures p == "high" <==> HasPriorityKeyword(preview)
    ensures p in {"high", "medium"}
  {
    if HasPriorityKeyword(preview) then "high" else "medium"
  }

  // ---------------------------------------------------------------------------
  // Suggested actions

  const MessageDefaults: seq<string> :=
    ["- [ ] Read full message in WhatsApp", "- [ ] Determine required response/action",
     "- [ ] Respond via WhatsApp or other channel"]

  /** The suggestion table for a preview, in the order the watcher tests it. */
  function MessageRows(preview: string): (rows: seq<Row>)
    ensures Productive(rows)
    ensures |rows| == 5
    ensures forall i :: 0 <= i < |rows| ==> MessageDefaults[0] !in rows[i].lines
  {
    var p := Lower(preview);
    [ Row(ContainsAny(p, ["invoice", "payment", "bill"]),
          ["- [ ] Process payment/invoice", "- [ ] Forward to accounting if needed"]),
      Row(ContainsAny(p, ["urgent", "asap", "emergency"]), ["- [ ] Prioritize - marked as urgent"]),
      Row(ContainsAny(p, ["meeting", "schedule", "call"]), ["- [ ] Review and respond to scheduling request"]),
      Row(ContainsAny(p, ["deadline", "due"]), ["- [ ] Note deadline and plan accordingly"]),
      Row(ContainsAny(p, ["reply", "response"]), ["- [ ] Draft and send reply"]) ]
  }

  /** `_generate_suggested_actions` (the chat name is not consulted). */
  function MessageSuggestions(preview: string): seq<string> {
    Suggest(MessageRows(preview), MessageDefaults)
  }

  /** The list is never empty, and the three default lines appear exactly when no
      pattern group matched. */
  lemma MessageSuggestionsDefaults(preview: string)
    ensures |MessageSuggestions(preview)| > 0
    ensures MessageSuggestions(preview) == MessageDefaults <==> !AnyHit(MessageRows(preview))
    ensures MessageDefaults[0] in MessageSuggestions(preview) <==> !AnyHit(MessageRows(preview))
  {
    SuggestDefaults(MessageRows(preview), MessageDefaults);
  }

  /** A payment preview opens its list with the two payment lines. */
  lemma PaymentFirst(preview: string)
    requires ContainsAny(Lower(preview), ["invoice", "payment", "bill"])
    ensures MessageSuggestions(preview)[..2]
         == ["- [ ] Process payment/invoice", "- [ ] Forward to accounting if needed"]
  {
    var rows := MessageRows(preview);
    assert Hits(rows) == rows[0].lines + Hits(rows[1..]);
  }

  // ---------------------------------------------------------------------------
  // The record's name

  const MessagePrefix := "WHATSAPP_"

  /** The record's stem: the prefix, the time, and the chat name sanitised to 20 characters. */
  function MessageStem(ts: string, chat: string): string {
    MessagePrefix + ts + "_" + Sanitize(chat, 20)
  }

  /** `WHATSAPP_<ts>_<safe_name>.md`. */
  function MessageFileName(ts: string, chat: string): (n: string)
    ensures HasMdSuffix(n)
    ensures Stem(n) == MessageStem(ts, chat)
  {
    MdSuffixOfAppended(MessageStem(ts, chat));
    MessageStem(ts, chat) + ".md"
  }

  /** Names are cut to twenty characters and the time to the second, so two chats whose
      names open alike share a record name when written within one second. */
  lemma MessageNamesCollide(ts: string)
    ensures MessageFileName(ts, "Project Alpha Team - London")
         == MessageFileName(ts, "Project Alpha Team - Paris")
  {
    var a, b := "Project Alpha Team - London", "Project Alpha Team - Paris";
    assert a[..20] == b[..20];
    assert Sanitize(a, 20) == Sanitize(b, 20);
  }

  /** `strftime("%Y%m%d_%H%M%S")`: fifteen characters for the years 1000 to 9999. */
  predicate FileStamp(ts: string) {
    |ts| == 15
  }

  /** The corrected name: the record's position `k` in its poll follows the clock reading,
      `WHATSAPP_<ts>_<k>_<safe_name>.md`. */
  function IndexedFileName(ts: string, k: nat, chat: string): (n: string)
    ensures HasMdSuffix(n)
    ensures n == MessagePrefix + ts + ['_'] + Decimal(k) + ['_'] + (Sanitize(chat, 20) + ".md")
  {
    var n := MessageFileName(ts + "_" + Decimal(k), chat);
    assert n == MessagePrefix + ts + ['_'] + Decimal(k) + ['_'] + (Sanitize(chat, 20) + ".md");
    n
  }

  /** Corrected names with clock readings of one width are equal only for the same
      reading and the same position. */
  lemma IndexedNamesDistinct(ts1: string, k1: nat, c1: string, ts2: string, k2: nat, c2: string)
    requires |ts1| == |ts2|
    requires IndexedFileName(ts1, k1, c1) == IndexedFileName(ts2, k2, c2)
    ensures ts1 == ts2 && k1 == k2
  {
    var d1, d2 := Decimal(k1), Decimal(k2);
    assert '_' !in d1 && '_' !in d2 by {
      assert !IsDigit('_');
    }
    FieldsBeforeSeparator(MessagePrefix, ts1, ts2, '_', d1, d2,
      Sanitize(c1, 20) + ".md", Sanitize(c2, 20) + ".md");
    DecimalRoundTrip(k1);
    DecimalRoundTrip(k2);
  }

  /** The name's prefix is one the metadata reader types as `whatsapp`. */
  lemma MessageNameTyped(ts: string, chat: string)
    ensures TypeFromName(Stem(MessageFileName(ts, chat))) == Some("whatsapp")
  {
    var stem := MessageStem(ts, chat);
    assert stem[..|MessagePrefix|] == MessagePrefix;
    assert stem[0] != "EMAIL_"[0];
  }

  /** A record written by the watcher (with a frontmatter block that names no `filename`)
      reads back as type `whatsapp`, and is categorised as a message unless its name
      contains `EMAIL` in some case, when the email rule takes it. A corrected name
      `IndexedFileName(ts, k, chat)` is `MessageFileName(ts + "_" + Decimal(k), chat)`, so
      this covers it too. */
  lemma MessageRecordCategory(path: string, ts: string, chat: string, yaml: string, body: string)
    requires !Contains(yaml + "--", Fence)
    requires LastPair("filename", FrontmatterLines(yaml)).None?
    ensures var m := ReadMetadata(path, MessageFileName(ts, chat), Fence + yaml + Fence + body);
      && Readable(m)
      && m["type"] == "whatsapp"
      && (Categorize(m).category == Message <==> !Contains(Upper(MessageStem(ts, chat)), "EMAIL"))
      && (Categorize(m).category == Email <==> Contains(Upper(MessageStem(ts, chat)), "EMAIL"))
  {
    var name := MessageFileName(ts, chat);
    FrontmatterType(path, name, yaml, body);
    MessageNameTyped(ts, chat);
    var m := ReadMetadata(path, name, Fence + yaml + Fence + body);
    assert m["filename"] == MessageStem(ts, chat);
    assert m["type"] == "whatsapp";
    MessageTypeCategory(m);
  }

  // ---------------------------------------------------------------------------
  // De-duplication

  /** `f"{name}:{timestamp}"`, the id a chat is remembered by. */
  function ChatId(c: Chat): string {
    c.name + ":" + c.timestamp
  }

  /** A chat is filed when it is unread or its preview names a priority keyword. */
  predicate Wanted(c: Chat) {
    c.unread || HasPriorityKeyword(c.preview)
  }

  /** `check_for_new_items` over the chats of one poll. */
  function PollChats(processed: set<string>, chats: seq<Chat>): (r: Admitted<Chat>)
    ensures forall c :: c in r.created ==> c in chats && Wanted(c) && ChatId(c) !in processed
    ensures forall i, j :: 0 <= i < j < |r.created| ==> ChatId(r.created[i]) != ChatId(r.created[j])
    ensures r.seen == processed + Keys(r.created, ChatId)
  {
    Admit(processed, chats, ChatId, Wanted)
  }

  /** The names the records of one poll are written under, as the watcher names them:
      the record of `created[k]` takes the clock reading `stamps[k]` made as it is written. */
  function RecordNames(stamps: seq<string>, created: seq<Chat>): (names: seq<string>)
    requires |stamps| == |created|
    ensures |names| == |created|
  {
    seq(|created|, k requires 0 <= k < |created| => MessageFileName(stamps[k], created[k].name))
  }

  /** The names of one poll's records under the corrected scheme. */
  function IndexedRecordNames(stamps: seq<string>, created: seq<Chat>): (names: seq<string>)
    requires |stamps| == |created|
    ensures |names| == |created|
  {
    seq(|created|, k requires 0 <= k < |created| => IndexedFileName(stamps[k], k, created[k].name))
  }

  /** Two unread chats of different ids are both created in one poll and both ids are
      recorded, yet written within one second their records share a name, so the folder
      keeps one of them; the next poll sees both ids and files neither again. */
  lemma PollLosesRecord(ts: string)
    ensures var chats := [Chat("Project Alpha Team - London", "", "09:30", true),
                          Chat("Project Alpha Team - Paris", "", "09:31", true)];
      var r := PollChats({}, chats);
      && ChatId(chats[0]) != ChatId(chats[1])
      && r.created == chats
      && RecordNames([ts, ts], r.created)[0] == RecordNames([ts, ts], r.created)[1]
      && PollChats(r.seen, chats).created == []
  {
    var chats := [Chat("Project Alpha Team - London", "", "09:30", true),
                  Chat("Project Alpha Team - Paris", "", "09:31", true)];
    assert ChatId(chats[0])[21] != ChatId(chats[1])[21];
    var r := PollChats({}, chats);
    assert chats[1..][1..] == [];
    assert r.created == chats;
    MessageNamesCollide(ts);
    var again := PollChats(r.seen, chats);
    assert ChatId(chats[0]) in r.seen && ChatId(chats[1]) in r.seen;
    assert again.created == [];
  }

  /** Under the corrected scheme the records of one poll have pairwise different names. */
  lemma PollRecordsDistinct(stamps: seq<string>, created: seq<Chat>)
    requires |stamps| == |created|
    requires forall k :: 0 <= k < |stamps| ==> FileStamp(stamps[k])
    ensures forall i, j :: 0 <= i < |created| && 0 <= j < |created| && i != j ==>
              IndexedRecordNames(stamps, created)[i] != IndexedRecordNames(stamps, created)[j]
  {
    var names := IndexedRecordNames(stamps, created);
    forall i, j | 0 <= i < |created| && 0 <= j < |created| && i != j
      ensures names[i] != names[j]
    {
      if names[i] == names[j] {
        IndexedNamesDistinct(stamps[i], i, created[i].name, stamps[j], j, created[j].name);
      }
    }
  }

  /** Every wanted chat with a new id has its id recorded as created in the poll that
      first sees it (an earlier chat of the same poll may have carried that id), and under
      the corrected scheme the record created for it has a name no other record of the
      poll has. */
  lemma PollChatsCovers(processed: set<string>, chats: seq<Chat>, c: Chat, stamps: seq<string>)
    requires c in chats && Wanted(c) && ChatId(c) !in processed
    requires |stamps| == |PollChats(processed, chats).created|
    requires forall k :: 0 <= k < |stamps| ==> FileStamp(stamps[k])
    ensures var r := PollChats(processed, chats).created;
      exists k :: 0 <= k < |r| && ChatId(r[k]) == ChatId(c)
        && forall j :: 0 <= j < |r| && j != k ==> IndexedRecordNames(stamps, r)[j] != IndexedRecordNames(stamps, r)[k]
  {
    var r := PollChats(processed, chats).created;
    AdmitCovers(processed, chats, ChatId, Wanted, c);
    assert ChatId(c) in Keys(r, ChatId);
    var x :| x in r && ChatId(x) == ChatId(c);
    var k :| 0 <= k < |r| && r[k] == x;
    PollRecordsDistinct(stamps, r);
  }

  /** The ids of different chats can coincide: `:` is not escaped. */
  lemma ChatIdsCollide()
    ensures ChatId(Chat("a:b", "", "c", true)) == ChatId(Chat("a", "", "b:c", true))
  {
  }
}
