/** `categorize_file`: the rule table that sorts a task record into a category,
    picks an action and a priority, and decides whether a person must approve;
    and the name of the approval request the reasoning loop writes for it. */
module Classify {
  import opened Wrappers
  import opened Text
  import opened Store
  import opened Metadata

  datatype Category = Email | Message | Document | General

  datatype Action = ReplyEmail | SendMessage | Archive

  /** The categorised record, as the reasoning loop keeps it. */
  datatype Categorized = Categorized(meta: Meta, category: Category, requiresApproval: bool, action: Action, priority: string)

  /** What a record must carry for the rules to read it; `read_file_metadata` always provides it. */
  predicate Readable(m: Meta) {
    "filename" in m && "type" in m && "content" in m
  }

  /** Words that make an email call for a reply. */
  const EmailReplyTerms: seq<string> := ["reply", "respond", "answer", "question", "urgent", "asap"]

  /** Words that make a message call for a reply (no `asap`). */
  const MessageReplyTerms: seq<string> := ["reply", "respond", "answer", "question", "urgent"]

  /** Words that raise an email's priority to `high`. */
  const HighPriorityTerms: seq<string> := ["urgent", "emergency", "asap", "important"]

  /** The priority the record asks for, lower-cased, `normal` when it names none. */
  function BasePriority(m: Meta): string {
    Lower(if "priority" in m then m["priority"] else "normal")
  }

  /** One row of the category table: a record matches when its type is `typeName`
      or its upper-cased file name contains `tag`. */
  predicate Matches(m: Meta, typeName: string, tag: string)
    requires Readable(m)
  {
    m["type"] == typeName || Contains(Upper(m["filename"]), tag)
  }

  function Categorize(m: Meta): (c: Categorized)
    requires Readable(m)
    ensures c.meta == m
    ensures c.requiresApproval <==> c.action != Archive
    ensures c.action == ReplyEmail <==> c.category == Email && ContainsAny(Lower(m["content"]), EmailReplyTerms)
    ensures c.action == SendMessage <==> c.category == Message && ContainsAny(Lower(m["content"]), MessageReplyTerms)
    ensures c.priority == if c.category == Email && ContainsAny(Lower(m["content"]), HighPriorityTerms) then "high"
                          else BasePriority(m)
  {
    var text := Lower(m["content"]);
    if Matches(m, "email", "EMAIL") then
      var reply := ContainsAny(text, EmailReplyTerms);
      Categorized(m, Email, reply, if reply then ReplyEmail else Archive,
                  if ContainsAny(text, HighPriorityTerms) then "high" else BasePriority(m))
    else if Matches(m, "whatsapp", "WHATSAPP") then
      var reply := ContainsAny(text, MessageReplyTerms);
      Categorized(m, Message, reply, if reply then SendMessage else Archive, BasePriority(m))
    else if Matches(m, "file", "FILE") then
      Categorized(m, Document, false, Archive, BasePriority(m))
    else
      Categorized(m, General, false, Archive, BasePriority(m))
  }

  // ---------------------------------------------------------------------------
  // The category table, read as a first-match rule list

  datatype Rule = Rule(typeName: string, tag: string, category: Category)

  const CategoryRules: seq<Rule> :=
    [Rule("email", "EMAIL", Email), Rule("whatsapp", "WHATSAPP", Message), Rule("file", "FILE", Document)]

  /** The category of the first rule that matches, `General` when none does. */
  function FirstMatch(m: Meta, rules: seq<Rule>): Category
    requires Readable(m)
    decreases |rules|
  {
    if |rules| == 0 then General
    else if Matches(m, rules[0].typeName, rules[0].tag) then rules[0].category
    else FirstMatch(m, rules[1..])
  }

  /** The first-match reading names the rule that fires: the `i`th rule's category
      exactly when rule `i` matches and no earlier rule does. */
  lemma {:induction false} FirstMatchAt(m: Meta, rules: seq<Rule>, i: nat)
    requires Readable(m)
    requires i < |rules|
    requires Matches(m, rules[i].typeName, rules[i].tag)
    requires forall j :: 0 <= j < i ==> !Matches(m, rules[j].typeName, rules[j].tag)
    ensures FirstMatch(m, rules) == rules[i].category
    decreases i
  {
    if i > 0 {
      assert !Matches(m, rules[0].typeName, rules[0].tag);
      FirstMatchAt(m, rules[1..], i - 1);
    }
  }

  /** The categoriser is the first-match reading of its table: every record gets exactly
      one category, with email before message before document before general. */
  lemma CategoryIsFirstMatch(m: Meta)
    requires Readable(m)
    ensures Categorize(m).category == FirstMatch(m, CategoryRules)
  {
    var rules := CategoryRules;
    if Matches(m, "email", "EMAIL") {
      FirstMatchAt(m, rules, 0);
    } else if Matches(m, "whatsapp", "WHATSAPP") {
      FirstMatchAt(m, rules, 1);
    } else if Matches(m, "file", "FILE") {
      FirstMatchAt(m, rules, 2);
    } else {
      assert rules[3..] == [];
      assert FirstMatch(m, rules) == FirstMatch(m, rules[3..]) by {
        assert rules[1..][1..] == rules[2..] && rules[2..][1..] == rules[3..];
      }
    }
  }

  /** `EMAIL` anywhere in the file name wins over any type the record declares. */
  lemma EmailNameWins(m: Meta)
    requires Readable(m)
    requires Contains(Upper(m["filename"]), "EMAIL")
    ensures Categorize(m).category == Email
  {
  }

  /** A record typed `whatsapp` is a message unless its file name contains `EMAIL`. */
  lemma MessageTypeCategory(m: Meta)
    requires Readable(m) && m["type"] == "whatsapp"
    ensures Categorize(m).category == Message <==> !Contains(Upper(m["filename"]), "EMAIL")
    ensures Categorize(m).category == Email <==> Contains(Upper(m["filename"]), "EMAIL")
  {
    assert Matches(m, "whatsapp", "WHATSAPP");
  }

  /** Approval goes with replies only: documents and general records never need it,
      and a message needs it on strictly fewer words than an email does. */
  lemma ApprovalOnlyForReplies(m: Meta)
    requires Readable(m)
    ensures Categorize(m).category in {Document, General} ==> !Categorize(m).requiresApproval
    ensures Categorize(m).category == Message && Categorize(m).requiresApproval ==>
              ContainsAny(Lower(m["content"]), EmailReplyTerms)
  {
    var text := Lower(m["content"]);
    if ContainsAny(text, MessageReplyTerms) {
      var w :| w in MessageReplyTerms && Contains(text, w);
      assert w in EmailReplyTerms;
    }
  }

  // ---------------------------------------------------------------------------
  // Approval request names

  const EmailApprovalPrefix := "SendEmail_"
  const MessageApprovalPrefix := "SendMessage_"

  /** The name prefix for a record's kind of send. */
  function ApprovalPrefix(c: Categorized): string {
    if c.category == Email then EmailApprovalPrefix else MessageApprovalPrefix
  }

  /** `create_approval_file`'s name: the kind of send, the record's name and the time. */
  function ApprovalName(c: Categorized, ts: string): (r: string)
    requires "filename" in c.meta
    ensures StartsWith(r, ApprovalPrefix(c))
    ensures HasMdSuffix(r)
  {
    var stem := ApprovalPrefix(c) + c.meta["filename"] + "_" + ts;
    MdSuffixOfAppended(stem);
    assert (stem + ".md")[..|ApprovalPrefix(c)|] == ApprovalPrefix(c);
    stem + ".md"
  }

  /** The name is the prefix, the record's name and the time-and-extension tail. */
  lemma ApprovalNameShape(c: Categorized, ts: string)
    requires "filename" in c.meta
    ensures ApprovalName(c, ts) == ApprovalPrefix(c) + c.meta["filename"] + ("_" + ts + ".md")
  {
  }

  /** The kind of send can be read back from the name. */
  lemma ApprovalNameKind(c: Categorized, d: Categorized, ts: string)
    requires "filename" in c.meta && "filename" in d.meta
    requires ApprovalName(c, ts) == ApprovalName(d, ts)
    ensures (c.category == Email) == (d.category == Email)
  {
    var n := ApprovalName(c, ts);
    assert n[5] == ApprovalPrefix(c)[5] && n[5] == ApprovalPrefix(d)[5];
  }

  /** Within one timestamp, two records get the same request name only when they are
      of the same kind (email or not) and carry the same file name. */
  lemma ApprovalNameInjective(c: Categorized, d: Categorized, ts: string)
    requires "filename" in c.meta && "filename" in d.meta
    requires ApprovalName(c, ts) == ApprovalName(d, ts)
    ensures (c.category == Email) == (d.category == Email)
    ensures c.meta["filename"] == d.meta["filename"]
  {
    ApprovalNameKind(c, d, ts);
    ApprovalNameShape(c, ts);
    ApprovalNameShape(d, ts);
    MiddleDetermined(ApprovalPrefix(c), c.meta["filename"], d.meta["filename"], "_" + ts + ".md");
  }
}
