/** The two filesystem watchers' `on_created`: which Inbox events they act on,
    and the `FILE_` copy plus `.md` sidecar they write to `Needs_Action`. The
    bronze watcher writes a frontmatter sidecar and catches copy errors; the
    silver watcher writes a plain markdown sidecar and lets errors escape. */
module Drops {
  import opened Wrappers
  import opened Text
  import opened Store
  import opened Metadata
  import opened Classify

  datatype Tier = Bronze | Silver

  /** A creation event in the Inbox. */
  datatype Event = Event(name: string, isDirectory: bool)

  /** The event filter: both tiers ignore directories; the bronze tier also skips hidden
      names and `.tmp` files. */
  predicate Accepts(tier: Tier, e: Event) {
    match tier
    case Bronze => !e.isDirectory && !StartsWith(e.name, ".") && !EndsWith(e.name, ".tmp")
    case Silver => !e.isDirectory
  }

  /** The silver filter lets through everything the bronze one does, and beyond that
      exactly the hidden and `.tmp` files. */
  lemma FiltersCompared(e: Event)
    ensures Accepts(Bronze, e) ==> Accepts(Silver, e)
    ensures Accepts(Silver, e) && !Accepts(Bronze, e) <==>
              !e.isDirectory && (StartsWith(e.name, ".") || EndsWith(e.name, ".tmp"))
  {
  }

  const PayloadPrefix := "FILE_"

  /** `FILE_<ts>_<name>`, the copy's name. */
  function PayloadName(ts: string, name: string): string {
    PayloadPrefix + ts + "_" + name
  }

  /** The sidecar's name: the copy's name plus `.md`. */
  function SidecarName(ts: string, name: string): (n: string)
    ensures HasMdSuffix(n)
    ensures Stem(n) == PayloadName(ts, name)
  {
    MdSuffixOfAppended(PayloadName(ts, name));
    PayloadName(ts, name) + ".md"
  }

  /** The sidecar's stem carries the prefix the metadata reader types as `file`. */
  lemma SidecarNaming(ts: string, name: string)
    ensures TypeFromName(Stem(SidecarName(ts, name))) == Some("file")
  {
    var stem := PayloadName(ts, name);
    assert stem[..|PayloadPrefix|] == PayloadPrefix;
    assert stem[0] != "EMAIL_"[0] && stem[0] != "WHATSAPP_"[0];
  }

  /** The copy and its sidecar never share a name. */
  lemma SidecarApart(ts: string, name: string)
    ensures SidecarName(ts, name) != PayloadName(ts, name)
  {
    assert |SidecarName(ts, name)| == |PayloadName(ts, name)| + 3;
  }

  // ---------------------------------------------------------------------------
  // One creation event

  /** The store after the event, and whether an error escaped the handler. */
  datatype Dropped = Dropped(store: Store, raised: bool)

  /** `on_created` with the sidecar text given: an accepted regular file is copied into
      `Needs_Action` under its `FILE_` name next to its sidecar; the Inbox keeps it. When
      the copy cannot be made (the file is gone, is a directory, or `Needs_Action` does
      not exist) nothing is written, and only the silver tier lets the error escape. */
  function OnCreated(tier: Tier, s: Store, e: Event, ts: string, sidecar: string): (r: Dropped)
    ensures forall f :: f != NeedsAction ==> Contents(r.store, f) == Contents(s, f)
    ensures r.store.Keys == s.Keys
    ensures !Accepts(tier, e) ==> r == Dropped(s, false)
    ensures r.raised ==> tier == Silver && r.store == s
  {
    var inbox := Contents(s, Inbox);
    if !Accepts(tier, e) then Dropped(s, false)
    else if e.name in inbox && inbox[e.name].File? && NeedsAction in s then
      var na := s[NeedsAction];
      Dropped(s[NeedsAction := na[PayloadName(ts, e.name) := inbox[e.name]][SidecarName(ts, e.name) := File(sidecar)]], false)
    else Dropped(s, tier == Silver)
  }

  /** An accepted file that can be copied lands in `Needs_Action` twice over: the copy under
      its `FILE_` name with the same content, and the sidecar; every other entry stays. */
  lemma DropWrites(tier: Tier, s: Store, e: Event, ts: string, sidecar: string)
    requires Accepts(tier, e)
    requires e.name in Contents(s, Inbox) && Contents(s, Inbox)[e.name].File? && NeedsAction in s
    ensures var na := Contents(OnCreated(tier, s, e, ts, sidecar).store, NeedsAction);
      && PayloadName(ts, e.name) in na && na[PayloadName(ts, e.name)] == Contents(s, Inbox)[e.name]
      && SidecarName(ts, e.name) in na && na[SidecarName(ts, e.name)] == File(sidecar)
      && (forall n :: n in na <==> n in s[NeedsAction] || n == PayloadName(ts, e.name) || n == SidecarName(ts, e.name))
      && (forall n :: n in s[NeedsAction] && n != PayloadName(ts, e.name) && n != SidecarName(ts, e.name) ==>
            na[n] == s[NeedsAction][n])
      && e.name in Contents(OnCreated(tier, s, e, ts, sidecar).store, Inbox)
      && !OnCreated(tier, s, e, ts, sidecar).raised
  {
    SidecarApart(ts, e.name);
  }

  /** A copy that cannot be made writes nothing; the bronze handler swallows the error. */
  lemma DropFails(tier: Tier, s: Store, e: Event, ts: string, sidecar: string)
    requires Accepts(tier, e)
    requires !(e.name in Contents(s, Inbox) && Contents(s, Inbox)[e.name].File? && NeedsAction in s)
    ensures OnCreated(tier, s, e, ts, sidecar) == Dropped(s, tier == Silver)
  {
  }

  // ---------------------------------------------------------------------------
  // What the reasoning loop makes of the sidecar

  /** The bronze sidecar's frontmatter lines as written. */
  function BronzeFrontmatter(name: string, size: string, created: string): string {
    "\ntype: file_drop\noriginal_name: " + name + "\nsize: " + size + "\ncreated_timestamp: " + created + "\n"
  }

  /** The bronze sidecar: a frontmatter block, then the markdown `rest`. */
  function BronzeSidecar(name: string, size: string, created: string, rest: string): string {
    Fence + BronzeFrontmatter(name, size, created) + Fence + rest
  }

  const SilverHeading := "# File Metadata"

  /** The silver sidecar: plain markdown, no frontmatter. */
  function SilverSidecar(rest: string): string {
    SilverHeading + rest
  }

  /** A sidecar whose stem names neither `EMAIL` nor `WHATSAPP` is categorised as a
      document once its metadata has type `file` or its name contains `FILE`. */
  lemma SidecarDocument(m: Meta, ts: string, name: string)
    requires Readable(m)
    requires m["filename"] == PayloadName(ts, name)
    requires m["type"] in {"file", "unknown"}
    ensures Categorize(m).category == Document <==>
              !Contains(Upper(PayloadName(ts, name)), "EMAIL") && !Contains(Upper(PayloadName(ts, name)), "WHATSAPP")
  {
    var u := Upper(PayloadName(ts, name));
    assert u[..4] == "FILE";
    PrefixIsContained(u, "FILE");
  }

  /** The bronze sidecar reads back as type `file` (the name's prefix wins over the
      `file_drop` line), provided the block stays intact and names no `filename`; it is
      then a document unless its name contains `EMAIL` or `WHATSAPP` in some case. */
  lemma BronzeSidecarIsFile(path: string, ts: string, name: string, size: string, created: string, rest: string)
    requires !Contains(BronzeFrontmatter(name, size, created) + "--", Fence)
    requires LastPair("filename", FrontmatterLines(BronzeFrontmatter(name, size, created))).None?
    ensures var m := ReadMetadata(path, SidecarName(ts, name), BronzeSidecar(name, size, created, rest));
      && Readable(m)
      && m["type"] == "file"
      && (Categorize(m).category == Document <==>
            !Contains(Upper(PayloadName(ts, name)), "EMAIL") && !Contains(Upper(PayloadName(ts, name)), "WHATSAPP"))
  {
    var yaml := BronzeFrontmatter(name, size, created);
    FrontmatterType(path, SidecarName(ts, name), yaml, rest);
    SidecarNaming(ts, name);
    var m := ReadMetadata(path, SidecarName(ts, name), BronzeSidecar(name, size, created, rest));
    SidecarDocument(m, ts, name);
  }

  /** The silver sidecar has no frontmatter, so its type stays `unknown`; the `FILE` in its
      name still makes it a document unless the name contains `EMAIL` or `WHATSAPP`. */
  lemma SilverSidecarIsUnknown(path: string, ts: string, name: string, rest: string)
    ensures var m := ReadMetadata(path, SidecarName(ts, name), SilverSidecar(rest));
      && Readable(m)
      && m["type"] == "unknown"
      && (Categorize(m).category == Document <==>
            !Contains(Upper(PayloadName(ts, name)), "EMAIL") && !Contains(Upper(PayloadName(ts, name)), "WHATSAPP"))
  {
    var content := SilverSidecar(rest);
    assert content[0] == '#' && Fence[0] == '-';
    NoFrontmatterDefaults(path, SidecarName(ts, name), content);
    var m := ReadMetadata(path, SidecarName(ts, name), content);
    SidecarDocument(m, ts, name);
  }
}
