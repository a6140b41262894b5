/** One poll cycle of the silver orchestrator as a pure state step: the
    folders are the states of the approval workflow, and the cycle executes
    what a human approved, files what a human rejected, marks new approval
    requests as notified, and decides whether the queue deserves a prompt. */
module Cycle {
  import opened Wrappers
  import opened Text
  import opened Store
  import opened Approval
  import opened Poll

  /** The folders the cycle re-creates at its start. */
  const CycleFolders: set<Folder> := {PendingApproval, Approved, Rejected, Done, NeedsAction}

  /** The loop variables that survive from one cycle to the next. */
  datatype Scheduler = Scheduler(lastDailyBriefing: Option<Date>, lastCheckCount: nat, lastPendingCount: nat)

  const Initial := Scheduler(None, 0, 0)

  /** The `Needs_Action` listing: payload files and `.md` sidecars. */
  datatype Listing = Listing(files: set<string>, metadata: set<string>)

  /** What a cycle reports on the console. */
  datatype Report = Report(
    triggers: seq<Trigger>,
    executed: set<string>,
    failed: set<string>,
    rejected: set<string>,
    notified: set<string>,
    prompt: Option<Listing>)

  /** A folder after a filing phase, and `Done` after it. */
  datatype Filed = Filed(src: Dir, done: Dir)

  // ---------------------------------------------------------------------------
  // Approved: execute, then file the successes

  /** Whether executing an approval document reports success. */
  predicate Executes(content: string, mailer: Mailer) {
    ExecuteApproved(content, mailer).success
  }

  /** The approved `.md` files whose action the backend carried out. */
  function Succeeded(approved: Dir, mailer: Mailer): (r: set<string>)
    ensures forall n :: n in r <==> n in MdNames(approved) && Executes(TextOf(approved, n), mailer)
  {
    set n | n in MdNames(approved) && Executes(TextOf(approved, n), mailer)
  }

  /** The approved `.md` files whose execution failed. */
  function Failed(approved: Dir, mailer: Mailer): (r: set<string>)
    ensures forall n :: n in r <==> n in MdNames(approved) && !Executes(TextOf(approved, n), mailer)
  {
    MdNames(approved) - Succeeded(approved, mailer)
  }

  /** Files the approved documents whose execution succeeded (`ok`): each moves to `Done`
      under the same name, replacing a file of that name; the rest stay in `Approved`. */
  function ApprovedPhase(approved: Dir, done: Dir, ok: set<string>): (r: Filed)
    requires ok <= MdNames(approved)
    ensures forall n :: n in r.src <==> n in approved && n !in ok
    ensures forall n :: n in r.src ==> r.src[n] == approved[n]
    ensures forall n :: n in ok ==> n in r.done && r.done[n] == approved[n]
    ensures forall m :: m in r.done <==> m in done || m in ok
    ensures forall m :: m in done && m !in ok ==> r.done[m] == done[m]
  {
    var moved := map n | n in ok :: TextOf(approved, n);
    assert moved.Keys == ok;
    Filed(Remaining(approved, moved), done + Deposit(moved))
  }

  // ---------------------------------------------------------------------------
  // Rejected: stamp once, then file under REJECTED_

  const RejectedMarker := "Rejected by user"

  /** The rejection stamp, appended only to text that does not already carry it. */
  function Stamp(content: string, iso: string): (r: string)
    ensures Contains(r, RejectedMarker)
    ensures Contains(content, RejectedMarker) ==> r == content
    ensures StartsWith(r, content)
  {
    if Contains(content, RejectedMarker) then content
    else
      var head := "\n\n**Rejected:** " + iso + "\n**Status:** ";
      SuffixIsContained(head, RejectedMarker);
      ContainsAppendLeft(content, head + RejectedMarker, RejectedMarker);
      assert (content + (head + RejectedMarker))[..|content|] == content;
      content + (head + RejectedMarker)
  }

  /** Stamping is idempotent, whatever time the second stamp would carry. */
  lemma StampIdempotent(content: string, iso1: string, iso2: string)
    ensures Stamp(Stamp(content, iso1), iso2) == Stamp(content, iso1)
  {
  }

  const RejectedPrefix := "REJECTED_"

  /** Every rejected `.md` file is stamped and moved to `Done` as `REJECTED_<name>`. */
  function RejectedPhase(rejected: Dir, done: Dir, iso: string): (r: Filed)
    ensures forall n :: n in r.src <==> n in rejected && n !in MdNames(rejected)
    ensures forall n :: n in r.src ==> r.src[n] == rejected[n]
    ensures forall n :: n in MdNames(rejected) ==>
              RejectedPrefix + n in r.done && r.done[RejectedPrefix + n] == File(Stamp(TextOf(rejected, n), iso))
    ensures forall m :: m in r.done ==> m in done || exists n :: n in MdNames(rejected) && m == RejectedPrefix + n
    ensures forall m :: m in done ==> m in r.done
    ensures forall m :: m in done && (forall n :: n in MdNames(rejected) ==> m != RejectedPrefix + n) ==> r.done[m] == done[m]
  {
    var md := MdNames(rejected);
    var moved := map n | n in md :: Stamp(TextOf(rejected, n), iso);
    assert moved.Keys == md;
    Filed(Remaining(rejected, moved), done + Arrivals(RejectedPrefix, moved))
  }

  // ---------------------------------------------------------------------------
  // Pending_Approval: notify each new request once

  const NotifiedMarker := "NOTIFIED:"

  /** `get_pending_approval_files`: the `.md` files not yet marked as notified. */
  function Unnotified(pending: Dir): (r: set<string>)
    ensures forall n :: n in r <==> n in MdNames(pending) && !Contains(TextOf(pending, n), NotifiedMarker)
  {
    set n | n in MdNames(pending) && !Contains(TextOf(pending, n), NotifiedMarker)
  }

  /** The notice appended to a request once it has been shown. */
  function Notify(content: string, iso: string): (r: string)
    ensures Contains(r, NotifiedMarker)
    ensures StartsWith(r, content)
  {
    var tail := "\n\n**" + NotifiedMarker + "** " + iso;
    assert tail[4..4 + |NotifiedMarker|] == NotifiedMarker;
    assert OccursAt(tail, NotifiedMarker, 4);
    ContainsAppendLeft(content, tail, NotifiedMarker);
    assert (content + tail)[..|content|] == content;
    content + tail
  }

  /** Lists the unnotified requests and appends the notice to each of them. */
  function PendingPhase(pending: Dir, iso: string): (r: (Dir, set<string>))
    ensures r.1 == Unnotified(pending)
    ensures r.0.Keys == pending.Keys
    ensures forall n :: n in r.1 ==> r.0[n] == File(Notify(TextOf(pending, n), iso))
    ensures forall n :: n in pending && n !in r.1 ==> r.0[n] == pending[n]
  {
    var unseen := Unnotified(pending);
    (map n | n in pending :: if n in unseen then File(Notify(TextOf(pending, n), iso)) else pending[n], unseen)
  }

  /** After a cycle, every `.md` request in `Pending_Approval` carries the notice. */
  lemma PendingPhaseMarksAll(pending: Dir, iso: string)
    ensures Unnotified(PendingPhase(pending, iso).0) == {}
  {
    var after := PendingPhase(pending, iso).0;
    forall n | n in MdNames(after) ensures Contains(TextOf(after, n), NotifiedMarker) {
      assert n in MdNames(pending);
    }
  }

  // ---------------------------------------------------------------------------
  // Needs_Action: payloads and sidecars

  /** `get_needs_action_files`: regular files split by the `.md` suffix; when there is
      no payload, the sidecars are reported as the files. */
  function Partition(d: Dir): (r: Listing)
    ensures forall n :: n in r.files + r.metadata <==> n in d && d[n].File?
    ensures r.files !! r.metadata
    ensures r.metadata != {} ==> r.files != {}
    ensures forall n :: n in r.metadata ==> HasMdSuffix(n)
    ensures (exists n :: n in d && d[n].File? && !HasMdSuffix(n)) ==>
              forall n :: n in r.files <==> n in d && d[n].File? && !HasMdSuffix(n)
    ensures !(exists n :: n in d && d[n].File? && !HasMdSuffix(n)) ==>
              r.metadata == {} && forall n :: n in r.files <==> n in d && d[n].File?
  {
    var payloads := set n | n in d && d[n].File? && !HasMdSuffix(n);
    var sidecars := set n | n in d && d[n].File? && HasMdSuffix(n);
    if payloads == {} && sidecars != {} then Listing(sidecars, {}) else Listing(payloads, sidecars)
  }

  // ---------------------------------------------------------------------------
  // The cycle

  /** The result of a cycle: the folders, the scheduler state, and what was reported. */
  datatype After = After(store: Store, scheduler: Scheduler, report: Report)

  /** Writes back the four folders a cycle changes. */
  function Commit(s: Store, approved: Dir, rejected: Dir, done: Dir, pending: Dir): (r: Store)
    ensures r.Keys == s.Keys + {Approved, Rejected, Done, PendingApproval}
    ensures Contents(r, Approved) == approved && Contents(r, Rejected) == rejected
    ensures Contents(r, Done) == done && Contents(r, PendingApproval) == pending
    ensures forall f :: f !in {Approved, Rejected, Done, PendingApproval} ==> Contents(r, f) == Contents(s, f)
  {
    s[Approved := approved][Rejected := rejected][Done := done][PendingApproval := pending]
  }

  /** One pass of the loop body in `main`: folders, triggers, Approved, Rejected,
      Pending_Approval, Needs_Action, in that order. */
  function Step(s: Store, sch: Scheduler, clock: Clock, mailer: Mailer): After
  {
    var s0 := EnsureFolders(s, CycleFolders);
    var (triggers, briefed) := CheckTriggers(sch.lastDailyBriefing, clock);
    var ok := Succeeded(Contents(s0, Approved), mailer);
    var approved := ApprovedPhase(Contents(s0, Approved), Contents(s0, Done), ok);
    var rejected := RejectedPhase(Contents(s0, Rejected), approved.done, clock.iso);
    var (pending, notified) := PendingPhase(Contents(s0, PendingApproval), clock.iso);
    var listing := Partition(Contents(s0, NeedsAction));
    var d := CountChange(|listing.files|, sch.lastCheckCount);
    var report := Report(
      triggers,
      ok,
      Failed(Contents(s0, Approved), mailer),
      MdNames(Contents(s0, Rejected)),
      notified,
      if d.prompt then Some(listing) else None);
    var store := Commit(s0, approved.src, rejected.src, rejected.done, pending);
    After(store, Scheduler(briefed, d.last, |notified|), report)
  }

  /** A cycle re-creates every folder it uses. */
  lemma StepCreatesFolders(s: Store, sch: Scheduler, clock: Clock, mailer: Mailer)
    ensures forall f :: f in CycleFolders ==> f in Step(s, sch, clock, mailer).store
  {
  }

  /** The report names exactly the approved documents executed with success and with
      failure, the rejected documents filed, and the requests newly notified. */
  lemma StepReport(s: Store, sch: Scheduler, clock: Clock, mailer: Mailer)
    ensures Step(s, sch, clock, mailer).report.executed == Succeeded(Contents(s, Approved), mailer)
    ensures Step(s, sch, clock, mailer).report.failed == Failed(Contents(s, Approved), mailer)
    ensures Step(s, sch, clock, mailer).report.rejected == MdNames(Contents(s, Rejected))
    ensures Step(s, sch, clock, mailer).report.notified == Unnotified(Contents(s, PendingApproval))
  {
  }

  /** The scheduler remembers the number of notified requests and the queue size, and the
      queue is announced exactly when its size changed to a non-zero value. */
  lemma StepScheduler(s: Store, sch: Scheduler, clock: Clock, mailer: Mailer)
    ensures var r := Step(s, sch, clock, mailer);
      && r.scheduler.lastPendingCount == |Unnotified(Contents(s, PendingApproval))|
      && r.scheduler.lastCheckCount == |Partition(Contents(s, NeedsAction)).files|
      && (r.report.prompt.Some? <==> 0 < |Partition(Contents(s, NeedsAction)).files| != sch.lastCheckCount)
      && (r.report.triggers, r.scheduler.lastDailyBriefing) == CheckTriggers(sch.lastDailyBriefing, clock)
  {
  }

  /** A cycle reads the queue but never changes it, and never touches the drop folder. */
  lemma StepKeepsIntake(s: Store, sch: Scheduler, clock: Clock, mailer: Mailer)
    ensures Contents(Step(s, sch, clock, mailer).store, NeedsAction) == Contents(s, NeedsAction)
    ensures Contents(Step(s, sch, clock, mailer).store, Inbox) == Contents(s, Inbox)
  {
    var s0 := EnsureFolders(s, CycleFolders);
    var ok := Succeeded(Contents(s0, Approved), mailer);
    var approved := ApprovedPhase(Contents(s0, Approved), Contents(s0, Done), ok);
    var rejected := RejectedPhase(Contents(s0, Rejected), approved.done, clock.iso);
    var pending := PendingPhase(Contents(s0, PendingApproval), clock.iso).0;
    var r := Commit(s0, approved.src, rejected.src, rejected.done, pending);
    assert Step(s, sch, clock, mailer).store == r;
    assert NeedsAction !in {Approved, Rejected, Done, PendingApproval};
    assert Inbox !in {Approved, Rejected, Done, PendingApproval};
  }

  /** The step's `Done` folder, `Pending_Approval` and the other filed folders, spelled out. */
  lemma StepFolders(s: Store, sch: Scheduler, clock: Clock, mailer: Mailer)
    ensures var s0 := EnsureFolders(s, CycleFolders);
      var ok := Succeeded(Contents(s0, Approved), mailer);
      var approved := ApprovedPhase(Contents(s0, Approved), Contents(s0, Done), ok);
      var rejected := RejectedPhase(Contents(s0, Rejected), approved.done, clock.iso);
      var r := Step(s, sch, clock, mailer).store;
      && Contents(r, Approved) == approved.src
      && Contents(r, Rejected) == rejected.src
      && Contents(r, Done) == rejected.done
      && Contents(r, PendingApproval) == PendingPhase(Contents(s0, PendingApproval), clock.iso).0
  {
  }

  // ---------------------------------------------------------------------------
  // Human decisions between cycles, and what the next cycles do with them

  /** A person moves a request out of `Pending_Approval` into `Approved` or `Rejected`. */
  function Decide(s: Store, n: string, approve: bool): (r: Store)
    requires n in Contents(s, PendingApproval)
    ensures n !in Contents(r, PendingApproval)
    ensures var dst := if approve then Approved else Rejected;
      n in Contents(r, dst) && Contents(r, dst)[n] == Contents(s, PendingApproval)[n]
    ensures forall f :: f !in {PendingApproval, Approved, Rejected} ==> Contents(r, f) == Contents(s, f)
    ensures Contents(r, if approve then Rejected else Approved) == Contents(s, if approve then Rejected else Approved)
  {
    var dst := if approve then Approved else Rejected;
    var entry := Contents(s, PendingApproval)[n];
    s[PendingApproval := Contents(s, PendingApproval) - {n}][dst := Contents(s, dst)[n := entry]]
  }

  /** Moving requests out of `Pending_Approval` never makes a request unnotified. */
  lemma DecideKeepsNotified(s: Store, n: string, approve: bool)
    requires n in Contents(s, PendingApproval)
    ensures Unnotified(Contents(Decide(s, n, approve), PendingApproval)) <= Unnotified(Contents(s, PendingApproval))
  {
  }

  /** A request is announced at most once: after a cycle, and whatever people decide about
      other requests, the next cycle announces nothing. */
  lemma NotifiedOnce(s: Store, sch: Scheduler, c1: Clock, c2: Clock, m1: Mailer, m2: Mailer)
    ensures var after := Step(s, sch, c1, m1);
      Step(after.store, after.scheduler, c2, m2).report.notified == {}
  {
    var after := Step(s, sch, c1, m1);
    StepFolders(s, sch, c1, m1);
    PendingPhaseMarksAll(Contents(EnsureFolders(s, CycleFolders), PendingApproval), c1.iso);
    StepReport(after.store, after.scheduler, c2, m2);
  }

  /** The same holds when a person decides about a request between the two cycles. */
  lemma NotifiedOnceAcrossDecision(s: Store, sch: Scheduler, c1: Clock, c2: Clock, m1: Mailer, m2: Mailer,
                                   n: string, approve: bool)
    requires n in Contents(Step(s, sch, c1, m1).store, PendingApproval)
    ensures var after := Step(s, sch, c1, m1);
      Step(Decide(after.store, n, approve), after.scheduler, c2, m2).report.notified == {}
  {
    var after := Step(s, sch, c1, m1);
    StepFolders(s, sch, c1, m1);
    PendingPhaseMarksAll(Contents(EnsureFolders(s, CycleFolders), PendingApproval), c1.iso);
    DecideKeepsNotified(after.store, n, approve);
    StepReport(Decide(after.store, n, approve), after.scheduler, c2, m2);
  }

  /** A name that does not start with `REJECTED_` is never the `Done` name of a rejection. */
  lemma NotRejectedName(m: string, names: set<string>)
    requires !StartsWith(m, RejectedPrefix)
    ensures forall n :: n in names ==> m != RejectedPrefix + n
  {
    forall n | n in names ensures m != RejectedPrefix + n {
      assert (RejectedPrefix + n)[..|RejectedPrefix|] == RejectedPrefix;
    }
  }

  /** An approved document is executed by the next cycle: on success it is filed in `Done`
      under its own name, unless a rejection of the same cycle is filed there under that
      name (`REJECTED_<m>` for a rejected `m`, written after it); on failure it stays in
      `Approved`, unchanged, for the next cycle. `NotRejectedName` discharges the proviso for
      every name without the `REJECTED_` prefix. */
  lemma ApprovedOutcome(s: Store, sch: Scheduler, clock: Clock, mailer: Mailer, n: string)
    requires n in MdNames(Contents(s, Approved))
    requires forall m :: m in MdNames(Contents(s, Rejected)) ==> n != RejectedPrefix + m
    ensures var r := Step(s, sch, clock, mailer).store;
      if Executes(TextOf(Contents(s, Approved), n), mailer) then
        n !in Contents(r, Approved) && n in Contents(r, Done) && Contents(r, Done)[n] == Contents(s, Approved)[n]
      else
        n in Contents(r, Approved) && Contents(r, Approved)[n] == Contents(s, Approved)[n]
  {
    StepFolders(s, sch, clock, mailer);
  }

  /** A rejected document always leaves `Rejected` and lands in `Done` as `REJECTED_<name>`,
      carrying the rejection stamp exactly once. */
  lemma RejectedOutcome(s: Store, sch: Scheduler, clock: Clock, mailer: Mailer, n: string)
    requires n in MdNames(Contents(s, Rejected))
    ensures var r := Step(s, sch, clock, mailer).store;
      && n !in Contents(r, Rejected)
      && RejectedPrefix + n in Contents(r, Done)
      && Contents(r, Done)[RejectedPrefix + n] == File(Stamp(TextOf(Contents(s, Rejected), n), clock.iso))
      && Contains(Contents(r, Done)[RejectedPrefix + n].content, RejectedMarker)
  {
    StepFolders(s, sch, clock, mailer);
  }
}
