# Personal AI Employee: the approval workflow, in Dafny

The Personal AI Employee keeps its work as markdown files in a set of vault
folders. Each folder is one state of a piece of work:

- `Inbox`: files a person drops in.
- `Needs_Action`: task records waiting to be read.
- `Pending_Approval`: requests a person must decide on.
- `Approved` and `Rejected`: the person's decisions.
- `Done`: finished work.

Watchers create the task records:

- The Gmail and WhatsApp watchers turn new messages into records.
- The two filesystem watchers copy dropped files next to a metadata sidecar.

The reasoning loop reads each record's frontmatter and categorises it. It writes
an approval request for each record that needs a reply, then files the records
in `Done`. The silver orchestrator polls the folders every cycle. It executes
approved requests through the email backend and stamps and files rejected ones.
It marks new requests as notified once, and prompts when the size of the queue
changes. The bronze orchestrator is the earlier tier: it polls `Needs_Action`
alone.

This project models those components as pure functions over an immutable
`Store`: a map from folder to directory, and from file name to file text or
sub-directory. It proves what each component promises:

- the approval-document parser gives every field the value of the last line that sets it;
- each dispatcher outcome follows from its own error condition;
- a cycle files every approved and rejected document as the workflow says;
- a request is announced at most once;
- the daily briefing fires at most once per date;
- the watchers' de-duplication never gives one id two records;
- the reasoning loop leaves nothing readable behind, so a second run changes nothing.

Modules, one per component:

| module | file | models |
|---|---|---|
| `Wrappers` | wrappers.dfy | `Option` |
| `Text` | text.dfy | the Python string operations the source uses (ASCII case mapping, `strip`, `split`, `find`, `replace`) |
| `Store` | store.dfy | folders, directory entries, `mkdir(exist_ok=True)`, `Path.stem`/`suffix` |
| `Metadata` | metadata.dfy | `read_file_metadata` |
| `Classify` | classify.dfy | `categorize_file` and the approval request's name |
| `Reasoning` | reasoning.dfy | `run_reasoning_loop`, `move_files_to_done`, `update_dashboard` |
| `Approval` | approval.dfy | `parse_approval_file`, `execute_approved_action` |
| `Poll` | poll.dfy | the count-change prompt and `check_time_based_triggers` |
| `Cycle` | cycle.dfy | one iteration of the silver orchestrator's `main` loop |
| `ApprovalLog` | log.dfy | `log_approval_action` as written and as intended |
| `Bronze` | bronze.dfy | the bronze orchestrator |
| `Intake` | intake.dfy | what both message watchers share: the sanitiser, the `processed_ids` de-duplication, the suggestion table |
| `Gmail` | gmail.dfy | the Gmail watcher |
| `WhatsApp` | whatsapp.dfy | the WhatsApp watcher |
| `Drops` | drops.dfy | both filesystem watchers |

Behaviour of the code that a reader might not expect, each point stated by a member:

- **Header versus bullet in an approval document.** The line that comes last in the document wins, whichever kind it is (`Approval.ParseApprovalFields`).
- **Order of the category rules.** Each rule tests the declared type *or* a substring of the upper-cased file name, in the order email, message, document, general. So `EMAIL` anywhere in a name makes the record an email (`Classify.EmailNameWins`).
- **End-of-day trigger.** Only the daily briefing remembers its date. The end-of-day summary fires on every cycle inside its 17:00–17:04 window (`Poll.CheckTriggers`).
- **Email record names.** Email records are named `EMAIL_<id>_<subject>`, with no time in the name (`Gmail.EmailFileName`).
- **Listing order.** Only the bronze orchestrator sorts its listing (by modification time). The silver phases act on every file whatever the order.
- **Duplicate names.** A write to an existing name replaces that file. This applies to a request written twice in one run, to a record filed in `Done` over an older one, and to a rejected file filed over an older one. It also applies to WhatsApp records: two chats whose names agree in their first twenty characters, filed within one second, get one name (see Findings).
- **The approval log.** Every write replaces the log (see Findings).
- **Filename prefix versus header type.** The type a filename prefix implies overrides the frontmatter's own `type` line (`Metadata.FrontmatterType`).
- **WhatsApp priority.** A WhatsApp record without a keyword gets priority `medium` (`WhatsApp.Priority`).
- **Queue prompt.** When the queue changes, the orchestrator only prints a prompt for a person. It does not call the reasoning loop.
- **Records without frontmatter.** A record with no frontmatter is still categorised and moved to `Done` (`Metadata.NoFrontmatterDefaults`, `Reasoning.RunFilesRecords`).

## Model

| member | source | states |
|---|---|---|
| Store.EnsureFolders | silver-tier/src/reasoning_loop.py:33-35 | the folders exist afterwards and no folder's contents change |
| Store.EnsureExisting | silver-tier/src/orchestrator.py:494-497 | creating folders that already exist leaves the store as it was |
| Store.Stem | silver-tier/src/reasoning_loop.py:88 | the stem followed by the suffix is the whole name |
| Store.MdSuffixCharacterization | silver-tier/src/orchestrator.py:193 | a name has the `.md` suffix exactly when it ends in `.md` and is longer than `.md` itself |
| Store.MdNames | silver-tier/src/orchestrator.py:221-230 | the listed names are exactly the regular files with the `.md` suffix |
| Text.Split | silver-tier/src/orchestrator.py:255 | the pieces contain no separator and join back to the text |
| Text.SplitJoin | silver-tier/src/orchestrator.py:255 | splitting undoes joining separator-free pieces |
| Text.ReplaceAll | silver-tier/src/reasoning_loop.py:342-343 | text without the pattern is unchanged; otherwise the text before the first occurrence is kept and is followed by the replacement |
| Text.SplitOn | silver-tier/src/reasoning_loop.py:342-343 | the pieces between the occurrences of a pattern contain no occurrence and, joined by the pattern, give back the text |
| Text.SplitOnCuts | silver-tier/src/reasoning_loop.py:342-343 | there is one piece exactly when the pattern does not occur; otherwise the pattern occurs right after the first piece and nowhere earlier, and the later pieces are the split of the text after that occurrence, which fixes every piece |
| Text.ReplaceIsSplitJoin | silver-tier/src/reasoning_loop.py:342-343 | `s.replace(p, q)` is `q.join(s.split(p))`: every piece between occurrences is kept and every occurrence becomes the replacement |
| Metadata.Defaults | silver-tier/src/reasoning_loop.py:86-95 | the dictionary starts with exactly the eight default keys |
| Metadata.SplitFrontmatter | silver-tier/src/reasoning_loop.py:98-101 | a block is found exactly when the text opens with `---` and a second `---` follows; the text is then fence, block, fence, body; the block holds no fence |
| Metadata.FrontmatterRoundTrip | silver-tier/src/reasoning_loop.py:98-101 | writing a block that does not close itself and then splitting gives back the block and the body |
| Metadata.ApplyPairs | silver-tier/src/reasoning_loop.py:104-108 | reading pair lines never removes a key |
| Metadata.ApplyPairsAppend | silver-tier/src/reasoning_loop.py:104-108 | one more line sets its key when it holds a colon and changes nothing otherwise |
| Metadata.ApplyPairsLastWins | silver-tier/src/reasoning_loop.py:104-108 | a key holds the value of its last pair line; a key no line names keeps its previous value |
| Metadata.ReadMetadata | silver-tier/src/reasoning_loop.py:82-118 | every default key is present in the result |
| Metadata.Typed | silver-tier/src/reasoning_loop.py:110-116 | only `type` changes: it becomes the type the filename prefix implies, if any, and otherwise keeps its value |
| Metadata.NoFrontmatterDefaults | silver-tier/src/reasoning_loop.py:86-118 | without a complete block: type `unknown`, priority `normal`, no sender or subject, the whole text as body, and the stem as filename |
| Metadata.FrontmatterFields | silver-tier/src/reasoning_loop.py:97-108 | every key except `type` holds its last value in the block, or else its default |
| Metadata.PairsFilenameType | silver-tier/src/reasoning_loop.py:104-108 | after the pair lines, filename and type are their last values in the block, or else the stem and `unknown` |
| Metadata.FrontmatterType | silver-tier/src/reasoning_loop.py:104-116 | the type comes from the prefix of the (possibly overwritten) filename; only when no prefix matches does the block's `type` line, or `unknown`, stand |
| Classify.Categorize | silver-tier/src/reasoning_loop.py:121-166 | approval is needed exactly when the action is not archive; a reply email needs an email with a reply word, a message reply needs a message with a reply word; priority is `high` exactly for an email with an urgency word, else the lower-cased declared priority |
| Classify.FirstMatchAt | silver-tier/src/reasoning_loop.py:133-165 | the first-match reading of the rule table picks rule `i` when `i` matches and no earlier rule does |
| Classify.CategoryIsFirstMatch | silver-tier/src/reasoning_loop.py:133-165 | the category is the first matching rule in the order email, message, document, general |
| Classify.EmailNameWins | silver-tier/src/reasoning_loop.py:131-134 | `EMAIL` in the upper-cased filename makes the record an email whatever its type |
| Classify.MessageTypeCategory | silver-tier/src/reasoning_loop.py:133-152 | a record typed `whatsapp` is a message exactly when its filename does not contain `EMAIL`, and otherwise an email |
| Classify.ApprovalOnlyForReplies | silver-tier/src/reasoning_loop.py:137-165 | documents and general records never need approval; a message that needs approval also holds an email reply word |
| Classify.ApprovalName | silver-tier/src/reasoning_loop.py:259-267 | the request name starts with the prefix for its kind of send and has the `.md` suffix |
| Classify.ApprovalNameShape | silver-tier/src/reasoning_loop.py:264-267 | the name is the prefix, the record's filename, `_`, the time and `.md` |
| Classify.ApprovalNameKind | silver-tier/src/reasoning_loop.py:264-267 | equal names imply the same kind of send |
| Classify.ApprovalNameInjective | silver-tier/src/reasoning_loop.py:264-267 | within one timestamp, equal names imply the same kind and the same filename |
| Reasoning.ReadNames | silver-tier/src/reasoning_loop.py:359-382 | the records read are exactly the globbed `*.md` entries that are regular files |
| Reasoning.Moved | silver-tier/src/reasoning_loop.py:320-327 | the moved texts are exactly those of the records read, by name |
| Reasoning.UnreadStay | silver-tier/src/reasoning_loop.py:320-327 | `Needs_Action` keeps exactly the entries that did not read as records, unchanged |
| Reasoning.RecordsFiled | silver-tier/src/reasoning_loop.py:320-327 | `Done` gains each record under its own name with its text, replacing a file of that name; the rest of `Done` stays |
| Reasoning.Record | silver-tier/src/reasoning_loop.py:374-375 | a record is the categorisation of the file's metadata, read with all default keys |
| Reasoning.Records | silver-tier/src/reasoning_loop.py:371-382 | at most one record per enumerated entry, each with readable metadata |
| Reasoning.RecordsComplete | silver-tier/src/reasoning_loop.py:371-382 | every readable enumerated entry yields its record, and every record comes from such an entry |
| Reasoning.WriteRequests | silver-tier/src/reasoning_loop.py:391-394 | the pending folder gains exactly the request names and each is a file; every other entry is unchanged |
| Reasoning.RequestsListed | silver-tier/src/reasoning_loop.py:391-394 | each record that needs approval has its request listed among the `.md` names; nothing else in the folder changes |
| Reasoning.RunIdle | silver-tier/src/reasoning_loop.py:359-386 | a run that reads nothing only creates its folders |
| Reasoning.RunKeepsOthers | silver-tier/src/reasoning_loop.py:352-404 | a run creates its folders and changes no folder other than `Needs_Action`, `Done` and `Pending_Approval` |
| Reasoning.RunLeavesUnread | silver-tier/src/reasoning_loop.py:371-401 | after a run, `Needs_Action` holds exactly what did not read as a record |
| Reasoning.RunFilesRecords | silver-tier/src/reasoning_loop.py:371-401 | after a run, `Done` holds every record read, under its own name |
| Reasoning.RunWritesRequests | silver-tier/src/reasoning_loop.py:384-394 | after a run, `Pending_Approval` is the old folder plus the requests of the records read |
| Reasoning.NoRecordsFromDirectories | silver-tier/src/reasoning_loop.py:372-382 | entries that are all directories yield no records |
| Reasoning.NoRecordsIdle | silver-tier/src/reasoning_loop.py:384-386 | with nothing readable there are no records, hence no requests |
| Reasoning.RunOnSettled | silver-tier/src/reasoning_loop.py:359-365 | with its folders present and nothing readable, a run changes nothing |
| Reasoning.RunSettles | silver-tier/src/reasoning_loop.py:352-401 | after a run its folders exist and nothing readable is left in `Needs_Action` |
| Reasoning.RunTwiceIsRun | silver-tier/src/reasoning_loop.py:352-401 | a second run right after a run changes nothing, whatever its clock |
| Reasoning.UpdateDashboard | silver-tier/src/reasoning_loop.py:330-349 | a dashboard exists afterwards exactly when it existed before |
| Reasoning.DashboardGainsLog | silver-tier/src/reasoning_loop.py:344-346 | without a processing log the text is kept and a log section holding the entry is appended |
| Reasoning.DashboardExtendsLog | silver-tier/src/reasoning_loop.py:341-343 | with a processing log, the text up to the first heading is kept and the entry follows that heading at once |
| Reasoning.DashboardEveryHeading | silver-tier/src/reasoning_loop.py:341-343 | with a processing log, the old dashboard is its pieces joined by the heading (at least two pieces) and the new one is the same pieces joined by the heading followed by the entry, so every heading gains the entry and nothing else changes |
| ApprovalLog.Append | silver-tier/src/reasoning_loop.py:60-67 | an appended log starts with the old log and ends with the entry |
| ApprovalLog.FirstEntryLost | silver-tier/src/orchestrator.py:43-48 | as written, an execution followed by a rejection leaves no trace of the execution in the log |
| ApprovalLog.LogKeepsEvery | silver-tier/src/reasoning_loop.py:60-67 | an appending log contains every entry ever written |
| ApprovalLog.LogConcat | silver-tier/src/reasoning_loop.py:60-67 | an appending log keeps entries in write order: the log of a run is the log of its first part followed by that of the rest |
| Approval.ParseApprovalFields | silver-tier/src/orchestrator.py:255-299 | each field is the value given by the last line of the document that sets it, whether that line is a heading, a `key:` line or a bullet, and absent when no line does |
| Approval.ScanLinesField | silver-tier/src/orchestrator.py:260-299 | scanning lines from any state sets each field to the last line's update, or leaves its previous value |
| Approval.ScanLineField | silver-tier/src/orchestrator.py:260-299 | one iteration of the loop changes a field exactly as that line's own rule says: the blocks never both set one field |
| Approval.ScanLinesAppend | silver-tier/src/orchestrator.py:260-309 | scanning two parts is scanning the second from where the first left off |
| Approval.ScanLinesSnoc | silver-tier/src/orchestrator.py:260-309 | the scan of a non-empty document is the scan of its last line after the others |
| Approval.HeadingBlockOthers | silver-tier/src/orchestrator.py:265-273 | a heading changes only the action |
| Approval.ScanLineAction | silver-tier/src/orchestrator.py:265-277 | in one iteration, a heading names the action by keyword and a later `action:` line overrides it |
| Approval.ScanLineTo | silver-tier/src/orchestrator.py:278-293 | in one iteration, `to` is set by a `to:` line or a `to` bullet, and by nothing else |
| Approval.ScanLineSubject | silver-tier/src/orchestrator.py:280-295 | in one iteration, `subject` is set by a `subject:` line or a `subject` bullet, and by nothing else |
| Approval.ScanLineAttachment | silver-tier/src/orchestrator.py:282-299 | in one iteration, `attachment` is set by an attachment line or bullet unless its value is empty or `none` |
| Approval.ScanLineCc | silver-tier/src/orchestrator.py:286-287 | in one iteration, `cc` is set by a `cc:` line and by nothing else |
| Approval.ScanLineSourcePlan | silver-tier/src/orchestrator.py:288-289 | in one iteration, `source_plan` is set by a `source plan:` line and by nothing else |
| Approval.KeyBlockAction | silver-tier/src/orchestrator.py:276-277 | the key block sets the action only on an `action:` line, to the stripped value after the first colon |
| Approval.KeyBlockTo | silver-tier/src/orchestrator.py:278-279 | the key block sets `to` only on a `to:` line, to the cleaned value |
| Approval.KeyBlockSubject | silver-tier/src/orchestrator.py:280-281 | the key block sets `subject` only on a `subject:` line |
| Approval.KeyBlockAttachment | silver-tier/src/orchestrator.py:282-285 | the key block sets the attachment only on an `attachment:` line with a value other than empty or `none` |
| Approval.KeyBlockCc | silver-tier/src/orchestrator.py:286-287 | the key block sets `cc` only on a `cc:` line |
| Approval.KeyBlockSourcePlan | silver-tier/src/orchestrator.py:288-289 | the key block sets `source_plan` only on a `source plan:` line |
| Approval.BulletBlockTo | silver-tier/src/orchestrator.py:292-293 | the bullet block sets `to` exactly on a bold or plain `to` bullet |
| Approval.BulletBlockSubject | silver-tier/src/orchestrator.py:294-295 | the bullet block sets `subject` exactly on a bold or plain `subject` bullet |
| Approval.BulletBlockAttachment | silver-tier/src/orchestrator.py:296-299 | the bullet block sets the attachment exactly on an attachment bullet whose value is neither empty nor `none` |
| Approval.BulletBlockOthers | silver-tier/src/orchestrator.py:292-309 | the bullet block changes no field other than `to`, `subject` and the attachment |
| Approval.BulletContainsKey | silver-tier/src/orchestrator.py:292-295 | a plain `- to:` or `- subject:` bullet always passes the extra `key in line` test, so the test never decides anything |
| Approval.BoldBulletKeepsStars | silver-tier/src/orchestrator.py:292-293 | for every line that opens with `- **To:**`, the recipient is the cleaned text after the label's colon, and it starts with `**`: the value starts after the first colon, which lies inside the bold label |
| Approval.CleanKeepsStars | silver-tier/src/orchestrator.py:293 | the clean-up of a value never removes leading stars |
| Approval.ParseApprovalBody | silver-tier/src/orchestrator.py:256-313 | the body is the reference's collected lines joined by newlines, or `None` when there are none; split at newlines it gives those lines back; it is only found after a body-start bullet |
| Approval.BodyStepPiece | silver-tier/src/orchestrator.py:292-311 | block 3 leaves the capture open exactly when the line opens it, or it was open and the line is no stop line, and adds the piece the line's role gives |
| Approval.ScanLineBody | silver-tier/src/orchestrator.py:260-311 | one loop iteration changes the capture only as the line's role says |
| Approval.ScanLinesBody | silver-tier/src/orchestrator.py:256-311 | the scan ends inside a body exactly when the last opener or stop line is an opener, and collects exactly the reference's lines |
| Approval.OpenAfterSegment | silver-tier/src/orchestrator.py:300-307 | a body is open exactly when some line opened it and no later line is a stop line: a body runs from a start bullet to the next `## `, `---` or `- [ ]` line |
| Approval.CapturedNonEmpty | silver-tier/src/orchestrator.py:300-311 | lines are collected exactly when some line yields a piece |
| Approval.PieceInCaptured | silver-tier/src/orchestrator.py:300-311 | every piece a line yields is among the collected lines |
| Approval.CapturedNoNewline | silver-tier/src/orchestrator.py:255-311 | no collected line holds a newline when no line of the document does |
| Approval.RoleNoNewline | silver-tier/src/orchestrator.py:300-309 | the texts a line contributes are trimmed parts of it, so a line without a newline contributes none |
| Approval.RoleTexts | silver-tier/src/orchestrator.py:300-309 | a start bullet contributes its value with quotes and `> ` trimmed, a line inside a body its text with `> ` trimmed |
| Approval.BodyStartNotField | silver-tier/src/orchestrator.py:292-300 | no body-start bullet is also a field bullet, so every start bullet reaches the body branch |
| Approval.StartLineOpens | silver-tier/src/orchestrator.py:300-303 | a body-start bullet opens a body and, with a value, contributes it |
| Approval.BodyFoundIff | silver-tier/src/orchestrator.py:300-313 | a document has a body exactly when some line yields a piece: a start bullet with a value, or a kept line while a body is open |
| Approval.StartLineCaptured | silver-tier/src/orchestrator.py:300-313 | a start bullet with a value gives the document a body, and that trimmed value is one of its lines |
| Approval.InsideLineCaptured | silver-tier/src/orchestrator.py:300-313 | a non-blank line after a start bullet, with no stop line between, gives the document a body that holds the line with `> ` trimmed |
| Approval.KeptInsideSegment | silver-tier/src/orchestrator.py:304-307 | a kept line after an opener, with no stop line between them, yields its own text |
| Approval.ScanLineOutsideBody | silver-tier/src/orchestrator.py:300-309 | outside a body, a line that does not start one neither opens a capture nor adds a body line |
| Approval.NoBodyStartNoBody | silver-tier/src/orchestrator.py:300-309 | outside a body, lines none of which starts a body leave the body lines unchanged |
| Approval.ManualOutcome | silver-tier/src/orchestrator.py:375-388 | an action without an integration fails with a message that ends by asking for manual action |
| Approval.Execute | silver-tier/src/orchestrator.py:316-393 | the outcome carries the parsed action. Success needs an email action, the backend available, a recipient and a body, and a successful send. Each missing piece gives its own message, checked in the source's order. With all present, the backend's verdict, message and id pass through. The three actions without an integration fail and ask for manual action. An unknown action is reported by name |
| Approval.ExecuteApproved | silver-tier/src/orchestrator.py:316-344 | the action of the outcome is the last action line's; success needs the backend and a recipient on the last line that sets one |
| Poll.CountChange | silver-tier/src/orchestrator.py:633-653 | a prompt is shown exactly when the queue is non-empty and its size differs from the remembered one; the size is then remembered |
| Poll.PromptAt | silver-tier/src/orchestrator.py:636-653 | poll `i` of a run prompts exactly when its count is non-zero and differs from the previous poll's |
| Poll.NoRepeatedPrompt | silver-tier/src/orchestrator.py:636-648 | a queue that keeps its size never prompts twice in a row |
| Poll.CheckTriggers | silver-tier/src/orchestrator.py:51-76 | the briefing is due exactly at 8:00–8:04 on a date other than the last briefing's; the summary is due exactly at 17:00–17:04; the briefing's date is remembered |
| Poll.BriefingDatesStep | silver-tier/src/orchestrator.py:64-68 | the remembered date after cycle `i` is what the trigger check makes of the previous remembered date |
| Poll.RememberedWithinDate | silver-tier/src/orchestrator.py:64-68 | after a briefing on a date, later cycles on that date keep the date remembered |
| Poll.TriggersKeepDate | silver-tier/src/orchestrator.py:64-68 | a cycle on the remembered date keeps it |
| Poll.DailyBriefingOncePerDate | silver-tier/src/orchestrator.py:64-68 | with a clock that never goes back, the briefing fires at most once per date |
| Cycle.Succeeded | silver-tier/src/orchestrator.py:540-555 | the successes are exactly the approved `.md` files whose execution succeeds |
| Cycle.Failed | silver-tier/src/orchestrator.py:557-560 | the failures are exactly the approved `.md` files whose execution fails |
| Cycle.ApprovedPhase | silver-tier/src/orchestrator.py:533-560 | successes move to `Done` under their own names, replacing a file of that name; failures and all other entries stay in `Approved`, unchanged |
| Cycle.Stamp | silver-tier/src/orchestrator.py:578-582 | the stamped text carries the rejection marker and extends the original; text already marked is unchanged |
| Cycle.StampIdempotent | silver-tier/src/orchestrator.py:578-582 | stamping twice is stamping once, whatever the second time |
| Cycle.RejectedPhase | silver-tier/src/orchestrator.py:567-587 | every rejected `.md` file leaves `Rejected` and arrives in `Done` stamped as `REJECTED_<name>`; nothing else in `Done` changes, nothing else leaves `Rejected` |
| Cycle.Unnotified | silver-tier/src/orchestrator.py:206-218 | the listed requests are exactly the `.md` files without the notified marker |
| Cycle.Notify | silver-tier/src/orchestrator.py:618-621 | the notice extends the text and carries the marker |
| Cycle.PendingPhase | silver-tier/src/orchestrator.py:594-621 | the unnotified requests are listed and each gains the notice; no file is added or removed, and the others are unchanged |
| Cycle.PendingPhaseMarksAll | silver-tier/src/orchestrator.py:594-621 | after the phase no request is unnotified |
| Cycle.Partition | silver-tier/src/orchestrator.py:185-203 | payloads and sidecars together are the regular files, disjoint. Sidecars are reported only alongside payloads. When a payload exists the files are exactly the payloads; when none exists (the email-only case) the files are exactly the regular files and there are no sidecars |
| Cycle.StepCreatesFolders | silver-tier/src/orchestrator.py:494-497 | a cycle re-creates every folder it uses |
| Cycle.StepReport | silver-tier/src/orchestrator.py:533-628 | the report names the successes, the failures, every rejected `.md` file and the newly notified requests |
| Cycle.StepScheduler | silver-tier/src/orchestrator.py:502-653 | the scheduler remembers the notified count, the queue size and the briefing date; the queue prompt shows exactly when the size changed to a non-zero value |
| Cycle.StepKeepsIntake | silver-tier/src/orchestrator.py:494-653 | a cycle never changes `Needs_Action` or `Inbox` |
| Cycle.Decide | silver-tier/src/orchestrator.py:614-616 | a person's move takes the request out of `Pending_Approval` into the chosen folder, unchanged, and touches nothing else |
| Cycle.DecideKeepsNotified | silver-tier/src/orchestrator.py:206-218 | moving a request out never makes another request unnotified |
| Cycle.NotifiedOnce | silver-tier/src/orchestrator.py:594-621 | the cycle after a cycle announces nothing new |
| Cycle.NotifiedOnceAcrossDecision | silver-tier/src/orchestrator.py:594-621 | the same, when a person decides about a request in between |
| Cycle.ApprovedOutcome | silver-tier/src/orchestrator.py:540-560 | an approved document that executes lands in `Done` under its own name, unless a rejected file of the same cycle is filed there as `REJECTED_<m>` under that very name (so always when the name does not start with `REJECTED_`); one that fails stays in `Approved` unchanged |
| Cycle.RejectedOutcome | silver-tier/src/orchestrator.py:574-587 | a rejected document always leaves `Rejected` and lands in `Done` as `REJECTED_<name>`, carrying the stamp |
| Bronze.PendingOf | silver-tier/bronze-tier/orchestrator.py:17-19 | the pending entries are exactly the regular `.md` files whose names do not start with `~`, each as many times as the listing yields it |
| Bronze.Insert | silver-tier/bronze-tier/orchestrator.py:21 | inserting into a sorted list keeps it sorted and adds exactly that entry |
| Bronze.SortByMtime | silver-tier/bronze-tier/orchestrator.py:21 | the result is a permutation of the input in ascending modification time |
| Bronze.PendingFiles | silver-tier/bronze-tier/orchestrator.py:10-21 | a missing folder gives nothing; otherwise the pending entries, oldest first |
| Bronze.PendingFilesExact | silver-tier/bronze-tier/orchestrator.py:10-21 | the result holds each pending entry as many times as the listing yields it and no other entry, oldest first |
| Bronze.BronzePoll | silver-tier/bronze-tier/orchestrator.py:123-144 | a prompt listing the pending files is shown exactly when their number is non-zero and changed; the number is remembered |
| Bronze.NothingPending | silver-tier/bronze-tier/orchestrator.py:17-19 | a listing without pending entries yields none |
| Bronze.QuietWhenEmpty | silver-tier/bronze-tier/orchestrator.py:142-144 | a missing or empty folder never prompts and resets the count |
| Bronze.NoPromptTwice | silver-tier/bronze-tier/orchestrator.py:126-141 | a poll right after a poll over the same folder does not prompt |
| Intake.Sanitize | silver-tier/watchers/gmail_watcher.py:226 | the name is cut to the limit and each character is kept when safe, otherwise replaced by `_` |
| Intake.SanitizeIsSafe | silver-tier/watchers/whatsapp_watcher.py:327 | no dot, slash, colon or newline survives |
| Intake.SanitizeKeepsSafe | silver-tier/watchers/whatsapp_watcher.py:327 | safe text within the limit is unchanged |
| Intake.SanitizeIdempotent | silver-tier/watchers/whatsapp_watcher.py:327 | sanitising twice is sanitising once |
| Intake.Admit | silver-tier/watchers/whatsapp_watcher.py:405-412 | records go only to wanted items with unseen ids, never two for one id, and the seen set grows by exactly their ids |
| Intake.AdmitCovers | silver-tier/watchers/whatsapp_watcher.py:405-412 | every wanted item with an unseen id has its id recorded in that poll |
| Intake.LifetimeOnce | silver-tier/watchers/whatsapp_watcher.py:386-412 | across all polls of a watcher's life no id gets two records, and none seen at the start gets one |
| Intake.HitsEmpty | silver-tier/watchers/whatsapp_watcher.py:295-310 | rows that add lines give no lines exactly when none of them hit |
| Intake.HitsSplit | silver-tier/watchers/whatsapp_watcher.py:295-310 | each row's lines come after those of the rows before it and before those of the rows after it |
| Intake.SuggestDefaults | silver-tier/watchers/whatsapp_watcher.py:312-318 | the list is never empty, and it is the default list exactly when no row hit |
| WhatsApp.PriorityKeywordIgnoresCase | silver-tier/watchers/whatsapp_watcher.py:285-288 | the keyword test ignores case |
| WhatsApp.KeywordMakesPriority | silver-tier/watchers/whatsapp_watcher.py:59-70 | any listed keyword, in any case, makes the text a priority |
| WhatsApp.Priority | silver-tier/watchers/whatsapp_watcher.py:336 | the priority is `high` exactly with a keyword, and `medium` otherwise |
| WhatsApp.MessageRows | silver-tier/watchers/whatsapp_watcher.py:295-310 | five rows, each adding lines, none of them the first default line |
| WhatsApp.MessageSuggestionsDefaults | silver-tier/watchers/whatsapp_watcher.py:290-318 | the list is never empty, and it is the three default lines exactly when no pattern matched |
| WhatsApp.PaymentFirst | silver-tier/watchers/whatsapp_watcher.py:296-298 | a payment preview opens the list with the two payment lines |
| WhatsApp.MessageFileName | silver-tier/watchers/whatsapp_watcher.py:327-329 | the name has the `.md` suffix and its stem is prefix, time and sanitised chat name |
| WhatsApp.MessageNamesCollide | silver-tier/watchers/whatsapp_watcher.py:326-329 | two chat names that agree in their first twenty characters give the same record name for one clock reading |
| WhatsApp.IndexedFileName | silver-tier/watchers/whatsapp_watcher.py:326-329 | the corrected name has the `.md` suffix and reads as prefix, time, position in the poll and sanitised chat name |
| WhatsApp.IndexedNamesDistinct | silver-tier/watchers/whatsapp_watcher.py:326-329 | two corrected names with clock readings of one width are equal only for the same reading and the same position |
| WhatsApp.MessageNameTyped | silver-tier/watchers/whatsapp_watcher.py:329 | the metadata reader types the name as `whatsapp` |
| WhatsApp.MessageRecordCategory | silver-tier/watchers/whatsapp_watcher.py:339-346 | the record reads back as type `whatsapp`; it is a message unless its name contains `EMAIL`, and then an email |
| WhatsApp.PollChats | silver-tier/watchers/whatsapp_watcher.py:405-412 | records go only to unread or priority chats with unseen ids, never two per id, and the seen set grows by exactly their ids |
| WhatsApp.PollLosesRecord | silver-tier/watchers/whatsapp_watcher.py:405-412 | two unread chats with different ids are both created and recorded in one poll, their records share a name when written within one second, and the next poll files neither again |
| WhatsApp.PollRecordsDistinct | silver-tier/watchers/whatsapp_watcher.py:326-329 | under the corrected names, the records of one poll have pairwise different names |
| WhatsApp.PollChatsCovers | silver-tier/watchers/whatsapp_watcher.py:405-412 | every wanted chat with a new id has its id recorded as created in the poll that first sees it; under the corrected names, the record created for that id shares its name with no other record of the poll |
| WhatsApp.ChatIdsCollide | silver-tier/watchers/whatsapp_watcher.py:386 | two different chats can share an id, because `:` in a name is not escaped |
| Gmail.Headers | silver-tier/watchers/gmail_watcher.py:156-164 | only `from`, `to`, `subject` and `date` are kept |
| Gmail.HeadersLastWins | silver-tier/watchers/gmail_watcher.py:159-163 | a kept header holds its last occurrence's value, in any case of its name, and is absent when it never occurs |
| Gmail.HeaderOr | silver-tier/watchers/gmail_watcher.py:212-213 | a kept header's value is that of its last occurrence, or the default when it never occurs |
| Gmail.EmailRows | silver-tier/watchers/gmail_watcher.py:172-187 | five rows, each adding lines, none of them the first default line |
| Gmail.EmailSuggestionsDefaults | silver-tier/watchers/gmail_watcher.py:166-195 | the list is never empty, and it is the default lines exactly when nothing matched |
| Gmail.SnippetOnlyForAttachments | silver-tier/watchers/gmail_watcher.py:183-184 | only the attachment row reads the snippet |
| Gmail.EmailFileName | silver-tier/watchers/gmail_watcher.py:226-228 | the name has the `.md` suffix and its stem is prefix, id and sanitised subject, with no time |
| Gmail.EmailNameKeepsId | silver-tier/watchers/gmail_watcher.py:226-228 | ids without `_` can be read back from the name: different ids never share a name |
| Gmail.EmailNameTyped | silver-tier/watchers/gmail_watcher.py:228 | the metadata reader types the name as `email` |
| Gmail.EmailRecordCategory | silver-tier/watchers/gmail_watcher.py:235-242 | the record reads back as type `email` and is an email |
| Gmail.PollMessages | silver-tier/watchers/gmail_watcher.py:302-306 | records go only to messages with unseen ids, never two per id, and the seen set grows by exactly their ids |
| Gmail.PollMessagesCovers | silver-tier/watchers/gmail_watcher.py:302-306 | every message with a new id gets a record in the poll that first lists it |
| Drops.FiltersCompared | silver-tier/bronze-tier/filesystem_watcher.py:19-28 | the silver filter accepts all the bronze one does, and beyond that exactly the hidden and `.tmp` files |
| Drops.SidecarName | silver-tier/watchers/filesystem_watcher.py:36-39 | the sidecar has the `.md` suffix and the copy's name as stem |
| Drops.SidecarNaming | silver-tier/watchers/filesystem_watcher.py:37 | the metadata reader types the sidecar as `file` |
| Drops.SidecarApart | silver-tier/watchers/filesystem_watcher.py:37-39 | the copy and its sidecar never share a name |
| Drops.OnCreated | silver-tier/bronze-tier/filesystem_watcher.py:19-76 | only `Needs_Action` changes and no folder is created. A rejected event changes nothing. Only the silver tier lets an error escape, and then nothing changes |
| Drops.DropWrites | silver-tier/bronze-tier/filesystem_watcher.py:39-71 | an accepted file that can be copied lands in `Needs_Action` as a copy with the same content next to its sidecar; every other entry stays, and the Inbox keeps the file |
| Drops.DropFails | silver-tier/bronze-tier/filesystem_watcher.py:75-76 | a copy that cannot be made writes nothing; only silver raises |
| Drops.SidecarDocument | silver-tier/src/reasoning_loop.py:162-165 | a sidecar typed `file` or `unknown` is a document exactly when its name names neither `EMAIL` nor `WHATSAPP` |
| Drops.BronzeSidecarIsFile | silver-tier/bronze-tier/filesystem_watcher.py:48-53 | the bronze sidecar reads back as type `file` and is a document unless its name contains `EMAIL` or `WHATSAPP` |
| Drops.SilverSidecarIsUnknown | silver-tier/watchers/filesystem_watcher.py:50-70 | the silver sidecar has no frontmatter, so its type stays `unknown`; it is still a document unless its name contains `EMAIL` or `WHATSAPP` |

## Left out

- I/O and exceptions: reading and writing files, `shutil` moves, `mkdir`, and console output. Each becomes an operation on the `Store` value; an unreadable entry is one that is a directory.
- Email backend: `send_email` and its SMTP internals (`email_mcp.py`) are the `Mailer` parameter, which is an availability flag plus a function from request to result.
- Foreign services: the watchdog observer, the Playwright browser and the Gmail API are not modelled. The items they deliver (events, chat rows, message lists with headers) are parameters.
- `_get_unread_chats`: the page scraping is left out; a poll receives the chat rows.
- Prompt texts: the daily-briefing, end-of-day and queue prompts and the plan file (`create_plan_file`) are not modelled. The model records that a prompt is due and what it lists.
- Request text: the body of an approval request is the `render` parameter.
- Sidecar bodies: the markdown after the sidecar's frontmatter is the `rest` parameter.
- `Plans` and `Logs` folders: these, and the reasoning loop's own log, are not part of the store.
- `Cycle.Step`: does not write the approval log. The log is modelled on its own in `ApprovalLog`.
- `full_path` override: a record whose frontmatter sets `full_path` makes the source move a different path to `Done`. The model moves the file it read.
- Clock: one clock reading per cycle or run is a parameter. The source reads the clock several times within one. The WhatsApp record names take one reading per record (`stamps`), as the watcher does.
- Case mapping: `lower`, `upper` and `isalnum` are ASCII-only. Non-ASCII letters keep their case and count as unsafe in names.
- Bronze.PendingFiles: Python's sort is stable, and the model's insertion sort does not promise that ties keep listing order. The contract states sortedness and permutation only.
- WhatsApp.PollChatsCovers: the promise that the record keeps its own name holds for the corrected names only. As written, a record is replaced by a record of the same poll written within the same second whose chat name opens with the same twenty characters (see Findings).
- WhatsApp.IndexedNamesDistinct: records of different polls get different names only when their clock readings differ. The clock readings are parameters, and the model does not prove that two polls never read the same second.
- Metadata.FrontmatterType: the cross-component lemmas (`Gmail.EmailRecordCategory`, `WhatsApp.MessageRecordCategory`, `Drops.BronzeSidecarIsFile`) require two things of the frontmatter block. It must not contain a closing `---` of its own, and it must not set `filename`. A sender or subject holding `---` breaks the source's own split.
- Directory collisions: when the destination name of a move or copy already holds a sub-directory, `shutil.move` and `shutil.copy2` put the file inside it. The model replaces the entry with the file instead. This concerns `Cycle.ApprovedPhase`, `Cycle.RejectedPhase`, the filing of records in `Done` by `Reasoning.Run`, and `Drops.OnCreated`.
- Unicode whitespace: `str.strip()` also removes non-ASCII whitespace such as `\x85`, `\xa0` and `\u2000`–`\u200a`. The model's `Text.Whitespace` is the ASCII set, so such characters stay in stripped text.
- Newline translation: `Path.read_text()` turns `\r\n` and a lone `\r` into `\n`. The model reads a file's text as stored. So a `\r` stays in a line instead of ending it, both for the approval parser's `split('\n')` and for the frontmatter reader, and the texts moved to `Done` keep their `\r`.
- `update_dashboard`: modelled on its own (`Reasoning.UpdateDashboard`); `Reasoning.Run` does not include it, because the dashboard is not one of the vault folders.

## Findings

| source | as written | input that shows it | evidently intended | confidence | as-written member | corrected member |
|---|---|---|---|---|---|---|
| silver-tier/src/orchestrator.py:47 | `log_approval_action` writes each entry with `write_text`, which replaces the whole log file | one cycle that executes `a.md` and then rejects `b.md`: afterwards the log holds only the rejection | append each entry, as the reasoning loop's `log_message` does (silver-tier/src/reasoning_loop.py:66) | not executed | ApprovalLog.FirstEntryLost | ApprovalLog.LogKeepsEvery |
| silver-tier/watchers/whatsapp_watcher.py:326-329 | the name, commented as unique, keeps only the first twenty characters of the sanitised chat name and the time to the second | the unread chats `Project Alpha Team - London` and `Project Alpha Team - Paris` in one poll, written within one second: the second `write_text` replaces the first record, and the first chat's id is already in `processed_ids`, so it is never filed again | a name unique to each record; the corrected name puts the record's position in its poll after the time | not executed | WhatsApp.PollLosesRecord | WhatsApp.PollRecordsDistinct |

Behaviour notes that are not bugs, each stated by a lemma:

- `WhatsApp.ChatIdsCollide`: a chat id is the name and the time joined by `:`, so two chats can collide.
- `Approval.BoldBulletKeepsStars`: the recipient read from a bold bullet keeps the closing `**`.
- `Approval.BulletContainsKey`: the `'to:' in line_lower` test is redundant.
- `Classify.EmailNameWins`: a record whose name contains `EMAIL` becomes an email whatever its type.
