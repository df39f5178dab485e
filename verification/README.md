# Verified model of the log collector, the KVM tools and the wire checkers

A Dafny model of the parts of this repository where a wrong step loses data, presses a key twice or
switches the wrong host, with proofs of what those parts promise. `dafny verify dfyconfig.toml`
checks all of it.

**The flow collector** copies UniFi Flow View rows from a paged, row-capped console into an
append-only log store. `WindowReading` and `PageByPage` say when the pages of one time window are
complete, against any console; `Delivery` says what the store must hold for a checkpoint to be
backed and for a gap to be justified; `ConsoleSession` is the login, backoff and rate-limit machine;
`Resending` and `Accounting` carry the invariants (what is accounted for, what is remembered as sent,
what is stored whole); `Journal` is the log that a process leaves, which only grows; `FlowCollector` is
the process, with crashes at every write, `Life` one life of it, and `Run` any number of lives. The
invariants are kept on every exit of every method, and `Delivery.RowAccountedFor`,
`Journal.ExactlyOnce` and `Journal.BoundedReplay` say what they mean for one row. Progress is stated
the other way round: every result of a poll has its cause in what the console and the store
answered, so that `Journal.PollGoesWell` follows.

**The keyboard gadget** is `HidInput`, a sequence with absolute deadlines over a device that may
stall, retry, write short, wake late or be interrupted at any call, and `HidType`, which types text
through it. The end-to-end statement is about the reports submitted (a beginning of what the command
line spells, each once and in time, then at most one neutral report), what a host reads from them,
and how long the run can take.

**The host switcher** is `HostSwitch`, one method for each stretch of code between two awaits, and
`Drive`, which runs any interleaving of them and is compared with a page without redundant flags and
with a ledger kept from the events alone;
and `VideoWatch`, the debouncing monitor, whose streaming state is proved equal to a specification
over the whole read history.

**The codecs and checkers** are `Utf8`, `Protobuf`, `OtlpValues` and `Otlp` (decoding log requests in
the Protocol Buffers wire format, Encoding guide, "Base 128 Varints" and "Message Structure"),
`WebSocket` (sections 5.2 and 5.3 of RFC 6455), `PolicyDelta`, `PolicyRules` and
`PolicySamples` (the full-inventory policy check) and `SnapshotPath` (printing and parsing Hugging Face snapshot paths).

Three properties one might expect turned out to be false of the code, and each has its exact condition
here. The OTLP decoder raises on a KeyValue with an empty key, which is legal on the wire and which
serializers write without its key field; `OtlpValues.AnyRoundTrip` and `Otlp.RequestRoundTrip` hold
with "if and only if no key is empty". The policy check compares whole policies with Python's `==`,
for which `1` is `True`, but tests `enabled` and `create_allow_respond` with `is True`; so its later
checks can reject a snapshot that its comparison accepts, and `PolicyDelta.Verify` states exactly
when. And the collector can lose sight of a row that the query cap hid, if the process dies before the
gap is persisted and the console no longer shows the row when the window is read again;
`Delivery.RowAccountedFor` has this as its one exception and `Delivery.HiddenThenGone` is an instance.

Assumptions, all visible in the model: a write that is not acknowledged may have persisted any prefix
of its lines; the log store's checkpoint query returns None only if there has never been a
checkpoint; the clock does not go back; the row cap and the window widths are positive and ordered. No window asks
for time before zero, so rows are accounted for from time zero on.
Exactly-once delivery is stated under the further conditions its row in the table names. A poll of
the keyboard device takes some time, however little; what a system call takes beyond the wait it was
asked for is counted as overrun, and bounds on real time are stated up to that.

## Model

| member | source | states |
|---|---|---|
| `WindowReading.PutAllKeepsDistinct` | kubernetes/apps/observability/unifi-flows/app/collector.py:457 | a dict filled from rows keeps one entry per identity, and is the list itself exactly when no identity repeats |
| `WindowReading.FullPagesCount` | kubernetes/apps/observability/unifi-flows/app/collector.py:426-434 | pages that pass the pagination checks and were asked for in turn carry min(100 n, total) rows, and announce another page exactly while rows are left |
| `WindowReading.FullWindowIsSound` | kubernetes/apps/observability/unifi-flows/app/collector.py:402-472 | against any console: a window read in full has as many rows as every page's stated total, pairwise distinct, all inside [start, end], on exactly the pages the arithmetic gives |
| `WindowReading.HonestIsGood` | kubernetes/apps/observability/unifi-flows/app/collector.py:408-470 | the pages of a console serving one fixed list, newest first and cut at its cap, never contradict a complete window |
| `WindowReading.HonestReadIsExact` | kubernetes/apps/observability/unifi-flows/app/collector.py:402-472 | reading such a console under its cap to the last page yields exactly its list |
| `WindowReading.TruncatedReadIsNewest` | kubernetes/apps/observability/unifi-flows/app/collector.py:441-444 | reading such a console over its cap yields its newest cap rows, so every row not read is at or before the oldest one read |
| `PageByPage.Pagination` | kubernetes/apps/observability/unifi-flows/app/collector.py:419-439 | the chain of pagination checks finds nothing wrong if and only if the page has exactly the fields and row count its number, the total and the cap give |
| `PageByPage.Identify` | kubernetes/apps/observability/unifi-flows/app/collector.py:445-453 | the rows of a page are usable if and only if every element is a row inside the window, and then they are the page's rows in order |
| `PageByPage.LastPage` | kubernetes/apps/observability/unifi-flows/app/collector.py:459-472 | a read that reaches its last page ends without a problem, uncapped, exactly when the pages are a complete window |
| `PageByPage.TakePage` | kubernetes/apps/observability/unifi-flows/app/collector.py:415-467 | judging one more page: an objection, a repeated page or a short count only where the pages contradict a complete window; otherwise the dict read so far is that of all pages |
| `PageByPage.TakeRows` | kubernetes/apps/observability/unifi-flows/app/collector.py:454-471 | the same for a page whose fields fit: a repeated page is objected to only if the rows are not distinct, a read that goes on or ends without a problem shows a new identity on every page with rows, and the empty-page branch cannot be reached |
| `FlowCollector.Collector.ReadWindow` | kubernetes/apps/observability/unifi-flows/app/collector.py:402-472 | against any console the outcome is uncapped with no problem if and only if the pages received are a complete window, and then the rows are theirs; an honest transcript ends with no problem but the budget, and that only when the budget is used up or the process is stopping; pages read equal budget used; an error rests on what the console answered |
| `Delivery.FullReadCovers` | kubernetes/apps/observability/unifi-flows/app/collector.py:519-536 | an uncapped read, stored, accounts at every instant of its window for every row any honest console consistent with it can have had |
| `Delivery.CappedReadCovers` | kubernetes/apps/observability/unifi-flows/app/collector.py:529-533 | a truncated read, stored, together with the gap from the old watermark to the oldest row read does the same, hidden rows included |
| `Delivery.GapExtends` | kubernetes/apps/observability/unifi-flows/app/collector.py:507-509 | a beyond_catchup gap accounts for the time it abandons |
| `Delivery.ReadExtends` | kubernetes/apps/observability/unifi-flows/app/collector.py:512-533 | a completed read extends what is accounted for from the old watermark to the new one |
| `Delivery.PrefixKeepsSafe` | kubernetes/apps/observability/unifi-flows/app/collector.py:564-567 | whatever prefix of a request persists, every checkpoint in the store stays backed by the records before it: the gaps come first |
| `Delivery.ShownIsStored` | kubernetes/apps/observability/unifi-flows/app/collector.py:503-537 | every row that any completed read of an honest console showed, on whatever page and from whatever part of its window, the overlap included, is stored, whether or not the checkpoint after it survived |
| `Delivery.BackedRow` | kubernetes/apps/observability/unifi-flows/app/collector.py:5-10 | for every persisted checkpoint W and every row with time from the chain's start (from zero, if that is later) to W: the row was stored or is in a gap record, both before the checkpoint, or the console left it out of a completed read that asked for its time |
| `Delivery.RowAccountedFor` | kubernetes/apps/observability/unifi-flows/app/collector.py:5-10 | so one completed read that the console had the row for is enough: the row is stored or in a gap record before the checkpoint, except a row that read hid beyond the cap and another read that asked for its time was answered without |
| `Delivery.HiddenThenGone` | kubernetes/apps/observability/unifi-flows/app/collector.py:529-533 | that exception with concrete reads and records: a gap lost in a crash, and a row no longer shown when the window is read again |
| `ConsoleSession.RefusalSpacing` | kubernetes/apps/observability/unifi-flows/app/collector.py:164-168 | after n refusals in a row with no successful read the wait is min(poll 2^(n-1), 3600) seconds |
| `ConsoleSession.KeptIsSpaced` | kubernetes/apps/observability/unifi-flows/app/collector.py:148-212 | over every run no request is sent before a rate limit ends and no login before a refusal's spacing ends, each wait has the documented length, and between any two logins a cycle began |
| `ConsoleSession.KeptIsHeeded` | kubernetes/apps/observability/unifi-flows/app/collector.py:187-236 | over every run each answer is heeded at once: a 429 to a login or a page is recorded as a limit with the wait it asked for; a login answered otherwise than by a 200 with a token is a refusal, and one answered so is followed by its page; a page refused with 401 or 403 is a refusal if the session was made this cycle and is otherwise retried on a new login or not at all; a 200 with readable JSON is a read; after anything else, a limit or a refusal the cycle ends; each request for a page carries the latest token that the console gave |
| `ConsoleSession.BackoffDoubles` | kubernetes/apps/observability/unifi-flows/app/collector.py:167 | doubling and clamping the last wait gives the closed form for one more refusal |
| `ConsoleSession.LatestIsLast` | kubernetes/apps/observability/unifi-flows/app/collector.py:144-145 | consulting only the latest limit and refusal is enough: no earlier one ends later |
| `ConsoleSession.Console.Post` | kubernetes/apps/observability/unifi-flows/app/collector.py:151-162 | a request is sent only where the protocol allows it: no limit is running, a page only on a session, a login only without one, when no refusal is being spaced and none was sent this cycle; the answer is recorded with it |
| `ConsoleSession.Console.Refuse` | kubernetes/apps/observability/unifi-flows/app/collector.py:164-168 | a refusal is recorded with the backoff of its position in the run of refusals |
| `ConsoleSession.Console.RateLimit` | kubernetes/apps/observability/unifi-flows/app/collector.py:170-176 | the wait of a 429 just received stops requests for what the console asked, at least a poll and at most an hour, and is recorded after it |
| `ConsoleSession.Console.Login` | kubernetes/apps/observability/unifi-flows/app/collector.py:187-206 | a login succeeds exactly with a session in use from a 200 that carries a token; otherwise the error raised is the one that the last answer, a wait that is not over or an unreadable password calls for |
| `ConsoleSession.Console.Settle` | kubernetes/apps/observability/unifi-flows/app/collector.py:224-236 | a document is returned exactly for a 200 with readable JSON, and then the backoff is zero; a 429 is rate_limited and recorded with its wait; anything else is read_failed |
| `ConsoleSession.Console.Flows` | kubernetes/apps/observability/unifi-flows/app/collector.py:208-236 | a read recurses at most once: at most two page requests with a session from an earlier cycle, otherwise at most one; a document returned is the one the console answered this request with, and an error raised is the one that the last answer, a wait that is not over or an unreadable password calls for |
| `ConsoleSession.Console.Refetch` | kubernetes/apps/observability/unifi-flows/app/collector.py:215-223 | a 401 or 403 drops the session; one made this cycle ends the cycle with a refusal, an older one is retried |
| `Resending.UnseenIsSelection` | kubernetes/apps/observability/unifi-flows/app/collector.py:489-492 | what a window sends is a selection of it: distinct, none already accepted, and every row that was not |
| `Resending.AcceptingEarlier` | kubernetes/apps/observability/unifi-flows/app/collector.py:480-492 | accepting earlier batches of a window does not change which later rows of it are new |
| `Resending.SendingKeeps` | kubernetes/apps/observability/unifi-flows/app/collector.py:474-501 | sending distinct unseen rows sends no identity twice with one time and remembers all of them |
| `Resending.ShippedKeepsSafe` | kubernetes/apps/observability/unifi-flows/app/collector.py:474-501 | sending, finished or failed midway, keeps every checkpoint backed and what the store and pending gaps account for |
| `Resending.ShippedKeepsMemory` | kubernetes/apps/observability/unifi-flows/app/collector.py:480-501 | after sending, finished or failed midway, everything remembered as accepted is in the store and nothing sent is forgotten while it can be shown again |
| `Resending.ShippedAll` | kubernetes/apps/observability/unifi-flows/app/collector.py:474-501 | a window sent to the end is held whole by the store, rows skipped as duplicates included |
| `Resending.MemoryPruned` | kubernetes/apps/observability/unifi-flows/app/collector.py:533-535 | forgetting identities older than end - 2 overlap forgets nothing a later window can show |
| `Accounting.AccountCompleted` | kubernetes/apps/observability/unifi-flows/app/collector.py:529-533 | moving the watermark over a window read to its end and held whole, with its cap gap pending, keeps the account |
| `Accounting.AccountGivenUp` | kubernetes/apps/observability/unifi-flows/app/collector.py:507-509 | moving it over abandoned time with the gap pending keeps the account |
| `Accounting.AccountCommitted` | kubernetes/apps/observability/unifi-flows/app/collector.py:564-567 | whatever prefix of gaps plus checkpoint persists, the account stands; after all of it nothing needs to be pending |
| `Accounting.AccountRestored` | kubernetes/apps/observability/unifi-flows/app/collector.py:539-543 | a process that resumes from a persisted checkpoint inherits what backs it |
| `Accounting.RecallShipped` | kubernetes/apps/observability/unifi-flows/app/collector.py:474-501 | sending keeps the memory of this process's accepted rows |
| `Accounting.WindowCompleted` | kubernetes/apps/observability/unifi-flows/app/collector.py:529-534 | moving the watermark over a whole window keeps all three invariants: what is accounted for, what is remembered, and that completed reads are stored whole and gaps recorded only where justified |
| `Accounting.TruthGivenUp` | kubernetes/apps/observability/unifi-flows/app/collector.py:506-509 | the gap for abandoned time is for time beyond the catch-up limit |
| `Accounting.TruthCommitted` | kubernetes/apps/observability/unifi-flows/app/collector.py:564-567 | persisting gaps and checkpoint adds no gap that is not justified, whatever prefix persists |
| `Accounting.CommitKeeps` | kubernetes/apps/observability/unifi-flows/app/collector.py:564-569 | a commit of which any prefix persists keeps what is accounted for, what is remembered and what is justified, whether it was acknowledged or not |
| `Accounting.EndOfLife` | kubernetes/apps/observability/unifi-flows/app/collector.py:546-581 | the invariants of a process amount to what is promised of its whole life |
| `Journal.LaterTrans` | kubernetes/apps/observability/unifi-flows/app/collector.py:546-581 | over any number of steps nothing stored, read, sent or exchanged is undone; a chain of checkpoints starts where its process started; every completed read moved on, asked for the overlap before it too and for nothing not yet settled, and was answered by pages the console served in that time; every flow row stored is on one of them |
| `Journal.TakenLater` | kubernetes/apps/observability/unifi-flows/app/collector.py:515-536 | reading and taking one window is such a step |
| `Journal.ExactlyOnce` | kubernetes/apps/observability/unifi-flows/app/collector.py:474-535 | over one life of the process, if no unacknowledged write persisted a flow row and every identity carries one time, the flow rows added to the store are those accepted, in order, no two with one identity |
| `Journal.BoundedReplay` | kubernetes/apps/observability/unifi-flows/app/collector.py:5-10 | a life that finds a checkpoint sends only rows with time at or after W - overlap, W a newest checkpoint's watermark |
| `Journal.PollGoesWell` | kubernetes/apps/observability/unifi-flows/app/collector.py:546-581 | a poll ends ok or no_rows, having reached what had settled, unless something is to blame: pages that no one list explains, a row that cannot be rendered, an answer other than a success, a wait the console asked for, the password, a request the store did not acknowledge, or the limits of the poll |
| `Journal.HonestPagesFit` | kubernetes/apps/observability/unifi-flows/app/collector.py:402-472 | pages of an honest console never contradict a complete window, so they never make a poll incomplete |
| `FlowCollector.Sink.Write` | kubernetes/apps/observability/unifi-flows/app/collector.py:256-263 | an accepted write appends all its lines; any other may have appended any prefix of them |
| `FlowCollector.Sink.LastWatermark` | kubernetes/apps/observability/unifi-flows/app/collector.py:265-281 | the watermark of a checkpoint no other is newer than, or None only if there has never been one |
| `FlowCollector.Collector.Flush` | kubernetes/apps/observability/unifi-flows/app/collector.py:480-487 | rows join seen and the written count only once their batch is accepted |
| `FlowCollector.Collector.Store` | kubernetes/apps/observability/unifi-flows/app/collector.py:474-501 | the accepted batches, each one row or at most MAX_BATCH_BYTES + 1 bytes, concatenate to the beginning of the unseen rows, all of them on success, when also rows read = rows written + duplicates; seen is exactly what was known plus what was accepted, on every exit |
| `FlowCollector.Collector.StoreWindow` | kubernetes/apps/observability/unifi-flows/app/collector.py:519 | storing keeps both invariants on every exit, and on success the store holds every row of the window; it fails only on a write that was not acknowledged or a row that cannot be rendered |
| `FlowCollector.Collector.Complete` | kubernetes/apps/observability/unifi-flows/app/collector.py:529-536 | a whole window moves the watermark to its end, keeps both invariants, prunes seen and doubles the width up to the maximum |
| `FlowCollector.Collector.GiveUp` | kubernetes/apps/observability/unifi-flows/app/collector.py:507-509 | abandoned time becomes one pending gap and the watermark moves to its end, both invariants kept |
| `FlowCollector.Collector.Step` | kubernetes/apps/observability/unifi-flows/app/collector.py:512-536 | one round either moves over one window and widens, or narrows one whose first page stated at least the cap towards the minimum, or stops with watermark and width as they were, and then something is to blame: the budget, pages that contradict a complete window, the console, the store or a row |
| `FlowCollector.OnwardTrans` | kubernetes/apps/observability/unifi-flows/app/collector.py:511-537 | rounds of one poll compose: the log, the windows tiling the time walked, the pages used against the budget, and the gaps pending |
| `FlowCollector.Collector.TakeWindow` | kubernetes/apps/observability/unifi-flows/app/collector.py:519-536 | the watermark moves if and only if the read had no problem and its rows were all accepted; the rows of a read that fell short are stored too |
| `FlowCollector.Collector.AdvanceTo` | kubernetes/apps/observability/unifi-flows/app/collector.py:511-537 | the loop ends by (end_limit - watermark, window_ms); completed windows tile the time from the old watermark to the new one, each read an overlap early; ok and no_rows mean end_limit was reached, ok exactly if a completed window had rows; backlog means that no more may be asked for, incomplete that pages contradicted a complete window, and an error rests on an answer; page count alone never stops the first un-narrowed window |
| `FlowCollector.Collector.Advance` | kubernetes/apps/observability/unifi-flows/app/collector.py:503-537 | the watermark never decreases nor passes now - settle; time beyond the catch-up limit is a pending gap and completed windows tile the rest; pages counted equal budget used |
| `FlowCollector.Collector.Restore` | kubernetes/apps/observability/unifi-flows/app/collector.py:539-543 | resumes from a newest checkpoint of the store as found, or a fixed lookback only if there is none; a store that does not answer leaves no watermark |
| `FlowCollector.Collector.Persist` | kubernetes/apps/observability/unifi-flows/app/collector.py:564-569 | gaps and the watermark that skips them are one request, and unless it is acknowledged the gaps stay pending |
| `FlowCollector.Collector.Conclude` | kubernetes/apps/observability/unifi-flows/app/collector.py:564-571 | a good result stands only with its checkpoint persisted and nothing pending; it turns into ingest_failed exactly when the store rejected the commit |
| `FlowCollector.Collector.Cycle` | kubernetes/apps/observability/unifi-flows/app/collector.py:546-581 | one poll against any console, store and crash: the invariants, the log of the process extended and nothing undone, at most max(max_pages, cap/100 + 1) pages, a watermark that never decreases; ok and no_rows mean it reached what had settled when the poll began; every result has its cause in what the console and the store answered, and while the store answers a watermark that moved is committed |
| `FlowCollector.Life` | kubernetes/apps/observability/unifi-flows/app/collector.py:614-617 | one process, dying whenever a write may kill it: the store only grows and stays sound, flow rows are stored exactly once, replay is bounded by what the process resumed from, its requests are spaced and every answer heeded, a chain of checkpoints it starts begins at a fixed lookback, and no checkpoint passes over time neither read nor in a gap record |
| `FlowCollector.Run` | kubernetes/apps/observability/unifi-flows/app/collector.py:539-581 | any number of lives, each finding the store the last one left: every checkpoint is backed from the start of its chain, every completed read asked for the time it spans and is stored whole, every gap is justified, records and reads are only added, and each life is as promised |
| `HidInput.HidKeyboard.Enter` | devices/glkvm/hid_input.py:61-81 | the lock file is opened, the lock asked for until it is granted and the device opened, each before the start deadline, or neither is left open, and then a call went wrong or that deadline has passed |
| `HidInput.HidKeyboard.Ready` | devices/glkvm/hid_input.py:83-98 | polls until an event of the device tells something; returns only if the first that does says ready and not broken, with the deadline still ahead however late the wakeup; raises only on one that says broken, a signal or an expired deadline |
| `HidInput.HidKeyboard.Write` | devices/glkvm/hid_input.py:100-117 | under stalls, EAGAIN, EINTR, short writes and interrupts a report is handed over at most once and strictly before its limit |
| `HidInput.TraceExtends` | devices/glkvm/hid_input.py:119-128 | one more report, handed over in time or not at all, keeps the trace in order and every deadline met |
| `HidInput.HidKeyboard.WriteReport` | devices/glkvm/hid_input.py:119-131 | the submissions stay the first of the requested reports, in order, only the last possibly short; all before the total deadline, their own second and, for the first, the start deadline; after a failure nothing more is submitted, and it fails only when a call went wrong, a limit has passed or the report is not made of bytes; only a completed report earns 50 ms |
| `HidInput.HidKeyboard.Pause` | devices/glkvm/hid_input.py:133-145 | only a pause that elapsed moves the deadline, by exactly its length; a negative or non-finite one is refused without ending the sequence |
| `HidInput.HidKeyboard.Exit` | devices/glkvm/hid_input.py:159-175 | cleanup submits at most one report, neutral and within 250 ms, and ends the sequence; a failed release never passes as success, and nothing but a call gone wrong or the 250 ms adds a failure |
| `HidInput.TotalBound` | devices/glkvm/hid_input.py:35-40 | in a run of any length every submission comes before requested_at + 2 s + pauses + 50 ms per earlier report, and the cleanup report within 250 ms of when it may be asked for at the latest |
| `HidType.BuildPlain` | devices/glkvm/hid-type.py:43-63 | the loops fill the table with exactly the unshifted characters and their usages |
| `HidType.BuildShifted` | devices/glkvm/hid-type.py:64-82 | the shifted table holds exactly the shifted characters, on their base characters' usages |
| `HidType.PressReadsBack` | devices/glkvm/hid-type.py:43-82 | for every typable character a host reading by usage and Shift gets that character back |
| `HidType.HostReadsTaps` | devices/glkvm/hid-type.py:85-89 | after the first release, taps are read as their glyphs, repeated keys included |
| `HidType.PressesReadBack` | devices/glkvm/hid-type.py:104-108 | for every typable text, decoding its presses gives the text |
| `HidType.KeyTokenSpells` | devices/glkvm/hid-type.py:20-40 | a key token presses exactly the keys it names, by the names of the usages and of the modifier bits: a key alone, or with Ctrl and Alt |
| `HidType.NamedKeysHaveTokens` | devices/glkvm/hid-type.py:111-122 | and every token that names a key, alone or after ctrl-alt-, presses it |
| `HidType.PlainKeysHaveTokens` | devices/glkvm/hid-type.py:113-122 | and so does ctrl-alt- before a character that is typed without Shift |
| `HidType.PrefixTokensParse` | devices/glkvm/hid-type.py:101-104 | every token that begins with sleep: or type: is a sleep or a literal of what follows |
| `HidType.LowerLetters` | devices/glkvm/hid-type.py:111 | lower-casing turns each capital into its small letter and changes nothing else |
| `HidType.TypeTokenSpells` | devices/glkvm/hid-type.py:103-110 | a type: token spells its literal up to the first untypable character |
| `HidType.Tap` | devices/glkvm/hid-type.py:85-89 | press, hold, release, wait: exactly those two reports and pauses, or a prefix and a failure; each report is asked for no sooner than the pause after the one before |
| `HidType.TypeText` | devices/glkvm/hid-type.py:103-110 | an untypable character leaves exactly the taps of the characters before it |
| `HidType.SendToken` | devices/glkvm/hid-type.py:101-123 | one token submits the taps it stands for, or a beginning of them and an exception |
| `HidType.SendTokens` | devices/glkvm/hid-type.py:99-123 | the token loop submits a release and the taps of the tokens, up to the first one not understood |
| `HidType.SequenceTrace` | devices/glkvm/hid-type.py:98-123 | what a sequence has submitted by its end is a beginning of a release and the taps the command line spells, and it stands no later than the command line's pauses and 50 ms per report allow, overrun of system calls aside |
| `HidType.CleanupTrace` | devices/glkvm/hid_input.py:159-168 | cleanup adds at most one neutral report in time and changes nothing before it |
| `HidType.Command` | devices/glkvm/hid-type.py:92-125 | whatever the device does: the submissions are a beginning of one release and the taps the command line spells, named and Ctrl-Alt keys included, each once and in time, every press held 75 ms and every release followed by 150 ms, only the last short, then at most one neutral report; a host reads a beginning of the text, all of it on success; the whole run, cleanup included, ends by an explicit time plus what system calls overran; and it succeeds only if no call went wrong and every token could be carried out, and fails only if one could not, a call went wrong or a deadline passed |
| `HostSwitch.Switcher.SetConsoleReady` | devices/glkvm/hosts-prototype/app.js:69-75 | a button is enabled exactly when authenticated, console ready, not switching and not failed |
| `HostSwitch.FollowsTrans` | devices/glkvm/hosts-prototype/app.js:318-409 | over any number of turns pulses are only appended after all earlier ones were answered, and answers are final |
| `HostSwitch.PlayedLedger` | devices/glkvm/hosts-prototype/app.js:318-409 | clicks taken up, pulses, answers and failure after a run depend only on the events delivered in it, in order |
| `HostSwitch.FailedByEvent` | devices/glkvm/hosts-prototype/app.js:371-404 | failed closed means exactly that some delivered reply, body or error ended a request badly |
| `HostSwitch.AnsweredByEvent` | devices/glkvm/hosts-prototype/app.js:360-392 | a pulse counts as done only by a body saying ok, and as refused only by a refusal, delivered while it was the latest pulse |
| `HostSwitch.AnswersHaveCauses` | devices/glkvm/hosts-prototype/app.js:360-404 | over every run a pulse is refused only by a reply with status 401 or 403 and done only by a body with ok true, delivered while it was the latest, and the page fails closed only by another status outside 200 to 299, another body or an error |
| `HostSwitch.DecidedForGood` | devices/glkvm/hosts-prototype/app.js:360-404 | and whatever follows, 401 and 403 refuse the latest pulse for good, ok true means for good that it was done, and any other status outside 200 to 299, 504 included, any other body or an error leaves the page failed closed with that pulse unanswered and nothing sent after it |
| `HostSwitch.SignInHasCause` | devices/glkvm/hosts-prototype/app.js:262-315 | a page is signed in only by a check answered with a success status and a body saying so, with no refused switch and no contrary check that counts after it |
| `HostSwitch.Switcher.OnCheckReply` | devices/glkvm/hosts-prototype/app.js:271-291 | a reply counts only if no switch has taken over; a refusal or an error status signs out and polls |
| `HostSwitch.Switcher.EndCheck` | devices/glkvm/hosts-prototype/app.js:292-315 | the result of a check counts only if no switch has taken over; without a sign-in polling goes on, so a way back always exists |
| `HostSwitch.Switcher.FailClosed` | devices/glkvm/hosts-prototype/app.js:236-250 | failing closed ends the switch and the polling and disables every button |
| `HostSwitch.Switcher.RequestSwitch` | devices/glkvm/hosts-prototype/app.js:318-335 | a click is taken up exactly when its button is enabled and names a channel and a host |
| `HostSwitch.Switcher.OnBaselineRead` | devices/glkvm/hosts-prototype/app.js:345-357 | the pulse is sent, unless time is up, and only when every earlier pulse has a definite answer |
| `HostSwitch.Switcher.OnPulseReply` | devices/glkvm/hosts-prototype/app.js:360-379 | 401 and 403 are definite refusals and sign out; any other status but success leaves the pulse unanswered and fails closed |
| `HostSwitch.Switcher.OnPulseBody` | devices/glkvm/hosts-prototype/app.js:381-392 | only ok true is a definite success; anything else fails closed |
| `HostSwitch.Switcher.OnPulseError` | devices/glkvm/hosts-prototype/app.js:399-404 | a lost or aborted request fails closed with the pulse unanswered |
| `HostSwitch.Switcher.OnWatched` | devices/glkvm/hosts-prototype/app.js:393-398 | the end of observation enables switching again and sends nothing |
| `HostSwitch.Switcher.Handle` | devices/glkvm/hosts-prototype/app.js:318-409 | every turn keeps the invariants and does to the page what its event alone says: to clicks taken up, pulses, answers and failure, to where the request and the check stand, to the sign-in and the polling; a pulse is sent only after every earlier one was answered; failed closed is absorbing |
| `HostSwitch.Switcher.Drive` | devices/glkvm/hosts-prototype/app.js:640-662 | over every interleaving of clicks, replies, timers, polls and frame loads the page ends where exactly the events that can be delivered when they come, in order, take a page without redundant flags; every answer, and failing closed, has its cause in a delivered event |
| `VideoWatch.LostStep` | devices/glkvm/hosts-prototype/app.js:182-185 | the streaming loss flag is the history's: the signal was seen, by the baseline or a read, and later seen gone |
| `VideoWatch.StartsOver` | devices/glkvm/hosts-prototype/app.js:196-199 | a read that is evidence of something else starts a new run, with nothing settled |
| `VideoWatch.Continues` | devices/glkvm/hosts-prototype/app.js:200-201 | a read that is evidence of the same settles exactly when the run of such reads spans 750 ms |
| `VideoWatch.EvidenceIsKey` | devices/glkvm/hosts-prototype/app.js:186-196 | the branch taken from the streaming state is what the full history says of the read |
| `VideoWatch.ReturnedMeansLost` | devices/glkvm/hosts-prototype/app.js:187-188 | a returned verdict rests on a signal seen and then seen gone, and now live |
| `VideoWatch.AppearedMeansNeverLost` | devices/glkvm/hosts-prototype/app.js:189-190 | an appeared verdict rests on a reference without a signal and on reads that kept the signal once they showed it |
| `VideoWatch.ChangedMeansOtherMode` | devices/glkvm/hosts-prototype/app.js:191-192 | a changed verdict rests on a live reference, a signal in every read, and another size or known frame rate |
| `VideoWatch.EvidenceIsLive` | devices/glkvm/hosts-prototype/app.js:186-196 | only live video is evidence, of the size and rate on screen; before anything else was read it is none exactly if it cannot be told from the reference |
| `VideoWatch.WatchVideoChange` | devices/glkvm/hosts-prototype/app.js:160-211 | a positive verdict if and only if the reads ending with the last one, all in time and of one kind and mode, span 750 ms, at the first read where that is so; a negative one only after the deadline or an abort, and only as the history justifies; the history is what was read, all of it but a read that finished too late, and every pause follows a read |
| `Utf8.RoundTrip` | scripts/logging/otlp-capture.py:47 | decoding inverts encoding for every text |
| `Utf8.OnlyEncodings` | scripts/logging/otlp-capture.py:47 | and nothing else decodes: no overlong form, surrogate or oversized scalar |
| `Protobuf.VarintRoundTrip` | scripts/logging/otlp-capture.py:13-21 | a varint of any size reads back, and nothing after it is touched |
| `Protobuf.FixedRoundTrip` | scripts/logging/otlp-capture.py:31-32 | little-endian fixed-width integers read back |
| `Protobuf.FieldsRoundTrip` | scripts/logging/otlp-capture.py:24-41 | reading a message inverts writing it, for every list of fields of the four wire types |
| `Protobuf.CutOffIsClipped` | scripts/logging/otlp-capture.py:31-38 | a field cut off by the end of the message is what there is of it, and no error |
| `Protobuf.Fields` | scripts/logging/otlp-capture.py:24-41 | every byte string of a message is strictly shorter than the message, so the recursion over nested messages ends on any input |
| `Protobuf.ReadVarint` | scripts/logging/otlp-capture.py:13-21 | the loop reads what the recursive form reads, or fails where that fails |
| `Protobuf.ReadFields` | scripts/logging/otlp-capture.py:24-41 | the loop over positions, slices clipping at the end, gives the fields of the message or fails where it is malformed |
| `OtlpValues.HexIsInjective` | scripts/logging/otlp-capture.py:58 | no bytes are lost in their hex form |
| `OtlpValues.HexDigits` | scripts/logging/otlp-capture.py:58 | each byte is two lower-case digits, the high one first |
| `OtlpValues.DistinctEntriesAreKept` | scripts/logging/otlp-capture.py:62-68 | with distinct keys the decoded dict holds every entry, in order |
| `OtlpValues.LastEntryWins` | scripts/logging/otlp-capture.py:62-68 | the dict holds each key once, with the value of the last entry that has it |
| `OtlpValues.EntriesRoundTrip` | scripts/logging/otlp-capture.py:62-68 | the entries of a map, after any other fields, decode to the dict of their keys and values, the last of equal keys winning, unless a key in them is empty, and then decoding raises |
| `OtlpValues.AnyRoundTrip` | scripts/logging/otlp-capture.py:44-59 | for every tree of values, arrays and kvlists: decoding its encoding gives the tree's value, signed 64-bit integers and doubles restored and bytes as hex, when no key in it is empty, and raises otherwise |
| `OtlpValues.EmptyKeyRaises` | scripts/logging/otlp-capture.py:66-67 | a concrete legal message that the decoder raises on |
| `OtlpValues.ReadKeyValues` | scripts/logging/otlp-capture.py:62-68 | the loop computes the specified dict or fails where it fails |
| `OtlpValues.ReadAny` | scripts/logging/otlp-capture.py:44-59 | the recursive reader computes the specified value or fails where it fails |
| `Otlp.RecordRoundTrip` | scripts/logging/otlp-capture.py:84-94 | every record decodes to its row, fields the decoder does not read notwithstanding, if and only if no key in it is empty |
| `Otlp.RequestRoundTrip` | scripts/logging/otlp-capture.py:71-96 | for every request the rows are those of its records, in order, each with its resource's attributes, if and only if no key in it is empty |
| `Otlp.DecodeRequest` | scripts/logging/otlp-capture.py:71-96 | the nested loops compute the specified rows or fail where that fails |
| `WebSocket.MaskedTwice` | proxmox/guests/hermes-1/caddy/fixture.py:46-47 | unmasking undoes masking |
| `WebSocket.MaskedByBits` | proxmox/guests/hermes-1/caddy/fixture.py:46 | bit by bit, a masked octet is the payload octet combined by exclusive or with the mask octet at its position modulo 4 |
| `WebSocket.XorByBits` | proxmox/guests/hermes-1/caddy/fixture.py:46 | a bit of the exclusive or is set exactly when the two bits differ |
| `WebSocket.MostSignificantFirst` | proxmox/guests/hermes-1/caddy/fixture.py:37-40 | extended lengths are read in network byte order |
| `WebSocket.ReadsBack` | proxmox/guests/hermes-1/caddy/fixture.py:32-47 | every frame of up to 4096 bytes, in any length form, masked or not, parses to its opcode and payload and takes exactly its bytes |
| `WebSocket.OnlyFrames` | proxmox/guests/hermes-1/caddy/fixture.py:32-47 | whatever parses is such a frame: no other bytes are accepted |
| `WebSocket.TruncatedRaises` | proxmox/guests/hermes-1/caddy/fixture.py:22-29 | every strict prefix of a frame raises |
| `WebSocket.OversizedRaises` | proxmox/guests/hermes-1/caddy/fixture.py:41-42 | a longer payload raises, however its length is written |
| `WebSocket.FixtureFramesReadBack` | proxmox/guests/hermes-1/caddy/fixture.py:50-55 | what the fixture writes it reads back exactly when the opcode is below 16 |
| `WebSocket.FixtureWrites` | proxmox/guests/hermes-1/caddy/fixture.py:50-55 | the fixture writes a frame exactly for a payload of up to 125 bytes and an opcode that is a byte, with the final bit, the mask bit and the length set |
| `WebSocket.HelloReadsBack` | proxmox/guests/hermes-1/caddy/fixture.py:32-47 | the unmasked and masked sample frames of section 5.7 of RFC 6455 parse to their opcode and payload |
| `WebSocket.ReadExact` | proxmox/guests/hermes-1/caddy/fixture.py:22-29 | over a stream that splits its reads anyhow: the first count bytes, leaving the rest, or a failure exactly when there are fewer |
| `WebSocket.ReadFrame` | proxmox/guests/hermes-1/caddy/fixture.py:32-47 | over such a stream: the frame at its front, consuming exactly its bytes, or a failure exactly where parsing fails |
| `PolicyDelta.ReadObjects` | proxmox/guests/netbird-router-2/check-unifi-delta.py:21-30 | the loop gives the policies by id, or fails for anything that is not a list of policies with distinct hashable ids |
| `PolicyDelta.CollectInAnyOrder` | proxmox/guests/netbird-router-2/check-unifi-delta.py:21-30 | the inventory does not depend on the order in which the policies are listed |
| `PolicyRules.CollectExactly` | proxmox/guests/netbird-router-2/check-unifi-delta.py:21-30 | a list of policies has an inventory exactly when each has an id that can be a dict key and no two ids are equal in Python, and it is then the policies by their ids |
| `PolicyRules.CanonIsPyEq` | proxmox/guests/netbird-router-2/check-unifi-delta.py:27-28 | comparing canonical forms is Python's equality, defined by itself: True is 1 and False 0 at any depth, lists by position, dicts by key |
| `PolicyRules.SameExactly` | proxmox/guests/netbird-router-2/check-unifi-delta.py:33-35 | two policies count as the same exactly when every field but hits and last_hit is there in both or in neither, and equal |
| `PolicyRules.PairByTables` | proxmox/guests/netbird-router-2/check-unifi-delta.py:38-68 | a pair is valid exactly when both policies meet tables of fields and values, are literally enabled and belong together, and the fields that must be empty are |
| `PolicyRules.StatesExactly` | proxmox/guests/netbird-router-2/check-unifi-delta.py:46-48 | the states of a return are a list or dict whose elements or keys are exactly RELATED and ESTABLISHED |
| `PolicyRules.FalsyExactly` | proxmox/guests/netbird-router-2/check-unifi-delta.py:49-63 | empty is what Python takes for false: None, False, 0, and the empty text, list and dict |
| `PolicyDelta.PairAt` | proxmox/guests/netbird-router-2/check-unifi-delta.py:38-68 | a valid pair stays valid under Python equality as long as it is still literally enabled |
| `PolicyDelta.PairReplaced` | proxmox/guests/netbird-router-2/check-unifi-delta.py:80-82 | replacing the forward's sources and the return's destinations turns a pair valid for the old addresses into one valid for the new |
| `PolicyDelta.PairFollows` | proxmox/guests/netbird-router-2/check-unifi-delta.py:91-103 | such a snapshot passes the later validity, count and equality checks exactly as long as its pairs are literally enabled |
| `PolicyDelta.PairImplies` | proxmox/guests/netbird-router-2/check-unifi-delta.py:91-103 | and passing them means the forward and its return are as expected and literally enabled |
| `PolicyDelta.Prepare` | proxmox/guests/netbird-router-2/check-unifi-delta.py:71-83 | succeeds if and only if both forwards are there with one valid return each, and proposes them with only source.ips replaced |
| `PolicyDelta.Verify` | proxmox/guests/netbird-router-2/check-unifi-delta.py:86-106 | accepts if and only if preparing accepts, both snapshots have the same ids, every policy equals the one before with only the two forwards' source.ips and their returns' destination.ips replaced, top-level hits and last_hit aside, and the edited pairs are literally enabled |
| `PolicyDelta.AcceptedInAnyOrder` | proxmox/guests/netbird-router-2/check-unifi-delta.py:86-106 | nor does what the check accepts, for either snapshot |
| `PolicySamples.EqualIsNotEnough` | proxmox/guests/netbird-router-2/check-unifi-delta.py:40-43 | a concrete pair of snapshots that is accepted, and one equal to it under Python's == that is not, because 1 is not the object True |
| `SnapshotPath.EncodeDecode` | sparks/inference/sparkrun/plugins/tensorfold/__init__.py:57-59 | replacing slashes by two dashes is undone by leftmost non-overlapping replacement when there are no two dashes and no dash before a slash |
| `SnapshotPath.DecodedIsPlain` | sparks/inference/sparkrun/plugins/tensorfold/__init__.py:76 | decoding a string without slashes never leaves two dashes or a dash before a slash |
| `SnapshotPath.ParsePrinted` | sparks/inference/sparkrun/plugins/tensorfold/__init__.py:62-81 | a printed path without backslashes parses to the decoded repository and the revision, or to None if either is empty |
| `SnapshotPath.ParsedIsBare` | sparks/inference/sparkrun/plugins/tensorfold/__init__.py:62-81 | nothing that parses has an empty part, a backslash or a slash in its revision |
| `SnapshotPath.RoundTripExactly` | sparks/inference/sparkrun/plugins/tensorfold/__init__.py:57-81 | printing then parsing gives the pair back if and only if both parts are nonempty without backslashes, the revision has no slash and the repository neither two dashes nor a dash before a slash |
| `SnapshotPath.PathsDiffer` | sparks/inference/sparkrun/plugins/tensorfold/__init__.py:57-59 | so two different printable pairs never share a path |

## Left out

- The 31-day range of the checkpoint query and flows that appear later than the overlap: the collector's own documentation disclaims late arrivals, and both are assumptions here.
- HTTP, TLS, cookies and JSON text: replies are a status, headers and a decoded document; a page row is its identity, its time and the length of the line it renders to; the SHA-256 identity is abstract.
- A process that dies between writes rather than at one: the store is then as after the last write, so nothing new can be seen in it.
- Metrics, health, the problem counters, gap seconds, log lines and the delay between pages: they steer nothing.
- The lock file's identity, descriptors and the USB side of the gadget beyond handing over a record; `kvm-switch.py` and `hid-hold-key.py`, which are short uses of the same sequence.
- HidType.Command: `float()` of a sleep argument is a parameter, and lower-casing is of ASCII letters only.
- HidInput.HidKeyboard.Pause: durations are whole microseconds; floating-point rounding of the deadlines is not modelled.
- The DOM, playback, media events and status texts of the host switcher; a stream state is read as its fields after validation.
- HostSwitch.Switcher.Drive: an event that the browser cannot deliver in a state, such as a reply nobody asked for, is skipped.
- Otlp.RequestRoundTrip: requests as a proto3 serializer writes them, each message's fields in the order of its schema and the fields the decoder skips before or after; a message that repeats a single-valued field is decoded by the same specification, but has no counterpart to be compared with.
- OtlpValues.AnyRoundTrip: a double is its 64 bits, not a number.
- WebSocket.FixtureFramesReadBack: the random mask is a parameter; the handshake and `accept` are not modelled.
- PolicyDelta.Verify: JSON numbers are exact reals, so NaN and the infinities, which Python's parser also accepts, are not modelled; policies are keyed values, not shared objects.
- The command lines, file reading and printing of the three checkers, and the dashboard generators, deployment drills and readiness gates of the repository: long lists of independent checks.
