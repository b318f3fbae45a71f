# Verified model of the workspace runtime

This project models the parts of the repository where state is shared, retried or compared, and
proves what they keep:

* the guest service (`services/orchestrator/src/guest.rs`): Codex executions with their reader,
  waiter and pollers; the exclusive gate that a run holds over every other mutation; its locks and
  condition variables; the Claude login output; the terminal pool; the creation of a write's parent
  directories among symbolic links;
* the shared-chat reply workflow, which consumes an execution's output;
* the session capsule's canonical JSON identity, down to UTF-8 bytes;
* launch profiles and their registry, repository snapshot acceptance, the live transcript with its
  refresh cursor, and the durable turn queue.

Concurrent parts are step systems: one step per critical section, any number of threads, and every
claim is about every run. Parts that the source writes as loops over mutable state are methods and
classes, each proved equal to a function or predicate about which the lemmas then speak.

## Modules

| file | what it models |
|---|---|
| `ExecOutput`, `ExecStream`, `ExecEvents`, `ExecDrain` | one execution's buffer, in place and as a function; reader, waiter, polls, client and the session's removal interleaved; what can still be had after the end |
| `ReplyWorkflow` | the reply workflow with a throw possible at every step, fed by `ExecStream` |
| `GuestGate` | `mutations`, the busy flag, the idempotency table, revision-checked writes |
| `GuestLocks`, `GuestDeadlock` | every thread as a program of lock operations; the interleaved machine |
| `ClaudeSetup`, `TokenPattern`, `RustText` | the login output: capture, redaction, bound, verdict |
| `ParentCreation`, `PathText` | path text, a tree with links, `create_parents_within` and `resolve_for_write` |
| `TerminalPool` | the reclaim loop of `start_terminal` |
| `CanonicalJson`, `JsonText`, `Decimal`, `Utf8` | the canonical printer, string quoting and the encoder, each with a reader of its own (RFC 8259, RFC 3629) |
| `SessionCapsule` | the capsule checks, the identity, and the capsule read back from it |
| `LaunchProfile`, `ProfileRegistry` | validation, materialization and the registry of profiles |
| `Snapshot` | `validate_create`'s snapshot loop |
| `Transcript` | `mergeRoomMessages`, the cursor, the refresh loop |
| `SharedQueue` | the queue's order and enqueueing |
| `Ordering`, `Bytes`, `Wrappers` | stable sorting, chunks of bytes, results |

## What turned out otherwise

Properties one might expect that do not hold of the code as it is. For each there is an input or a
run on which it fails, and a theorem that says for all inputs when it holds.

* A poll returns at most 128 chunks but reports a `nextSequence` past all of them. A client that
  resumes there, as the reply workflow does, loses bytes exactly when some response was cut
  (`NextSequenceLosesExactlyCuts`, `NextSequenceCanLoseBytes`, `ReplyIsWholeOutput`).
* An ended session can be polled only until the next start drops it, or a close. A client that lacks
  output then has lost it, except for one answer under way (`PollsDrain`, `ReclaimLosesBytes`); and
  since the idempotency keys are never dropped, a retried start can be answered with the id of a
  session that no poll finds (`AnsweredIdListedIff`, `RetryCanNameAGoneSession`).
* The comment on `create_parents_within` promises that no directory is created outside the
  workspace. That fails when a name only looks missing, because the walk to it has used up the limit
  on links (`LimitMisleads`) or because the text that spells it is longer than a path may be
  (`LengthMisleads`). `InsideIffLandsInside` gives the exact condition, whatever makes names look
  missing, and `MissingForGoodIsInside` a condition on the path.
* Redacting after every chunk differs from redacting the whole text exactly when some chunk ends
  inside a token that is already long enough and the text goes on with a token character
  (`ChunkingIffNotCutInside`, for any number of chunks).
* For the same reason the captured login token can be a mere beginning of the token that was sent
  (`CaptureCanBeShort`); it is whole exactly when the chunk that completed the match did not end so
  (`CapturedWholeIff`).
* Profiles and snapshots compare paths as texts, so an accepted profile can overwrite one of its own
  files or fail to be written (`AcceptedMayOverwrite`, `AcceptedMayFail`), and an accepted snapshot can
  name one file twice (`AcceptedMayNameOneFileTwice`). `MaterializedExactly` and
  `ReadsBackIffNotOverwritten` say when a profile is written as given, `AcceptedNamesEachOnceIff` and
  `CanClashIffNotNormal` when a snapshot names each file once.
* Revisions are digests of contents. Several writers that name one revision can succeed
  (`RestoredRevisionServesTwice`), exactly when the last write before each of them left that revision
  there (`MatchesIffLastLeftIt`, `SameRevisionNeedsRestore`).
* The smallest terminal id need not be the oldest session: the clock can step back and a number can
  gain a digit (`ClockStepsBack`, `TenthBeforeNinth`). `OlderSortsFirstIff` says of any two ids which
  sorts first, `SmallestIsOldestIff` of a whole pool.
* A failed profile does not always take its directory with it: between `create_dir` and
  `set_permissions` nothing owns it, and a failed removal is ignored. The registry's directories are
  exactly the held ones if and only if neither has happened (`RegistryIsExact`).
* A transcript refresh asks only for what lies past its cursor. A message that was overtaken by a
  later one is not asked for by any later refresh; only live delivery can still bring it
  (`MissedForGood`, `ShownIffBrought`). A refresh leaves nothing missing exactly when nothing is
  missing at or before the cursor (`NoGapIff`).

## Model

| member | source | states |
|---|---|---|
| ExecOutput.DiscardBuffers | services/orchestrator/src/guest.rs:1632-1640 | a poll's discard loop drops exactly what lies before its cursor and keeps the buffer a consecutive suffix of everything appended, with an exact byte count |
| ExecOutput.DiscardRetry | services/orchestrator/src/guest.rs:1632-1640 | repeating a poll with the same or an older cursor loses nothing |
| ExecOutput.AnsweredAtOnceIff | services/orchestrator/src/guest.rs:1642-1649 | a poll is answered without waiting if and only if it asks for no wait, or the session has ended, or a chunk at or after its cursor is there |
| ExecOutput.PopFrontBuffers | services/orchestrator/src/guest.rs:1637-1639 | `saturating_sub` never saturates |
| ExecOutput.CodexExecOutput.Push | services/orchestrator/src/guest.rs:1552-1571 | the reader's append below the limit keeps the buffer valid and adds the data to its history |
| ExecOutput.CodexExecOutput.Acknowledge | services/orchestrator/src/guest.rs:1632-1640 | the loop in place equals the discard function and leaves exactly the chunks at or after the cursor |
| ExecOutput.CodexExecOutput.Answer | services/orchestrator/src/guest.rs:1650-1664 | at most 128 chunks from the front, yet the `nextSequence` of the whole buffer |
| ExecStream.ReceivedIsPrefix | services/orchestrator/src/guest.rs:1538-1574 | in every interleaving, lost and repeated polls and the session's removal included, a client advancing to last received + 1 holds a prefix of the bytes read, each once; all of them once it sees an uncut exit |
| ExecStream.NextSequenceLosesExactlyCuts | services/orchestrator/src/guest.rs:1650-1660 | a client resuming at `nextSequence` holds everything it has passed if and only if no response it accepted was cut at 128 chunks |
| ExecStream.NextSequenceCanLoseBytes | services/orchestrator/src/guest.rs:1650-1660 | a run in which such a client has passed 129 chunks and holds fewer bytes |
| ExecStream.BufferBound | services/orchestrator/src/guest.rs:1552-1571 | in every reachable state sequences are consecutive up to `nextSequence` - 1 and the byte count is exact and below the limit plus one read |
| ExecStream.ExitIsFinal | services/orchestrator/src/guest.rs:1607-1616 | once both ends have closed, history, sequence, exit code and captured auth cache never change |
| ExecEvents.BytesAreRead | services/orchestrator/src/guest.rs:1538-1574 | conservation: history and reader's hands are together exactly the bytes of the reads, in order |
| ExecEvents.EveryPollIsKept | services/orchestrator/src/guest.rs:1622-1668 | for every cursor the polls that have found the session are as many as those about to run, those asleep and those answered: none is lost or answered twice |
| ExecEvents.EndsAre | services/orchestrator/src/guest.rs:1545-1616 | in every reachable state the session is listed until a close or reclaim, the output ended by the end of file, and the exit code and auth cache those of the process's exit |
| ExecDrain.PollsNeeded | services/orchestrator/src/guest.rs:1650-1664 | no response takes a client advancing to last received + 1 more than 128 chunks further |
| ExecDrain.PollsDrain | services/orchestrator/src/guest.rs:1624-1676 | once the execution has ended, some continuation gives the client all the bytes (and, if asked, the knowledge that these are all) if and only if the session is still listed, or nothing is lacking, or the answer that brings what is lacking has been sent or is due to a poll that has found the session |
| ExecDrain.ListedDrains | services/orchestrator/src/guest.rs:1624-1666 | while it is listed, one poll for every 128 chunks the client lacks, or one if it lacks none, is enough for both |
| ExecDrain.ReclaimLosesBytes | services/orchestrator/src/guest.rs:1379-1392 | a run, with as many bytes as one likes, in which everything could still be had until the next start dropped the ended session, and nothing since |
| ReplyWorkflow.Decode | apps/web/workflows/shared-chat-reply.ts:42-46 | the decoding loop throws exactly when some chunk does not decode, and otherwise appends all of them and counts their bytes |
| ReplyWorkflow.Turn | apps/web/workflows/shared-chat-reply.ts:35-68 | one tick, every throw included: the loop goes on with its cursor, bytes and shown length in step, or stops without an exit, or finishes |
| ReplyWorkflow.Converse | apps/web/workflows/shared-chat-reply.ts:26-69 | the loop finishes exactly at the tick that exits in time and within the limit, with exactly the bytes of every poll; each poll resumes at the last `nextSequence`; publishes are throttled |
| ReplyWorkflow.Workflow | apps/web/workflows/shared-chat-reply.ts:16-77 | with a throw possible anywhere: cleanup runs once and last if and only if prepare returned a session; a failure is recorded exactly when the turn did not finish; finish never gets more than 4,000,000 bytes; the room is shown the texts of the polls taken, in order, throttled |
| ReplyWorkflow.PublishesAreBounded | apps/web/workflows/shared-chat-reply.ts:56-59 | the number of publishes times the minimum growth is at most the last published length |
| ReplyWorkflow.ShownKeepsUp | apps/web/workflows/shared-chat-reply.ts:48-60 | what the room is shown are partial texts of everything received by then, and after every poll that brings something it is behind by less than the minimum growth |
| ReplyWorkflow.ReplyIsWholeOutput | apps/web/workflows/shared-chat-reply.ts:35-66 | end to end: finish is handed all the bytes the execution wrote if and only if no response was cut |
| GuestGate.GateIsExclusive | services/orchestrator/src/guest.rs:233-243 | in every reachable state the flag is up exactly while one run is live, nobody is past the gate while it is up, and at most one request is past it at all |
| GuestGate.StartsAreIdempotent | services/orchestrator/src/guest.rs:1360-1377 | over whole histories starts with one key name one session and spawn one process, different keys never share one, and no start waits at the gate for its own key's run |
| GuestGate.RepliesStay | services/orchestrator/src/guest.rs:1360-1377 | a reply once given stays, so starts at any two times can be compared |
| GuestGate.AnsweredIdListedIff | services/orchestrator/src/guest.rs:1369-1392 | over whole histories the id that a start, first or repeated, was answered with had been listed for its key, and is listed at any later time if and only if nobody has closed it and no start of a new key has come through since both its ends closed |
| GuestGate.RetryCanNameAGoneSession | services/orchestrator/src/guest.rs:1369-1392 | for any two keys a run in which a retry of the first start is answered with the same id as before, and no poll finds it |
| GuestGate.FormatInjective | services/orchestrator/src/guest.rs:1515-1522 | printed session ids differ whenever clock or counter do |
| GuestGate.CommandsMayWrite | services/orchestrator/src/guest.rs:912-948 | the interference allowed for: a request inside the gate may have any file written at any time |
| GuestGate.RunsMayWrite | services/orchestrator/src/guest.rs:1579-1600 | and so may a live run |
| GuestGate.WritesFormAChain | services/orchestrator/src/guest.rs:886-909 | in every interleaving with runs, commands and other writers each successful write named the revision its predecessor on that path left |
| GuestGate.MatchesIffLastLeftIt | services/orchestrator/src/guest.rs:897-905 | in every reachable state a write request inside the gate goes on to write if and only if the last write on its path, or the initial file, left the revision it names; otherwise it is told the revision that is there |
| GuestGate.SameRevisionNeedsRestore | services/orchestrator/src/guest.rs:897-905 | of two successful writes naming one revision of a path, the last write before the second, the first's own or a later one, left that very revision |
| GuestGate.RestoredRevisionServesTwice | services/orchestrator/src/guest.rs:2565-2567 | contents, not versions: a run in which x to y, y to x and x to z are all replied to as written |
| GuestGate.RepliesTell | services/orchestrator/src/guest.rs:897-909 | in every reachable state a request told that it has written has written exactly what it asked for and been told its revision; one told of another revision had not named it |
| GuestGate.OverIff | services/orchestrator/src/guest.rs:1379-1392 | in every reachable state a run is over, and so dropped by the next start, if and only if its readers have met the end and its exit has been recorded |
| GuestLocks.ProgramsAreDisciplined | services/orchestrator/src/guest.rs:1683-1908 | every request and background thread, for any sessions it walks over, with or without closing the terminals first, nests locks only under `mutations` taken first, never takes a lock twice, and parks holding only `mutations`; the opposite nestings of the login start included |
| GuestDeadlock.ProgramsKeep | services/orchestrator/src/guest.rs:1536-1618 | in every program whoever must lower the flag or wake the sleepers waits for neither; raising is followed by the waiter, lowering by the wake-up |
| GuestDeadlock.Reachable | services/orchestrator/src/guest.rs:238-243 | no lost wake-up: whenever threads sleep on the flag, some thread has yet to lower it or notify them; every lock has the owner its holder thinks it has |
| GuestDeadlock.CheckSleeps | services/orchestrator/src/guest.rs:238-243 | a thread that finds the flag up falls asleep and lets go of the flag's lock |
| GuestDeadlock.SleepsUntilWoken | services/orchestrator/src/guest.rs:238-243 | it stays where it is until a notification or a chance wake-up |
| GuestDeadlock.WaitsDescend | services/orchestrator/src/guest.rs:1868-1900 | a thread that waits, for a lock or for the flag, waits for one of lower rank |
| GuestDeadlock.NoDeadlock | services/orchestrator/src/guest.rs:1690-1725 | in every reachable state a chain of waits has at most four links and no cycle, and every stuck thread is at the start of a chain to one that can move |
| GuestDeadlock.FlagFalls | services/orchestrator/src/guest.rs:1579-1618 | from a state with the flag up, the threads already there can bring it down, without chance wake-ups |
| GuestDeadlock.BusyEnds | services/orchestrator/src/guest.rs:1579-1618 | so from every reachable state |
| TokenPattern.TokenAtIff | services/orchestrator/src/guest.rs:2454-2458 | a match starts where `sk-ant-` stands with twenty letters, digits, underscores or hyphens after it |
| TokenPattern.RedactLeavesNone | services/orchestrator/src/guest.rs:2454-2463 | redacted text contains no match of the token pattern, not even one made by what surrounds a replacement |
| TokenPattern.ChunkingIffNotCutInside | services/orchestrator/src/guest.rs:2309-2311 | redacting a text after each of any number of chunks comes to redacting it whole, if and only if no chunk ends inside a match that the next text continues |
| RustText.FittingFits | services/orchestrator/src/guest.rs:2312-2318 | what is kept is the end of the text, within the bound, and short of it by at most three bytes |
| RustText.CutIsFitting | services/orchestrator/src/guest.rs:2313-2317 | the first character boundary at or after the surplus is where dropping single characters stops |
| ClaudeSetup.ClaudeSetupOutput.Trim | services/orchestrator/src/guest.rs:2312-2318 | the boundary loop terminates and keeps the longest end that fits |
| ClaudeSetup.ClaudeSetupOutput.Push | services/orchestrator/src/guest.rs:2279-2319 | absorbing in place equals reading URL, error and leftmost token from the unredacted text, then redacting, then cutting |
| ClaudeSetup.BufferIsCleanAndBounded | services/orchestrator/src/guest.rs:2279-2319 | after any chunks, however cut, before and after the exit: no token in the buffer and at most the bound |
| ClaudeSetup.TokenIsCaptured | services/orchestrator/src/guest.rs:2301-2310 | over every run, cutting and redaction of the buffer notwithstanding, the token is the leftmost one of all the text since the start or the exit, as far as it had come when it first stood there |
| ClaudeSetup.CapturedWholeIff | services/orchestrator/src/guest.rs:2301-2310 | at every later point of a run the captured token is the stream's leftmost token if and only if the chunk that completed the match did not end at the token's end with a token character following |
| ClaudeSetup.CaptureCanBeShort | services/orchestrator/src/guest.rs:2301-2310 | every text ending in its first token, followed by a chunk that begins with a token character, makes a run that keeps the beginning for good |
| ClaudeSetup.CapturesStay | services/orchestrator/src/guest.rs:2281-2308 | URL, token and exit never change once set |
| ClaudeSetup.UrlIsFirst | services/orchestrator/src/guest.rs:2281-2287 | the URL is the first one that stood in the unredacted text, and there is none only if none did |
| ClaudeSetup.FailureIs | services/orchestrator/src/guest.rs:2294-2301 | a failure is an unverified exit, or else a rejection that stood in the text, or nothing |
| ClaudeSetup.TerminalIsFinal | services/orchestrator/src/guest.rs:2321-2345 | once terminal nothing changes, the poll's answer included |
| ClaudeSetup.ReadyIffVerified | services/orchestrator/src/guest.rs:1853-1865 | ready exactly when the stream has ended and the exit was recorded as verified, in either order |
| ClaudeSetup.PollSays | services/orchestrator/src/guest.rs:2325-2345 | at any time of any run a poll says ready with the captured token after a verified exit and the stream's end; otherwise the unverified exit, or the rejection, or to wait; the remaining reason is never given |
| ClaudeSetup.FailureIsFinalIff | services/orchestrator/src/guest.rs:2325-2345 | a polled failure stands in every continuation if and only if the exit was recorded without verification |
| PathText.JoinSplit | services/orchestrator/src/guest.rs:2160-2176 | splitting a path at slashes loses nothing |
| PathText.NamesArePlain | services/orchestrator/src/guest.rs:2161-2170 | the normal components of any text can stand as directory entries |
| ParentCreation.FileSystem.CreateParentsWithin | services/orchestrator/src/guest.rs:2137-2158 | the upward walk and the creation loop equal their functional description, errors included |
| ParentCreation.FileSystem.ResolveForWrite | services/orchestrator/src/guest.rs:2101-2124 | likewise for the whole resolution, tree and result |
| ParentCreation.CreationIsOneBranch | services/orchestrator/src/guest.rs:2149-2156 | whatever links are in the way, creation adds nothing or the remaining names as fresh directories beneath one place |
| ParentCreation.InsideIffLandsInside | services/orchestrator/src/guest.rs:2126-2158 | for every tree, every limit on links and whatever texts the system refuses, every change is a new directory strictly below the root, if and only if the place where creation lands is not outside it |
| ParentCreation.MissingForGoodIsInside | services/orchestrator/src/guest.rs:2126-2158 | so whenever the first name taken for missing is missing, even to a walk under twice the limit on links that refuses no text; dangling links included |
| ParentCreation.LimitMisleads | services/orchestrator/src/guest.rs:2137-2158 | for every limit on links and every tree with these links a path whose creation lands outside |
| ParentCreation.LengthMisleads | services/orchestrator/src/guest.rs:2137-2158 | without any link limit in play: with enough dots in front every ancestor below the root is spelled too long to be seen, and creation lands outside |
| ParentCreation.LinkedExists | services/orchestrator/src/guest.rs:2137-2158 | there is such a tree |
| ParentCreation.ClimbEndsAtRoot | services/orchestrator/src/guest.rs:2141-2144 | below a root that is seen to exist the upward walk ends at or below the root |
| ParentCreation.WritesStayInside | services/orchestrator/src/guest.rs:2101-2124 | an accepted write goes to a plain name in a canonical place at or below the root, and never for a path without a name |
| ParentCreation.WritesGoWhereAsked | services/orchestrator/src/guest.rs:2101-2124 | an accepted write goes to the last name asked for, in the place to which the names before it lead in the resulting tree; without `create_parents` the tree is unchanged; only empty, absolute or climbing texts are invalid |
| ParentCreation.NextName | services/orchestrator/src/guest.rs:2114-2145 | what the walk of `fs::canonicalize` makes of one name after a place without links: `.` stays, `..` goes up, a link stands for its target as read from the directory that holds it, and nothing is below a file or an absent entry |
| ParentCreation.AcceptedIff | services/orchestrator/src/guest.rs:2101-2124 | without `create_parents` a write is accepted if and only if the names before the last lead to a place at or below the root |
| ParentCreation.OrdinaryWritesGoBelow | services/orchestrator/src/guest.rs:2101-2124 | on an ordinary path the answer is the root followed by the names |
| ParentCreation.OrdinaryPathsAreCreated | services/orchestrator/src/guest.rs:2137-2158 | where every ancestor is a directory or absent and none is refused, creation succeeds and what was asked for is there |
| ParentCreation.PhysicalIsCanonical | services/orchestrator/src/guest.rs:2145-2148 | a canonical path resolves to itself without spending a link |
| TerminalPool.Terminals.MakeRoom | services/orchestrator/src/guest.rs:1084-1112 | afterwards fewer than four are left and none both read to its end and exited; every other old session is unchanged or closed; no more closed than needed; a live one only when none is ending, and then the smallest ids |
| TerminalPool.Terminals.Start | services/orchestrator/src/guest.rs:1080-1165 | a start always finds room: the new session is in the pool, never more than four |
| TerminalPool.OlderSortsFirstIff | services/orchestrator/src/guest.rs:1158-1165 | of two ids minted in the order of the counter the older sorts first if and only if its clock reading, or at equal readings its count, does as a decimal text; for numbers of any length and any clock |
| TerminalPool.TopIsQuotient | services/orchestrator/src/guest.rs:1158-1165 | comparing decimal texts of different lengths compares the shorter number with the longer one's quotient by a power of ten |
| TerminalPool.SmallestIsOldestIff | services/orchestrator/src/guest.rs:1099-1103 | the smallest id of a pool is the oldest session's if and only if that holds of the oldest against every other |
| TerminalPool.ClockStepsBack | services/orchestrator/src/guest.rs:1099-1103 | with numbers of one length, a clock that steps back puts the newer session first |
| TerminalPool.TenthBeforeNinth | services/orchestrator/src/guest.rs:1099-1103 | when the counter gains a digit within one millisecond the newer session sorts first |
| TerminalPool.TenthAfterFirst | services/orchestrator/src/guest.rs:1099-1103 | gaining a digit does not always do so |
| JsonText.QuoteParses | packages/contracts/src/session-capsule.ts:250-253 | quoted strings can be told apart whatever follows: quoting is injective and self-delimiting |
| JsonText.QuoteReads | packages/contracts/src/session-capsule.ts:250-253 | read by section 7 of RFC 8259, a quoted string is the string, and ends at its closing quote whatever follows |
| JsonText.QuoteIsShortest | packages/contracts/src/session-capsule.ts:250-253 | no text without unpaired surrogates that reads as the string is shorter |
| CanonicalJson.PrintReads | packages/contracts/src/session-capsule.ts:250-261 | a printed value reads as what it means: no white space, names in strictly ascending order of code units, whatever can follow a value left over |
| CanonicalJson.KeysAscend | packages/contracts/src/session-capsule.ts:257-260 | keys are printed in strictly ascending order of code units |
| CanonicalJson.CanonicalTextIffSameMeaning | packages/contracts/src/session-capsule.ts:242-261 | equal canonical text exactly for the same JSON value with objects read as maps, at every depth; numbers of every kind, NaN and the infinities being null |
| CanonicalJson.CanonicalBytesIffSameMeaning | packages/contracts/src/session-capsule.ts:287-289 | likewise for the encoded bytes, unpaired surrogates included |
| Utf8.EncodeDecodes | packages/contracts/src/session-capsule.ts:287-289 | read by section 4 of RFC 3629, the bytes are the text, with U+FFFD for every unpaired surrogate |
| Utf8.PairIff | packages/contracts/src/session-capsule.ts:287-289 | two code units are taken as one character if and only if they are a code point above U+FFFF in UTF-16 |
| SessionCapsule.CheckTranscript | packages/contracts/src/session-capsule.ts:127-141 | no issue exactly when entry numbers are contiguous, and an issue at exactly the broken places |
| SessionCapsule.IndexFiles | packages/contracts/src/session-capsule.ts:190-203 | the index holds the last file of every path, the total is the sum, and duplicates are reported exactly |
| SessionCapsule.CheckManifest | packages/contracts/src/session-capsule.ts:189-238 | no issue exactly when paths are unique, the total is within 25 MiB and every reference has its role |
| SessionCapsule.CapsuleInjective | packages/contracts/src/session-capsule.ts:270-290 | equal JSON values of two capsules mean equal capsules |
| SessionCapsule.CapsuleReads | packages/contracts/src/session-capsule.ts:161-188 | read by the names of its fields, a capsule's JSON is the capsule |
| SessionCapsule.IdentityReads | packages/contracts/src/session-capsule.ts:263-290 | from the identity bytes, read as UTF-8, as JSON and by field names, the capsule comes back with its three collections in order |
| SessionCapsule.IdentityIffSameCapsule | packages/contracts/src/session-capsule.ts:263-290 | accepted capsules have equal identity bytes if and only if they agree up to the order of files, attachment paths and untracked paths |
| SessionCapsule.IdentityIgnoresKeyOrder | packages/contracts/src/session-capsule.ts:257-260 | object keys in any order, at any depth, give the same bytes |
| SessionCapsule.SerializeIdentity | packages/contracts/src/session-capsule.ts:270-290 | an identity exactly for what the field schemas let through, bounds and cross-field checks included, and exactly this one |
| LaunchProfile.ValidateLaunchProfile | services/orchestrator/src/provider_profile.rs:288-330 | accepts exactly the profiles within every limit, and otherwise reports the first entry at fault, files before variables |
| LaunchProfile.SafePathIff | services/orchestrator/src/provider_profile.rs:301-307 | a path is safe if and only if it is not empty, begins neither with a slash nor a dot piece, and no piece is `..` |
| LaunchProfile.FileFaultIs | services/orchestrator/src/provider_profile.rs:294-314 | which error a file gets, and that the checks before it passed |
| LaunchProfile.VarFaultIs | services/orchestrator/src/provider_profile.rs:316-331 | likewise for variables |
| LaunchProfile.EnvNameIff | services/orchestrator/src/provider_profile.rs:268-281 | a name is accepted if and only if it is not empty, does not begin with a digit and has only capital letters, digits and underscores |
| LaunchProfile.Profile.WriteAll | services/orchestrator/src/provider_profile.rs:346-353 | the writing loop stops at the first failure and equals its functional description |
| LaunchProfile.Profile.Materialize | services/orchestrator/src/provider_profile.rs:341-362 | files first; then every variable in order with the directory put in |
| LaunchProfile.OnlyBelowDir | services/orchestrator/src/provider_profile.rs:346-353 | nothing outside the directory is touched, whether writing succeeds or not |
| LaunchProfile.MaterializedExactly | services/orchestrator/src/provider_profile.rs:346-353 | into a fresh directory writing succeeds if and only if every path names a file, is within the system's lengths and no file is to be an ancestor of another; then the directory holds exactly what the profile asks for |
| LaunchProfile.ReadsBackIffNotOverwritten | services/orchestrator/src/provider_profile.rs:346-353 | a file reads back as given if and only if the last file of the same names has its contents; always when names are distinct |
| LaunchProfile.AcceptedMayOverwrite | services/orchestrator/src/provider_profile.rs:313-315 | for any two names an accepted profile that loses a file |
| LaunchProfile.AcceptedMayFail | services/orchestrator/src/provider_profile.rs:305-312 | for any name an accepted profile that cannot be written, and for any name over 255 bytes another |
| LaunchProfile.ExpandIsSplitJoin | services/orchestrator/src/provider_profile.rs:355-360 | expansion is cutting at the token and joining with the directory |
| LaunchProfile.ExpandItself | services/orchestrator/src/provider_profile.rs:355-360 | cutting loses nothing |
| LaunchProfile.NoTokenLeft | services/orchestrator/src/provider_profile.rs:355-360 | with an absolute directory without braces no token is left, not even one formed by the pieces |
| ProfileRegistry.ProviderProfileRegistry.Create | services/orchestrator/src/provider_profile.rs:121-132 | a handle only for a written profile; a failure leaves no directory, unless it comes before the permissions are set or the removal fails |
| ProfileRegistry.ProviderProfileRegistry.Reap | services/orchestrator/src/provider_profile.rs:428-434 | looking at every entry comes to dropping the old ones at once |
| ProfileRegistry.RegistryIsExact | services/orchestrator/src/provider_profile.rs:368-434 | over every run a live handle names its own existing directory; on disk are the directories of live handles, of callers holding one, and what operations have left behind, hence exactly the held ones if and only if nothing has been left |
| ProfileRegistry.ReapsExactlyTheOld | services/orchestrator/src/provider_profile.rs:424-434 | reaping drops exactly the entries at least `max_age` old; their directories stay exactly as long as a caller holds them, or for good if they cannot be removed |
| ProfileRegistry.CreatedWhenMade | services/orchestrator/src/provider_profile.rs:385-400 | over every run an entry's age counts from the time at which its profile was written under its handle |
| ProfileRegistry.DeadHandlesStayDead | services/orchestrator/src/provider_profile.rs:364-368 | a handle that has stopped resolving never resolves again |
| ProfileRegistry.HeldDirectoriesStay | services/orchestrator/src/provider_profile.rs:175-180 | a held directory outlives removal and reaping |
| Snapshot.ValidateSnapshot | services/orchestrator/src/http_api.rs:911-953 | accepts exactly the snapshots that meet every condition; the overflow error is unreachable; the error is the first faulty file's |
| Snapshot.FileFaultIs | services/orchestrator/src/http_api.rs:919-946 | which error a file gets |
| Snapshot.SafePathIff | services/orchestrator/src/http_api.rs:919-928 | a path is acceptable if and only if it is neither empty nor too long, holds no NUL, begins neither with a slash nor a dot piece, and no piece is `..` or reads `.git` in any letter case, by its characters |
| Snapshot.AcceptedPathsAvoidGit | services/orchestrator/src/http_api.rs:921-928 | no piece of an accepted path is `.git` in any letter case, or climbs |
| Snapshot.AcceptedMayNameOneFileTwice | services/orchestrator/src/http_api.rs:929 | for any two names an accepted snapshot with two entries for one file |
| Snapshot.IsNormalIff | services/orchestrator/src/http_api.rs:921-929 | an acceptable path is the normal text of its place if and only if no piece between its slashes is empty or a dot |
| Snapshot.AcceptedNamesEachOnceIff | services/orchestrator/src/http_api.rs:911-953 | an accepted snapshot names each file once if and only if the normal texts of its paths differ, in particular when in no path a piece between slashes is empty or a dot |
| Snapshot.CanClashIffNotNormal | services/orchestrator/src/http_api.rs:921-929 | path by path: some accepted snapshot also names an acceptable path's place by another, normal text if and only if a piece between its slashes is empty or a dot |
| Transcript.MergeRoomMessages | apps/web/components/chat/shared-chat-transcript.tsx:44-67 | the two loops over the map equal the merge function |
| Transcript.MergeIsUnion | apps/web/components/chat/shared-chat-transcript.tsx:44-67 | a merge is strictly increasing over exactly the numbers of both sides |
| Transcript.MergeIsIdempotent | apps/web/components/chat/shared-chat-transcript.tsx:51-65 | merging any batch a second time changes nothing |
| Transcript.PendingTextGrows | apps/web/components/chat/shared-chat-transcript.tsx:53-63 | a batch of pending updates never shortens a pending text |
| Transcript.LastUpdateStands | apps/web/components/chat/shared-chat-transcript.tsx:53-63 | the last update of a number is what stands, unless both it and what stood are pending and it is shorter |
| Transcript.MergeConcat | apps/web/components/chat/shared-chat-transcript.tsx:44-67 | merging page after page is merging them at once |
| Transcript.LiveTranscript.AddMessages | apps/web/components/chat/shared-chat-transcript.tsx:85-98 | messages and first pending number stay in step, and the latest number is that of the last message, or -1 |
| Transcript.LiveTranscript.CursorIsBelowPending | apps/web/components/chat/shared-chat-transcript.tsx:107-110 | the cursor is strictly below every pending message, and everything up to it is finished |
| Transcript.LiveTranscript.Refresh | apps/web/components/chat/shared-chat-transcript.tsx:107-134 | the page loop ends and has merged everything the room holds after the cursor; nothing at or before the cursor changes, absences included, and the cursor never falls |
| Transcript.RefreshCatchesUp | apps/web/components/chat/shared-chat-transcript.tsx:107-134 | afterwards every message past the cursor is as the server has it, unless both are pending and the local text is further along |
| Transcript.NoGapIff | apps/web/components/chat/shared-chat-transcript.tsx:107-134 | a refresh leaves no message of the room missing if and only if none was missing at or before the cursor |
| Transcript.RefreshBringsIff | apps/web/components/chat/shared-chat-transcript.tsx:107-134 | of the room's messages a refresh adds exactly those past the last one shown, and those at or after a reply still being written |
| Transcript.ShownIffBrought | apps/web/components/chat/shared-chat-transcript.tsx:85-134 | over any series of live batches and refreshes a message is shown if and only if it was at the start, or was in a live batch, or lay past the cursor of a refresh |
| Transcript.MissedForGood | apps/web/components/chat/shared-chat-transcript.tsx:85-134 | when a message arrives live before an earlier one, the earlier one stays absent through every series of refreshes, whatever the room answers, and of live batches that neither hold it nor reopen a message before it |
| SharedQueue.OrderSorts | packages/contracts/src/shared-session.ts:51-60 | the same entries, sorted by position, time and id |
| SharedQueue.OneOrderIffNoTies | packages/contracts/src/shared-session.ts:47-60 | the order is the same for every arrangement of the rows if and only if no two different rows tie |
| SharedQueue.DistinctIdsGiveOneOrder | packages/contracts/src/shared-session.ts:58 | ids that compare apart are enough |
| SharedQueue.EnqueueAppends | packages/contracts/src/shared-session.ts:67-83 | a new turn, its fields as given, gets the first position above every other and goes last, nothing else moving |
| SharedQueue.SeriesAppends | packages/contracts/src/shared-session.ts:67-83 | on any queue, in order or not, a series of turns goes behind everything, now in order, as it came and numbered consecutively |

## Left out

- I/O of PTYs, processes, sockets, Git and the Superset bridge: environment steps, or no part of the model.
- I/O failures between spawning a run and registering it: the gate and idempotency claims are about registered runs.
- GuestGate.StartsAreIdempotent: the idempotency table only grows in the source, so a key is never free again; restarts of the service are not modelled.
- GuestDeadlock.BusyEnds: says that the present threads can bring the flag down, not that a scheduler must let them.
- GuestLocks.ProgramsAreDisciplined: a request that fails early performs part of its program and lets its locks go; apart from the named failures such prefixes are not separate programs. A reader's wait for room in a full buffer ends by a client's poll or a close and is modelled as a pause.
- GuestGate.WritesFormAChain: shells and agents that outlive their request write files without the gate; in this model requests, the commands they run and live runs write. A path stands for the file it resolves to. `revision` is a parameter; that equal revisions mean equal contents is not assumed.
- ParentCreation.InsideIffLandsInside: the tree does not change under the walk. Which texts look missing, canonicalize or can be made is a parameter, so a refusal may have any reason but is the same at every call of one request.
- ParentCreation.FileSystem.ResolveForWrite: what the written name itself is, a link included, is left to the write.
- The terminals' own streams: `force_close_session` closes the reader's side while it may still append, so the claims about finality and bound are about executions.
- TerminalPool.Terminals.MakeRoom: sessions do not end while room is made; the reclaim may take any ending session, as a hash map's order allows.
- ClaudeSetup.ClaudeSetupOutput.Push: the URL and error patterns are parameters; the reader's lossy decoding of each read is outside.
- SHA-256, base64 and the regex engine: functions given from outside or, for the token pattern, written out.
- Decimal printing of numbers that are not natural: a finite number is given as the numeral `JSON.stringify` writes for it.
- SessionCapsule.SerializeIdentity: the schemas of single fields (lengths, patterns, trimming) are one parameter; the checks across fields are modelled.
- LaunchProfile.Profile.Materialize: permissions, disk errors other than the shape and length of the paths, and links below the fresh directory are not modelled; how much text the directory leaves for a path is a parameter.
- ProfileRegistry.RegistryIsExact: creating the directory and inserting the entry is one step; the process id in the names is constant; which directories cannot be removed is a parameter, every directory being removed at most once.
- ReplyWorkflow.Workflow: time is the number of turns the deadline allows; extracting and decoding the partial text is a parameter.
- Transcript.LiveTranscript.Refresh: the room does not change between the pages of one refresh; failed responses and aborted refreshes end it early.
- SharedQueue.OrderSorts: `localeCompare` is any collation; the entries' own schema is not modelled.
- React rendering, routing, field validators, status tables, authentication, billing and the database schema: they would add only easy members.
