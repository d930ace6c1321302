# A verified model of the serial session server

The server lets an automated client drive serial consoles through tools such as `serial.exec`. What makes it
delicate is the combination of an asynchronous session protocol, a streaming pattern matcher over lossily decoded
bytes, terminal transcripts that are cut and parsed, and gates that decide which bytes may reach a device. This
project models those parts in Dafny and proves what they promise, over every input, every run and every
interleaving.

`dafny verify dfyconfig.toml` checks the whole project.

## The parts

* `Sessions`, `Manager`: the session objects and the manager's critical sections, in place on classes, each tied to
  a function on the table value.
* `Protocol`, `ProtocolSafety`, `ProtocolRuns`, `ProtocolAtomic`, `ProtocolQuiescence`, `ProtocolCloses`,
  `ProtocolAsserts`, `ProtocolHistory`: the concurrent protocol as a labelled step system. A task is one call; every
  critical section of the manager mutex, every acquire and release of a port lock and every device event is a step,
  and any wait may end in a timeout or a cancellation. `ProtocolSafety` holds the inductive invariant over task
  program counters, `ProtocolQuiescence` a second one that knows the session of every port handle; the results over
  runs are in the others, and `ProtocolHistory` links the event logs of these runs to the operations of `PortRuns`. A
  close drops its lock guard before its last section (`src/serial/manager.rs:386-410`), so the release is a step of
  its own.
* `Utf8`, `LossyOffset`, `LossyProperties`: lossy decoding by section 4 of RFC 3629, and the mapping of byte offsets
  through it.
* `PatternMatching`: the lazily compacted window with its two cursors, as a class, refined to "the last `cap` bytes".
* `Search`, `Echo`, `Terminal`, `Osc3008`, `OscRoundTrip`, `Console`: first occurrences, echo boundaries, the
  terminal normaliser, OSC 3008 command markers, and the analysis of a transcript.
* `PortSpec`, `PortIo`, `PortRuns`: the read loops and operations on one port, what each may do to the device, and
  runs of them in the order in which the port lock was granted.
* `Calendar`, `Decimal`, `Timestamp`: day numbers, calendar dates and the journal's timestamps. Rust's truncating
  division is written out.
* `Policy`, `Lines`, `Admission`, `Profiles`, `Handlers`, `HandlerRuns`: command policies, the gates, the device
  profiles an open request starts from, the tool handlers of one session, and whole runs of tool calls.

## Assumptions

* A new session id has never been used before. The code draws 128 random bits and compares them with the current
  table only (`src/serial/manager.rs:1071-1098`).
* A regular expression is an arbitrary function whose match lies inside the searched text; a command rule is an
  arbitrary predicate. Compiling may fail.
* Among the finitely many payloads of a run's own calls, and of what was approved, no two have the same confirmation
  key (`Apart`, a hypothesis of `OnlyApprovedIsSent` and `SentWasShown` only). The client returns an acceptance only
  under the key of something the person approved, or was asked about.
* Operations of a concurrent history each meet the contract that `PortIo` proves for an operation that has the port to
  itself (`Fulfils`, a hypothesis of `HistoryIsRun` and `ConcurrentConservation` only).
* Deadlines and cancellations are arbitrary: any wait may end early. Nothing is claimed about time.
* What the device sends during a run is one finite byte sequence, arbitrary in content; how it arrives in chunks,
  and where reads fail or end, is arbitrary too.

## What the proofs found

* A close that has returned Ok is quiescent exactly when no operation on its session is in its I/O at that moment
  (`CloseIsQuiescentIff`). A close that began on a Ready session always is (`ReadyCloseIsIdle`,
  `ReadyCloseNeverFails`). A close of a session still Opening takes no port lock: whenever one is about to begin, some
  continuation lets it return Ok and the port be used afterwards, exactly if the open has not already failed
  (`OpeningCloseFailsIff`). `OpeningCloseIsNotQuiescent` gives one such run from the start.
* Such a close can also make two debug assertions fail. Whenever it is about to begin, some continuation installs the
  port into a session that is not Opening (`src/serial/session.rs:119`) exactly if the open has not already failed
  (`InstallAssertFailsIff`), and some continuation lets this very close finish on a session that is not Closing
  (`src/serial/session.rs:141`) under exactly the same condition (`FinishAssertFailsIff`). At the moment of the install
  the first assertion holds exactly if no such close is between its two sections (`InstallFindsOpeningIff`); the second
  always holds for a close that began Ready (`ReadyCloseFindsClosing`), and the third, at `src/serial/session.rs:149`,
  always holds (`TimedOutClose`). The model follows release builds, in which these assertions do nothing.
* Once such a close has returned, its path is free again while its port is not: whenever one is about to begin and the
  open has not failed, some continuation has two operations in their I/O on one path (`EarlyCloseOverlaps`). Without
  such a close there is never more than one (`PathsAreExclusive`).
* The comment at `src/serial/mod.rs:188-190` says that profile controls belong to the hardware, not to the way it was
  named. If two configured profiles match one port they depend on it: the port's path gets the first that matches, a
  device name the one it names. `PathIsLooserIff` states exactly when a path gets a looser write policy than the name
  implies, and when both get the same settings; `PathDropsRuleIff` when the path drops a deny rule, the list of allowed
  commands or the line ending; `OverlapAvoidsConfirm` gives an input. The order of the profiles is that of a hash map
  (`src/config.rs:175-181`).
* The comment at `src/serial/parser.rs:178-183` says that an offset at a malformed sequence maps behind it. The code
  does so only if that sequence does not directly follow another malformed one. `MappedOffsetIsExact` states where
  every offset lands, `AdjacentMalformedStay` gives the smallest exception.
* The echo boundary is independent of chunking only while chunks are shorter than the window; for every window a chunk
  as long as it can hide the boundary (`FullChunkMissesBoundary`). The code reads 4096 bytes at most into a window of
  65536. Once an answer is longer than that, the analysis of its output cuts the echo where matching did exactly if
  the whole terminator is still in the output (`MatchIsBehindEcho`).
* The timestamps of all instants from year 0 up to a given second compare as text as they compare in time exactly if
  that second is before year 10000 (`OrderEndsWithYear9999`).
* A normalised text distributes over concatenation exactly when the first part ends outside an escape and not in a
  carriage return (`NormalizedJoin`).

## Model

| member | source | states |
|---|---|---|
| Sessions.Session.Opening | src/serial/session.rs:94-114 | a new session is Opening and has no port |
| Sessions.Session.TransitionToReady | src/serial/session.rs:118-122 | installs the port whatever the state was; everything else stays |
| Sessions.Session.BeginClose | src/serial/session.rs:128-138 | succeeds exactly from Ready or Opening and then drops the port; otherwise changes nothing |
| Sessions.Session.FinishClose | src/serial/session.rs:140-143 | the session is Closed |
| Sessions.Session.RestoreReady | src/serial/session.rs:148-152 | the session is Ready with the handle given back |
| Manager.SessionManager.NextSessionId | src/serial/manager.rs:1071-1085 | an id that is drawn and not in the table, and none only if every draw is taken |
| Manager.SessionManager.PathInUse | src/serial/manager.rs:298-306 | finds out exactly whether some session has the path |
| Manager.SessionManager.Reserve | src/serial/manager.rs:289-326 | refuses in the order allowlist, busy port, full table, and else adds exactly one Opening entry |
| Manager.SessionManager.Install | src/serial/manager.rs:331-344 | a reserved session becomes Ready with the port; a removed one stays removed and is reported |
| Manager.SessionManager.Abandon | src/serial/manager.rs:345-348 | a failed open removes exactly its placeholder |
| Manager.SessionManager.BeginClose | src/serial/manager.rs:367-384 | hands over the port the session held, or reports why it cannot close and changes nothing |
| Manager.SessionManager.RollBackClose | src/serial/manager.rs:386-404 | puts the same handle back into the session if it is still there |
| Manager.SessionManager.FinishClose | src/serial/manager.rs:406-411 | removes exactly the closed session |
| Manager.SessionManager.CheckoutPort | src/serial/manager.rs:719-737 | returns the session's handle, or the error for an unknown id or a session without a port |
| Manager.SessionManager.EnsurePortStillReady | src/serial/manager.rs:739-758 | passes exactly when the session is Ready and still owns this very handle |
| Manager.ReservedKeepsTable | src/serial/manager.rs:295-326 | a successful reservation keeps the table invariant, in particular the cap and unique paths |
| Manager.RemovedKeepsTable | src/serial/manager.rs:345-348 | removal keeps the table invariant |
| Manager.RefusalOrder | src/serial/manager.rs:289-311 | an open is refused for the allowlist first, then for a port in use, then because there are four sessions |
| Manager.LookupErrors | src/serial/manager.rs:719-758 | an unknown session and one in the wrong state are told apart, and a port is handed out iff the session is Ready |
| ProtocolSafety.StepKeepsInv | src/serial/manager.rs:280-446 | every step of every task keeps the invariant that links table, locks, handles and program counters |
| ProtocolRuns.TableInvariant | src/serial/manager.rs:295-350 | in every reachable state: at most MAX_SESSIONS entries, unique paths, keys are ids, a port exactly when Ready |
| ProtocolRuns.QuiescentClose | src/serial/manager.rs:362-412 | after a close that began Ready returned Ok, no event ever happens on that handle again and no session offers it |
| ProtocolRuns.TimedOutClose | src/serial/manager.rs:386-404 | a close that times out finds its session Closing or gone, fails, and makes the session Ready again with the handle it took |
| ProtocolRuns.ReadyCloseFindsClosing | src/serial/session.rs:140-143 | a close that began Ready finishes on a Closing session or none, so the assertion there holds |
| ProtocolQuiescence.StepKeepsKnown | src/serial/manager.rs:280-446 | every step keeps a second invariant: every handle belongs to one session, a removed session never returns, and only an open that has not failed ever has a port |
| ProtocolCloses.CloseIsQuiescentIff | src/serial/manager.rs:362-412 | any close that returned Ok, wherever it began: no device event of its session in any continuation, iff no operation on it is in its I/O |
| ProtocolCloses.ReadyCloseIsIdle | src/serial/manager.rs:362-412 | when a close that began Ready returns Ok, no operation on the session is in its I/O |
| ProtocolCloses.ReadyCloseNeverFails | src/serial/manager.rs:362-412 | from the moment a close has taken the port of a Ready session, no continuation lets it return Ok and events follow |
| ProtocolCloses.OpeningCloseFailsIff | src/serial/session.rs:128-138 | when a close of an Opening session is about to begin, some continuation lets it return Ok and the port be used afterwards, iff its open has not already failed |
| ProtocolCloses.PathsAreExclusive | src/serial/manager.rs:298-306 | two operations in their I/O are on different paths, unless a close that began Opening has returned on one of their sessions |
| ProtocolRuns.OpeningCloseIsNotQuiescent | src/serial/manager.rs:367-410 | a run from the start in which a close of an Opening session returns Ok and its port is written afterwards |
| ProtocolCloses.EarlyCloseOverlaps | src/serial/manager.rs:298-306 | whenever a close of an Opening session is about to begin and its open has not failed, some continuation has two operations in their I/O on the session's path at once |
| ProtocolAsserts.InstallFindsOpeningIff | src/serial/session.rs:118-122 | at an install whose session is in the table, the session is Opening iff no close that began Opening is between its two sections |
| ProtocolAsserts.InstallAssertFailsIff | src/serial/session.rs:118-122 | when a close of an Opening session is about to begin, some continuation installs the port into a session that is not Opening, iff its open has not already failed |
| ProtocolAsserts.FinishAssertFailsIff | src/serial/session.rs:140-143 | when a close of an Opening session is about to begin, some continuation lets it finish on a session that is not Closing, iff its open has not already failed |
| ProtocolAtomic.AtomicOperations | src/serial/manager.rs:597-704 | in every run a port's log is a concatenation of whole operations, each in the order clear, write, flush, read, and one that is still clearing has done nothing else |
| ProtocolAtomic.DifferentPortsCommute | src/serial/manager.rs:774-789 | any two steps of operations on different ports, from waiting for the lock to releasing it, can be made in either order and lead to the same state |
| ProtocolHistory.HistoryIsRun | src/serial/manager.rs:774-789 | in every reachable state the operations that used a port and have ended are, in the order of the lock, a sequential run on its device; only one can be missing, the one that holds the lock |
| ProtocolHistory.ConcurrentConservation | src/serial/manager.rs:423-704 | when the operations that have ended on a port all succeeded, however they interleaved, no byte was lost or handed out twice: their counts and deliveries are exact, and what they returned, in lock order, is the consumed stretch iff no answer overflowed |
| Utf8.TextIsEncoded | src/serial/parser.rs:184-211 | the lossy text is the encoding of the lossily decoded characters |
| Utf8.DecodeEncode | src/serial/parser.rs:184-211 | decoding inverts encoding, and encodings are well formed |
| Utf8.MalformedIsMaximal | src/serial/parser.rs:189-207 | where no character's encoding stands, one U+FFFD replaces the longest stretch that begins one, or one byte |
| Utf8.CharacterIsDecoded | src/serial/parser.rs:189-207 | where a character's encoding stands, it is decoded and decoding goes on behind it |
| Utf8.WellFormedIffIdentity | src/serial/parser.rs:128-138 | text is its own lossy decoding exactly when it is well-formed UTF-8 |
| LossyOffset.DecodeLossyAt | src/serial/parser.rs:184-211 | the loop over valid and malformed chunks computes the reference decoding and the mapped offset |
| LossyOffset.RoundUp | src/serial/parser.rs:133-137 | the first character boundary at or after an offset |
| LossyProperties.MappedOffsetIsSafe | src/serial/parser.rs:139-141 | the mapped offset is a character boundary, monotone, and never before the raw offset |
| LossyProperties.MappedOffsetIsExact | src/serial/parser.rs:184-211 | the unit before which every raw offset lands, and exactly when one malformed unit more is skipped |
| LossyProperties.FastPath | src/serial/parser.rs:129-138 | on well-formed text the mapping is rounding up to a character boundary |
| LossyProperties.AdjacentMalformedStay | src/serial/parser.rs:178-211 | an offset between two malformed sequences stays between them |
| PatternMatching.BufferRefinement | src/serial/parser.rs:103-121 | after any edits the window is the last cap bytes pushed, the cursor is where it was last set unless passed, and the buffer holds at most two caps |
| PatternMatching.CompactionIsAmortised | src/serial/parser.rs:14-18 | compaction never moves more bytes than were dropped |
| PatternMatching.PatternMatcher.Create | src/serial/parser.rs:69-93 | an empty or uncompilable pattern is refused, anything else starts with an empty window |
| PatternMatching.PatternMatcher.PushWithoutMatching | src/serial/parser.rs:105-121 | one push, in place, has the effect the refinement is proved about |
| PatternMatching.PatternMatcher.FindDetails | src/serial/parser.rs:128-152 | the fast path and the lossy path find the same match: range and text of what the expression finds from the mapped cursor on |
| PatternMatching.PatternMatcher.SetSearchStart | src/serial/parser.rs:157-159 | the cursor is set, clamped to the window |
| PatternMatching.PatternMatcher.IntoBuffer | src/serial/parser.rs:166-171 | returns exactly the live window |
| Echo.WindowFindsBoundary | src/serial/manager.rs:1019-1037 | the first terminator of the window is the first of the whole stream, as long as chunks are shorter than the window |
| Echo.BoundaryIsStable | src/serial/console.rs:75-81 | a boundary once found does not depend on what follows |
| Echo.FullChunkMissesBoundary | src/serial/parser.rs:105-121 | for every window, a chunk as long as it can hide the boundary, so that none or a later terminator is found |
| Echo.WindowAgreesIff | src/serial/console.rs:75-81 | the last bytes of a stream give its boundary iff they hold the whole first terminator |
| Echo.EchoedLine | src/serial/console.rs:75-81 | the boundary behind an echoed line is where its terminator ends |
| Terminal.NormalizeTerminalOutput | src/serial/console.rs:127-162 | the nested loops over a peekable text equal a one-pass state machine |
| Terminal.NormalizedIsPlain | src/serial/console.rs:127-162 | no escape and no carriage return is left, normalising is idempotent, and is the identity exactly on such text |
| Terminal.NormalizedJoin | src/serial/console.rs:127-162 | normalising distributes over concatenation exactly when the first part ends in the ground state |
| Terminal.ControlSequenceVanishes | src/serial/console.rs:143-150 | a control sequence vanishes up to its first character from `@` to `~`, and what follows stays |
| Terminal.OscVanishes | src/serial/console.rs:133-142 | an operating system command vanishes up to its first BEL or ESC backslash, and what follows stays |
| Terminal.LineBreaks | src/serial/console.rs:151-160 | CR LF and a lone CR become one line feed, and any other escape drops only itself |
| Osc3008.ParseOscMarker | src/serial/console.rs:254-291 | the loop over fields computes the marker: kind, id of 1 to 128 bytes, and the last value of each attribute |
| Osc3008.FindOscEnd | src/serial/console.rs:240-252 | the first BEL or ESC backslash |
| Osc3008.FindMarkers | src/serial/console.rs:219-238 | the scanner returns all markers, or nothing if one is malformed |
| Osc3008.MarkersArePlaced | src/serial/console.rs:219-238 | markers are well formed, disjoint and in order, and every prefix in the text lies in one |
| Osc3008.CommandIsUnique | src/serial/console.rs:192-217 | a command is extracted iff no marker is malformed, exactly one starts a command, and exactly one end marker at or behind its end has its id |
| Osc3008.GrammarIsSpelled | src/serial/console.rs:219-291 | the bytes of the marker grammar as text |
| OscRoundTrip.MarkerIsRead | src/serial/console.rs:240-291 | a printed marker is read back where it stands, exactly if its id has 1 to 128 bytes |
| OscRoundTrip.MarkerIsPrinted | src/serial/console.rs:225-291 | a marker is read exactly where the bytes are those of a printable one: terminated, UTF-8, with an id of 1 to 128 bytes |
| OscRoundTrip.CommandRoundTrip | src/serial/console.rs:192-291 | a printed command between prefix-free texts parses back to exactly its output, status and exit code |
| OscRoundTrip.NestedRoundTrip | src/serial/console.rs:192-217 | the one command among any number of markers of other contexts, around it, beside it or inside it, is extracted with exactly what was printed between its two markers |
| OscRoundTrip.ExitCodeRoundTrip | src/serial/console.rs:278-280 | a decimal exit code is read back exactly if it fits 32 bits |
| OscRoundTrip.PlusSignIsSkipped | src/serial/console.rs:278-280 | a plus sign changes nothing |
| OscRoundTrip.OnlyNumbersAreRead | src/serial/console.rs:278-280 | anything but an optional sign and at least one digit is no exit code |
| OscRoundTrip.ExitFieldsAreRead | src/serial/console.rs:271-281 | the exit and status fields a shell prints are read back |
| Console.AnalysisIsHonest | src/serial/console.rs:83-125 | texts are plain, a status comes only from one unambiguous command, and an output is missing exactly when nothing tells where it starts |
| Console.MarkedOutputIsRecovered | src/serial/console.rs:83-125 | of any plain text printed between command markers the caller gets exactly that text and the exit code |
| Console.EchoIsRemoved | src/serial/console.rs:83-125 | an echoed line is removed exactly and what follows it is reported |
| Console.UncutIsWhole | src/serial/console.rs:83-125 | without an echo boundary the normalised output is the whole text, and so is the command output where one is given and no marked command was found |
| Console.PlainComesBack | src/serial/console.rs:83-167 | plain text on a session without a line echo comes back exactly |
| PortIo.TakeChunk | src/serial/manager.rs:1019-1041 | one chunk keeps the matcher in step with the stream, and a match is reported exactly when visible behind the echo |
| PortIo.Follow | src/serial/manager.rs:1019-1041 | one chunk more: either the pattern was not visible at this border either, or the report is the match |
| PortIo.Report | src/serial/manager.rs:999-1017 | end of input, deadline and cancellation report the match that is visible, if any |
| PortIo.Port.WriteAll | src/serial/manager.rs:791-814 | all bytes are sent, or a prefix and an error |
| PortIo.Port.ReadLocked | src/serial/manager.rs:840-981 | returns all it consumed, at most max_bytes, truncated exactly when filled; otherwise the last wait explains the status; it ends because max_bytes minus accumulated falls |
| PortIo.Port.ReadUntilLocked | src/serial/manager.rs:983-1060 | reports the match visible in the whole stream behind its echo, at the first chunk border where one is visible, and a status that the last wait explains |
| PortIo.Port.Write | src/serial/manager.rs:423-446 | success sent everything in one write and one flush; an error that is not Io, Timeout or Cancelled touched nothing |
| PortIo.Port.Read | src/serial/manager.rs:468-480 | as ReadLocked, and a refusal consumes nothing |
| PortIo.Port.ReadUntil | src/serial/manager.rs:501-537 | returns the last 65536 bytes read, truncated exactly from that many on; no match was visible at an earlier chunk border, and the last wait explains the status |
| PortIo.Port.Exec | src/serial/manager.rs:597-704 | clears, writes, flushes and reads in that order; sends all of the command or reports none sent; consumes what it cleared and then what it read, stopping at the first chunk border with a visible match; the last wait explains the status |
| PortRuns.ByteConservation | src/serial/manager.rs:423-704 | over successful runs counts and deliveries are exact, and the returned bytes are the consumed stretch iff no answer overflowed |
| PortRuns.UntruncatedLosesNothing | src/serial/manager.rs:525-537 | without a truncated reply nothing is lost |
| PortRuns.RunAdvances | src/serial/manager.rs:423-704 | any run, failures included, consumes one stretch of the stream and only appends to what was delivered |
| PortRuns.ReadUntilFinds | src/serial/parser.rs:128-152 | the reported range and text are what the regular expression finds in the text of the output, and nothing is reported iff it finds nothing |
| PortRuns.ExecFinds | src/serial/manager.rs:983-1051 | the same for an execution in every echo mode, from the character boundary behind the echo on; nothing is reported either while the echoed line has not ended |
| PortRuns.MatchIsBehindEcho | src/serial/manager.rs:983-1051 | a match starts behind the echo of the whole answer; the output is cut at that same place iff it still holds the whole terminator, as every untruncated one does |
| Calendar.CivilIsExact | src/serial/journal.rs:248-261 | every day number gives a valid proleptic Gregorian date that counts back to it |
| Calendar.CivilInverts | src/serial/journal.rs:248-261 | every valid date is the date of its day number |
| Calendar.CivilSteps | src/serial/journal.rs:248-261 | the next day number is the next calendar day |
| Calendar.CivilIsMonotone | src/serial/journal.rs:248-261 | later day numbers are later dates |
| Calendar.NoOverflow | src/serial/journal.rs:248-261 | no 64-bit intermediate overflows unless the epoch shift does |
| Timestamp.StampOrder | src/serial/journal.rs:225-243 | timestamps compare as text exactly as their instants compare |
| Timestamp.ParseStamp | src/serial/journal.rs:235-243 | reading a timestamp returns its instant |
| Timestamp.StampParse | src/serial/journal.rs:235-243 | every text that reads as an instant is the timestamp of that instant |
| Timestamp.StampIsSpelled | src/serial/journal.rs:235-243 | the 24 characters of a timestamp, place by place |
| Timestamp.OrderEndsWithYear9999 | src/serial/journal.rs:225-243 | all instants from year 0 up to a second compare as text as in time iff that second is before year 10000 |
| Policy.CheckAdmits | src/serial/policy.rs:64-98 | a command passes exactly when it is one terminated line that the rules admit, or the policy is empty |
| Policy.CompiledPolicy | src/serial/policy.rs:44-58 | when a policy compiles, when it is empty, and which lines its rules match |
| Policy.ReportedRule | src/serial/policy.rs:88-94 | the rule reported is the first that matches: global, profile, caller, then the missing allow |
| Policy.BlockIsExplained | src/serial/policy.rs:64-86 | the id reported for a blocked command names the first structural check that fails, or else a rule |
| Policy.GuardedLine | src/serial/policy.rs:64-98 | the lines a guarded session takes, by code points and rules |
| Decimal.DigitsAreReadBack | src/serial/policy.rs:109-125 | a printed number is read back, so the index in a rule's name identifies the rule |
| Policy.CallerOnlyRestricts | src/serial/policy.rs:44-58 | a caller's rules only remove commands, and are enforced |
| Policy.AdmittedIsOneLine | src/serial/policy.rs:64-86 | an admitted line holds no terminator of its session |
| Lines.SplitIsJoined | src/serial/console.rs:22-35 | splitting a log into lines loses nothing |
| Lines.JoinedIsSplit | src/serial/console.rs:22-35 | lines without a terminator inside are read back as they were sent |
| Profiles.NameAndPathAgree | src/serial/mod.rs:143-182 | a device's name and its port's path get the same profile iff the named one is the first that matches the port found there |
| Profiles.OpensByName | src/serial/mod.rs:123-166 | what a device name opens: the first allowed port with the profile's USB identity, and otherwise which error |
| Profiles.OpensByPath | src/serial/mod.rs:173-230 | what a path opens: the first profile with the identity of the port found there, the defaults without one, and an error if profiles exist but the ports cannot be listed |
| Profiles.OneTargetOnly | src/mcp/mod.rs:190-253 | a request that names both a port and a device, or neither, or an unknown device, is refused |
| Profiles.PathIsLooserIff | src/mcp/mod.rs:220-253 | a path gets a looser write policy than the name implies iff the named profile is privileged and no privileged one is the first match; both get the same session settings iff the first match has those of the named profile |
| Profiles.PathDropsRuleIff | src/serial/mod.rs:173-198 | a path drops a deny rule, the list of allowed commands or the line ending iff the first match does not have it |
| Profiles.OverlapAvoidsConfirm | src/serial/mod.rs:173-182 | two profiles of one serial number, where the name asks first and the path does not |
| Admission.Configure | src/mcp/mod.rs:255-297 | a session is configured from its profile, tightened by the request: it denies writes iff one of them does and allows them iff neither says more; an override of a guarded line ending is refused |
| Admission.ProfileIsKept | src/mcp/mod.rs:260-297 | a request never loosens a profile: Deny iff one says Deny, Allow iff the profile allows and the request does not object; command rules and guarded line ending stay |
| Admission.SessionTakes | src/mcp/mod.rs:266-276 | which commands a session with rules takes, told by the four pattern lists it was opened with |
| Admission.LineEndingIsGuarded | src/mcp/mod.rs:280-297 | a requested line ending is refused exactly when there are rules and the profile has another one |
| Admission.WriteIsAdmitted | src/mcp/mod.rs:361-403 | a raw write is sent exactly when it is small enough, the session is unguarded, and there is consent |
| Admission.ExecIsAdmitted | src/mcp/mod.rs:593-720 | a command is sent, whole and terminated, exactly when every check passes and there is consent |
| Admission.PayloadIsSpelled | src/mcp/mod.rs:656-684 | what is sent: the command and the end of line of the call or else of the session, never over 4096 bytes, and always with an end of line if an echoed line is to be skipped |
| Admission.ConsentDecides | src/mcp/mod.rs:791-832 | once all else passed: which policy, answer and flag send, ask or refuse, and with which error |
| Admission.AskingDecides | src/mcp/mod.rs:791-832 | a person is asked only when all else passed; the answer decides, and the caller's own flag changes nothing |
| Admission.AskingAboutWriteDecides | src/mcp/mod.rs:791-832 | the same for raw writes |
| Handlers.SessionHandlers.CheckExec | src/mcp/mod.rs:600-716 | lets a command through exactly when it is well formed, admitted and consented to, and then with exactly the bytes that were checked |
| Handlers.SessionHandlers.Exec | src/mcp/mod.rs:593-752 | a refused call touches nothing; an admitted one clears, sends exactly the admitted bytes, flushes and reads, and reports it |
| Handlers.SessionHandlers.Write | src/mcp/mod.rs:361-416 | the same for raw writes, which never consume input |
| Handlers.SessionHandlers.Read | src/mcp/mod.rs:435-493 | read and drain: bounded, and an error says whether input may be lost |
| Handlers.SessionHandlers.ClearInput | src/mcp/mod.rs:501-533 | as drain, with exact counts in place of the data |
| Handlers.SessionHandlers.ReadUntil | src/mcp/mod.rs:545-568 | reading until a match, and an error says whether input may be lost |
| Handlers.SessionHandlers.Handle | src/mcp/mod.rs:361-752 | every call that reads or writes a session's port is a step of the runs below |
| HandlerRuns.ReportsAreSound | src/mcp/mod.rs:1183-1222 | an error that denies a write or a consumption is right, and success reports exactly what was sent |
| HandlerRuns.StepSends | src/mcp/mod.rs:361-752 | what reaches the device is a prefix of a payload the gates admitted |
| HandlerRuns.DenyStaysSilent | src/mcp/mod.rs:800-804 | over any run, a session that denies writes leaves the device log as it was |
| HandlerRuns.DenyRequestStaysSilent | src/mcp/mod.rs:260-262 | a session whose profile or request says Deny never sends, over any run |
| HandlerRuns.ExecUsesItsSettings | src/mcp/mod.rs:656-752 | each setting of an execution is the call's or else the session's, in what is sent, read and analysed, and when an analysis is given |
| HandlerRuns.ReadsAreBounded | src/mcp/mod.rs:435-533 | a read, drain or clear consumes at most the caller's bound or the tool's own, and at most 65536 bytes; truncated exactly when filled |
| HandlerRuns.FailuresAreFlagged | src/mcp/mod.rs:1183-1222 | for every failure, exactly when it says that bytes may have been sent, that input may be lost, and that the session is unusable |
| HandlerRuns.OnlyApprovedIsSent | src/mcp/mod.rs:805-831 | over any run of a confirming session, what is sent was approved for this session, tool and payload, or carried the caller's flag |
| HandlerRuns.SentWasShown | src/mcp/mod.rs:791-832 | over any run, when a client that can ask a person sends anything on a confirming session, an earlier call put exactly these bytes, for the same tool, to that person |
| HandlerRuns.GuardedLogParsesBack | src/mcp/mod.rs:653-720 | a guarded session's log splits into exactly the commands sent whole, iff no write was cut short |
| HandlerRuns.CutShortIsPrefix | src/mcp/mod.rs:653-720 | in any run, a call of a guarded session sends a prefix of one admitted, terminated line |
| HandlerRuns.UnterminatedStaysSilent | src/serial/policy.rs:76-78 | a guarded session without a line ending sends nothing |

## Left out

- The regular expression language, its size limits, and command rules as patterns: they are uninterpreted.
- Elapsed time, fairness and the difference between an idle window and a deadline: a wait may end at any point, so `read_locked` and `read_idle_locked` are one loop here.
- Port enumeration, the allowlist, path canonicalisation, the serial backend, environment variables, configuration files and the server loop: opening a port succeeds or fails arbitrarily.
- The journal writer and its rows; only its timestamps are modelled.
- JSON decoding of requests and answers, schemas, error codes, retry hints and message texts: an error is its kind, and a confirmation answer is one of the cases the code distinguishes.
- Baud rates, tags, probes and descriptions of profiles, and how the host enumerates ports and makes paths canonical: both are arbitrary functions.
- `serial.list_ports`, `serial.sessions` and `serial.get_session`, which only copy fields.
- Futures dropped in the middle of a wait, and recovery from a poisoned mutex.
- The test-only id generator.
- Handlers.SessionHandlers.Handle: `serial.open` and `serial.close` are not among the calls of a run, because a run is about one open session; opening is `Configure` and `Profiles`, and closing against running operations is the subject of the `Protocol` modules.
- PortIo.Checkout: whether a session is found, and in which state, is arbitrary at each look-up; how the table and the locks evolve between look-ups is the subject of the `Protocol` modules.
- PortIo.LockPort: waiting for a lock or a write either succeeds, times out or is cancelled, arbitrarily.
- HandlerRuns.OnlyApprovedIsSent: collisions of the 64-bit digest among the payloads of a run are excluded by assumption.
- HandlerRuns.GuardedLogParsesBack: the log starts with the session; what an earlier session left in the device's line buffer is not part of it.
