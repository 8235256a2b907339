# Narada workspace: verified models

Dafny 4.11 models of five cores of the workspace, with proofs of what they promise. Check them with
`dafny verify --resource-limit 2000000 --verification-time-limit 0 --warn-contradictory-assumptions *.dfy`
or `dafny verify dfyconfig.toml`.

**Orientation paging and its gate** (`Utf8`, `JsonText`, `OrientationPager`, `OrientationStore`, `OrientationGate`,
`OrientationSafety`, `OrientationDatabase`, `OrientationReplies`, `Base64Url`, `Continuation`, `OccupantRun`,
`OccupantReplies`, `OrientationBrief`). A byte pager cuts the text an agent must read into pages; a store records pages,
completions and one acknowledgement per delivery; ordinary work opens only after everything was served. The class
`Database` holds the four tables and its methods do what the source's transactions do, each equated with a specification
function; the theorems are about runs of those functions, and about what each call answers.

**Git work scopes and isolated commits** (`GitPaths`, `GitSpelling`, `WorkScopes`, `RegistryLock`, `GitTree`,
`IndexRepair`, `SharedIndexRuns`, `CommitPaths`, `CommitRuns`, `CommitRunsLate`, `CommitRunsSpelling`). Leases over
paths in a registry shared by processes, the lock file that guards it, commits built in a private index and published by
compare-and-swap, and the repair of the shared index. `Registry` and `Repository` are the objects in place.
`WorkScopes.World`, `RegistryLock.State` and `CommitRuns.State` are the same steps interleaved between processes;
`SharedIndexRuns.State` interleaves commits with late repairs of the shared index. The source compares paths as texts;
`GitSpelling.Reading` is what git takes a text for in the working directory. Git commands have their map meaning: `git
add` and `git reset` of paths are `GitTree.Overlay` of their readings, which includes what git does when a file and a
directory trade places.

**Ticket drafts** (`TicketDrafts`, `DraftLifecycle`, `TicketRows`, `OrderedBatch`, `DraftQueues`). Three linked state
machines with transactions and replays, a round-robin scan and an outbox per consumer.

**Printers and parsers** (`Json`, `CanonicalJson`, `Decimals`, `Framing`, `FramingRoundTrip`, `GitStatus`) and
**smaller cores** (`BoundedCapture`, `NativeManifest`). `Strings` and `Wrappers` are shared.

## What the proofs say about the source

Some promises do not hold as one would state them. Each has a lemma with an input or run that shows it. Where the
code meets the promise on one side of a test, a lemma states that test as an if-and-only-if; where a run breaks it (the
late publication, the registry lock, fairness) the promise is proved under a hypothesis and a run without the hypothesis
is given.

- A page keeps its two constants, 3000 bytes and 3200 JSON bytes, exactly when no paragraph break straddles its fitted
  end (`KeepsConstantsExactlyOffParagraph`); else it has one byte and one escaped newline more (`PageEndBounds`,
  `PageConstantExceeded`).
- Leases, requests and status lines are compared as texts, and git reads several texts as one file: `a`, `./a`, `a//b`,
  `:/a`, or a path given in a directory below the root. Git reads a path as it is written exactly when it runs at the
  root and the path is spelled canonically, without a leading colon and without empty or `.` components
  (`GitSpelling.ReadsAsWritten`). Two leases keep their files apart exactly when their paths do not overlap as read
  (`LeaseExclusion`, `FilesApartExactly`), which canonical spelling guarantees; else a commit under one live lease can
  replace a file of another (`SpellingOverwritesLease`). The overlap refusal sees the very file that a request stages,
  and a lease on the request covers it, exactly when the request is canonical (`SeenExactlyWhenCanonical`,
  `OtherSpellingLosesStaged`). Below the root the repair misses its paths (`SubdirectoryRepairsNothing`).
- A commit can remove a file outside its lease: a file that gave way to a directory holding a leased path
  (`PublishedStaysInsideLease`, an if-and-only-if, and `DirectoryReplacesFileOutsideLease`). `gitReconcileIndex` then
  refuses the late repair, because it does check the names against the lease.
- The lease is checked before the head is read, so a run that outlives its lease can overwrite a path of a newer lease
  (`LatePublicationOverwrites`). With every publication made under a lease that still holds and read inside it
  (`CanonicalLeaseReadsInside`), content survives (`PublishedContentSurvives`).
- The shared index keeps its staged set when every staged path has a status line of its own, the name-only diff names
  every change, and git reads requested and changed paths as written (`CommitKeepsStaged`, and
  `SharedIndexRuns.AllRepairsKeepStaged` over any run of commits and repairs). Rename pairing in that diff leaves the
  old name staged (`RenamePairingLeavesOldName`). The status shows a staged rename as one line, which the overlap
  refusal sees exactly when the line continues the new name with a slash (`RenameLineSeen`,
  `RenameDisplayHidesOverlap`). The refusal trims the status lines: a staged file whose name ends in white space is
  seen exactly when a slash comes before it (`TrimmedLineSeen`), and a request for its directory reaches it
  (`TrailingSpaceHidesOverlap`). Both hypotheses on the status and the diff also fail when the captured output was cut
  off, which no caller checks (`BoundedCapture.CaptureIsBounded` says when it is).
- The registry lock excludes if the stale test and the removal act as one and records are written within the grace.
  Without the first two processes get in (`RaceLetsTwoIn`, `RaceIsReachable`), without the second too
  (`SlowWriterLetsTwoIn`, `SlowWriterIsReachable`). A process whose record was written but not synced leaves a lock that
  blocks everyone until it dies (`UnsyncedLockBlocks`). A process that cannot write its record blocks everyone for the
  grace (`FailedWriteBlocksForGrace`), and an action that threw can run twice (`ThrownActionRunsAgain`).
- A draft's replay test compares id and receipt, not the disposition: with an observation recorded, a verified discard
  completes exactly when both are the recorded ones (`DiscardCompletesOnSameReceipt`, `MixesExactlyOnSameReceipt`), and
  a run from the empty store ends with a completed discard of a sent mail (`CarelessReceiptMixesDispositions`). Callers
  that put the disposition into the receipt cannot do that (`DiscardedIsNeverSent`).
- The outbox lists under the trimmed consumer name and acknowledges under the name as given. A round shrinks a nonempty
  outbox exactly when the name has no surrounding white space (`RoundShrinksExactlyForNames`); with white space the same
  batch comes back for ever (`UntrimmedNeverDrains`).
- Never-scanned drafts go first, so fairness counts arrivals (`NoStarvation`, `NeverScannedGoFirst`).
- A length header counts bytes and the reader counts characters: a stream arrives exactly when every message behind a
  header is ASCII (`EveryMessageArrives`, `LoneBodyReadsExactlyWhenAscii`).
- Captured output can skip a wide character and go on with a narrow one (`PrefixExactlyWhenGapStaysClosed`).

Hypotheses, stated in the lemmas that need them: equal digests mean equal content, for the texts that a run reads
(`NoCollisions`; `RunIsItsOwnLibrary` shows that any run whose sources do not collide meets it) and for the two texts at
hand in `FingerprintDeterminesContent`; git's hashes name one commit each; unchanged sources and an accepting result
validator for the length of an occupant run (`Cooperative`); `RemovesWhatItJudged` and `WritesInTime` for the lock;
`Timely` publications that write inside their lease as read (`WritesItsLease`); canonical spelling at the root
(`Spelled`) for the shared index; `WellMeant` calls of the draft store.

## Model

| member | source | states |
|---|---|---|
| OrientationPager.Utf8SafePageEnd | packages/agent-context-mcp/src/orientation-read-material.ts:8-19 | the back-off stops at a character boundary with none between it and the candidate |
| OrientationPager.TransportSafeEnd | packages/agent-context-mcp/src/orientation-read-material.ts:30-62 | the binary search returns the largest boundary up to the candidate whose JSON text fits 3200 bytes, and moves past the start |
| OrientationPager.SerializedGrows | packages/agent-context-mcp/src/orientation-read-material.ts:21-28 | the escaped size grows with the slice: what makes the binary search right |
| JsonText.QuotedLength | packages/agent-context-mcp/src/orientation-read-material.ts:21-28 | the size of the printed JSON string is the sum of a cost per source byte plus the quotes |
| JsonText.EscapesAre | packages/agent-context-mcp/src/orientation-read-material.ts:21-28 | the escapes of a JSON string as text (section 7 of RFC 8259), hexadecimal digits small |
| OrientationPager.LargestFitUnique | packages/agent-context-mcp/src/orientation-read-material.ts:30-62 | a boundary that fits, with none above it that fits, is the one answer the specification allows |
| OrientationPager.PageEndsAtBreak | packages/agent-context-mcp/src/orientation-read-material.ts:64-85 | a source that fits a page of 3000 bytes and 3200 JSON bytes is one page; else the page ends behind the last paragraph break that starts in the second half of the largest page, else behind the last line break there, else where the largest page does |
| OrientationPager.OrientationRequiredReadPageEnd | packages/agent-context-mcp/src/orientation-read-material.ts:64-85 | the imperative page end equals the specification `PageEnd` |
| OrientationPager.PageEndAdvances | packages/agent-context-mcp/src/orientation-read-material.ts:64-85 | every page end is a later character boundary, and a page that is not the last has at least 267 bytes |
| OrientationPager.PageEndBounds | packages/agent-context-mcp/src/orientation-read-material.ts:64-85 | a page has at most 3001 bytes and 3202 JSON bytes |
| OrientationPager.OvershootsExactlyAtParagraph | packages/agent-context-mcp/src/orientation-read-material.ts:74-84 | a page passes its fitted end if and only if a paragraph break straddles that end |
| OrientationPager.KeepsConstantsExactlyOffParagraph | packages/agent-context-mcp/src/orientation-read-material.ts:64-85 | a page has at most 3000 bytes and 3200 JSON bytes if and only if no paragraph break straddles its fitted end |
| OrientationPager.PageConstantExceeded | packages/agent-context-mcp/src/orientation-read-material.ts:74-84 | a whole family of plain texts whose first page has 3001 bytes, one over the constant |
| OrientationPager.PagerTotals | packages/agent-context-mcp/src/orientation-read-material.ts:64-110 | the pages of any text are consecutive, on boundaries, within the bounds, cover it all, and number at most 1 + n/267 |
| OrientationPager.OrientationRequiredReadPageCount | packages/agent-context-mcp/src/orientation-read-material.ts:87-110 | the counting loop ends and returns the number of pages, or refuses exactly when the source has too many |
| OrientationPager.AssertOrientationRequiredReadSourceBound | packages/agent-context-mcp/src/orientation-read-material.ts:112-127 | which bound a source breaks, if any |
| OrientationPager.BoundSays | packages/agent-context-mcp/src/orientation-read-material.ts:112-127 | a source is admitted if and only if it has at most 196608 bytes and 128 pages; too many bytes is said first |
| Utf8.DecodeEncode | packages/agent-context-mcp/src/orientation-read-material.ts:8-19 | decoding the UTF-8 of a text gives the text (section 3 of RFC 3629) |
| Utf8.SlicesJoin | packages/agent-context-mcp/src/orientation-read-material.ts:64-85 | slices cut at boundaries decode to texts that join to the text of the whole |
| Utf8.CharsKeepOrder | packages/agent-context-mcp/src/orientation-read-material.ts:8-19 | the bytes of characters are ordered as their numbers are (section 1 of RFC 3629) |
| OrientationDatabase.Database.CheckedChain | packages/agent-context-mcp/src/session-start.ts:1632-1720 | the row checks pass exactly when every row is bound, in order, without gap or overlap and not after eof |
| OrientationDatabase.Database.RequiredReadPages | packages/agent-context-mcp/src/session-start.ts:1678-1720 | on a valid store no row refusal is raised and every step has its rows in offset order |
| OrientationDatabase.Database.RequiredReadProgress | packages/agent-context-mcp/src/session-start.ts:1723-1781 | on a valid store progress is the specification and none of the unknown-step or byte-count refusals is raised |
| OrientationDatabase.Database.RecordOrientationRequiredRead | packages/agent-context-mcp/src/session-start.ts:1858-2245 | tables and result are those of the specification `Read`, whose answers `OrientationReplies` states; a rejected result rolls back |
| OrientationDatabase.Database.RecordOrientationDeliveryReceipt | packages/agent-context-mcp/src/session-start.ts:2247-2305 | tables and result are those of the specification `Deliver` |
| OrientationDatabase.Database.RecordOrientationAcknowledgement | packages/agent-context-mcp/src/session-start.ts:2307-2410 | tables and result are those of the specification `Acknowledge` |
| OrientationDatabase.Database.ReadOrientationEntryPacket | packages/agent-context-mcp/src/session-start.ts:1783-1856 | the packet is that of the specification `PacketOf`; its gate is open exactly when an acknowledgement is stored (`PacketShowsGate`) |
| OrientationGate.ReadKeeps | packages/agent-context-mcp/src/session-start.ts:1858-2245 | a read keeps the store consistent, whatever it is asked |
| OrientationGate.DeliverKeeps | packages/agent-context-mcp/src/session-start.ts:2247-2305 | a delivery keeps the store consistent |
| OrientationGate.AcknowledgeKeeps | packages/agent-context-mcp/src/session-start.ts:2307-2410 | an acknowledgement keeps the store consistent |
| OrientationGate.RowIsWhole | packages/agent-context-mcp/src/session-start.ts:2090-2180 | one stored page starts where the one before ended, holds the bytes up to its end, and is eof exactly when it is last |
| OrientationSafety.RunKeeps | packages/agent-context-mcp/src/session-start.ts:1858-2410 | every run of deliveries, reads and acknowledgements keeps the store consistent |
| OrientationSafety.RunIsItsOwnLibrary | packages/agent-context-mcp/src/session-start.ts:1858-2410 | every run whose own sources do not collide meets the hypothesis the run theorems make about digests |
| OrientationSafety.CompletedIsPrefix | packages/agent-context-mcp/src/session-start.ts:1723-1781 | in every reachable state the completed steps are a prefix of the required reads and only the next step can have rows |
| OrientationSafety.CompletedExactlyAtEof | packages/agent-context-mcp/src/session-start.ts:1678-1781 | in every reachable state a step with text is completed exactly when its last page is eof, and an empty one has no pages |
| OrientationSafety.CompletedServedInFull | packages/agent-context-mcp/src/session-start.ts:1858-2245 | the pages of a completed step start at 0, have no gap or overlap, end in their one eof page and join to the source |
| OrientationSafety.GateSafety | packages/agent-context-mcp/src/session-start.ts:2307-2410 | if an acknowledgement exists in any reachable state, every required read of its delivery was served in full |
| OrientationSafety.GateStaysOpen | packages/agent-context-mcp/src/session-start.ts:2307-2410 | that acknowledgement, its delivery and those pages are the same in every later state |
| OrientationSafety.NoInternalRefusal | packages/agent-context-mcp/src/session-start.ts:1959-2085 | on a consistent store the refusals that blame the store itself are never raised by a read |
| OrientationSafety.ReplayIsIdempotent | packages/agent-context-mcp/src/session-start.ts:1959-2085 | reading a served offset again returns the same page and leaves the store unchanged |
| OrientationSafety.RefusedReadChangesNothing | packages/agent-context-mcp/src/session-start.ts:2412-2426 | a refused or rejected read leaves the store unchanged |
| OrientationSafety.AcknowledgementIsFinal | packages/agent-context-mcp/src/session-start.ts:2359-2397 | after any later calls, acknowledging again returns the first record with its first timestamp if it supplies nothing or the recorded completions, and is refused otherwise |
| OrientationReplies.ReadIsServedExactlyWhenDue | packages/agent-context-mcp/src/session-start.ts:1858-2085 | on a consistent store a read is served, or only its result rejected, if and only if it names an owned step of a recorded delivery, with the pinned source within bounds, and the step is completed, or the first that is not and the offset that of a stored row or of the end of the rows |
| OrientationReplies.RefusalSaysWhy | packages/agent-context-mcp/src/session-start.ts:1858-2085 | on a consistent store what a refused read is told is true of the request |
| OrientationReplies.FreshReadHandsOver | packages/agent-context-mcp/src/session-start.ts:2085-2245 | a read that changes the store adds one row, which goes on where the rows before it ended, and hands over its text, never empty; for an empty source it hands over the empty text and adds no row; it says completed exactly when the step now is, which is when the texts handed over join to the source |
| OrientationReplies.RepeatedReadRepeats | packages/agent-context-mcp/src/session-start.ts:1959-2085 | a read that changes nothing answers with the row at its offset and the text of that row, and for a completed step with the stored evidence, even where no row is |
| OrientationReplies.EvidenceSays | packages/agent-context-mcp/src/session-start.ts:1920-1929 | the evidence of a source of any lines, whichever way they end: digests of the text and of the lines joined by line feeds, and their number |
| OrientationReplies.PacketShowsGate | packages/agent-context-mcp/src/session-start.ts:1783-1856 | the entry packet shows the gate open if and only if an acknowledgement of the delivery is stored, and then shows that very record |
| OrientationReplies.AcknowledgedExactlyWhenRead | packages/agent-context-mcp/src/session-start.ts:2307-2397 | on a consistent store an acknowledgement is accepted if and only if the delivery is recorded, every required read completed, and the completions the caller supplied, if any, are the stored ones in order |
| OrientationReplies.AcknowledgementRefusalIs | packages/agent-context-mcp/src/session-start.ts:2307-2397 | on a consistent store what a refused acknowledgement is told, as an if and only if for each refusal |
| OrientationReplies.AcknowledgementHolds | packages/agent-context-mcp/src/session-start.ts:2359-2397 | a new acknowledgement holds the stored completion of every required read in order and the time of the request |
| OrientationReplies.DeliveryIsKept | packages/agent-context-mcp/src/session-start.ts:2247-2305 | a delivery is new or there just as it is; another one under its receipt is refused |
| OccupantRun.OrientationOccupantRead | packages/agent-context-mcp/src/main.ts:1592-1659 | one call of the driver over the store in place is the specification `OccupantRead` |
| OccupantRun.NextReadIsServed | packages/agent-context-mcp/src/main.ts:1592-1659 | the read the progress asks for is served, and the number of calls left drops by exactly one |
| OccupantRun.LastCallOpens | packages/agent-context-mcp/src/main.ts:1758-1780 | once no read is left the acknowledgement is accepted |
| OccupantRun.OccupantRunLength | packages/agent-context-mcp/src/main.ts:1592-1659 | from a fresh delivery the gate is open after k calls if and only if k >= 1 + the sum of max(1, pages) + 1 |
| OccupantReplies.OccupantHearsEverything | packages/agent-context-mcp/src/main.ts:1592-1659 | from a fresh delivery, once the gate is open, the texts of a step in the replies so far, one after the other, are the text of its source |
| OccupantReplies.ReadyExactlyAtEnd | packages/agent-context-mcp/src/main.ts:1592-1659 | from a fresh delivery the call after n others is answered with ready if and only if n is at least 1 plus one for each page or empty source |
| OccupantReplies.ReadyExactlyWhenOpen | packages/agent-context-mcp/src/main.ts:1592-1659 | a call answers with ready if and only if it leaves the gate open, whatever it was sent |
| OccupantReplies.ReadyMeansServed | packages/agent-context-mcp/src/main.ts:1592-1659 | on a consistent store an agent told that it is ready has been served every required read in full, whatever it sent |
| OccupantReplies.RefusedTokenRecovers | packages/agent-context-mcp/src/main.ts:1607-1634 | a continuation that is not accepted changes nothing, is told why, and the reply hands over the one that goes on |
| OccupantReplies.UsedTokenRepeats | packages/agent-context-mcp/src/main.ts:1646-1659 | a continuation for a page already served repeats its text, changes nothing, and the reply hands over the one that goes on |
| OccupantReplies.CallIsStamped | packages/agent-context-mcp/src/main.ts:1636-1659 | completions and acknowledgements that a call adds bear its time |
| OrientationBrief.AssertBriefBound | packages/agent-context-mcp/src/orientation-manifest.ts:340-476 | a brief is accepted exactly when each of its sources is within its bounds and their pages together are at most 128 |
| OrientationBrief.BoundedBriefOpens | packages/agent-context-mcp/src/orientation-manifest.ts:674-679 | then the gate is open at call 131 at the latest |
| Continuation.ContinuationRoundTrip | packages/agent-context-mcp/src/main.ts:1423-1492 | a continuation decodes to exactly the step and offset it was issued for |
| Continuation.OtherKeyRefused | packages/agent-context-mcp/src/main.ts:1457-1492 | under another delivery or brief it is refused unless the keyed digests agree |
| Continuation.AcceptedIsSigned | packages/agent-context-mcp/src/main.ts:1457-1492 | every accepted token is a payload followed by the keyed digest of that payload, and a read in it names a step |
| Base64Url.RoundTrip | packages/agent-context-mcp/src/main.ts:1430-1455 | decoding undoes the unpadded base64url text (section 5 of RFC 4648) |
| Base64Url.GroupIsNumber | packages/agent-context-mcp/src/main.ts:1430-1455 | three bytes and their four characters write the same number, and a short group fills up with zero bits |
| Base64Url.GroupsFollow | packages/agent-context-mcp/src/main.ts:1430-1455 | groups of three bytes are encoded one after the other |
| GitPaths.MatchTransitive | packages/git-mcp/src/git-tools.ts:1250-1263 | literal path matching is transitive, trailing slash included |
| GitPaths.SharedPathNests | packages/git-mcp/src/git-tools.ts:1250-1263 | a path that matches two literal patterns makes one of them match the other |
| GitPaths.DisjointCoversNothing | packages/git-mcp/src/git-tools.ts:1022-1026 | pattern lists that passed the overlap test never cover one path |
| GitSpelling.ReadsAsWritten | packages/git-mcp/src/git-tools.ts:1648-1668 | for every text and every canonically spelled directory: git reads a path as it is written if and only if it runs at the root and the path is spelled canonically |
| GitSpelling.MatchedNamesLess | packages/git-mcp/src/git-tools.ts:1250-1263 | at the root a pattern names, as git reads it, every file that a path it matches names |
| WorkScopes.LeaseFor | packages/git-mcp/src/git-tools.ts:975-997 | which requests are accepted: owner, path policy of every trimmed path, supplied base state; and that the lease holds exactly the requested paths, each once |
| WorkScopes.ParentIsBetween | packages/git-mcp/src/policy.ts:152-171 | a path is refused as going up exactly when a `..` in it stands between slashes of either kind or the ends |
| WorkScopes.AcceptableIs | packages/git-mcp/src/policy.ts:152-171 | which paths a lease can be asked for, as an if and only if |
| WorkScopes.LeaseCoversRequest | packages/git-mcp/src/policy.ts:152-171 | the lease covers exactly what matches one of the requested paths, trimmed |
| WorkScopes.NoLeaseCoversSpace | packages/git-mcp/src/policy.ts:152-171 | no lease covers a path that starts with white space |
| WorkScopes.Registry.BeginWorkScope | packages/git-mcp/src/git-tools.ts:1007-1036 | the loop over lease files admits the token exactly when every file is readable and no unexpired lease overlaps, and drops only expired files |
| WorkScopes.Registry.StoreScopeToken | packages/git-mcp/src/scope-tokens.ts:102-109 | the token is added and exactly the expired ones are dropped |
| WorkScopes.Registry.ResolveScopeToken | packages/git-mcp/src/scope-tokens.ts:85-100 | a token resolves exactly while it is held, its file exists and it has not expired |
| WorkScopes.Registry.EndWorkScope | packages/git-mcp/src/git-tools.ts:1045-1067 | a lease is released exactly by its owner in its repository |
| WorkScopes.LeaseExclusion | packages/git-mcp/src/git-tools.ts:1007-1036 | after any events no path is authorised by two live leases, a live topology lease is the only one, and no file can be written under two live leases if and only if their paths do not overlap as git reads them, which canonical spelling guarantees |
| WorkScopes.FilesApartExactly | packages/git-mcp/src/git-tools.ts:1020-1026 | for any two leases: their holders can write no common file at the root if and only if the paths as read do not overlap, and otherwise a common file exists |
| WorkScopes.CanonicalApart | packages/git-mcp/src/git-tools.ts:1020-1026 | for canonically spelled paths the overlap test on the texts is the test on the files |
| WorkScopes.HeldTogetherAreDisjoint | packages/git-mcp/src/git-tools.ts:1022-1026 | two leases that ever hold at one time have disjoint path texts |
| WorkScopes.EndedLetsOthersIn | packages/git-mcp/src/git-tools.ts:1007-1067 | once a lease is ended nobody holds it, and a request that it alone kept out is admitted |
| WorkScopes.ExpiryLetsOthersIn | packages/git-mcp/src/git-tools.ts:1007-1036 | so is a request that only leases expired by then kept out |
| RegistryLock.MutualExclusion | packages/git-mcp/src/git-tools.ts:1103-1157 | with crashes, throwing actions and reused pids at most one process is inside, and the lock of whoever is inside is not stale, if removal hits the judged lock and records are written within the grace |
| RegistryLock.LeavingLetsOthersIn | packages/git-mcp/src/git-tools.ts:1103-1123 | whoever leaves, or whose action throws, gives the lock back: from every sound state another caller that is ready then gets inside |
| RegistryLock.NoLockWithoutHolder | packages/git-mcp/src/git-tools.ts:1103-1157 | in every state reached carefully without a crash or a failed write or sync, a lock file exists only while a live process is writing its record or inside |
| RegistryLock.RefusalKeepsLock | packages/git-mcp/src/git-tools.ts:1124-1145 | a caller that finds no lock or one that is not stale, or has removed one already, is refused and leaves the lock and every other process as they are |
| RegistryLock.OwnerIsNeverStale | packages/git-mcp/src/git-tools.ts:1124-1137 | a live owner that writes in time is never judged stale |
| RegistryLock.CrashRecovery | packages/git-mcp/src/git-tools.ts:1124-1145 | after a crash, inside the action or before the record was written, a lone caller gets inside if the lock left behind is recoverable (its pid dead, the caller's own or registered anew; or no record and the grace over), and is refused otherwise |
| RegistryLock.RaceLetsTwoIn | packages/git-mcp/src/git-tools.ts:1138-1142 | without the first hypothesis: from every stale lock with two blocked callers both get inside |
| RegistryLock.RaceIsReachable | packages/git-mcp/src/git-tools.ts:1138-1142 | such a state is reached by one crash and two callers |
| RegistryLock.SlowWriterLetsTwoIn | packages/git-mcp/src/git-tools.ts:1109-1142 | without the second hypothesis: from every stale lock without a record, its opener still writing and one blocked caller, both get inside |
| RegistryLock.SlowWriterIsReachable | packages/git-mcp/src/git-tools.ts:1109-1137 | such a state is reached by one writer that takes longer than the grace |
| RegistryLock.UnsyncedLockBlocks | packages/git-mcp/src/git-tools.ts:1115-1141 | a lock whose record was written by a process that then failed to sync it is never stale while that process lives, and nobody gets inside |
| RegistryLock.ThrownActionRunsAgain | packages/git-mcp/src/git-tools.ts:1123-1142 | from every sound state: an action that threw runs a second time when, before its handler looks at the lock, another caller has taken it and died |
| RegistryLock.FailedWriteBlocksForGrace | packages/git-mcp/src/git-tools.ts:1109-1142 | a process that fails to write its record leaves a lock that keeps others out until the grace of 30 seconds has passed, after which the next caller takes it over |
| GitTree.OverlayStaysInside | packages/git-mcp/src/git-tools.ts:1837-1840 | staged paths, as read, change the tree only inside the lease if and only if every changed file they name is the lease's and so is every file that gave way to a directory |
| GitTree.OverlaySparesDisjoint | packages/git-mcp/src/git-tools.ts:1837-1840 | nothing of a disjoint lease changes, not even by such a replacement |
| GitTree.DirectoryReplacesFileOutsideLease | packages/git-mcp/src/git-tools.ts:1837-1840 | a concrete case in which a commit removes a file its lease does not cover |
| CommitPaths.Refusal | packages/git-mcp/src/git-tools.ts:1813-1825 | no refusal exactly when the lease is good, for this root, based on this head, covers the paths, and no trimmed line of the staged or conflicted paths overlaps them |
| CommitPaths.DotSlashIsDropped | packages/git-mcp/src/git-tools.ts:2307-2310 | a `./` in front of a status line makes no difference |
| CommitPaths.TrimmedLineSeen | packages/git-mcp/src/git-tools.ts:1820-1822 | for every plain staged name: a name that starts without white space is seen through its trimmed line if and only if it ends without, or a slash comes before the white space at its end; one that starts with white space is not seen |
| CommitPaths.TrailingSpaceHidesOverlap | packages/git-mcp/src/git-tools.ts:1820-1822 | a family of leased and requested files, with a space at the end of the name, whose staged content the refusal misses |
| CommitPaths.CanonicalLeaseReadsInside | packages/git-mcp/src/git-tools.ts:1325-1337 | at the root, under a lease spelled canonically, every request that the lease covers is read inside the lease, however it is spelled |
| CommitPaths.Repository.PrepareCommit | packages/git-mcp/src/git-tools.ts:1813-1845 | the private-index commit in the working directory: only the object store grows, by the tree with the paths as read on the head that was read |
| CommitPaths.Repository.PublishCommit | packages/git-mcp/src/git-tools.ts:1846-1853 | compare-and-swap, then repair or record; a lost race changes nothing |
| CommitPaths.Repository.ReconcileSharedIndex | packages/git-mcp/src/git-tools.ts:1708-1742 | the index is repaired exactly when `index.lock` is free and the reset succeeds, and the lock is given back |
| CommitPaths.Repository.GitReconcileIndex | packages/git-mcp/src/git-tools.ts:1773-1803 | a later repair only in the recorded repository and under the same lease covering the names; the reset reads the names in the working directory; the record goes only when it is done |
| CommitPaths.Repository.GitCommitPaths | packages/git-mcp/src/git-tools.ts:1805-1861 | an undisturbed commit has the replaced head as parent, the worktree on the paths as read and the parent elsewhere, and it keeps the staged set if every staged path is a status line, the diff names every change, and requested and changed paths are read as written |
| CommitRuns.HeadStep | packages/git-mcp/src/git-tools.ts:1846-1847 | one step: a new head is a child of the head it replaced; a lost race changes neither branch nor index |
| CommitRuns.NoPublishedCommitIsLost | packages/git-mcp/src/git-tools.ts:1805-1861 | in every interleaving every head the branch had is an ancestor of every later head |
| CommitRuns.RunStartsUnderLiveLease | packages/git-mcp/src/git-tools.ts:1813-1825 | a run starts only under a lease that holds at that moment, for this repository, based on its head, and covering the paths asked for |
| CommitRuns.PublishedStaysInsideLease | packages/git-mcp/src/git-tools.ts:1829-1847 | in every interleaving the exact content of a published commit; it stays inside its lease if and only if every changed file that the paths name as read, and every file that gave way to a directory, is the lease's |
| CommitRuns.PublishedContentSurvives | packages/git-mcp/src/git-tools.ts:1805-1861 | while a lease holds, later commits by other timely runs that write inside their own leases as read leave every path it covers as published |
| CommitRuns.LateRepairIsCurrent | packages/git-mcp/src/git-tools.ts:1773-1803 | when a retry passes its checks and reads the names inside the lease, the head still has the recorded commit's content on all paths the repair touches |
| CommitRuns.RepairTakesOver | packages/git-mcp/src/git-tools.ts:1708-1742 | a repair that gets the index lock makes the index take over exactly what the commit has on the touched paths and keeps the rest |
| CommitRuns.RepairIsRecorded | packages/git-mcp/src/git-tools.ts:1848-1853 | one that does not leaves the index and records the commit, its names and its scope |
| CommitRuns.RetryTakesOver | packages/git-mcp/src/git-tools.ts:1773-1803 | a later repair takes the recorded commit over likewise and drops that record only |
| CommitRuns.RecordGoesToItsScope | packages/git-mcp/src/git-tools.ts:1773-1803 | a record is only ever dropped by a holder of the lease it was made under, in the same repository, with every name in it covered |
| CommitRunsLate.LatePublicationOverwrites | packages/git-mcp/src/git-tools.ts:1816-1827 | a concrete interleaving in which a run that outlived its lease overwrites a path of a live lease |
| CommitRunsSpelling.SpellingOverwritesLease | packages/git-mcp/src/git-tools.ts:1007-1036 | a concrete interleaving in which a timely commit under a lease on `./f` overwrites the file of a live lease on `f` |
| IndexRepair.SharedIndexPreserved | packages/git-mcp/src/git-tools.ts:1708-1742 | the staged set survives a commit and repair if and only if the repair touches nothing staged and misses nothing changed |
| IndexRepair.CommitKeepsStaged | packages/git-mcp/src/git-tools.ts:1820-1853 | under the overlap refusal, with a status line for every staged path, a diff that names every change, and requested and changed paths that git reads as written, the staged set is kept |
| IndexRepair.SeenExactlyWhenCanonical | packages/git-mcp/src/git-tools.ts:1820-1822 | for every request read as a file at the root: the refusal sees that file staged, and a lease on the request covers it, if and only if the request is spelled canonically |
| IndexRepair.OtherSpellingLosesStaged | packages/git-mcp/src/git-tools.ts:1779-1822 | any other spelling passes the refusal and loses the staged content, and the name recorded for a late repair is outside the lease |
| IndexRepair.SubdirectoryRepairsNothing | packages/git-mcp/src/git-tools.ts:1708-1742 | from any directory below the root the repair leaves the index as it was, and a committed file then shows as staged |
| IndexRepair.RepairsSettle | packages/git-mcp/src/git-tools.ts:1773-1803 | after any series of late repairs a touched path is as in the head and any other as before |
| IndexRepair.RepairOrderIsFree | packages/git-mcp/src/git-tools.ts:1773-1803 | repairs commute and repeating them changes nothing |
| SharedIndexRuns.AllRepairsKeepStaged | packages/git-mcp/src/git-tools.ts:1773-1861 | over any run at the root, with canonical paths, of commits that each pass the refusal of their own moment with a diff that names their changes, with repairs made late or in between, and then the pending repairs in any order: the staged set against the last head is the first one |
| IndexRepair.RenamePairingLeavesOldName | packages/git-mcp/src/git-tools.ts:1837-1839 | a rename-paired diff omits the old name, which then shows as staged |
| IndexRepair.RenameLineSeen | packages/git-mcp/src/git-tools.ts:1820-1822 | for all names the refusal sees the line of a staged rename by its new name if and only if the line continues that name with a slash, and never by its old name |
| IndexRepair.RenameDisplayHidesOverlap | packages/git-mcp/src/git-tools.ts:1820-1822 | for any renamed file edited again: the paths overlap, the refusal sees it exactly in that case, and a commit of the new name loses its staged content |
| TicketDrafts.DraftStore.BeginImmediate | packages/graph-mail-mcp/src/ticket-draft-store.ts:328-332 | a transaction starts exactly when none is open and remembers the tables |
| TicketDrafts.DraftStore.Rollback | packages/graph-mail-mcp/src/ticket-draft-store.ts:340-344 | every table is as at the begin |
| TicketDrafts.DraftStore.InsertPending | packages/graph-mail-mcp/src/ticket-draft-store.ts:361-384 | tables and result are those of the specification, inside a transaction only |
| TicketDrafts.DraftStore.Complete | packages/graph-mail-mcp/src/ticket-draft-store.ts:386-419 | pending to completed, or a replay that must agree |
| TicketDrafts.DraftStore.BeginDiscardIntent | packages/graph-mail-mcp/src/ticket-draft-store.ts:247-273 | insert or agree with what is there; constraints refuse the rest |
| TicketDrafts.DraftStore.VerifyDiscardIntent | packages/graph-mail-mcp/src/ticket-draft-store.ts:275-286 | verified unless already completed |
| TicketDrafts.DraftStore.CompleteDiscardIntent | packages/graph-mail-mcp/src/ticket-draft-store.ts:288-326 | observation and intent change together or not at all |
| TicketDrafts.DraftStore.MarkDispositionScanned | packages/graph-mail-mcp/src/ticket-draft-store.ts:442-455 | mark and count, for completed operations only |
| TicketDrafts.DraftStore.RecordDispositionObservation | packages/graph-mail-mcp/src/ticket-draft-store.ts:457-489 | one observation per operation; a replay must agree on id and receipt |
| TicketDrafts.DraftStore.AcknowledgeDispositionObservation | packages/graph-mail-mcp/src/ticket-draft-store.ts:512-546 | one acknowledgement per consumer; a replay must agree |
| DraftLifecycle.RefusalChangesNothing | packages/graph-mail-mcp/src/ticket-draft-store.ts:247-546 | a refused call leaves every table as it was |
| DraftLifecycle.RunGoesForward | packages/graph-mail-mcp/src/ticket-draft-store.ts:247-546 | over any calls rows only move forward and completed rows, observations and acknowledgements are frozen |
| DraftLifecycle.CompletesOnlyVerified | packages/graph-mail-mcp/src/ticket-draft-store.ts:288-326 | no call takes an intent from opened to completed: only a completion of a verified intent does, keeping its etag and recording its receipt |
| DraftLifecycle.RunKeepsSound | packages/graph-mail-mcp/src/ticket-draft-store.ts:92-170 | over any well-meant calls keys, references and unique columns stay consistent |
| DraftLifecycle.DiscardedIsNeverSent | packages/graph-mail-mcp/src/ticket-draft-store.ts:288-326 | a completed discard has an observation with its receipt, and is never also sent, now or later |
| DraftLifecycle.SentIsNeverDiscarded | packages/graph-mail-mcp/src/ticket-draft-store.ts:288-326 | once a sending is recorded no discard completes |
| DraftLifecycle.CarelessReceiptMixesDispositions | packages/graph-mail-mcp/src/ticket-draft-store.ts:481-488 | a run from the empty store that ends with a completed discard of a mail recorded as sent |
| DraftLifecycle.DiscardCompletesOnSameReceipt | packages/graph-mail-mcp/src/ticket-draft-store.ts:288-326 | with a verified intent and an observation recorded, a discard completes if and only if its receipt is not too large and id and receipt are the recorded ones |
| DraftLifecycle.MixesExactlyOnSameReceipt | packages/graph-mail-mcp/src/ticket-draft-store.ts:288-326 | a step leaves a completed discard of a sent mail if and only if the sending was recorded with the id and receipt the discard presents |
| DraftLifecycle.ReplayIsIdempotent | packages/graph-mail-mcp/src/ticket-draft-store.ts:247-546 | a successful call repeated at any later time succeeds and changes nothing |
| DraftLifecycle.RollbackRestores | packages/graph-mail-mcp/src/ticket-draft-store.ts:328-344 | whatever is called between begin and rollback, the tables come back |
| DraftLifecycle.CommitSticks | packages/graph-mail-mcp/src/ticket-draft-store.ts:328-344 | a rollback after a commit changes nothing, and a begin inside a transaction does not move the point it goes back to |
| TicketRows.EveryRowWasGiven | packages/graph-mail-mcp/src/ticket-draft-store.ts:247-546 | after any calls from the empty store every field of every row is one that some call gave for that row |
| TicketRows.InsertedRow | packages/graph-mail-mcp/src/ticket-draft-store.ts:361-384 | a new operation is pending with the request and time given; no other row changes |
| TicketRows.FinishedRow | packages/graph-mail-mcp/src/ticket-draft-store.ts:386-419 | a completed operation holds the draft, receipt, reference and time it was completed with and keeps its request; no other row changes |
| TicketRows.FinishedStands | packages/graph-mail-mcp/src/ticket-draft-store.ts:386-419 | completing again succeeds if and only if draft, receipt and reference are the same and not too large |
| TicketRows.OpenedRow | packages/graph-mail-mcp/src/ticket-draft-store.ts:247-273 | a new intent is opened under the key and digest given; no other row changes |
| TicketRows.OpenedStands | packages/graph-mail-mcp/src/ticket-draft-store.ts:247-273 | an intent is found again if and only if key and digest are the same |
| TicketRows.VerifiedRow | packages/graph-mail-mcp/src/ticket-draft-store.ts:275-286 | a verified intent holds the trimmed tag and the time and keeps what it was opened with |
| TicketRows.DiscardedRow | packages/graph-mail-mcp/src/ticket-draft-store.ts:288-326 | a completed intent keeps its tag and takes receipt and time, and its observation is stored whole |
| TicketRows.DiscardedStands | packages/graph-mail-mcp/src/ticket-draft-store.ts:288-326 | a completed discard is found again if and only if the receipt is the same |
| TicketRows.DiscardsComplete | packages/graph-mail-mcp/src/ticket-draft-store.ts:288-326 | a discard not completed before completes if and only if the intent is verified and the observation can be recorded, and records it |
| TicketRows.ObservedRow | packages/graph-mail-mcp/src/ticket-draft-store.ts:457-489 | a new observation is stored whole under its operation; nothing else changes |
| TicketRows.ObservedStands | packages/graph-mail-mcp/src/ticket-draft-store.ts:457-489 | an observation is found again if and only if id and receipt are the same |
| TicketRows.NewRowsAreAdmitted | packages/graph-mail-mcp/src/ticket-draft-store.ts:92-170 | a new operation or intent is refused exactly for a key or unique column already taken or a missing operation |
| TicketRows.NewObservationsAreAdmitted | packages/graph-mail-mcp/src/ticket-draft-store.ts:92-170 | a new observation is refused exactly for its size, a missing operation, or an observation or evidence id already taken |
| TicketRows.MarkedRow | packages/graph-mail-mcp/src/ticket-draft-store.ts:442-455 | a mark holds the time of the scan and counts the scans; nothing else changes |
| TicketRows.AcknowledgedRow | packages/graph-mail-mcp/src/ticket-draft-store.ts:512-546 | a new acknowledgement holds reference, receipt and time under observation and consumer; nothing else changes |
| TicketRows.AcknowledgedStands | packages/graph-mail-mcp/src/ticket-draft-store.ts:512-546 | an acknowledgement is found again if and only if reference and receipt are the same |
| TicketRows.NewAcknowledgementsAreAdmitted | packages/graph-mail-mcp/src/ticket-draft-store.ts:512-546 | a new acknowledgement is refused exactly for its size or a missing observation |
| OrderedBatch.FirstOfFacts | packages/graph-mail-mcp/src/ticket-draft-store.ts:421-440 | a limited ordered query: size, no repeats, order, and ahead of all it leaves |
| DraftQueues.DispositionScan | packages/graph-mail-mcp/src/main.ts:1884-1955 | the scan in place, over the listing of its own store, is the specification `AfterScan` |
| DraftQueues.RoundServes | packages/graph-mail-mcp/src/ticket-draft-store.ts:421-455 | one round serves as many waiting drafts as its limit allows |
| DraftQueues.ScanIsOrdered | packages/graph-mail-mcp/src/ticket-draft-store.ts:421-440 | a listing has never-scanned drafts first, then those scanned longest ago, then those completed first, then keys in string order |
| DraftQueues.ListingsAreFull | packages/graph-mail-mcp/src/ticket-draft-store.ts:421-510 | a listing of drafts or observations has as many as asked for, at least one and at most 100 or 5, while there are any |
| DraftQueues.ObservedIsNeverListed | packages/graph-mail-mcp/src/ticket-draft-store.ts:421-440 | a draft with an observation is in no later listing |
| DraftQueues.ScanRecords | packages/graph-mail-mcp/src/main.ts:1884-1955 | what is seen of a scanned draft is recorded whole, if it is its own, not too large, and clashes with nothing recorded before or seen earlier in the scan |
| DraftQueues.NoStarvation | packages/graph-mail-mcp/src/ticket-draft-store.ts:421-455 | with as many places as waiting drafts and arrivals, every completed draft is scanned or observed, whatever else is called between |
| DraftQueues.NeverScannedGoFirst | packages/graph-mail-mcp/src/ticket-draft-store.ts:432-436 | why arrivals count: while never-scanned drafts fill the batch no other gets in |
| DraftQueues.OutboxDrains | packages/graph-mail-mcp/src/ticket-draft-store.ts:491-546 | for a name without surrounding white space rounds of list and acknowledge hand over the outbox in the order of one listing (see `ListingIsOrdered`), however it is cut into batches |
| DraftQueues.EverythingDelivered | packages/graph-mail-mcp/src/ticket-draft-store.ts:491-546 | for such a name, with enough rounds every observation is delivered exactly once, in that order (see `DeliveriesAreOrdered`) |
| DraftQueues.ListingIsOrdered | packages/graph-mail-mcp/src/ticket-draft-store.ts:491-510 | in a listing an earlier row was observed earlier, or at the same time with an id that comes first in string order |
| DraftQueues.DeliveriesAreOrdered | packages/graph-mail-mcp/src/ticket-draft-store.ts:491-546 | so over all that rounds of list and acknowledge hand over |
| DraftQueues.RoundShrinksExactlyForNames | packages/graph-mail-mcp/src/ticket-draft-store.ts:491-546 | a round shrinks a nonempty outbox if and only if the name has no surrounding white space |
| DraftQueues.UntrimmedNeverDrains | packages/graph-mail-mcp/src/ticket-draft-store.ts:491-546 | for any other nonblank name acknowledging a listed batch leaves every later listing as it was |
| DraftQueues.AcknowledgingEmpties | packages/graph-mail-mcp/src/ticket-draft-store.ts:512-546 | acknowledging a batch takes exactly it out of this consumer's outbox and out of no other |
| DraftQueues.AcknowledgedOnce | packages/graph-mail-mcp/src/ticket-draft-store.ts:512-546 | what was acknowledged never comes back, whatever else is called |
| Framing.Transport.ProcessInputBuffer | packages/agent-context-mcp/src/main.ts:530-560 | the loop in place is the specification `Drain` |
| Framing.Transport.OnData | packages/agent-context-mcp/src/main.ts:407-417 | a chunk is appended and processed |
| Framing.Transport.Send | packages/agent-context-mcp/src/main.ts:562-569 | a reply is framed in the form of the last kind of message |
| Framing.ChunksDoNotMatter | packages/agent-context-mcp/src/main.ts:530-560 | for any stream and any cuts the final state is that of the whole stream at once, errors included |
| FramingRoundTrip.EveryMessageArrives | packages/agent-context-mcp/src/main.ts:530-569 | for any JSON messages in either form, in any chunks: they are handed on exactly and the buffer ends empty if and only if every one behind a length header is ASCII |
| FramingRoundTrip.LoneBodyReadsExactlyWhenAscii | packages/agent-context-mcp/src/main.ts:553-569 | a body behind a length header is read exactly when it is ASCII, else the reader waits |
| FramingRoundTrip.HeaderEndsFirst | packages/agent-context-mcp/src/main.ts:540-547 | the header ends at the first blank line of either kind |
| FramingRoundTrip.HeadedMessageIsCut | packages/agent-context-mcp/src/main.ts:547-558 | behind a header with a length and a blank line of either kind, the message is that many characters and the rest is what follows |
| FramingRoundTrip.LengthIsFound | packages/agent-context-mcp/src/main.ts:549-552 | the length is found behind other headers, in any of the usual spellings, past white space, and ends with the digits |
| FramingRoundTrip.SpacedLineIsCut | packages/agent-context-mcp/src/main.ts:532-539 | of a line only the message counts: white space before the line break is dropped |
| FramingRoundTrip.BadLineStops | packages/agent-context-mcp/src/main.ts:530-539 | a line that does not parse is the last text handed on, whatever follows it |
| Json.ParsePrint | packages/agent-context-mcp/src/orientation-manifest.ts:87-101 | reading the compact JSON text gives the value back, string escapes included (section 7 of RFC 8259) |
| CanonicalJson.CanonicalKeepsMeaning | packages/agent-context-mcp/src/orientation-manifest.ts:93-98 | sorting keys by UTF-16 units changes neither well-formedness nor meaning |
| CanonicalJson.CanonicalTextIsComplete | packages/agent-context-mcp/src/orientation-manifest.ts:87-101 | two values have the same canonical text if and only if they are equal up to key order |
| CanonicalJson.KeysPrintInOrder | packages/agent-context-mcp/src/orientation-manifest.ts:93-98 | an object prints each of its keys once, in ascending order of their UTF-16 code units |
| GitStatus.ParseStatus | packages/git-mcp/src/status-parser.ts:13-55 | the loop returns the entries of the specification, and the four lists are exactly the flag projections with untracked kept apart |
| GitStatus.StatusRoundTrip | packages/git-mcp/src/status-parser.ts:13-55 | parsing what git prints for any branch line and entries gives them back |
| GitStatus.ColumnsDecide | packages/git-mcp/src/status-parser.ts:13-55 | which of the four lists an entry is in, for every pair of status columns |
| GitStatus.OneEntryIsRead | packages/git-mcp/src/status-parser.ts:13-55 | one field is read as two columns and a path |
| GitStatus.RenameIsShown | packages/git-mcp/src/status-parser.ts:13-55 | a renamed or copied file is shown as the old name, an arrow and the new name |
| BoundedCapture.Utf8Prefix | packages/git-mcp/src/git-runner.ts:106-116 | the longest prefix of whole characters that fits |
| BoundedCapture.AppendBoundedUtf8 | packages/git-mcp/src/git-runner.ts:95-104 | one chunk appended is the specification `Append` |
| BoundedCapture.Output.OnData | packages/git-mcp/src/git-runner.ts:45-56 | one chunk changes the kept text, count and flag as the specification `Append` says |
| BoundedCapture.CaptureIsBounded | packages/git-mcp/src/git-runner.ts:95-104 | over nonempty chunks: limit kept, count exact, a subsequence of the stream, flag set exactly when something was dropped |
| BoundedCapture.FlagAfterChunk | packages/git-mcp/src/git-runner.ts:95-104 | after any chunk, empty ones too, the flag is set if and only if it was, the limit was reached before, or the chunk does not fit |
| BoundedCapture.PrefixExactlyWhenGapStaysClosed | packages/git-mcp/src/git-runner.ts:95-116 | the text is a prefix of the stream if and only if no later chunk starts with a character narrow enough for the gap |
| BoundedCapture.CaptureCanSkip | packages/git-mcp/src/git-runner.ts:95-116 | a family of streams whose captured text skips a character |
| NativeManifest.StripIsIdempotent | native-distribution/src/main.rs:572-594 | stripping twice is stripping once |
| NativeManifest.EditStrips | native-distribution/src/main.rs:572-594 | setting, adding or removing a volatile key at any depth leaves the stripped value as it was |
| NativeManifest.StripKeepsTheRest | native-distribution/src/main.rs:572-594 | whatever lies under no key named `generated_at` or `mtime_ms` is in the stripped value, stripped |
| NativeManifest.ScalarsAreCovered | native-distribution/src/main.rs:572-594 | so two values that differ in a string, number or boolean there differ stripped |
| NativeManifest.EditIsDetected | native-distribution/src/main.rs:543-559 | a native manifest edited in such a place is reported as a mismatch, unless the two texts collide under the digest |
| NativeManifest.ManifestSays | native-distribution/src/main.rs:296-323 | the root, the time, the records and the kind are under their keys in a native manifest |
| NativeManifest.NativeManifestVerifies | native-distribution/src/main.rs:296-323 | a native manifest verifies, also after any changes to volatile keys only |
| NativeManifest.FingerprintDeterminesContent | native-distribution/src/main.rs:543-559 | two verified manifests with one fingerprint agree but for values under `generated_at` and `mtime_ms` (see `ScalarsAreCovered`), unless their texts collide |
| NativeManifest.ArtifactStore.PublishImmutable | native-distribution/src/main.rs:613-622 | bytes are written once; other bytes at the path are reported |
| NativeManifest.FirstPublicationStays | native-distribution/src/main.rs:613-622 | what was published first at a path stays, whatever is published later |

## Left out

- SQLite, the file system, git and the Graph client: maps, atomic transactions, the map meaning of each git command, and values given as parameters. SHA-256 and HMAC are function parameters.
- Lone surrogates: strings are sequences of Unicode scalar values. Lengths in characters agree with the source's UTF-16 lengths below U+10000; `Framing` counts characters.
- JSON numbers are kept as the text they print as; the reader accepts compact text only and no surrogate escapes. `localeCompare` in the draft store's key order is not modelled; its receipts are taken as canonical texts.
- OrientationDatabase.Database.RequiredReadPages: says that no row refusal is raised on a valid store, not which of several refusals a corrupt table would raise first.
- OccupantRun.OrientationOccupantRead: ends when the store has acknowledged; the projection of the open gate to the entry file, which can fail after that, is not modelled.
- OccupantRun.LastCallOpens: says that the store accepts the acknowledgement, for the same reason not that the entry file shows it.
- Record and receipt identifiers, page files beside the database and the non-empty string checks on page fields of the orientation store: identifiers are keys of the maps.
- Reading the source behind an artifact reference (site files, manifest entries, continuity material): the source text is a parameter.
- Continuation.ContinuationRoundTrip: does not model Node's lenient base64 decoding, so which damaged tokens still decode is not said.
- WorkScopes.LeaseFor: keeps the paths in the order of the request, where the source sorts them; nothing reads the order. Absolute paths are those that start with a slash.
- Directory expansion, existence and ignore checks before `gitCommitPaths`: the paths are taken as already expanded. A `git add` that fails because a path matches nothing is not modelled. Glob patterns in `pathMatches`: lease paths are glob-free, and a file whose name has glob characters is taken literally when a directory expands to it.
- Git's path reading beyond `.` and empty components, the working directory and a leading `:/` or colon: other short magic, which `git check-ignore` refuses, file systems that ignore case, symbolic links, and names with backslashes.
- Unmerged index entries, file modes and index extensions: the index is a map from path to blob; conflicts enter as the status lines the refusal compares.
- CommitRuns.PublishedContentSurvives: other tools that move the branch (branch, merge, rebase, `git_commit`) are not events of the model, and a run that publishes after its lease ended is excluded by `Timely`.
- WorkScopes.Registry.BeginWorkScope: runs as one step, which `RegistryLock` justifies; temporary files and the heartbeat text of the process registration are not modelled.
- `withWorkScopeRegistryLock` is modelled as the steps of each process, which other processes' steps come between, not as one retrying method; the two attempts are stages of a process.
- Opening and migrating the draft database, its two find and require helpers, and the Graph calls between them; ISO timestamps are numbers.
- GitStatus.ParseStatus: returns the branch line raw; `parseBranchLine` is not modelled.
- `Number` of a length header is exact, so lengths over 2^53 are not modelled.
- Timeouts, cancellation and kill paths of `runGit`; packaging, build sets and current-artifact files of the native distribution; a rename that fails half way in `atomic_write`.
- Tool catalogs, guidance text, surface definitions, rendering, browser, calendar, Cloudflare and artifact clients, identity state, checkpoint payloads, page listings, branch, worktree, rebase and merge tools: data, plumbing or network calls that would only add easy members.
