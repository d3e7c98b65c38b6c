# Verified models of vctl's stateful core

vctl gives operators SSH access, DNS records and secrets through Vault, Postgres, a git repository and
a cluster. This project models the parts of it that keep state across steps and promise something
about every run, and proves those promises in Dafny 4.11. `dafny verify dfyconfig.toml` checks all of it.

## What is modelled

- Masking of a child's output (`ByteStrings`, `Redaction`, `RedactionBounds`, `HarmlessCuts`, `Survivors`,
  `RedactedForms`, `DecodedForms`, `KvRedactor`, `MaskedValues`, `MaskedSpellings`): longest-first
  replacement of the secret's forms in a byte stream cut anywhere. The forms are what decodes to the value.
  The main result is that streaming equals one redaction of the whole text, with equal counts, when holding
  back never cuts a finished needle in two and no needle holds a bracket; overlap-free needles meet it.
  Needles may start one another, as the base64 forms of every value do, and for those too the condition is
  exact, provided that where a needle stops growing no other begins inside it; without the proviso it is exact
  that every such cut is harmless. The value gab2 fails it and the value abcd meets it. The second result is
  when nothing of a secret is left in the output, streamed or not. Base64 follows sections 4 and 5 of RFC 4648.
- The audit outbox (`SpoolFiles`, `SpoolDrain`, `AuditSpool`, `SpoolRuns`, `SpoolOrder`,
  `SpoolUndisturbed`, `SpoolWitnesses`, `SpoolCodec`, `SpoolBytes`): the spool as a class over a directory;
  a step system with appends, failures and stops between any two file operations; the line format byte by
  byte; and the bytes behind the lines.
- DNS writes, repo first and cluster second (`DnsText`, `DnsZones`, `DnsLines`, `DnsRuns`, `DnsOrder`,
  `DnsWrite`): the zone file edits, on lines and on their text; every interleaving of any number of
  writers, hand pushes and syncs; and one writer's retry loops with anything happening between its calls.
- The kernel event collector (`AttributionHold`, `Collector`): parallel slices of held events and
  their first-attempt stamps, and the books of every event over a whole run.
- The database credential cache (`LeaseCache`): the client's view of a lease against Vault's, with
  latency and lost answers.
- The command gate (`Authz`), the KV tree walk (`KvWalk`, `KvReach`), check-and-set writes of a secret (`KvSet`)
  and jump chains (`Access`); `SortedStrings` and `Basics` are shared.

Classes stand where the program updates objects in place; their methods are proved against
specification functions, and the promises are lemmas about those over all runs. `SpoolRuns` and `DnsRuns`
are step systems beside the classes, with steps as small as the interleavings need. `UndisturbedDrain`
proves that the first, undisturbed, does what `Spool.Drain` is proved to do; the second shares its edits
with `DnsZones.AddEdit` and is otherwise a model of its own. Files, HTTP, Vault, Postgres and the
cluster are abstract state whose every operation may fail; clocks are parameters.

## Where the code and its comments part

- The comment on `maskWriter.Write` holds back what could still grow and calls the rest safe to release.
  What is held back can begin inside a needle that has already ended, which is then cut in two: the bare
  base64 form of gab2 ends in g, and gab2 begins with it (`Gab2Witness`, `OverlapWitness`).
- The comment on `dnsMutate` says that whichever writer patches last leaves the cluster carrying both
  records. `dnsProject` reads the repo before it reads the resourceVersion, so a writer can hold an old
  repo version and a fresh resourceVersion. `SuccessfulAddRevertedWitness` is such a run.
  `StepGoesBackIff` and `NeverGoesBackIff` say exactly when, and `LastPatchCarriesAll` proves the comment
  for every run without such a patch; `AtomicNeverGoesBack` has none, by reading both in one step.
- The patch of the ConfigMap is a merge patch, so a zone file dropped from the repo stays on the cluster.
  What it serves is the versions put on it since the last sync, one over the other (`RunServes`);
  `LiveIsVersionIff` gives the exact condition for that to be one version and `DroppedZoneWitness` a run.
- The comment on `Drain` says that a flush that stops part way costs nothing. Nothing is lost, but what was
  sent is sent again when the rewrite or the remove fails, or the process stops before it; a file sent
  whole is then replayed whole. `ExactlyOnceIff` gives the exact condition and `ReplayWitness` a run.
- A record appended right behind a torn write shares its line and cannot be read back, though the append
  succeeds (`NothingIsMissingIff`, `SpoiledWitness`, `TornWriteSpoilsAtMostTwo`). A line of 1 MiB or more
  makes its file unloadable, while nothing limits what is appended (`LoadEncode`, `TooLongWitness`).
- The collector adds the count of a failed write to its total; what failed is retried and counted again
  (`TotalIsStoredIff`, `TotalWitness`). What the final drain could not store is in no count (`DrainHeld`).
- The error for a role TTL below the floor keeps the lease, and the next call may renew it and succeed
  (`ShortTtlRecovers`, `ShortTtlWitness`).
- `kv set` promises to keep every other field; fields that are not strings are dropped by reading and so
  by the merge (`MergeKeepsOthersIff`, `NumberDroppedWitness`).
- The comment in `Add` means to reject every character that would make a name's line reparse as two. A no-break
  space and the other white space beyond ASCII pass, and such a name is filed as its words: `AddEditAnswers` and
  `AddThenRemove` give the exact condition, `NoBreakSpaceWitness` the input.
- `Check` refuses a caller without a name whom `Snapshot` may show as granted
  (`CheckAgreesWithSnapshotIff`, `NamelessWitness`).

## Model

| member | source | states |
|---|---|---|
| `ByteStrings.ReplaceAtSeam` | internal/cli/kv_redact.go:83-86 | Replacing in a text cut at a place no occurrence crosses is replacing in both parts. |
| `ByteStrings.FirstOccurrenceTaken` | internal/cli/kv_redact.go:83-86 | Replacing takes the first occurrence there is, counts it once, and goes on behind it. |
| `Redaction.RedactAtSeam` | internal/cli/kv_redact.go:79-89 | The whole longest-first loop, output and counts, distributes over a cut that no needle occurrence crosses, although earlier placeholders change the text later needles see. |
| `Redaction.HoldIsUnique` | internal/cli/kv_redact.go:91-105 | There is only one length that is the longest suffix of the buffer beginning some needle. |
| `Redaction.KeepIsShort` | internal/cli/kv_redact.go:91-105 | What waits for the next write is shorter than some needle, so than the longest. |
| `Redaction.OverlapFreeNeverSplits` | internal/cli/kv_redact.go:138-143 | Overlap-free needles are never cut in two by holding back. |
| `Redaction.NeverSplitsIsExact` | internal/cli/kv_redact.go:138-152 | The condition on the needles under which every cut the writer makes is one no occurrence crosses, in both directions. |
| `Redaction.HoldCuts` | internal/cli/kv_redact.go:144-152 | Where the condition fails for a needle, the writer's cut does fall inside that finished needle, and it is computed where. |
| `Redaction.StreamIsWhole` | internal/cli/kv_redact.go:144-165 | For every chunking, Write after Write and the final Flush put out one redaction of the whole text, with the same hit counts. |
| `Redaction.OverlapFreeStreamsExactly` | internal/cli/kv_redact.go:138-165 | The streaming promise for every overlap-free, bracket-free needle set, every text and every chunking. |
| `RedactionBounds.StreamsExactlyIffNeverSplits` | internal/cli/kv_redact.go:138-165 | For longest-first needles that may start one another, as the base64 forms do: streaming is exact for every text and chunking if and only if holding back never cuts a finished needle, provided a needle that has just stopped growing has no other needle begin inside it. |
| `RedactionBounds.SplitBreaksStream` | internal/cli/kv_redact.go:94-152 | A needle that is cut in two, with nothing else beginning inside it, comes out of the stream different from the whole redaction. |
| `HarmlessCuts.StreamsExactlyIffHarmless` | internal/cli/kv_redact.go:138-165 | For any nonempty needles: all texts in all chunkings stream exactly if and only if no single cut, between one write and all that follows, changes output or counts. |
| `HarmlessCuts.StreamsExactlyIffSplitsHarmless` | internal/cli/kv_redact.go:138-165 | For any bracket-free needles, in any order and with any keys: if and only if the cuts that do fall inside a finished needle are harmless. |
| `HarmlessCuts.MendedStreamsExactly` | internal/cli/kv_redact.go:138-165 | Four longest-first needles of which one is cut and another makes up for it: they stream exactly, so cutting a finished needle is not by itself enough to break the promise. |
| `MaskedValues.MaskStreamsExactlyIff` | internal/cli/kv_redact.go:38-56 | The if and only if of StreamsExactlyIffNeverSplits for the needles built from bracket-free values, under its proviso. |
| `MaskedValues.MaskStreamsExactlyIffHarmless` | internal/cli/kv_redact.go:38-56 | For the needles built from any values at all, brackets included: exact if and only if no single cut does harm. |
| `MaskedValues.RawFormWaits` | internal/cli/kv_redact.go:138-152 | Text that ends in the unpadded base64 of a masked value is held back from where that form begins, whatever else is masked, so the form never fires while a longer one may still arrive. |
| `MaskedValues.Gab2NotExact` | internal/cli/kv_redact.go:38-76 | The needles built from the value gab2 do not stream exactly. |
| `MaskedValues.Gab2Witness` | internal/cli/kv_redact.go:144-165 | Its bare base64 form with an a behind it, written whole and flushed, comes out unmasked, |
| `MaskedValues.Gab2Masked` | internal/cli/kv_redact.go:79-89 | while one redaction of the same text masks it. |
| `MaskedValues.AbcdStreamsExactly` | internal/cli/kv_redact.go:38-76 | The needles built from the value abcd start one another and do stream exactly. |
| `RedactionBounds.OverlapBreaksStream` | internal/cli/kv_redact.go:94-152 | A needle with the start of a needle inside its end comes out of the stream different from the whole redaction, unless it can itself grow. |
| `RedactionBounds.NeedleReplacedWhole` | internal/cli/kv_redact.go:53-54 | Longest first, a needle standing alone is replaced by one placeholder and nothing else. |
| `RedactionBounds.OverlapWitness` | internal/cli/kv_redact.go:144-165 | The needle abca, written whole and flushed, comes out unmasked, while one redaction masks it. |
| `RedactionBounds.BracketWitness` | internal/cli/kv_redact.go:82-86 | A bracket in a needle breaks the promise without any overlap: a placeholder's closing bracket becomes part of a needle. |
| `Redaction.NoNeedleSurvives` | internal/cli/kv_redact.go:79-89 | When no placeholder's inner text holds a needle, no needle occurs anywhere in the output, self-overlapping and nested needles included. |
| `Survivors.NothingSurvivesIff` | internal/cli/kv_redact.go:79-89 | For longest-first bracket-free needles: no needle occurs in the redaction of any text if and only if no placeholder, once redacted by the needles behind its own, holds one. |
| `Survivors.NothingStreamedIff` | internal/cli/kv_redact.go:138-165 | The same if and only if for what comes out of the writer, over every text and chunking, when holding back never cuts a finished needle. |
| `Survivors.NothingStreamedWhenClean` | internal/cli/kv_redact.go:138-165 | With clean placeholders and exact streaming no needle occurs anywhere in what the writer puts out, for any text and chunking. |
| `RedactionBounds.SurvivorWitness` | internal/cli/kv_redact.go:85 | A needle that a placeholder spells out survives its own redaction. |
| `RedactedForms.RawStartsEveryForm` | internal/cli/kv_redact.go:64-76 | Unpadded base64 of v is a prefix of the padded form and of both forms of v with a newline, in the standard and the URL alphabet. |
| `RedactedForms.PaddedFormSurvivesNewlineIff` | internal/cli/kv_redact.go:58-63 | The padded form of v starts the padded form of v with a newline if and only if the length of v is a multiple of three. |
| `DecodedForms.Base64Iff` | internal/cli/kv_redact.go:65-76 | A text decodes to some bytes, by a decoder over the alphabets of RFC 4648 written out, if and only if it is what the encoder writes for them, padded or not. |
| `DecodedForms.EscapeIff` | internal/cli/kv_redact.go:65 | A text decodes to a value as a query escape, unreserved characters standing for themselves only, if and only if it is the value's query escape. |
| `DecodedForms.FormsSpell` | internal/cli/kv_redact.go:64-76 | The forms are exactly the texts that spell the value: it itself, its query escape, and what decodes to it or to it with a newline in either base64 alphabet, padded or not. |
| `KvRedactor.NeedlesSpell` | internal/cli/kv_redact.go:38-56 | The needles are exactly the texts that spell a value of four bytes or more, under its key, once each. |
| `MaskedSpellings.SpellingMasked` | internal/cli/kv_redact.go:53-76 | Any spelling of a masked value, standing alone, comes out as the placeholder of a key whose value it spells. |
| `MaskedSpellings.PercentWitness` | internal/cli/kv_redact.go:65-86 | With the password p@ss, p%40ss comes out as [REDACTED:password]. |
| `RedactedForms.FormsHaveNoBrackets` | internal/cli/kv_redact.go:64-76 | No encoded form brings a bracket or is shorter than the value; the forms are bracket-free exactly when the value is. |
| `KvRedactor.NeedlesAreUsable` | internal/cli/kv_redact.go:38-56 | The needles built from the values are nonempty, and bracket-free exactly when the masked values are. |
| `KvRedactor.KvRedactor.constructor` | internal/cli/kv_redact.go:38-56 | The needles are the texts that spell a value of at least four bytes, once each, longest first, and nothing else. |
| `KvRedactor.KvRedactor.Redact` | internal/cli/kv_redact.go:79-89 | The loop over the needles puts out the specified redaction and adds the specified hits to each key. |
| `KvRedactor.LongerMatch` | internal/cli/kv_redact.go:97-102 | One needle's turn finds its longest proper prefix that ends the buffer and is longer than the hold so far. |
| `KvRedactor.KvRedactor.HoldbackLen` | internal/cli/kv_redact.go:94-105 | The nested loop with its early break finds exactly the longest suffix that could still grow into a needle. |
| `KvRedactor.MaskWriter.Write` | internal/cli/kv_redact.go:144-153 | One write releases the redaction of all but the hold and keeps the hold; on an error at most part of it is released and the tail is unchanged, while its hits stay counted. |
| `KvRedactor.MaskWriter.Flush` | internal/cli/kv_redact.go:158-165 | The tail is redacted and released, and is empty afterwards even when the write fails; then a prefix of its redaction came out. |
| `KvRedactor.MaskChild` | internal/cli/kv_redact.go:128-165 | Two streams over one redactor, interleaved anyhow: each comes out as its own whole text redacted, and the shared counts add up, unless a write failed. |
| `SpoolFiles.EncodeReadable` | internal/auditspool/auditspool.go:469-481 | What is written back is what is read again, nothing skipped. |
| `SpoolFiles.ReadOrSkipped` | internal/auditspool/auditspool.go:432-466 | Every line of a file is read or counted as skipped. |
| `SpoolFiles.ExtendReadable` | internal/auditspool/auditspool.go:206-214 | Appending adds the record to what is readable, unless the file ends in a torn piece: then it adds nothing. |
| `SpoolFiles.CoveringQueuesAgree` | internal/auditspool/auditspool.go:361-375 | The records on disk do not depend on the order the batches are listed in. |
| `SpoolDrain.DrainSendsPrefix` | internal/auditspool/auditspool.go:299-327 | An undisturbed drain sends exactly the first records of its queue, up to the budget, in file order. |
| `SpoolDrain.DrainLeavesRest` | internal/auditspool/auditspool.go:407-412 | What it leaves on disk is exactly the rest, in the same order. |
| `SpoolDrain.DrainConserves` | internal/auditspool/auditspool.go:299-327 | What left the disk is what was sent, and its number is the smaller of budget and backlog. |
| `SpoolDrain.BacklogDrains` | internal/auditspool/auditspool.go:311-326 | With a working sink and no appends a backlog of n records is empty after k drains if and only if k is at least n over the budget, rounded up. |
| `AuditSpool.Spool.Batches` | internal/auditspool/auditspool.go:368-375 | The list holds every claim file, once, in the order of names. |
| `AuditSpool.Spool.AtCap` | internal/auditspool/auditspool.go:220-241 | Full exactly when the live file and all claims together have reached the cap; else a file operation failed. |
| `AuditSpool.Spool.Pending` | internal/auditspool/auditspool.go:246-260 | The number of readable records on disk, in the live file and in claims alike; when a file cannot be read, an error with the count of the files read before it. |
| `AuditSpool.Spool.HasBacklog` | internal/auditspool/auditspool.go:266-284 | True exactly when some file holds anything, unreadable lines included, so when it is false no record is on disk; else a file operation failed. |
| `AuditSpool.Spool.Append` | internal/auditspool/auditspool.go:186-215 | A spool at the cap refuses and keeps everything, and nothing is ever written at the cap; a success extends the live file only; it fails exactly when a file operation did, leaving the files as they were or the record torn or whole. |
| `AuditSpool.Spool.ClaimBatch` | internal/auditspool/auditspool.go:337-357 | The live file is renamed to a name no file has; a failed operation leaves the files as they were, two of them an empty placeholder more. |
| `AuditSpool.Spool.SendChunk` | internal/auditspool/auditspool.go:417-430 | The sink gains a prefix of the chunk of the length reported; a batch sink gains all or nothing. |
| `AuditSpool.Spool.DrainBatch` | internal/auditspool/auditspool.go:380-413 | The sink gains a prefix of the file's records of the length reported, within the budget; the file holds exactly the rest, or still everything when a file operation failed; a batch sink is called once for each 500 records. |
| `AuditSpool.Spool.Drain` | internal/auditspool/auditspool.go:299-327 | Old claims go first, by name, and what is claimed now behind them. The sink gains a prefix of what a drain of that queue sends, all of it when nothing failed, with the files and the counts of that drain; nothing is ever lost, and nothing is in both sink and files unless a file operation failed. |
| `AuditSpool.LogAccess` | internal/app/app.go:458-469 | A record reported stored or spooled is in the sink or on disk, unless it was appended right behind a torn write; nothing recorded before is lost. It is spooled only when the database failed, lost only when the spool failed too or is full; and when nothing failed the spool has been drained as far as one call goes. |
| `AuditSpool.SpoolAccess` | internal/app/inventory.go:303-313 | A spooled record adds exactly itself to what is on disk, or nothing right behind a torn write; the pending count is what is on disk, or what had been counted when a file could not be read. |
| `SpoolBytes.SizeIsBytes` | internal/auditspool/auditspool.go:202-214 | Whatever was appended to a file, whole or torn, the sizes of its lines are its bytes. |
| `SpoolBytes.CapIsBytes` | internal/auditspool/auditspool.go:220-241 | The spool is full if and only if the bytes of all its files, in whatever order, come to the cap. |
| `SpoolBytes.RecordsFill` | internal/auditspool/auditspool.go:220-241 | Records whose lines, with their newlines, come to the cap fill the spool, so that the next append is refused. |
| `SpoolBytes.EncodedSize` | internal/auditspool/auditspool.go:469-481 | What is written back takes as many bytes as the sizes of its lines say. |
| `SpoolBytes.RecordsLoad` | internal/auditspool/auditspool.go:436-466 | The readable lines of a file are among the records its bytes load as, in order, and every other line yields one record at most or is skipped; unless one is too long and nothing loads. |
| `SpoolRuns.DrainerMoves` | internal/auditspool/auditspool.go:299-327 | A drain that has begun never gets stuck: some step of its own takes it on, without a stop. |
| `SpoolRuns.TakenBack` | internal/auditspool/auditspool.go:337-357 | A claim whose rename fails and whose placeholder is removed leaves no trace. |
| `SpoolRuns.ChunksLandWhole` | internal/auditspool/auditspool.go:417-425 | In every run a batch sink has of the file being sent whole chunks of 500, or all of it. |
| `SpoolRuns.RunConserves` | internal/auditspool/auditspool.go:380-413 | In every state of every run, record by record: the copies in the sink, on disk and spoiled are those appended, plus one for each a stopped drain had sent and left, plus those in flight. |
| `SpoolRuns.NothingIsLost` | internal/auditspool/auditspool.go:286-327 | In every run with appends, sink failures and stops anywhere, every record an append wrote whole, synced or not, is in the sink or on disk, unless it was appended right behind a torn write. |
| `SpoolRuns.NothingIsMissingIff` | internal/auditspool/auditspool.go:206-214 | After clean stops nothing appended is missing from sink and disk if and only if no append came right behind a torn write; in any run, if and only if copies left by stops stand for what was spoiled. |
| `SpoolRuns.ExactlyOnceIff` | internal/auditspool/auditspool.go:400-412 | Whenever no file is being sent, every appended record is in the sink, on disk or spoiled exactly once if and only if no stop, failed rewrite or failed remove ever came after sending records of a file. |
| `SpoolRuns.EachTearSpoilsAtMostOne` | internal/auditspool/auditspool.go:211-214 | Torn writes spoil at most one later record each. |
| `SpoolWitnesses.ReplayWitness` | internal/auditspool/auditspool.go:400-412 | One record, one stop between sending it and removing its file: the next drain sends it again. |
| `SpoolWitnesses.SpoiledWitness` | internal/auditspool/auditspool.go:206-214 | One torn write, one record appended behind it: it is neither in the sink nor on disk. |
| `SpoolUndisturbed.UndisturbedDrain` | internal/auditspool/auditspool.go:299-327 | The step system agrees with the drain's specification: a run from listing to end with nothing in between, its sends cut up anyhow, leaves and sends what DrainAll does. |
| `SpoolOrder.SinkInFileOrder` | internal/auditspool/auditspool.go:361-367 | Across all drains, failures and stops, each record reaches the sink at its place in its file and after the record before it there, and only records that were appended do. |
| `SpoolOrder.EveryRecordIsAccountedFor` | internal/auditspool/auditspool.go:286-298 | Every record written to any file has reached the sink or is in that file, under whatever name it has. |
| `SpoolOrder.DrainSendsWithinBudget` | internal/auditspool/auditspool.go:311-326 | Until the next drain starts at most one budget of records reaches the sink, whatever fails. |
| `SpoolCodec.LoadEncode` | internal/auditspool/auditspool.go:436-481 | Loading what encode writes yields the records with nothing skipped if and only if every line is below the scanner's limit; else the load fails. |
| `SpoolCodec.LineByLine` | internal/auditspool/auditspool.go:449-462 | One more line in front adds nothing if it is blank, its record if it can be read, and one to the skipped ones if not; a carriage return on its end does not matter. |
| `SpoolCodec.TooLongWitness` | internal/auditspool/auditspool.go:436-481 | With a concrete codec: a record as long as the scanner's limit is written and fails the whole load. |
| `SpoolCodec.LoadSplit` | internal/auditspool/auditspool.go:449-462 | Complete lines load the same whatever bytes follow them, and a line too long anywhere fails the whole load. |
| `SpoolCodec.RewriteKeepsRecords` | internal/auditspool/auditspool.go:401-410 | Whatever bytes a file holds, re-encoding what a drain leaves of it and loading again yields the same records if and only if they fit the scanner's limit; else nothing loads. |
| `SpoolCodec.OwnFilesRewrite` | internal/auditspool/auditspool.go:401-410 | What the spool wrote and can load it can rewrite from any record on, with nothing lost or skipped. |
| `SpoolCodec.TornWriteSpoilsAtMostTwo` | internal/auditspool/auditspool.go:432-435 | A torn append costs at most itself and the next record: all earlier records and all from the second later one load. |
| `SpoolCodec.TornWriteAtEnd` | internal/auditspool/auditspool.go:432-435 | A torn append at the end of the file costs nothing but itself. |
| `DnsZones.HasRecordsIff` | internal/dnshosts/dnshosts.go:68-77 | There are records exactly when some name is answered from some zone file. |
| `DnsZones.HostnameIff` | internal/dnshosts/dnshosts.go:101-105 | Of plain ASCII names those pass that are one word of a line without a comment sign; other characters always pass. |
| `DnsZones.NoBreakSpaceWitness` | internal/dnshosts/dnshosts.go:101-109 | A name with a no-break space passes for a hostname, and its line is read as two names, neither of which it is. |
| `DnsText.RenderedFields` | internal/dnshosts/dnshosts.go:109 | A written line is read as its first word and the words of what stands behind it, at any white space. |
| `DnsLines.AddIsRead` | internal/dnshosts/dnshosts.go:43-113 | Writing a line behind the others and reading them all is adding the record to the zone. |
| `DnsLines.RemoveIsRead` | internal/dnshosts/dnshosts.go:43-152 | Writing a file's lines anew without a name and reading them is taking the name out of the zone. |
| `DnsZones.Remove` | internal/dnshosts/dnshosts.go:116-152 | Reports removal exactly when a record or record-like line names the host, and yields the file without it. |
| `DnsZones.RemoveUnanswers` | internal/dnshosts/dnshosts.go:114-116 | After a removal the name is not answered, whatever lines carried it. |
| `DnsZones.RemoveKeepsOthers` | internal/dnshosts/dnshosts.go:114-116 | After a removal every other name is answered as before. |
| `DnsZones.AddThenRemove` | internal/dnshosts/dnshosts.go:80-152 | A record filed and taken out again leaves the zone file as it was, if and only if the name has no white space. |
| `DnsZones.InZoneIff` | internal/dnshosts/dnshosts.go:184-195 | A host is in a zone if and only if its last labels are the zone's. |
| `DnsZones.BestZoneIsUnique` | internal/dnshosts/dnshosts.go:184-200 | The zone with the longest matching suffix is unique, so the order of the bindings does not matter. |
| `DnsZones.ZoneKeyFor` | internal/dnshosts/dnshosts.go:184-200 | The loop finds that zone, or the catch-all, and the file bound to it. |
| `DnsZones.ZoneKey` | internal/cli/dns.go:535-556 | A key is returned exactly when there is one that the repo file has and that the flag, or without it the best zone, is bound to; and it is that one. |
| `DnsZones.AddEdit` | internal/cli/dns.go:260-289 | A conflict in any file outranks a match in any file, and the first such file is named; a match is no change; an edit happens exactly when no file answers, and files one record under the key. |
| `DnsZones.RmEdit` | internal/cli/dns.go:317-335 | An edit happens exactly when some file mentions the name, and takes it out of every file. |
| `DnsZones.AddEditAnswers` | internal/cli/dns.go:247-252 | After an add the name answers with the address from its own file, if and only if it has no white space, and from no other; names that are no word of it are as before. |
| `DnsZones.RmEditAnswers` | internal/cli/dns.go:314-316 | After a rm the name answers nowhere; other names are as before. |
| `DnsRuns.StepValid` | internal/cli/dns.go:358-452 | In every interleaving a writer projects a version of the repo no older than the one its commit ended with. |
| `DnsRuns.RunLosesNoUpdate` | internal/cli/dns.go:374-412 | Under full interleaving every commit is its edit applied to the version immediately before it, and what a writer goes on to project holds its edit. |
| `DnsRuns.RunServes` | internal/kubeapi/kubeapi.go:100-123 | The cluster always serves every zone file of the version it shows, and each further one exactly as in the last version put on it since the last sync that has that file. |
| `DnsRuns.WritersEnd` | internal/cli/dns.go:374-452 | Whatever the others do, a writer ends after at most fifteen steps of its own. |
| `DnsRuns.ThirdIsLast` | internal/cli/dns.go:406-447 | A lost race, for the repo or for the cluster, is given up at the third attempt and not before. |
| `DnsRuns.ChangeRefusesPatches` | internal/cli/dns.go:426-445 | Whatever changes the live ConfigMap refuses every patch made for what it was before. |
| `DnsRuns.LiveIsVersionIff` | internal/cli/dns.go:422-452 | The live ConfigMap equals the version it shows if and only if no version put on the cluster since the last sync has a zone file the shown one lacks; always, when no push changes the set of zone files. |
| `DnsOrder.SuccessShows` | internal/cli/dns.go:358-373 | A writer that succeeds has patched the cluster with a version at or after its own commit, and the cluster serves it then. |
| `DnsOrder.StepGoesBackIff` | internal/cli/dns.go:426-445 | Of all steps, syncs and pushes included, exactly a stale patch takes the cluster back: one whose repo read is older than what was shown at its resourceVersion read. |
| `DnsOrder.NeverGoesBackIff` | internal/cli/dns.go:351-357 | In every run the version the cluster shows never decreases if and only if no stale patch lands. |
| `DnsOrder.ProjectionNeverEmpties` | internal/cli/dns.go:415-441 | After a projection some name is answered on the cluster, unless none is in the version its own writer ended with. |
| `DnsOrder.LastPatchCarriesAll` | internal/cli/dns.go:351-357 | In every run without a stale patch, once writers have succeeded the cluster shows a version at or after every one of their commits. |
| `DnsOrder.AtomicNeverGoesBack` | internal/cli/dns.go:351-357 | When a projection's two reads are one step no patch is stale, and the version the cluster shows never decreases. |
| `DnsOrder.SuccessfulAddRevertedWitness` | internal/cli/dns.go:351-357 | Under full interleaving two adds can both succeed and the cluster end without the second record, contrary to the comment. |
| `DnsOrder.DroppedZoneWitness` | internal/kubeapi/kubeapi.go:100-123 | A push drops a zone file, a writer projects that version: the cluster goes on answering from the dropped file, and what it serves is no version of the repo. |
| `DnsWrite.DnsCommit` | internal/cli/dns.go:381-412 | The retry loop commits its edit over the version immediately before, or finds the edit already there; at most one commit lands. It gives up only on a failed call, on a version that cannot be edited, or after three lost races. |
| `DnsWrite.DnsProject` | internal/cli/dns.go:422-452 | The retry loop patches at most once, with a version at or after the caller's, never one that answers nothing when records are wanted; it gives up only on such a version, on a failed call, or after three lost races. |
| `DnsWrite.DnsMutate` | internal/cli/dns.go:358-373 | Success means both: the repo held the edit, and the cluster was patched with that version or a later one; the cluster is never patched without the first, nor with a version that answers nothing when the edited one did. |
| `AttributionHold.ExpiryDropsPrefix` | internal/cli/collect_hold.go:103-121 | With sorted stamps expiry drops exactly a prefix: what is dropped waited longer than the grace, what is kept did not. |
| `AttributionHold.TrimDropsOldest` | internal/cli/collect_hold.go:123-131 | The cap drops the oldest, and only as many as needed. |
| `AttributionHold.LandedOrPicked` | internal/store/kernel_event_store.go:194-215 | The store's answer splits the offered events, stamps included, into those that landed and those missed. |
| `AttributionHold.PickedSorted` | internal/cli/collect_hold.go:75-88 | Holding the missed events keeps the stamps sorted. |
| `AttributionHold.AttributionHold.Expire` | internal/cli/collect_hold.go:104-121 | The in-place compaction of the parallel slices keeps exactly what is within its grace and counts the rest as dropped. |
| `AttributionHold.AttributionHold.Merge` | internal/cli/collect_hold.go:55-70 | What is handed out is what was within its grace followed by the batch, aligned with their first-attempt stamps. |
| `AttributionHold.AttributionHold.Hold` | internal/cli/collect_hold.go:75-88 | Each missed event comes back under the stamp it was offered with, or the present time if it had none; the cap is applied and counted. |
| `AttributionHold.AttributionHold.HoldAll` | internal/cli/collect_hold.go:95-101 | A failed write takes everything back under its stamps, an event without one under the present time. |
| `AttributionHold.AttributionHold.Trim` | internal/cli/collect_hold.go:125-131 | The newest events up to the cap are kept and the others counted as dropped. |
| `Collector.OffersInTime` | internal/cli/collect.go:263-288 | Nothing is offered past its grace, and no flush hands the store more than 21 batches. |
| `Collector.HoldsTwentyBatches` | internal/cli/collect_hold.go:25-53 | The hold has room for twenty batches and for no event more. |
| `Collector.NoGraceNoHold` | internal/cli/collect_hold.go:103-109 | Without a grace nothing is offered a second time. |
| `Collector.StoredAtOnce` | internal/cli/collect.go:273-288 | Without sessions required, and with no write failing, everything is stored the first time it is offered. |
| `Collector.RunConserves` | internal/cli/collect.go:263-288 | In every run what was ever offered is, stamps included, stored, lost or held, once each: retries and failed writes never change the time of the first offer. |
| `Collector.EveryEventAccountedFor` | internal/cli/collect.go:258-313 | In every run the accepted events are, as a multiset, stored, dropped, held or buffered. |
| `Collector.LossesJustified` | internal/cli/collect_hold.go:103-131 | In every run each lost event has its flush: one that found it past the grace, or one that exceeded the cap, kept exactly as many as the cap allows and lost just the excess, none of it younger than anything kept. |
| `Collector.TotalIsStoredIff` | internal/store/kernel_event_store.go:197-201 | The reported total is the number stored if and only if no failed write had counted anything before it failed. |
| `Collector.TotalWitness` | internal/store/kernel_event_store.go:197-201 | One event, a write that fails after counting it and one that stores it: stored once, counted twice. |
| `Collector.Store.InsertAttributed` | internal/store/kernel_event_store.go:161-216 | The indices missed are increasing and in range; on success the count is right, exactly the others are stored and each had a session; on failure nothing is. |
| `Collector.Collector.Flush` | internal/cli/collect.go:263-288 | The collector's fields stay exactly what the books say after one more flush. With sessions required every row it stores had one; without, a flush that succeeds misses nothing and holds nothing back. |
| `Collector.Collector.Ingest` | internal/cli/collect.go:292-313 | A usable line is accepted and a full batch flushed at once, so the buffer stays below the batch and the books stay true; other lines change at most the skipped count. |
| `Collector.Collector.DrainHeld` | internal/cli/collect.go:63-73 | What is held is stored or left over, by the same rule about sessions; a leftover is in neither the store nor the dropped count. |
| `Collector.Collector.Finish` | internal/cli/collect.go:318-338 | At end of input every accepted event is stored, dropped or left over; an error of the flush or the input returns before the hold is drained. |
| `Collector.Collector.FinalFlush` | internal/cli/collect.go:33-50 | On a signal the hold is drained even when the last flush failed, with the same accounting. |
| `LeaseCache.RenewalExtends` | internal/dbcreds/cache.go:83-90 | A renewal the cache asks for never shortens a lease. |
| `LeaseCache.GetSafe` | internal/dbcreds/cache.go:76-95 | On every path of a Get, answers lost on the way included, every credential handed out keeps its floor on Vault's side, up to the latency. |
| `LeaseCache.CredentialOutlivesConnection` | internal/app/app.go:486-487 | With latency and connect delay within the safety margin, the lease behind a credential outlives any connection opened with it, at any later time. |
| `LeaseCache.IssuesSpaced` | internal/dbcreds/cache.go:11-14 | With Vault answering, consecutive credentials are issued more than min(T, M - floor) apart, less the client's pause. |
| `LeaseCache.FrequentIssuesSpaced` | internal/dbcreds/cache.go:11-14 | When calls come less than a floor apart, more than M - floor apart. |
| `LeaseCache.RolesCreatedAreFew` | internal/dbcreds/cache.go:4-9 | In every answered run, the roles created in any stretch of time are at most one more than the shortest gap goes into it; with calls within the floor, than M - floor goes into it. |
| `LeaseCache.ShortTtlRecovers` | internal/dbcreds/cache.go:107-114 | With a TTL below the floor a Get errors but keeps the lease, and the next one succeeds if and only if what is left of the maximum TTL passes the floor. |
| `LeaseCache.ShortTtlWitness` | internal/dbcreds/cache.go:107-114 | A role TTL below the floor and a maximum above it: the first Get errors, the second succeeds. |
| `LeaseCache.Cache.Get` | internal/dbcreds/cache.go:76-95 | The method moves client and server state exactly as specified, and returns the credential it granted or an error; an error only when a call failed or the lease just issued is below the floor. |
| `LeaseCache.Cache.Renew` | internal/dbcreds/cache.go:118-129 | A renewal's answer becomes the new expiry; a failed one drops the lease. |
| `LeaseCache.Cache.Issue` | internal/dbcreds/cache.go:102-116 | An issued lease is kept even when it fails the floor. |
| `Authz.CachedAsOnline` | internal/authz/authz.go:220-223 | A cached grant covers a command exactly when the online gate would have allowed it. |
| `Authz.AllowedByClass` | internal/authz/authz.go:359-384 | Whatever is cached and whatever Postgres answers: an admin command is allowed if and only if a policy of the live token is an admin policy, a read to every live token, an ungated command to anyone. |
| `Authz.MutateAllowedIff` | internal/authz/authz.go:385-399 | With Postgres answering, a mutate command is allowed if and only if the token has an admin policy, or a name whom Postgres grants the command or everything. |
| `Authz.SnapshotShows` | internal/authz/authz.go:335-357 | Snapshot shows an admin as one and anyone else with what Postgres holds for them, and fails exactly without a live token or, for others than admins, without Postgres. |
| `Authz.CheckAgreesWithSnapshotIff` | internal/authz/authz.go:344-399 | With Postgres answering, Check and Snapshot's view agree on a mutate command except, exactly, for a nameless caller with a grant. |
| `Authz.NamelessWitness` | internal/authz/authz.go:344-399 | A caller without a name whose identity holds every command: Check denies, Snapshot shows the command as granted. |
| `Authz.CacheIsLatest` | internal/invcache/snapshot.go:107-118 | The cache holds an identity's last recorded confirmation, or nothing. |
| `Authz.OfflineAllowedIffBacked` | internal/authz/authz.go:401-435 | With Postgres unreachable a mutate command is allowed if and only if it is ssh and the identity's latest confirmation is within the window and would have allowed it online. |
| `Authz.OfflineAllowHasItsLookup` | internal/authz/authz.go:256-264 | Behind an offline allow, in every run, there is an earlier recorded online lookup within the window that online would have allowed, and no later recorded one. |
| `Authz.Authorizer.RecordGrants` | internal/authz/authz.go:438-449 | The cache gains exactly the granted commands of a named caller, or nothing. |
| `Authz.Authorizer.CheckOffline` | internal/authz/authz.go:409-435 | The branches yield the specified offline verdict. |
| `Authz.Authorizer.Check` | internal/authz/authz.go:370-399 | The verdict is the specified one, by class and by grant as said over the policies and grants themselves, and the cache gains a confirmation exactly when a lookup succeeded for a named non-admin on a mutate command. |
| `Authz.Authorizer.Snapshot` | internal/authz/authz.go:344-357 | The view is the specified one, with the same recording. |
| `SortedStrings.LeqIff` | internal/cli/kv_search.go:93-94 | The order things are listed in: where two strings part, the first has ended or has the smaller byte. |
| `KvWalk.LevelsAreTraversal` | internal/cli/kv_search.go:52-95 | Listing level by level meets everything a recursive traversal meets, as often. |
| `KvWalk.NothingPastTheEnd` | internal/cli/kv_search.go:56 | Once a level is empty all deeper ones are. |
| `KvWalk.ListLevel` | internal/cli/kv_search.go:106-122 | Whatever order the calls finish in, each answer is at its folder's place. |
| `KvWalk.AddKeys` | internal/cli/kv_search.go:73-85 | Entries are taken in order until the limit, and capped means some were not. |
| `KvWalk.WalkLevel` | internal/cli/kv_search.go:58-89 | One level adds what its folders hold, skips refusals and vanished folders, and stops at the limit, a missing root or any other error. |
| `KvWalk.WalkKV` | internal/cli/kv_search.go:52-95 | The walk ends on any tree; uncapped it is the sorted multiset of all reachable secrets and refusing folders; it is capped if and only if the tree has more entries than the limit. |
| `KvReach.WholeIsReached` | internal/cli/kv_search.go:52-95 | A walk that was not capped reports exactly the secrets at the end of a chain of folders, each an entry with a slash of the one before, and the folders so reached that refuse. |
| `KvReach.ReportIsReached` | internal/cli/kv_search.go:52-95 | A capped walk reports nothing else. |
| `KvSet.WrittenIsSetAndKept` | internal/cli/kv_set.go:153-160 | The number of fields written is the number set plus the number kept. |
| `KvSet.MergeKeepsOthersIff` | internal/cli/kv_set.go:28-32 | A merge keeps every field it does not name if and only if all of them are text. |
| `KvSet.StoredIsRead` | internal/vaultc/kv.go:71-106 | What is written is read back. |
| `KvSet.DeletedStaysDeleted` | internal/vaultc/kv.go:71-106 | Over a deleted version a merge starts from nothing: what was deleted does not come back. |
| `KvSet.NumberDroppedWitness` | internal/cli/kv_set.go:28-32 | A version with one field that is a number: a merge that does not name it writes a version without it. |
| `KvSet.LastEditWins` | internal/cli/kv_set.go:180-185 | Over any sequence of merges a field is as the last edit naming it left it. |
| `KvSet.Remove` | internal/cli/kv_set.go:204-209 | The removals that were present are noted, once each, and taken out. |
| `KvSet.PlanMerge` | internal/cli/kv_set.go:192-216 | What is to be written and reported is the edit of the version just read. |
| `KvSet.KvSet` | internal/cli/kv_set.go:186-230 | Among any other writers, a success wrote exactly the sets over the version immediately before minus the removals and reports just that; a write whose answer is lost landed that edit once or not at all; every other outcome wrote nothing. It fails only on a failed call, three lost races, or a secret that would be left empty. |
| `Access.RouteIffExists` | internal/access/access.go:266-295 | Following jump hosts yields a route if and only if there is one to a direct host with no missing or repeated name, and it is that one. |
| `Access.ErrorIff` | internal/access/access.go:270-295 | A jump host is reported missing if and only if a walk along jump hosts comes to one that names it and it is in no inventory; a cycle, if and only if a walk comes to a host that names one already on it. |
| `Access.StepDecreases` | internal/access/access.go:271-274 | Every step leaves fewer hosts to visit, so the recursion ends on every inventory. |
| `Access.BuildTargetSeen` | internal/access/access.go:270-295 | The recursion over the shared set of names builds the linked targets of the route, or reports the cycle or the missing host. |
| `Access.BuildTarget` | internal/access/access.go:266-268 | It succeeds if and only if such a route exists, and the chain mirrors it hop by hop; else the error is the one that following it ends in. |
| `Access.Apply` | internal/access/access.go:77-82 | Every hop gets the policy's two flags, the chain is unchanged. |

## Left out

- RedactionBounds.StreamsExactlyIffNeverSplits: under field names without brackets that spell out no
  needle, as KV field names are, and where a needle that has just stopped growing has no other needle begin
  inside it. Without that, another needle can mend the cut (`MendedStreamsExactly`), and the exact condition
  proved is about the cuts (`StreamsExactlyIffSplitsHarmless`).
- MaskedValues.MaskStreamsExactlyIff: under the same proviso; `MaskStreamsExactlyIffHarmless` has none.
- Survivors.NothingSurvivesIff: for needles without brackets; a placeholder's bracket can become part of a
  needle that has one (`BracketWitness`).
- DnsRuns.Step: no proof ties the step system to the loops of `DnsWrite`; both model the same calls.
- DnsRuns.RunServes: a patch's annotations are not modelled, and a sync replaces the data whole.
- Collector.Store.InsertAttributed: a write that fails stores nothing; a commit whose answer is lost is
  not modelled.
- LeaseCache.CredentialOutlivesConnection: one clock for client and Vault; skew counts against the same
  margin as latency.
- KvSet.KvSet: a secret's metadata being deleted, or a version being deleted or undeleted, between the
  read and the write is not modelled.
- AuditSpool.Spool.Drain: one drainer at a time. With two, the empty file that reserves a claim name can be
  read and removed by the other before the rename lands.
- AuditSpool.Sink.LogAccess: a write whose answer is lost counts as one that did not land, as the sink's
  contract says.
- SpoolRuns.Step: one append is one step; an append whose open and write are split around a rename is
  not modelled. A write cut exactly before its newline is modelled in bytes only, in `SpoolCodec`.
- SpoolCodec.IsCodec: the JSON codec is a parameter that reads back what it wrote and writes no newline;
  old formats and version stamps are one kind of unreadable line.
- KvWalk.WalkKV: the tree does not change during a walk; a folder that vanishes is one that answers not
  found.
- Access.BuildTarget: the inventory does not change during the build, and a lookup that fails is a host
  that is missing.
- DnsZones.AddEdit: addresses are strings already in canonical form; an address that does not parse is not
  modelled. In `DnsLines` which words are addresses is a parameter, and a file is its lines, without the blank
  ones at its end.
- Parsing of YAML, JSON, Corefiles and command lines, and the rendering of messages and reports.
- Files, TLS, HTTP, SSH and processes themselves: only the contracts their callers rely on.
- Validation of names, ports and retention, configuration precedence, pickers, completion and topology
  views: one-branch checks that would add only easy members.
