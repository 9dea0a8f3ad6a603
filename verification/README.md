# robotsix-auto-mail, verified

A Dafny model of the parts of robotsix-auto-mail that can lose, misplace or leak something: the mailbox-name codec, the
configuration surface with its version history, the IMAP client's destructive commands, ingestion, reconciliation, the
background batch workers, the archive folder tree, and the scanners for FETCH responses. `dafny verify dfyconfig.toml`
checks all of it.

## What is modelled

**Mailbox names** (`Utf16`, `Base64`, `ModifiedUtf7`, `MailboxName`). Modified UTF-7 over UTF-16BE and base64 with
bit-level packing, as a run-splitting encoder against an index-scanning decoder, and the quoting of a name as a
command argument (sections 4.3 and 5.1.3 of RFC 3501, section 4 of RFC 4648, section 2 of RFC 2781). A Dafny `char` is
a Unicode scalar value, which is the encoder's domain. `EncodingBits` and `DecodingBits` say bit by bit, over a literal
alphabet, what is sent and what any received name means, so that neither rests on the other.

**Configuration** (`ConfigSchema` to `ConfigService`, `ConfigShipped`, `ConfigChecks`, `VersionStore`). Values are
JSON trees, model classes are a schema datatype, and strip, merge, mask, diff and validation are mutually recursive
over both. The loops of the code are methods proved against these functions; requests are steps of a state machine
whose runs are quantified over. `ConfigUpdates`, `ConfigPaths`, `ConfigMask` and `ConfigHashing` say what becomes of a
configuration, what a change record names, what a reader sees and when a request raises without reference to how any
of it is computed. The laws hold for any classes that meet stated conditions, and `ConfigShipped` and
`ConfigChecks` show that the program's own classes and validators do.

**Moves and deletions** (`Mailboxes`, `ChunkedMoves`, `ImapClient`). A server answers each command by a script: it
works, or it fails after reaching any subset of the messages named. The client keeps the state every command left in a
ghost trace, and safety is stated for every state of the trace. Batch workers are interrupted by any command of their
script failing, and by any of their writes to the database raising, between two rows of a group too.

**Ingestion** (`MailDatabase`, `IngestBatch`, `IngestProtocol`, `IngestSafety`, `IngestRun`). A transition system in
which one ingest run, broken into its reads and writes, interleaves with delivery, expunge, renumbering and deletion
of rows, and may stop anywhere. `IngestRun.IngestMail` is the code's run and is shown to be a run of that system.

**Reconciliation and batch workers** (`Resolve`, `Reconcile`, `BatchRecords`, `BatchDelete`, `Custody`,
`BatchArchive`), **archive folders** (`ArchiveCleanup`, `ArchivePaths`, `ArchiveDelete`), **response scanners**
(`FetchPairing`, `FetchScanner`, `FetchPrinter`, `FetchTrap`, `FetchForms`) and **prompt sections** (`PromptSection`).

## What turned out not to hold

Each of these is kept as the code has it; the lemma named gives the exact condition or a whole family of inputs.

- A move can lose mail that was flagged `\Deleted` beforehand: `ChunkedMoves.MoveLosesNothingIff`.
- The diff algorithm does not see a container change between none and empty: `ConfigDiff.DiffExact`,
  `ConfigDiff.DiffMissesNullContainer`. The shipped classes have no such container, so for them the diff is complete:
  `ConfigShipped.ShippedDiffComplete`.
- Merging is not idempotent when a list repeats an identity and a later entry sets what an earlier one leaves alone:
  `ConfigAgreement.MergeItemsIdempotentIff`. Validation never accepts such a result (`config/model.py` lines 543-551),
  and for what it accepts merging is idempotent: `ConfigChecks.ShippedUpdateIdempotent`.
- A first ingest cut short between its two watermark writes, followed by a renumbering, skips mail for good:
  `IngestRun.CutShortUnsafelyLoses`, with the guard that excludes it in `IngestSafety.NeverMisled`.
- A dry run counts a new Message-ID once per occurrence: `IngestBatch.DryRunPredicts`.
- A stored identifier that came to mean another message is trusted: `BatchDelete.DeletesItsOwnIff`. The batch workers
  therefore rely on live identifiers pointing at the row's own message (`Truthful`, `Sure`).
- A failed look at the source folder is swallowed and reads like absence: `Resolve.CrossFolderResolve`,
  `Reconcile.ReconcileRow`.
- The archive worker drops rows of mail that stayed behind when a COPY succeeds but claims to have copied nothing:
  `BatchArchive.MailLeftBehind`, with the exact condition in `BatchArchive.ProcessArchiveGroup`. The mail itself is
  never lost: `BatchArchive.RunBatchArchive`.
- The prefix test on archive destinations and on deletion requests never decides: `ArchivePaths.DestinationStaysInside`,
  `ArchiveDelete.TargetInside`.
- The attribute scan does not terminate on a closing parenthesis where a key or value should be, as strings with
  unmatched parentheses can leave it: `FetchTrap.NeverEndsIff`, `FetchTrap.EnvelopeNeverEndsIff`.

Where code and documentation disagree the model follows the code: `docs/ingestion.md` lines 83-86 say that a dry run still
refreshes the row of a message seen before, while `pipeline/__init__.py` line 265 suppresses that write.

## Model

| member | source | states |
|---|---|---|
| Utf16.RoundTrip | src/robotsix_auto_mail/imap/utils.py:39-47 | UTF-16BE, surrogate pairs included, decodes to the text it was made from |
| Base64.RoundTrip | src/robotsix_auto_mail/imap/utils.py:39-47 | padded base64 of any byte string decodes to those bytes, for every length modulo 3 |
| Base64.PaddingRestored | src/robotsix_auto_mail/imap/utils.py:44-47 | the padding the decoder computes from the stripped length is the padding the encoder removed |
| ModifiedUtf7.ShiftAlphabet | src/robotsix_auto_mail/imap/utils.py:39-41 | a shifted run is non-empty and holds no `&`, `-`, `/` or padding, so its terminator cannot occur in it |
| ModifiedUtf7.ShiftRoundTrip | src/robotsix_auto_mail/imap/utils.py:39-47 | a shifted run of any length survives base64 with padding stripped and `,` for `/` |
| ModifiedUtf7.CanonicalUnique | src/robotsix_auto_mail/imap/utils.py:50-67 | there is one way to cut a name into maximal runs, literal ampersands and plain characters |
| ModifiedUtf7.ImapUtf7Encode | src/robotsix_auto_mail/imap/utils.py:50-67 | the loop over `out` and `run` prints the canonical pieces of the name |
| ModifiedUtf7.Flush | src/robotsix_auto_mail/imap/utils.py:55-58 | flushing turns the pending run, if any, into one shifted piece and empties it |
| ModifiedUtf7.PlainSent | src/robotsix_auto_mail/imap/utils.py:60-67 | a character from 0x20 to 0x7E is sent as itself, an ampersand as `&-`, whatever follows |
| ModifiedUtf7.RunSent | src/robotsix_auto_mail/imap/utils.py:55-67 | all other characters that stand together are sent as one shift, whatever follows |
| ModifiedUtf7.ImapUtf7Decode | src/robotsix_auto_mail/imap/utils.py:70-89 | the index scan, errors included, is the tokenise-and-decode specification |
| ModifiedUtf7.FastPath | src/robotsix_auto_mail/imap/utils.py:71-72 | the early return for text without `&` answers what the scan would have |
| ModifiedUtf7.TokenRead | src/robotsix_auto_mail/imap/utils.py:70-89 | the scan cuts encoded text exactly where the encoder joined it |
| ModifiedUtf7.RoundTrip | src/robotsix_auto_mail/imap/utils.py:39-89 | decoding the encoding gives the name back, for every string of Unicode scalar values |
| ModifiedUtf7.Injective | src/robotsix_auto_mail/imap/utils.py:50-67 | two names never share an encoding |
| ModifiedUtf7.ShiftsStandApart | src/robotsix_auto_mail/imap/utils.py:50-67 | no two shifted runs are adjacent, and none carries a character that could be sent plainly |
| ModifiedUtf7.EncodeIsPrintable | src/robotsix_auto_mail/imap/utils.py:50-67 | every encoded character lies between 0x20 and 0x7E |
| EncodingBits.DigitsSpellBytes | src/robotsix_auto_mail/imap/utils.py:39-41 | the digits of any bytes spell their bits in order, followed by fewer than six zero bits and nothing else, for every length modulo 3 |
| EncodingBits.TextSpelled | src/robotsix_auto_mail/imap/utils.py:39-41 | the bytes of a text are its 16-bit units, most significant bit first, with surrogates for what lies beyond them |
| EncodingBits.ShiftSpelled | src/robotsix_auto_mail/imap/utils.py:39-41 | the inside of a shift has only characters of the literal 64-character alphabet and spells the units of its text bit by bit, zeros in what the last digit has left |
| EncodingBits.SpelledOnce | src/robotsix_auto_mail/imap/utils.py:39-41 | no two texts of that alphabet spell the same bits, so what is sent is settled to the last bit |
| DecodingBits.DecodesIff | src/robotsix_auto_mail/imap/utils.py:44-47 | bytes are decoded to a text exactly if they are how that text is encoded |
| DecodingBits.ChunkDecodesIff | src/robotsix_auto_mail/imap/utils.py:44-47 | a chunk of any ASCII characters but padding, other characters passed over, is decoded to a text exactly if its digits can end where they do under the padding its length gets and spell the units of that text |
| DecodingBits.NonAsciiIff | src/robotsix_auto_mail/imap/utils.py:44-47 | a chunk is refused for its characters exactly if one of them is not ASCII |
| DecodingBits.ShiftDecodes | src/robotsix_auto_mail/imap/utils.py:75-89 | in any name, what is before the first ampersand stands for itself and a closed shift for an ampersand if empty and otherwise for what its chunk decodes to |
| DecodingBits.UnterminatedPassed | src/robotsix_auto_mail/imap/utils.py:81-84 | a name whose last ampersand has no end is passed through from there on |
| MailboxName.QuotedRoundTrip | src/robotsix_auto_mail/imap/utils.py:100-112 | a quoted argument unescapes to what was quoted |
| MailboxName.ArgumentRoundTrip | src/robotsix_auto_mail/imap/utils.py:97-112 | the argument, atom or quoted string, reads as an astring to the encoded name |
| MailboxName.MailboxRoundTrip | src/robotsix_auto_mail/imap/utils.py:97-112 | an astring reader followed by the name decoder recovers every mailbox name |
| MailboxName.MailboxInjective | src/robotsix_auto_mail/imap/utils.py:97-112 | two mailboxes are never addressed by the same argument |
| MailboxName.BareIff | src/robotsix_auto_mail/imap/utils.py:97-112 | an argument is sent bare exactly if it is not empty and has letters, digits, dots, underscores, slashes and hyphens only; any other is quoted |
| ConfigSchema.SubSchemaOk | src/robotsix_auto_mail/config/service.py:60-106 | being a well-formed model class passes to every class a field leads to, through optionals, lists and maps |
| ConfigSchema.OptionalKind | src/robotsix_auto_mail/config/service.py:60-106 | a field that may be none is of the kind it would be of otherwise, and one with a choice of types is a plain one |
| ConfigMerge.StripMerge | src/robotsix_auto_mail/config/service.py:114-215 | the non-secret part of a merge is the merge of the non-secret parts |
| ConfigMerge.StripIsSnapshot | src/robotsix_auto_mail/config/service.py:114-142 | what stripping leaves is secret-free at every level |
| ConfigMerge.SnapshotOverwrites | src/robotsix_auto_mail/config/service.py:145-187 | merging a snapshot onto secret-free values overwrites them completely |
| ConfigMerge.ExistingStripped | src/robotsix_auto_mail/config/service.py:218-248 | which stored entry an update is merged onto does not depend on secrets |
| ConfigLaws.RollbackRestores | src/robotsix_auto_mail/config/service.py:114-187 | stripping the merge of anything with the snapshot of `d` gives that snapshot back |
| ConfigLaws.StripTwice | src/robotsix_auto_mail/config/service.py:114-142 | stripping is idempotent |
| ConfigLaws.MergeHidesSecrets | src/robotsix_auto_mail/config/service.py:145-215 | two inputs with the same non-secret part merge to results with the same non-secret part |
| ConfigLaws.MaskedMergeIsIdentity | src/robotsix_auto_mail/config/service.py:145-248 | saving the masked configuration unchanged changes nothing, with distinct identities |
| ConfigLaws.MergeIdempotent | src/robotsix_auto_mail/config/service.py:145-248 | applying an update twice is applying it once, with distinct identities |
| ConfigLaws.AcceptedMergeIdempotent | src/robotsix_auto_mail/config/model.py:543-551 | a merge whose result has distinct identities, as validation demands, changes nothing when it is made again |
| ConfigLaws.DistinctFromMerged | src/robotsix_auto_mail/config/service.py:218-248 | a merge repeats every identity its update repeats |
| ConfigAgreement.MergesAlikeIff | src/robotsix_auto_mail/config/service.py:145-248 | an update makes two values the same exactly if they agree, at every level, on everything it leaves alone |
| ConfigAgreement.MergeItemsIdempotentIff | src/robotsix_auto_mail/config/service.py:218-248 | with identities repeated, merging a list of entries of any shape twice is merging it once exactly if what each entry leaves alone the last one with its identity leaves as stored |
| ConfigSecrets.MergeKeepsOwners | src/robotsix_auto_mail/config/service.py:145-248 | every secret in a merge was stored under the same owner, typed in by the update, or is a declared-but-unset alias |
| ConfigSecrets.StripHasNone | src/robotsix_auto_mail/config/service.py:114-142 | a stripped value holds no secret at any address |
| ConfigSecrets.RollbackSecrets | src/robotsix_auto_mail/config/service.py:399-411 | after a rollback the secrets are exactly the current ones whose owner the snapshot has, secret maps kept whole |
| ConfigMask.MaskHides | src/robotsix_auto_mail/config/service.py:271-290 | whatever a masked configuration holds where a secret belongs is the mask, or says that none is set |
| ConfigMask.MaskShows | src/robotsix_auto_mail/config/service.py:271-290 | wherever a secret is set the masked configuration has the mask at the same address, and an unset one is shown as unset |
| ConfigMask.LooksTheSameIff | src/robotsix_auto_mail/config/service.py:271-290 | two configurations mask to the same value exactly if they are the same up to which non-empty secrets are set to what |
| ConfigDiff.DiffExact | src/robotsix_auto_mail/config/service.py:293-347 | the recorded keys are empty exactly when both configurations are equal up to missing-or-empty containers |
| ConfigDiff.DiffMissesNullContainer | src/robotsix_auto_mail/config/service.py:316-347 | in classes that allow it, a container that goes from none to empty is a change the diff never records |
| ConfigDiff.TypedHasNoGaps | src/robotsix_auto_mail/config/service.py:293-347 | where no container field and no alias may be none, a validated configuration has them all |
| ConfigDiff.DiffComplete | src/robotsix_auto_mail/config/service.py:293-347 | for such classes the changed keys are empty exactly when the two configurations are equal |
| ConfigDiff.DiffSeesOnlyEquality | src/robotsix_auto_mail/config/service.py:293-347 | renaming secret values consistently leaves the recorded keys as they were |
| ConfigPaths.RecordedIff | src/robotsix_auto_mail/config/service.py:300-347 | a path is recorded exactly if it is how a place is written, from the root, at which the two configurations differ and which is as far down as they are compared, marked as secret where it is one, a missing container being read as an empty one |
| ConfigPaths.DifferenceRecorded | src/robotsix_auto_mail/config/service.py:300-347 | wherever two configurations differ a place above or below it is recorded, for classes without missing containers |
| StringOrder.SortedInOrder | src/robotsix_auto_mail/config/service.py:311-327 | the keys of a level are gone through in strictly rising order |
| ConfigPaths.StripShows | src/robotsix_auto_mail/config/service.py:114-142 | stripping takes nothing but the secrets away: at every other place a snapshot shows what is stored |
| ConfigOps.StripSecrets | src/robotsix_auto_mail/config/service.py:114-142 | the loop computes the stripping specification |
| ConfigOps.MergeUpdates | src/robotsix_auto_mail/config/service.py:145-187 | the loop computes the merge, or raises exactly when an identity cannot be a dictionary key |
| ConfigOps.MergeMap | src/robotsix_auto_mail/config/service.py:190-215 | the map loop merges by alias, the update deciding which aliases exist |
| ConfigOps.IndexByIdentity | src/robotsix_auto_mail/config/service.py:224-229 | the index maps each identity to the last stored entry that carries it |
| ConfigOps.MergeList | src/robotsix_auto_mail/config/service.py:218-248 | the list loop matches by identity, then by position, never grafting across identities |
| ConfigOps.CollectChanges | src/robotsix_auto_mail/config/service.py:300-347 | the recursion appends to the caller's list exactly the specified paths, in order |
| ConfigOps.ChangedKeys | src/robotsix_auto_mail/config/service.py:293-297 | the reported paths are the specified ones |
| ConfigOps.WithRealSecrets | src/robotsix_auto_mail/config/service.py:422-472 | re-attaching the real secrets to the masked dump gives the stored values back |
| ConfigValidation.ConformTyped | src/robotsix_auto_mail/config/service.py:350-359 | whatever validation accepts is well typed |
| ConfigValidation.StripConform | src/robotsix_auto_mail/config/service.py:350-359 | accepted candidates with the same non-secret part become configurations with the same non-secret part |
| ConfigValidation.ConformIdentity | src/robotsix_auto_mail/config/service.py:350-359 | a well-typed configuration passes unchanged |
| ConfigValidation.RollbackConforms | src/robotsix_auto_mail/config/service.py:399-411 | a rollback candidate validates in shape as long as secret fields have defaults |
| ConfigUpdates.ExistingIsCounterpart | src/robotsix_auto_mail/config/service.py:218-248 | the stored entry an update's entry is merged onto is the last with its identity, without one the unidentified entry in its place, and otherwise nothing |
| ConfigUpdates.FollowsIff | src/robotsix_auto_mail/config/service.py:145-248 | the merged candidate is accepted in shape and becomes `w` exactly if `w` is well typed and, at every level, has what the update gives, keeps what it omits or leaves blank, and has its default where neither has anything |
| ConfigHashing.RaisesIff | src/robotsix_auto_mail/config/service.py:224-229 | onto a configuration whose identities can be dictionary keys, a merge raises exactly if the update carries an identity that cannot |
| ConfigHashing.BadStaysBad | src/robotsix_auto_mail/config/service.py:218-248 | an identity that cannot be a dictionary key is still there in whatever follows from the update |
| VersionStore.LogGrows | src/robotsix_auto_mail/config/versions.py:84-102 | recording puts the new entry in front and drops what leaves the window of 20 |
| VersionStore.LogNumbering | src/robotsix_auto_mail/config/versions.py:58-102 | versions are consecutive, newest first, at most 20, the newest being the count recorded |
| VersionStore.SnapshotIff | src/robotsix_auto_mail/config/versions.py:74-82 | a version leads to a snapshot exactly if that snapshot is logged under its number |
| VersionStore.ConfigVersionStore.CurrentVersion | src/robotsix_auto_mail/config/versions.py:58-61 | the current version is the number of records ever made |
| VersionStore.ConfigVersionStore.Snapshot | src/robotsix_auto_mail/config/versions.py:74-82 | a version yields what was recorded under it while retained, and nothing otherwise |
| VersionStore.ConfigVersionStore.Record | src/robotsix_auto_mail/config/versions.py:84-102 | recording appends to the history and returns its length as the version |
| ConfigService.RunKeepsInv | src/robotsix_auto_mail/config/service.py:281-411 | over every run the stored configuration is valid and each version is a valid one without secrets |
| ConfigService.HistoryHoldsNoSecret | src/robotsix_auto_mail/config/service.py:281-411 | over every run no recorded version holds a secret |
| ConfigService.RollbackRestoresVersion | src/robotsix_auto_mail/config/service.py:399-411 | an accepted rollback restores the recorded version and records it as the newest |
| ConfigService.UpdateTakes | src/robotsix_auto_mail/config/service.py:362-396 | an update is accepted exactly if its identities can be looked up and a valid configuration follows from it; that one is stored, and recorded without its secrets together with exactly the places at which it differs |
| ConfigService.RollbackTakes | src/robotsix_auto_mail/config/service.py:399-411 | a rollback is accepted exactly if the version is retained and a valid configuration follows from its snapshot, which is then stored and recorded |
| ConfigService.ReadSeeds | src/robotsix_auto_mail/config/service.py:281-290 | reading changes nothing but the beginning of an empty history |
| ConfigAcceptance.ConformsAlike | src/robotsix_auto_mail/config/service.py:350-359 | a candidate with other secrets of the declared kind fits the model classes just as well |
| ConfigAcceptance.RaisesStripped | src/robotsix_auto_mail/config/service.py:218-229 | whether a merge raises is decided by the non-secret parts |
| ConfigAcceptance.MergeFits | src/robotsix_auto_mail/config/service.py:145-215 | merging secrets of the declared kind onto a stored configuration gives secrets of the declared kind |
| ConfigService.ApplyHidesSecrets | src/robotsix_auto_mail/config/service.py:281-411 | one request in two states that differ in secrets only is accepted in both or in neither |
| ConfigService.HistoryIndependentOfSecrets | src/robotsix_auto_mail/config/service.py:281-411 | runs that differ only in secret values, given as the classes declare them, record the same versions |
| ConfigRenaming.StripRenamed | src/robotsix_auto_mail/config/service.py:114-142 | stripping does not see which secrets were exchanged |
| ConfigRenaming.MergeRenamed | src/robotsix_auto_mail/config/service.py:145-248 | merging with the secrets exchanged one for one is merging and then exchanging them |
| ConfigRenaming.ConformRenamed | src/robotsix_auto_mail/config/service.py:350-359 | a candidate with the secrets exchanged is accepted in shape just as well and becomes the same with them exchanged |
| ConfigService.ApplyRenamed | src/robotsix_auto_mail/config/service.py:281-411 | one request with the secrets exchanged, in a state with the secrets exchanged, does the same and records the same |
| ConfigService.HistorySeesOnlyEquality | src/robotsix_auto_mail/config/service.py:281-411 | exchange the secrets of the store and of every request one for one: over every run the history is the same, recorded changes included |
| ConfigShipped.ShippedOk | src/robotsix_auto_mail/config/model.py:434-541 | the shipped model classes meet what the other results ask of classes |
| ConfigShipped.ShippedDiffComplete | src/robotsix_auto_mail/config/model.py:434-541 | for the stored configuration the changed keys are empty exactly when it did not change |
| ConfigShipped.ShippedMergeIdempotent | src/robotsix_auto_mail/config/model.py:543-551 | an update whose result has unique account ids changes nothing when it is sent again |
| ConfigShipped.ShippedOptional | src/robotsix_auto_mail/config/model.py:78-275 | every secret of the shipped classes may be left out of a request |
| ConfigChecks.ShippedBlind | src/robotsix_auto_mail/config/model.py:280-314 | what the validators check beyond shape does not depend on secrets |
| ConfigChecks.IdAcceptedIff | src/robotsix_auto_mail/config/model.py:343-385 | an account identifier is accepted exactly if it is letters, digits, dots, underscores and hyphens, followed by one newline at most |
| ConfigChecks.EmptyIsAccepted | src/robotsix_auto_mail/config/service.py:263-269 | the configuration the program starts from when it has none is accepted, with every default in place |
| ConfigChecks.ShippedHistoryBlind | src/robotsix_auto_mail/config/service.py:281-411 | for the program itself: runs that differ only in secret values record the same versions |
| ConfigChecks.ShippedHistorySame | src/robotsix_auto_mail/config/service.py:281-411 | for the program itself: with the secrets exchanged one for one the whole history is the same |
| ConfigChecks.ShippedUpdateIdempotent | src/robotsix_auto_mail/config/model.py:543-551 | an update the program accepts changes nothing when it is sent again |
| ConfigChecks.ShippedUpdateTakes | src/robotsix_auto_mail/config/service.py:362-396 | the program accepts an update exactly if a configuration follows from it that its model classes and validators accept; that one is stored and recorded |
| ConfigChecks.ShippedRollbackTakes | src/robotsix_auto_mail/config/service.py:399-411 | the program accepts a rollback exactly if the version is retained and such a configuration follows from its snapshot |
| ConfigService.Service.GetConfig | src/robotsix_auto_mail/config/service.py:281-290 | a reader sees the masked configuration, in which every secret is the mask, empty or none, and the first read seeds the history |
| ConfigService.Service.Persist | src/robotsix_auto_mail/config/service.py:362-381 | a rejected candidate changes nothing; an accepted one is stored and versioned, after a seed if needed |
| ConfigService.Service.UpdateConfig | src/robotsix_auto_mail/config/service.py:384-396 | an update is the merge onto the real values, validated and versioned |
| ConfigService.Service.RollbackTo | src/robotsix_auto_mail/config/service.py:399-411 | a rollback to an unknown version is refused; otherwise the snapshot is merged, validated and versioned |
| ChunkedMoves.DeleteRefines | src/robotsix_auto_mail/imap/client.py:858-908 | chunks of 100, duplicates and stale identifiers make no difference: the folder loses the listed messages and whatever was flagged |
| ChunkedMoves.MoveRefines | src/robotsix_auto_mail/imap/client.py:858-948 | with no listed message flagged, the chunked move is one set operation with one copy per listed live message and nothing else gained |
| ChunkedMoves.MoveKeepsBalance | src/robotsix_auto_mail/imap/client.py:927-948 | after every chunk each copy stands for one original, carries its mail and flag and is new to the destination |
| ChunkedMoves.MoveLosesNothingIff | src/robotsix_auto_mail/imap/client.py:927-948 | a move loses mail exactly when a message flagged beforehand is missing from the first chunk that takes effect |
| ImapClient.SearchFinds | src/robotsix_auto_mail/imap/client.py:617-652 | a search for a set of identifiers answers with those that exist |
| ImapClient.Client.ListFolders | src/robotsix_auto_mail/imap/client.py:334-354 | the listing names every folder, with its delimiter |
| ImapClient.Client.SelectFolder | src/robotsix_auto_mail/imap/client.py:356-380 | selecting succeeds on an existing selectable folder and reports its message count |
| ImapClient.Client.CreateFolder | src/robotsix_auto_mail/imap/client.py:464-504 | creating is idempotent: it succeeds only if the folder exists afterwards, and a new folder is empty |
| ImapClient.Client.DeleteFolder | src/robotsix_auto_mail/imap/client.py:506-528 | a failed deletion may have taken effect; a successful one has |
| ImapClient.Client.DeleteMessage | src/robotsix_auto_mail/imap/client.py:782-811 | a stale identifier is reported as not found and changes nothing; otherwise the message goes |
| ImapClient.Client.DeleteMessages | src/robotsix_auto_mail/imap/client.py:876-908 | whatever fails, only listed or already flagged messages are flagged or gone at every command boundary; without failures it is the chunked deletion |
| ImapClient.Client.MoveMessage | src/robotsix_auto_mail/imap/client.py:813-856 | whatever fails, every original is still there or has a copy at every command boundary, and other messages are untouched |
| ImapClient.Client.MoveMessages | src/robotsix_auto_mail/imap/client.py:910-948 | whatever COPY, STORE or EXPUNGE fails, every original of an unflagged source is in the source or has a copy of its own at every command boundary, and afterwards no unflagged message of any source is gone or flagged without an unflagged copy; success leaves exactly what the server claimed not to have copied, and without that is the chunked move |
| ImapClient.BackedTwice | src/robotsix_auto_mail/imap/client.py:927-948 | a chunk that follows another leaves no unflagged message of the source without a copy |
| ImapClient.StrippedMore | src/robotsix_auto_mail/imap/client.py:927-948 | which messages are left after a move in which some COPYs claimed to have copied nothing |
| ImapClient.SafeAfterDelete | src/robotsix_auto_mail/imap/client.py:934-948 | copies are accounted for before originals go, so every state of the deletion is safe |
| ImapClient.ContainedTwice | src/robotsix_auto_mail/imap/client.py:910-948 | successive chunks together touch only the listed messages |
| ArchiveCleanup.LinksAreSubtrees | src/robotsix_auto_mail/db/archive.py:301-309 | in a parent-closed listing the parent links spell out the folder hierarchy |
| ArchiveCleanup.ParentSegments | src/robotsix_auto_mail/db/archive.py:301-309 | the folder above is the one with all segments but the last |
| ArchiveCleanup.InsideSegments | src/robotsix_auto_mail/db/archive.py:288-298 | lying inside a folder is having its segments as a proper beginning of one's own |
| ArchiveCleanup.BarrenByChildren | src/robotsix_auto_mail/db/archive.py:320-350 | a folder may go exactly when it is empty and all its children may |
| ArchiveCleanup.SortByDepth | src/robotsix_auto_mail/db/archive.py:311-318 | the walk visits every folder once, deeper ones first |
| ArchiveCleanup.RemoveIfEmpty | src/robotsix_auto_mail/db/archive.py:328-342 | one folder is selected, checked to be empty and deleted |
| ArchiveCleanup.Walk | src/robotsix_auto_mail/db/archive.py:320-352 | the walk with its shrinking child sets; what it deletes under any failures and exactly without |
| ArchiveCleanup.Cleanup | src/robotsix_auto_mail/db/archive.py:288-352 | whatever fails, at every command boundary only empty folders whose segments extend the root's are gone, none before its children; deleted plus skipped is the number examined; without failures, if every parent exists, exactly the folders go below which no message is |
| ArchiveCleanup.EmptySubtreesGo | src/robotsix_auto_mail/db/archive.py:288-352 | if every parent exists the deleted folders are those below the root whose whole subtree, segment by segment, holds no message |
| ArchivePaths.JoinSplit | src/robotsix_auto_mail/server/adapters.py:251-253 | joining the segments of a folder name gives the name |
| ArchivePaths.DestinationFiles | src/robotsix_auto_mail/server/adapters.py:220-241 | an accepted destination is the root exactly if the subfolder is empty, and otherwise has the segments of the root followed by those of the subfolder, cut at slashes and at the delimiter |
| ArchivePaths.FiledApart | src/robotsix_auto_mail/server/adapters.py:231-241 | subfolders with different segments lead to different folders |
| ArchivePaths.DestinationStaysInside | src/robotsix_auto_mail/server/adapters.py:220-241 | a destination is refused exactly when a segment is `..`, and otherwise lies at or below the root; the prefix test never decides |
| ArchivePaths.EnsureHierarchy | src/robotsix_auto_mail/server/adapters.py:244-253 | every ancestor exists afterwards and nothing but empty ancestors is added, whatever fails |
| ArchiveDelete.EmptyAndDelete | src/robotsix_auto_mail/server/_archive_service.py:530-548 | one folder of the subtree is emptied and deleted, disturbing nothing outside |
| ArchiveDelete.ForceDelete | src/robotsix_auto_mail/server/_archive_service.py:527-548 | deepest first: no folder goes before the ones inside it at any command boundary, nothing outside the subtree changes, and success removes exactly the subtree |
| ArchiveDelete.TargetInside | src/robotsix_auto_mail/server/_archive_service.py:476-493 | the folder a request names always lies inside the archive root, so the prefix test refuses nothing |
| ArchiveDelete.TargetSegments | src/robotsix_auto_mail/server/_archive_service.py:476-493 | the folder a request names has the segments of the root followed by those of the request |
| ArchiveDelete.DeleteListed | src/robotsix_auto_mail/server/_archive_service.py:495-553 | without force only an empty folder without subfolders goes; each refusal leaves everything as it was |
| ArchiveDelete.DeleteFolderOnRequest | src/robotsix_auto_mail/server/_archive_service.py:422-553 | an incomplete request and one with a `..` segment are refused before any command; otherwise nothing outside the named folder inside the archive root changes |
| MailDatabase.Database.InsertRecord | src/robotsix_auto_mail/db/queries.py:133-181 | an insert adds exactly the new row or leaves the existing one alone |
| MailDatabase.Database.UpdateRecordSource | src/robotsix_auto_mail/db/queries.py:310-331 | only an existing row is relocated |
| MailDatabase.Database.DeleteRecord | src/robotsix_auto_mail/db/queries.py:355-373 | the row and its decision go together |
| IngestBatch.ProcessMessages | src/robotsix_auto_mail/pipeline/__init__.py:211-328 | the loop computes the specified table and tally |
| IngestBatch.TableHolds | src/robotsix_auto_mail/pipeline/__init__.py:240-328 | after a run that is not dry a new Message-ID has the mail of the first message of the batch that parses to it and was not refused, one that was there keeps its mail, and each names the folder and identifier it was last seen under |
| IngestBatch.ErrorsExactly | src/robotsix_auto_mail/pipeline/__init__.py:240-328 | the errors reported are exactly the messages that do not parse and the new ones the database refuses |
| IngestBatch.NumbersAddUp | src/robotsix_auto_mail/pipeline/__init__.py:240-328 | stored, skipped and errors add up to the batch, the table gains exactly `stored` new Message-IDs and loses none, and a dry run changes no row |
| IngestBatch.NothingDropped | src/robotsix_auto_mail/pipeline/__init__.py:240-328 | every fetched message ends in the table or among the errors |
| IngestBatch.RerunStoresNothing | src/robotsix_auto_mail/pipeline/__init__.py:240-328 | a batch whose inserts worked stores nothing the second time and leaves the table exactly as it is |
| IngestBatch.DryRunPredicts | src/robotsix_auto_mail/pipeline/__init__.py:265-290 | a dry run predicts the number stored exactly when no new Message-ID occurs twice, and more otherwise |
| IngestSafety.StepKeeps | src/robotsix_auto_mail/pipeline/__init__.py:59-164 | every step of ingest, delivery, expunge, renumbering, deletion of rows and interruption keeps the invariant |
| IngestSafety.RunKeeps | src/robotsix_auto_mail/pipeline/__init__.py:389-414 | the invariant holds over every run |
| IngestSafety.NothingSkipped | src/robotsix_auto_mail/pipeline/__init__.py:389-414 | over every interleaved run, when the stored validity is the server's every message up to the watermark was stored, deduplicated or reported, unless a run was misled |
| IngestSafety.StoredStays | src/robotsix_auto_mail/pipeline/__init__.py:265-328 | over every run whatever was stored is in the table unless somebody deleted it |
| IngestSafety.RowsFromServer | src/robotsix_auto_mail/pipeline/__init__.py:240-328 | over every run from the start each row's mail is one the server delivered and that was parsed to that Message-ID |
| IngestSafety.NeverMisled | src/robotsix_auto_mail/pipeline/__init__.py:405-414 | no run is misled as long as none is cut short between the watermark and the first validity ever |
| IngestSafety.NothingEverSkipped | src/robotsix_auto_mail/pipeline/__init__.py:389-414 | from an empty database, or a sound one with its validity stored, with that guard no run ever skips a message |
| IngestProtocol.StoringRuns | src/robotsix_auto_mail/pipeline/__init__.py:240-328 | storing message by message is the batch |
| IngestRun.ReconcileUidvalidity | src/robotsix_auto_mail/pipeline/__init__.py:59-99 | a changed validity drops the watermark, except on a dry run; it succeeds exactly if the folder can be selected and the command works |
| IngestRun.FetchNewMessages | src/robotsix_auto_mail/pipeline/__init__.py:102-155 | the messages above the watermark, or all without one, whenever the folder can be selected, the watermark is a number and no command fails |
| IngestRun.FetchesAbove | src/robotsix_auto_mail/pipeline/__init__.py:133-155 | although the range search also answers with the highest message, exactly the messages above the watermark are fetched, the oldest first |
| IngestRun.IngestMail | src/robotsix_auto_mail/pipeline/__init__.py:331-414 | the code's run is a run of the protocol, cut short wherever a command fails and complete otherwise; a missing folder and a dry run change nothing |
| IngestRun.WholeRunIs | src/robotsix_auto_mail/pipeline/__init__.py:389-414 | a run nobody disturbs, in one step |
| IngestRun.CoversIff | src/robotsix_auto_mail/pipeline/__init__.py:389-414 | after an undisturbed run everything up to the watermark is accounted for exactly when it was up to the watermark it set out from |
| IngestRun.NextRunFetches | src/robotsix_auto_mail/pipeline/__init__.py:59-164 | the run after an undisturbed one fetches exactly the messages that came since, or all of them if the server has renumbered and the run is not dry |
| IngestRun.UncheckedStart | src/robotsix_auto_mail/pipeline/__init__.py:86-99 | starting with a watermark and no stored validity, everything is covered exactly if the old watermark held under the validity of now |
| IngestRun.CutShortUnsafelyLoses | src/robotsix_auto_mail/pipeline/__init__.py:411-414 | for every first run cut short between its two writes a renumbering exists after which the next run skips a message for good |
| Resolve.ResolveUidWithFallback | src/robotsix_auto_mail/imap/mailbox.py:138-164 | a live identifier is trusted as it is; otherwise the lowest message with the Message-ID, or not found |
| Resolve.SearchOthers | src/robotsix_auto_mail/imap/mailbox.py:241-257 | every listed folder that is neither waste nor unselectable is searched, and the answer is the first in the order listed that holds the message |
| Resolve.CrossFolderResolve | src/robotsix_auto_mail/imap/mailbox.py:196-257 | the answer names the source folder exactly when it could be looked at and holds the message; none means no searched folder holds it; only what fails after the look is reported |
| Reconcile.BuildIndex | src/robotsix_auto_mail/pipeline/reconcile.py:48-51 | every tracked row is represented under its folder and identifier |
| Reconcile.FindPresent | src/robotsix_auto_mail/pipeline/reconcile.py:80-96 | searching in chunks of 500 finds exactly the identifiers that exist |
| Reconcile.ReconcileRow | src/robotsix_auto_mail/pipeline/reconcile.py:99-130 | if nothing fails after the look into the row's folder, the row is given up exactly if that look failed or found nothing, and healed otherwise |
| Reconcile.PruneFolder | src/robotsix_auto_mail/pipeline/reconcile.py:58-69 | rows that drifted out of the monitored folder are removed and counted |
| Reconcile.ReconcileFolder | src/robotsix_auto_mail/pipeline/reconcile.py:57-130 | one group: whatever fails no row goes whose identifier is present; without failures each row meets its verdict |
| Reconcile.ReconcileRecords | src/robotsix_auto_mail/pipeline/reconcile.py:48-132 | `removed` is the drop in rows and `healed` the number changed; no row goes whose identifier is present in its monitored folder, and decisions go exactly with their rows; without failures and with distinct pairs the table is exactly the reconciled one |
| Reconcile.ReconciledIff | src/robotsix_auto_mail/pipeline/reconcile.py:48-132 | the rows a pass is to leave are the only ones in which what is tracked is where it is monitored and exists, only identifiers that named nothing were replaced, by the lowest with the Message-ID, and only what had left the folder or cannot be found is gone |
| Reconcile.ReconciledIsStable | src/robotsix_auto_mail/pipeline/reconcile.py:48-132 | every row a pass leaves is one the next pass keeps, so a second pass reports nothing |
| BatchRecords.CollectRecords | src/robotsix_auto_mail/server/adapters.py:285-297 | one record for every row decided this way |
| BatchRecords.GroupBy | src/robotsix_auto_mail/server/adapters.py:415-421 | one group for each key that occurs, holding exactly its records in their order |
| BatchRecords.ProgressIsRunning | src/robotsix_auto_mail/server/adapters.py:210-217 | every progress payload reads as running, so only the reset ends a batch |
| BatchRecords.ProgressReads | src/robotsix_auto_mail/server/views/board_data.py:71-95 | a reader of a progress payload recovers the operation, how many are done and of how many |
| BatchRecords.DeleteAllRows | src/robotsix_auto_mail/server/adapters.py:300-316 | the database-only path deletes the rows one by one until all are gone or the database raises, and the progress it writes rises to the number deleted |
| BatchRecords.CountedMore | src/robotsix_auto_mail/server/adapters.py:371-388 | progress written to the watermark table never goes back and stays within the total |
| BatchDelete.CrossFolderFallback | src/robotsix_auto_mail/server/adapters.py:256-282 | a message found in any folder has its row pointed there; unless that write raises, none means that no searched folder holds it |
| BatchDelete.ResolveForDelete | src/robotsix_auto_mail/server/adapters.py:430-451 | after resolving, the record's message is at the returned identifier of its folder, or is not in the folder and was deleted where it was found, unless no searched folder held it; other mail is where it was |
| BatchDelete.ProcessDeleteGroup | src/robotsix_auto_mail/server/adapters.py:423-468 | rows go chunk by chunk with their decisions, each after its message has left the folder and was deleted from there or where else it was found, until something fails or the database raises between two rows; other unflagged mail is where it was, and a row that is left names a place its message was found at |
| BatchDelete.RunBatchDelete | src/robotsix_auto_mail/server/adapters.py:356-391 | whatever fails the state ends idle after progress that rises within the total, unflagged mail that was not decided TO_DELETE is where it was, a tracked row goes only after its message left its folder and was deleted from there or where else it was found, unless no searched folder held it, decisions go exactly with their rows, and a row that is left is unchanged or names a place its message was found at; without a connection or tracked rows no mail is touched; undisturbed, no row decided TO_DELETE is left |
| BatchDelete.DeleteAgain | src/robotsix_auto_mail/server/adapters.py:394-405 | a run interrupted anywhere and then an undisturbed one leave no row that was to be deleted, each tracked message was deleted as far as it could be found and has left the folder its row named before the first run, and no other mail is touched |
| BatchDelete.DeletesItsOwnIff | src/robotsix_auto_mail/imap/mailbox.py:156-159 | deleting by a live identifier removes the row's own message exactly when the identifier points right |
| BatchArchive.ArchiveElsewhere | src/robotsix_auto_mail/server/adapters.py:583-589 | a message found in another folder ends in the destination, and whatever fails an unflagged copy is where it was or there |
| BatchArchive.ResolveForArchive | src/robotsix_auto_mail/server/adapters.py:572-593 | after resolving, the message is in its folder, in the destination, or was in no searched folder; its row names a place it was found at |
| BatchArchive.MoveFound | src/robotsix_auto_mail/server/adapters.py:595-601 | the destination is made and what was found leaves its folder for it, except what the server claimed not to have copied |
| BatchArchive.ProcessArchiveGroup | src/robotsix_auto_mail/server/adapters.py:556-627 | no row of a group goes before all of its mail has been dealt with, and the database may raise between any two; once one goes, the group is done (every message in the destination or findable nowhere before, and gone from its folder) exactly if no COPY claimed to have copied nothing, or only of messages flagged before while others were copied, or the folder is the destination |
| BatchArchive.MailLeftBehind | src/robotsix_auto_mail/server/adapters.py:595-627 | for any message, the only one of its folder, whose row is to be archived elsewhere: if COPY copies nothing and says so, the row goes, the message stays and there is no copy |
| BatchArchive.Destinations | src/robotsix_auto_mail/server/adapters.py:541-553 | records whose destination escapes the root are passed over |
| BatchArchive.PlanFiles | src/robotsix_auto_mail/server/adapters.py:541-553 | each planned message goes to the folder with the segments of the root and its subfolder, and is passed over exactly if one of those is `..` |
| BatchArchive.RunBatchArchive | src/robotsix_auto_mail/server/adapters.py:356-391 | whatever fails, command or database, the state ends idle after progress that rises within the total, no other mail or row is touched, each message that was unflagged anywhere is still there or in the folder with the segments of the root and its subfolder, and what the worker relied on holds again; rows follow their mail; where the server is asked only planned rows change, and where it is not no mail does; unhindered only rows whose destination escapes the root are left |
| BatchArchive.ArchiveAgain | src/robotsix_auto_mail/server/adapters.py:489-503 | a run interrupted anywhere and then another touch no other mail, and no message is lost on the way; if the second is unhindered no planned row is left, and each message is in its destination or was nowhere to be found before the first run, and has left its folder |
| BatchArchive.DoneAgain | src/robotsix_auto_mail/server/adapters.py:572-593 | a record the first run moved on and the second finished is done as seen from before both |
| Custody.CarriedByMove | src/robotsix_auto_mail/imap/client.py:813-948 | a move cut short anywhere leaves every message where it was or in the destination, flagged only if the destination has an unflagged copy, and brings it nowhere else |
| Custody.CarriedByOthers | src/robotsix_auto_mail/server/adapters.py:571-601 | work on other mail carries this mail |
| Custody.LookBack | src/robotsix_auto_mail/server/adapters.py:572-593 | a message that cannot be found after work on other mail could not be found before, or is in its destination |
| FetchPairing.FetchMessages | src/robotsix_auto_mail/imap/client.py:687-723 | the loop with its pending body computes the pairing |
| FetchPairing.PairsOnlyNeighbours | src/robotsix_auto_mail/imap/client.py:687-723 | for any data a body is paired only with the identifier of its own header or of the line right behind it, in order |
| FetchPairing.HeaderRead | src/robotsix_auto_mail/imap/_parsing.py:322-344 | the identifier is read from a header that carries it, and none from one that does not |
| FetchPairing.TrailerRead | src/robotsix_auto_mail/imap/_parsing.py:347-364 | the identifier is read from a trailing line |
| FetchPairing.ResponsesComeBack | src/robotsix_auto_mail/imap/client.py:687-723 | for any interleaving of the two server shapes the sent messages come back in order |
| FetchScanner.CloseGroup | src/robotsix_auto_mail/imap/_parsing.py:80-91 | the loop over `depth` finds the end of a group |
| FetchScanner.FormatFirstAddress | src/robotsix_auto_mail/imap/_parsing.py:209-266 | the loops compute the first address |
| FetchScanner.ReadFieldAt | src/robotsix_auto_mail/imap/_parsing.py:149-182 | one field is read and the index moves on |
| FetchScanner.ParseEnvelopeInline | src/robotsix_auto_mail/imap/_parsing.py:140-206 | the ten fields are read in order |
| FetchScanner.ParseInlineFetchAttrs | src/robotsix_auto_mail/imap/_parsing.py:22-127 | the index-driven scan is the specification; it says so where the source would loop for ever |
| FetchPrinter.GroupReadIff | src/robotsix_auto_mail/imap/_parsing.py:80-91 | a group is read back whole exactly when the parentheses in its content match |
| FetchPrinter.AddressRead | src/robotsix_auto_mail/imap/_parsing.py:209-266 | a printed address reads back to its short form |
| FetchPrinter.EnvelopeRead | src/robotsix_auto_mail/imap/_parsing.py:140-206 | a printed envelope reads back to its fields |
| FetchPrinter.LineReadsBack | src/robotsix_auto_mail/imap/_parsing.py:22-127 | a printed line with any attributes in any order reads back exactly, for strings without quotes or backslashes whose parentheses match |
| FetchPrinter.UidReadsBack | src/robotsix_auto_mail/imap/_parsing.py:322-344 | the same line yields its identifier |
| FetchForms.LooseLineReads | src/robotsix_auto_mail/imap/_parsing.py:63-127 | keys in any case and any number of spaces make no difference to what a line says |
| FetchForms.UnusableIff | src/robotsix_auto_mail/imap/_parsing.py:41-47 | a line is given up exactly if it has no opening parenthesis or does not end with a closing one |
| FetchForms.AtomRead | src/robotsix_auto_mail/imap/_parsing.py:177-182 | an atom is read as it is, in an envelope and in an address |
| FetchForms.OpenQuote | src/robotsix_auto_mail/imap/_parsing.py:101-112 | a string whose closing quote is missing is everything that is left |
| FetchForms.OpenGroup | src/robotsix_auto_mail/imap/_parsing.py:80-91 | a group that is never closed takes everything that is left, less its last character |
| FetchForms.OthersSkipped | src/robotsix_auto_mail/imap/_parsing.py:78-125 | attributes of other names are passed over, whatever their values |
| FetchForms.BadSizeSkipped | src/robotsix_auto_mail/imap/_parsing.py:123-125 | a size that is no number is passed over |
| FetchForms.ShortEnvelopeRead | src/robotsix_auto_mail/imap/_parsing.py:184-206 | an envelope cut short gives the fields it has and nothing for the others |
| FetchForms.PaddedAddresses | src/robotsix_auto_mail/imap/_parsing.py:215-231 | whitespace around a list of addresses makes no difference |
| FetchTrap.NeverEndsIff | src/robotsix_auto_mail/imap/_parsing.py:63-127 | the scan never ends exactly if the text is complete items followed by a closing parenthesis where a key or a value should be |
| FetchTrap.EnvelopeNeverEndsIff | src/robotsix_auto_mail/imap/_parsing.py:63-127 | whatever the strings of its ENVELOPE, a printed line never lets the scan finish exactly if what is left behind the end the scan takes the ENVELOPE to have is such a text |
| FetchTrap.UnmatchedNeverEnds | src/robotsix_auto_mail/imap/_parsing.py:63-127 | a string with one closing parenthesis too many, anywhere in an ENVELOPE, never lets the scan finish if no string from there on has a space in it |
| PromptSection.SectionReadsBack | src/robotsix_auto_mail/core/prompt_blocks.py:30-45 | whatever the content, a reader recovers name, content and what follows |
| PromptSection.FenceClosesLast | src/robotsix_auto_mail/core/prompt_blocks.py:43-45 | no line of the content starts with the fence |
| PromptSection.FenceShortest | src/robotsix_auto_mail/core/prompt_blocks.py:30-45 | the fence is four backticks, or as few more as the content does not have in a row |

## Left out

- JSON numbers other than by equality, Python's `1 == True`, and the order of keys inside dictionaries.
- How scalars are coerced and normalised (`log_level` to upper case, `log_format` to lower case): validators are
  predicates on what results. The laws take them as given; `ConfigChecks` has the program's own.
- Unreadable configuration and history files, path resolution on load, timestamps, the file write itself.
- Servers that do not advertise UIDVALIDITY, and a SELECT answer without a message count.
- `int()` on signs, underscores, surrounding whitespace and non-ASCII digits; Unicode whitespace and case mapping.
- The case-insensitivity of INBOX, and HEADER searches matching a substring of the Message-ID.
- Multi-character hierarchy delimiters: a delimiter is one character, as section 7.2.2 of RFC 3501 has it.
- The second connection of the cross-folder fallback in the batch workers: one client stands for both, since each
  selects its folder before acting.
- A database that cannot be read, and errors of its own outside the batch workers, in the first and last watermark
  write of a batch, inside a commit, or between the two statements that delete one row.
- Concurrent changes to the mailbox during a move, a cleanup, a reconciliation or a batch; only ingestion is interleaved.
- MIME parsing (an arbitrary partial function from a message to its Message-ID), triage, the LLM proposals (given
  subfolders), the audit log and the record columns other than folder, identifier and message.
- First-run archive setup, folder renaming, special-use and waste-folder tables (given sets), HTTP handling, logging, locks.
- The `/archive-create` and `/archive-move` handlers: their folder creation is `ArchivePaths.EnsureHierarchy`.
- The `COPYUID` and `APPENDUID` patterns: a COPY answer says directly whether it claims an empty set.
- ImapClient.Client.MoveMessages: the account at every command boundary is stated for a destination other than the
  source; within one folder the contract speaks of the end of the call.
- ImapClient.Client.SelectFolder: read-write selection only, as the destructive commands need it.
- ConfigService.HistoryIndependentOfSecrets: secrets that are no strings are not covered, because validation rejects a
  request for them.
- BatchArchive.RunBatchArchive: where a tracked row names a folder that this run archives to, the folder must exist and
  have assigned the identifier, because a stale one could come to mean a message that arrives.
- Reconcile.ReconcileRecords: of several rows tracking the same folder and identifier the code looks at one; the exact
  result is stated for distinct pairs.
