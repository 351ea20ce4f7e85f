# SecureFlow verification model

A Dafny model of the parts of SecureFlow whose correctness is a statement over all inputs, all runs or all
schedules, with machine-checked proofs. `dafny verify dfyconfig.toml` checks everything.

Each module models one component and is written in that component's own form: code that changes state is a class
or a method with loops, proved against a specification; pure code is functions with lemmas about them.

**Target fingerprint** (`Framing`, `TargetTree`, `TargetWalk`, `TargetFingerprint`, `TargetPruning`,
`TargetHasher`). The pruned,
limited directory traversal with its threaded counters, the global sort, and the length-prefixed byte stream. A
directory is a map from names to nodes and `read_dir` returns its names in any order. The hasher is the sequence
of bytes it was fed. Main results: the outcome does not depend on enumeration order; success is the declarative
acceptance of the whole pruned tree; the stream is uniquely decodable, so equal streams mean equal targets; and what
the two pruned names hide never matters, while no other name is ever dropped.

**Output readers** (`OutputReaders`). Two threads drain two pipes against one atomic budget. A run is any
interleaving of reads, charges, ends of file and read failures. Main result: no schedule or chunking changes the
verdict.

**Identity preimages** (`IdentityPreimages`). The engine configuration hash and the bundle identifier.

**Bundle install and publication** (`FileSystem`, `BundleInstall`, `BundleReads`, `BundlePublish`,
`BundleProfile`). Paths map to inodes and inodes to bytes; every operation may fail. The installer rolls back; the
journalled publication never does, and a crash leaves, name by name, the live or the durable entry. A log of links, syncs
and reads says in which order things are made durable. The bounded
hash and decompression loops read in arbitrarily short pieces. The profile check splits a catalog into core and
malicious parts.

**Security Case** (`Characters`, `SecurityCase`, `CasePromise`, `CaseValidator`, `ReviewRoomParser`, `Json`, `Sarif`,
`CaseOperations`, `DerivedIds`, `SarifRoundTrip`, `AtomicWrite`, `CaseSession`). The contract is stated once without any order of
checks, and once more with every bound and literal written out. The Rust validator and the TypeScript parser are both proved equivalent to it, each under its own reading of
strings, and so related to each other. The operations, every run of them, the identifiers they derive, the SARIF
round trip and the MCP session follow.

**Prospective study** (`ProspectiveStudy`, `ProspectiveSubmission`). Dataset, lanes, binding, control artifacts and
submissions, up to the isolation of holdout cases.

**Three algorithms** (`Markdown`, `SchemaRefs`, `CatalogBatches`). The sequential escaper, the closure of schema
references, and size-bounded batching.

## Where the code differs from what one would expect

- The two Security Case validators do not accept the same cases. With the same notions of white space and of
  timestamps they differ exactly on a relative path that is blank (or longer than 2^53 - 1 bytes): only the Rust side
  accepts it (`ValidatorsAgree`). On the real platforms two more things differ. White space differs on U+0085 and
  U+FEFF, so either side can accept a label the other refuses. The timestamp parsers are different programs: the
  browser's refuses a lower-case zone letter and second sixty. `PlatformsAgreeExactly` is the exact condition for any
  two parsers, and `SidesSeparate`, `LowerCaseZoneSeparates` and `LeapSecondSeparates` show each difference.
- A protocol must declare the treatment its lanes' only planned difference, but cohort, configuration and number of
  reviewers are never compared (`CohortsMayDiffer`, `OnlyTreatmentDiffersIff`).
- The aggregate size re-check after the readers are joined is dead code (`RecheckNeverFires`).
- The separate record-count test of a projection follows from the entry test (`RecordCountImplied`).
- When the last parent sync of `install_bundle` fails, the caller gets an error although the output is in place
  (`FinalSyncFailed`). When only the folder sync after the journal's rename fails, recovery reports an error although
  the settled journal is in place; recovering again gives the same journal (`RecoverPending`, `SettledAgain`).
- The schema generator strips `#/$defs/` where it finds it and does not ask for it, so a reference without the prefix,
  or with a slash in its name, is emitted and resolves nowhere (`DanglingIsEmitted`; `AllResolveIff` is the exact
  condition).

## Model

| member | source | states |
|---|---|---|
| `Framing.ReadFieldsUndoes` | crates/secureflow-engine-adapter/src/lib.rs:1296-1299 | a reader recovers every list of length-prefixed fields from its stream, although the number of fields is never written |
| `Framing.ReadFieldsCanonical` | crates/secureflow-engine-adapter/src/lib.rs:1296-1299 | whatever stream the reader accepts re-encodes to the same bytes: no two streams stand for one list |
| `Framing.FieldsInjective` | crates/secureflow-engine-adapter/src/lib.rs:1296-1299 | two field streams are equal exactly when the field lists are |
| `TargetTree.ListingProperties` | crates/secureflow-engine-adapter/src/lib.rs:1319-1340 | a directory listing holds each kept name once, in strictly ascending byte order |
| `TargetWalk.WalkBelow` | crates/secureflow-engine-adapter/src/lib.rs:1301-1388 | the traversal visits exactly the entries that some path reaches without crossing `.git`, `node_modules` or a non-directory |
| `TargetWalk.CollectEntryMatches` | crates/secureflow-engine-adapter/src/lib.rs:1341-1386 | visiting one entry under any running counters succeeds exactly when that entry and everything below it fits what is left of the limits |
| `TargetWalk.CollectDirectoryMatches` | crates/secureflow-engine-adapter/src/lib.rs:1301-1388 | threading counters and early exits through the recursion computes the counter-free acceptance and appends exactly the files below |
| `TargetWalk.CollectIsAcceptance` | crates/secureflow-engine-adapter/src/lib.rs:1301-1388 | from the root: success if and only if the pruned tree has no symlink, no non-UTF-8 file path and meets all five limits; then files, total and visited count are those of the whole tree |
| `TargetFingerprint.RelativeInjective` | crates/secureflow-engine-adapter/src/lib.rs:1371-1383 | joining components by `/` loses nothing, since no component is empty or holds a separator |
| `TargetFingerprint.WalkPathsDistinct` | crates/secureflow-engine-adapter/src/lib.rs:1301-1388 | no path is visited twice |
| `TargetFingerprint.FilesInReach` | crates/secureflow-engine-adapter/src/lib.rs:1360-1385 | the files collected are exactly the regular files the pruned tree reaches, under their relative names |
| `TargetFingerprint.HashedFilesProperties` | crates/secureflow-engine-adapter/src/lib.rs:606-615 | after the global sort the relative names are strictly ascending, so the order of hashing depends on the set of files alone |
| `TargetFingerprint.ReadFileStream` | crates/secureflow-engine-adapter/src/lib.rs:587-594 | decoding the bytes hashed for a single file gives back its contents |
| `TargetFingerprint.FileLayout` | crates/secureflow-engine-adapter/src/lib.rs:587-594 | a file's stream is the scheme name, `file`, and the contents, each behind its length |
| `TargetFingerprint.ReadDirectoryStream` | crates/secureflow-engine-adapter/src/lib.rs:617-628 | decoding the bytes hashed for a directory gives back every name and content |
| `TargetFingerprint.DirectoryLayout` | crates/secureflow-engine-adapter/src/lib.rs:617-628 | a directory's stream is the scheme name, `directory`, the number of files, the total size, then name and contents of each file in turn |
| `TargetFingerprint.ReadTarget` | crates/secureflow-engine-adapter/src/lib.rs:569-629 | the decoder undoes the fingerprint stream of every target that fingerprints |
| `TargetFingerprint.FingerprintIdentity` | crates/secureflow-engine-adapter/src/lib.rs:569-629 | for targets that fingerprint, streams are equal if and only if both are files with equal bytes or both are directories with the same relative paths and contents, whatever the limits |
| `TargetFingerprint.TotalBytesPermutation` | crates/secureflow-engine-adapter/src/lib.rs:606-621 | the total written in the header survives any reordering of the files |
| `TargetHasher.ListingUnique` | crates/secureflow-engine-adapter/src/lib.rs:1319-1340 | whatever order `read_dir` answers in, filtering and sorting yields one and the same listing |
| `TargetHasher.Collector.CountEntries` | crates/secureflow-engine-adapter/src/lib.rs:1319-1340 | counting the kept entries fails exactly when they take the visited counter over the limit; a directory with no kept entry never fails |
| `TargetHasher.Collector.VisitEntry` | crates/secureflow-engine-adapter/src/lib.rs:1341-1386 | the mutable counters and file list after one entry, or the error, are those of the traversal function |
| `TargetHasher.Collector.CollectRegularFiles` | crates/secureflow-engine-adapter/src/lib.rs:1301-1388 | for every enumeration order the mutating traversal ends in the one state, or the one error, that the order-free function gives |
| `TargetHasher.HashTargetFile` | crates/secureflow-engine-adapter/src/lib.rs:631-658 | with arbitrarily short reads: success feeds the whole file and means it still had the expected length; a shorter or longer file is refused with its own error |
| `TargetHasher.HashDirectory` | crates/secureflow-engine-adapter/src/lib.rs:617-628 | the hasher is fed the directory stream, field by field |
| `TargetHasher.HashTree` | crates/secureflow-engine-adapter/src/lib.rs:603-629 | a directory fingerprints exactly when its pruned tree is accepted, and then feeds the order-free stream |
| `TargetHasher.Sha256TargetWithLimits` | crates/secureflow-engine-adapter/src/lib.rs:569-629 | the fingerprint exists exactly under the declarative limits, its bytes are a function of the target whatever the enumeration order and read sizes; a symlink or special file as target is refused, and a file is hashed exactly when it fits both byte limits |
| `TargetPruning.PruningChangesNothing` | crates/secureflow-engine-adapter/src/lib.rs:1310-1330 | a target and its copy without any `.git` or `node_modules`, at any depth, fingerprint alike with the same stream |
| `TargetPruning.PrunedAlike` | crates/secureflow-engine-adapter/src/lib.rs:1310-1330 | two targets that agree apart from what those two names hide fingerprint alike with the same stream |
| `TargetPruning.ChildOfEitherName` | crates/secureflow-engine-adapter/src/lib.rs:1310-1330 | adding, replacing or deleting a child of either name changes nothing of that copy |
| `TargetPruning.ChangeBelow` | crates/secureflow-engine-adapter/src/lib.rs:1310-1330 | nor does such a change below any other child |
| `TargetPruning.RelativeSplits` | crates/secureflow-engine-adapter/src/lib.rs:1371-1383 | splitting a relative name at its slashes gives the components of the path |
| `TargetPruning.StreamHolds` | crates/secureflow-engine-adapter/src/lib.rs:1301-1388 | a file is in the stream under a name exactly when a path of that name without either component leads to a regular file with those bytes; no other name is dropped |
| `TargetPruning.ExactAcceptance` | crates/secureflow-engine-adapter/src/lib.rs:1301-1388 | over any list of the entries not hidden, each once: success if and only if no entry is a symlink or breaks a limit, names read as UTF-8, and entries, files and bytes stay within the three totals |
| `OutputReaders.RunKeepsInv` | crates/secureflow-engine-adapter/src/lib.rs:1452-1479 | in every interleaving and chunking, remaining budget plus both retained outputs is the initial budget, and no byte is lost while no breach occurred |
| `OutputReaders.VerdictIsScheduleFree` | crates/secureflow-engine-adapter/src/lib.rs:322-326 | a finished run without read error yields OutputLimit if and only if both streams together exceed the budget, and both whole streams otherwise; a read error always wins |
| `OutputReaders.RecheckNeverFires` | crates/secureflow-engine-adapter/src/lib.rs:356-358 | the aggregate re-check after the join can never be the one that refuses |
| `OutputReaders.RunsAreBounded` | crates/secureflow-engine-adapter/src/lib.rs:1452-1479 | every schedule ends: at most two steps a byte and two more, draining after a breach included |
| `OutputReaders.NeverStuck` | crates/secureflow-engine-adapter/src/lib.rs:1465-1477 | a reader that has not returned can always make a step that is not a failure, whatever the other thread does |
| `OutputReaders.OtherStepInterferes` | crates/secureflow-engine-adapter/src/lib.rs:1465-1470 | a step of the other thread can only take from the budget |
| `OutputReaders.ReadBounded` | crates/secureflow-engine-adapter/src/lib.rs:1452-1479 | the reader's loop under arbitrary interference takes only the steps of the protocol and ends in the returned state; a complete read kept and charged the whole stream, a breach means stream and other charges together overran the budget |
| `Bytes.DecimalRoundTrip` | crates/secureflow-engine-adapter/src/lib.rs:121-135 | reading the decimal digits of a number gives it back |
| `Bytes.BigEndianDigit` | crates/secureflow-engine-adapter/src/lib.rs:1296-1299 | lengths are written with the most significant byte first |
| `IdentityPreimages.ConfigurationPreimageInjective` | crates/secureflow-engine-adapter/src/lib.rs:116-143 | equal configuration streams mean equal argument lists, whole milliseconds (seconds times a thousand plus nanoseconds over a million), limits, graph mode and sandbox mode, although the argument count is not written |
| `IdentityPreimages.ConfigurationStream` | crates/secureflow-engine-adapter/src/lib.rs:116-143 | the sequence of hasher updates is the stream that the injectivity speaks of |
| `IdentityPreimages.ConfigurationTells` | crates/secureflow-engine-adapter/src/lib.rs:116-143 | reading the stream back gives tag, arguments, milliseconds, limits and modes as decimal and literal texts |
| `IdentityPreimages.BundleIdPreimageInjective` | crates/secureflow-knowledge/src/catalog_bundle.rs:1192-1213 | equal bundle identifier streams mean equal profile and equal three hashes |
| `IdentityPreimages.BundleIdStream` | crates/secureflow-knowledge/src/catalog_bundle.rs:1192-1213 | the updates feed tag, profile name and the three hashes in this order |
| `BundleInstall.TemporaryDirectory.Cleanup` | crates/secureflow-knowledge/src/catalog_bundle.rs:1245-1258 | clean-up removes the guarded folder once, touches nothing outside it, and does nothing when inactive |
| `BundleInstall.EnsureNewCatalogOutput` | crates/secureflow-knowledge/src/catalog_bundle.rs:1062-1095 | success means there is no output and no `-wal`, `-shm` or `-journal` file beside it, and without other failures the converse too |
| `BundleInstall.CreateTemporaryDirectory` | crates/secureflow-knowledge/src/catalog_bundle.rs:1008-1044 | the folder made is new, a sibling of the output and no prefix of it; nothing else changes; at most a hundred names are tried |
| `BundleInstall.PublishNew` | crates/secureflow-knowledge/src/catalog_bundle.rs:1118-1138 | success links the payload to a name that was free, then syncs the file and its folder; any failure unlinks it again, so the file system is as before |
| `BundleInstall.RemoveCatalogOutputSet` | crates/secureflow-knowledge/src/catalog_bundle.rs:1105-1110 | removes the output and its sidecars and nothing else |
| `BundleInstall.LinkAndRecheck` | crates/secureflow-knowledge/src/catalog_bundle.rs:298-313 | from link to re-check: either the output holds the payload, was synced and read once more, or the output set is gone again |
| `BundleInstall.InstallInto` | crates/secureflow-knowledge/src/catalog_bundle.rs:294-316 | every path after the temporary folder exists: what remains at the output and in the folder, failure by failure |
| `BundleInstall.Describe` | crates/secureflow-knowledge/src/catalog_bundle.rs:606-611 | the last check reads the installed file and accepts what was linked whenever nothing fails |
| `BundleInstall.DecompressAndVerify` | crates/secureflow-knowledge/src/catalog_bundle.rs:466-604 | success means a bundle that is exactly what its manifest says, with its content in the temporary file |
| `BundleInstall.InstallBundle` | crates/secureflow-knowledge/src/catalog_bundle.rs:282-317 | under any I/O failure no existing file changes or disappears and, removals working, no temporary folder survives; Ok means both policy maxima within 8 and 16 GiB, bundle and content within them, the pin or the leave to go without, and at a free name content with the manifest's hash and length, synced before the link and, with its folder, after it, then re-read; breaking any of these is refused; Err means no output except after the last sync; without failures it succeeds exactly when policy, pin, bundle, output, parents and a temporary name allow |
| `FileSystem.Machine.HardLink` | crates/secureflow-knowledge/src/catalog_bundle.rs:1119-1122 | a link never replaces anything and shares the source's bytes |
| `FileSystem.Machine.CreateFolders` | crates/secureflow-knowledge/src/catalog_bundle.rs:1141-1151 | recursive creation adds folders only, on the way to its argument, and fails exactly on a non-folder in the way |
| `FileSystem.NoSidecarMeaning` | crates/secureflow-knowledge/src/catalog_bundle.rs:1097-1103 | the sidecars are the three siblings named by `-wal`, `-shm` and `-journal` |
| `BundleReads.HashOpenFileBounded` | crates/secureflow-knowledge/src/catalog_bundle.rs:931-970 | for every pattern of short reads: the whole file's hash and length exactly when it fits the maximum, and no read reaches past maximum plus one byte |
| `BundleReads.DecodeInto` | crates/secureflow-knowledge/src/catalog_bundle.rs:537-563 | decoding never writes more than the smaller of manifest size and policy maximum, and succeeds exactly when the frame is complete and within both |
| `BundleReads.DecompressOpened` | crates/secureflow-knowledge/src/catalog_bundle.rs:495-604 | Ok exactly for bundles within the policy's maxima that are one whole frame with the manifest's sizes and hashes; what is written is then the frame's content; nothing is written when the policy is broken or the bundle is not the manifest's |
| `BundleReads.AcceptableMeaning` | crates/secureflow-knowledge/src/catalog_bundle.rs:433-604 | acceptance is: sizes within the policy, policy within its bounds, and bundle and frame exactly as the manifest says |
| `BundlePublish.RunKeepsInv` | crates/secureflow-knowledge/src/catalog_bundle.rs:349-369 | after any number of steps, failures included, the output is as at the start or a link to the payload, live and durable |
| `BundlePublish.CrashLeavesAbsentOrPayload` | crates/secureflow-knowledge/src/catalog_bundle.rs:349-369 | stopping or losing power between any two steps leaves the output as it was or byte-identical to the payload, and certainly the payload once the parent was synced |
| `BundlePublish.VerifyInstalledDescriptor` | crates/secureflow-knowledge/src/catalog_bundle.rs:372-389 | the check on recovery, sidecar loop and bounded hash: accepts only a regular file with the descriptor's hash and length and none of the three sidecars, and without read failures accepts every such one |
| `BundlePublish.IntactMeaning` | crates/secureflow-knowledge/src/catalog_bundle.rs:372-389 | what the check accepts is a regular file with the descriptor's hash and length and no sidecar |
| `BundlePublish.Publish` | crates/secureflow-knowledge/src/catalog_bundle.rs:350-369 | every execution, whatever fails, is a run of the protocol ending in success exactly when Ok is returned, and does link, file sync, folder sync, second reading and last sync in this order, or the first few of them; the guard is always dropped, a published output never undone and everything else as before; with a free output, an existing parent and no failing operation it succeeds |
| `BundlePublish.RunPublishes` | crates/secureflow-knowledge/src/catalog_bundle.rs:349-369 | what any complete run leaves at the output, and that it changes nothing else outside the private folder |
| `BundlePublish.LinkedIff` | crates/secureflow-knowledge/src/catalog_bundle.rs:350-355 | on every run the output exists exactly when the link step has happened |
| `BundlePublish.RecoveryVerdict` | crates/secureflow-knowledge/src/catalog_bundle.rs:372-389 | after any crash the descriptor check accepts exactly when the output is there and never reports a conflict of the protocol's own making |
| `BundlePublish.TrustState.Save` | crates/secureflow-knowledge/src/catalog_trust/storage.rs:236-250 | success puts the journal in memory on disk and syncs its folder; the old journal is replaced only after the new copy was synced; a failure leaves the old one, or already the new one when only the last folder sync failed |
| `BundlePublish.TrustState.RecoverPending` | crates/secureflow-knowledge/src/catalog_trust/install.rs:16-61 | a transaction becomes complete only when it was pending, its output is a regular file with the descriptor's hash and length and no sidecar, and that file was read and synced with its folder; an output that differs is refused with memory and disk as before; an absent one completes nothing; a failure leaves a journal that settles to the same; without failures it succeeds exactly when the journal can be settled |
| `BundlePublish.SettledAgain` | crates/secureflow-knowledge/src/catalog_trust/install.rs:16-61 | recovering twice is recovering once |
| `BundlePublish.CrashSettles` | crates/secureflow-knowledge/src/catalog_trust/install.rs:16-61 | after any crash of a publication its journal entry settles exactly when the parent folder is private and an existing output has a canonical path; it is then recorded complete exactly when the output is there, holding the payload |
| `BundlePublish.RecoveryAfterStop` | crates/secureflow-knowledge/src/catalog_bundle.rs:372-389 | the descriptor check on recovery accepts if and only if the link step had happened and no sidecar exists |
| `BundlePublish.SuccessIsDurable` | crates/secureflow-knowledge/src/catalog_bundle.rs:349-369 | after success no power loss can lose or change the payload at the output |
| `BundlePublish.FaultFreeRunSucceeds` | crates/secureflow-knowledge/src/catalog_bundle.rs:349-369 | with a free output and no failing operation the protocol reaches success, so the safety results are not about runs that cannot exist |
| `BundleProfile.ValidateComposition` | crates/secureflow-knowledge/src/catalog_bundle.rs:697-742 | one pass with saturating sums accepts exactly at most 10 000 sources with strictly ascending names and records each, and the declared totals |
| `BundleProfile.CompositionMeaning` | crates/secureflow-knowledge/src/catalog_bundle.rs:697-742 | the accepted compositions: bounds, order of names, records in each source, saturated totals |
| `BundleProfile.ProjectionMatchesOrigin` | crates/secureflow-knowledge/src/catalog_bundle.rs:789-843 | the loop accepts exactly when every origin entry is consistent with its declared profile and the payload's sources are the origin's entries of that profile, unchanged |
| `BundleProfile.ValidateProfile` | crates/secureflow-knowledge/src/catalog_bundle.rs:744-787 | a full bundle is a byte-exact backup of its origin; a projection holds current records of one kind and no history, snapshot or delta |
| `BundleProfile.MergeSelected` | crates/secureflow-knowledge/src/catalog_bundle.rs:789-843 | merging the core and the malicious selection by name gives back exactly the origin's sources |
| `BundleProfile.ProjectionDetermined` | crates/secureflow-knowledge/src/catalog_bundle.rs:744-787 | an origin admits one payload composition per projected profile |
| `BundleProfile.RecordCountImplied` | crates/secureflow-knowledge/src/catalog_bundle.rs:794-801 | the separate record-count test follows from the entries: it never decides alone |
| `BundleProfile.ProjectionsPartition` | crates/secureflow-knowledge/src/catalog_bundle.rs:744-787 | a core and a malicious payload of one origin have disjoint source names, together make up exactly the origin's sources, and keep its counts |
| `BundleProfile.ProjectionExists` | crates/secureflow-knowledge/src/catalog_bundle.rs:744-787 | a valid payload for a profile exists if and only if every origin entry is consistent and the profile has records |
| `CaseValidator.RustIdMeaning` | crates/secureflow-case/src/lib.rs:368-380 | byte lengths and byte classes decide identifiers exactly as character lengths and classes do |
| `CaseValidator.RustShaMeaning` | crates/secureflow-case/src/lib.rs:357-367 | sixty-four bytes of the alphabet are sixty-four characters of it |
| `CaseValidator.ValidateHeader` | crates/secureflow-case/src/lib.rs:161-192 | the header passes exactly when version, fields and authorization do, and each error names a rule that is broken |
| `CaseValidator.ValidateSources` | crates/secureflow-case/src/lib.rs:193-208 | accepts exactly well-formed sources with distinct identifiers and returns the map from identifier to kind |
| `CaseValidator.ValidateEvidence` | crates/secureflow-case/src/lib.rs:209-223 | accepts exactly well-formed evidence with distinct identifiers and existing sources |
| `CaseValidator.ValidateCandidates` | crates/secureflow-case/src/lib.rs:224-266 | accepts exactly well-formed distinct candidates whose references exist and whose class is the one of its source's kind |
| `CaseValidator.ValidateStages` | crates/secureflow-case/src/lib.rs:267-280 | accepts exactly well-formed distinct recommendations on existing candidates |
| `CaseValidator.ValidateDecisions` | crates/secureflow-case/src/lib.rs:281-300 | accepts exactly well-formed distinct decisions, at most one a candidate, on existing candidates |
| `CaseValidator.Validate` | crates/secureflow-case/src/lib.rs:160-302 | the one-pass validator accepts if and only if the case meets the order-free contract, every error kind points at a part of it that fails, and in an accepted case a candidate is an engine, contextual or external one exactly when its source is of that kind |
| `CasePromise.CaseMeaning` | crates/secureflow-case/src/lib.rs:160-302 | the contract that both validators are proved against, written out rule by rule with its literal bounds, prefixes and alphabets |
| `CaseValidator.AuthorizedMeaning` | crates/secureflow-case/src/lib.rs:234-252 | the three pairs of kind and class that match are the only ones |
| `SecurityCase.PathMeaning` | crates/secureflow-case/src/lib.rs:388-397 | a path text has no empty component and no `..` between its slashes |
| `ReviewRoomParser.KindDecided` | apps/review-room/lib/security-case.ts:82 | no identifier matches two kinds, so the alternation in the pattern adds nothing to the prefix test |
| `ReviewRoomParser.JsIdMeaning` | apps/review-room/lib/security-case.ts:140-150 | UTF-16 length, prefix and regular expression accept the same identifiers as the byte rules |
| `ReviewRoomParser.JsShaMeaning` | apps/review-room/lib/security-case.ts:152-156 | the hash pattern accepts the same hashes as the byte rules |
| `ReviewRoomParser.ParseEvidenceIds` | apps/review-room/lib/security-case.ts:394-399 | the length and blankness tests on referenced evidence never decide: acceptance is existence |
| `ReviewRoomParser.ParseCandidates` | apps/review-room/lib/security-case.ts:352-412 | accepts the same candidate lists, by sets and a kind map filled on the way |
| `ReviewRoomParser.ParseDecisions` | apps/review-room/lib/security-case.ts:444-491 | accepts the same decision lists, by two sets filled on the way |
| `ReviewRoomParser.February` | apps/review-room/lib/security-case.ts:166-167 | February has 29 days in years divisible by four and not by a hundred, or by four hundred |
| `Characters.RustWhiteListed` | crates/secureflow-case/src/lib.rs:382 | Rust trims the twenty-five white-space characters of Unicode |
| `Characters.JsWhiteListed` | apps/review-room/lib/security-case.ts:122 | JavaScript trims the same characters without U+0085 and with U+FEFF |
| `Characters.Utf8Snoc` | crates/secureflow-case/src/lib.rs:382 | a character counts one to four bytes by its code |
| `Characters.TrimIsCore` | crates/secureflow-cli/src/main.rs:1586-1587 | trimming leaves the part between the leading and the trailing white space, and nothing exactly for a blank text |
| `ReviewRoomParser.ParseSecurityCase` | apps/review-room/lib/security-case.ts:206-511 | the second implementation accepts if and only if the case meets the same order-free contract under JavaScript's reading of strings, with the same three exact rows of class and source kind |
| `ReviewRoomParser.ValidatorsAgree` | apps/review-room/lib/security-case.ts:339-346 | with shared white space and timestamps the two validators differ exactly on relative paths that are blank or longer than the largest safe integer, which only the Rust side accepts |
| `ReviewRoomParser.PlatformsAgreeExactly` | apps/review-room/lib/security-case.ts:120-182 | with each platform's own white space and own timestamp parser: a case accepted by one side is accepted by the other exactly when all its texts are visible there, all its timestamps parse there and, for the browser, its paths are visible and countable |
| `ReviewRoomParser.BrowserRefuses` | apps/review-room/lib/security-case.ts:158-182 | a case with any timestamp outside the browser's pattern and ranges is refused by the browser, whatever the other side says of it |
| `ReviewRoomParser.BrowserRefusesThese` | apps/review-room/lib/security-case.ts:158-182 | in particular every case with a timestamp that ends in a lower-case zone letter or stands in second sixty |
| `ReviewRoomParser.LowerCaseZoneSeparates` | apps/review-room/lib/security-case.ts:158-182 | so an accepted case redated with a lower-case zone that the other parser reads, as RFC 3339 allows, separates the two sides |
| `ReviewRoomParser.LeapSecondSeparates` | apps/review-room/lib/security-case.ts:168-180 | and so does one redated with a leap second that the other parser reads |
| `ReviewRoomParser.SampleStamp` | apps/review-room/lib/security-case.ts:158-182 | an ordinary timestamp passes the browser's pattern and ranges |
| `ReviewRoomParser.SampleOk` | crates/secureflow-case/src/lib.rs:160-302 | a concrete case is accepted by either side exactly when its stamp, label and path are |
| `ReviewRoomParser.SidesSeparate` | apps/review-room/lib/security-case.ts:339-346 | at any stamp both sides read: a concrete case both accept, one with the path of a single blank that only Rust accepts, and labels U+0085 and U+FEFF that only one side accepts, each way round; the two white-space sets differ exactly there |
| `ReviewRoomParser.LabelSeparates` | crates/secureflow-case/src/lib.rs:381-387 | any case that both sides accept turns into one that only one side accepts by its label alone, each way round |
| `CaseOperations.CaseCell.AddHumanDecision` | crates/secureflow-case/src/lib.rs:314-345 | a decided candidate is refused without change; Ok means exactly one decision appended, with the candidate, verdict, reviewer, rationale, time and reference given and the derived identifier, all else unchanged, and a valid result |
| `CaseOperations.CheckedIsImplied` | crates/secureflow-cli/src/main.rs:5040-5048 | the command's own limits in characters follow from the validator's limits in bytes |
| `CaseOperations.CaseCell.DecideCommand` | crates/secureflow-cli/src/main.rs:1561-1590 | succeeds exactly when the candidate exists, is undecided and the case with the decision is valid; then exactly one decision is appended with the verdict and time given and the texts without the white space around them, a blank reference counting as none |
| `CaseOperations.CaseCell.ImportSarif` | crates/secureflow-case/src/lib.rs:404-475 | succeeds exactly on documents of the supported version whose import leaves a valid case; then one source, one evidence record and one candidate a result are appended in order |
| `CaseOperations.CaseCell.PushResults` | crates/secureflow-case/src/lib.rs:431-472 | one candidate per result of any run, numbered from zero across runs |
| `CaseOperations.PushedDocument` | crates/secureflow-case/src/lib.rs:404-475 | one SARIF source, one evidence record and one external candidate per result, in order |
| `Sarif.RunsInOrder` | crates/secureflow-case/src/lib.rs:431-442 | the results of a list of runs are those of its parts, one after the other |
| `Sarif.EveryResultRead` | crates/secureflow-case/src/lib.rs:431-442 | each result of each run is read, in its place after those of the runs before |
| `Sarif.OnlyResultsRead` | crates/secureflow-case/src/lib.rs:431-442 | nothing is read but results of runs |
| `Sarif.ImportedDescribes` | crates/secureflow-case/src/lib.rs:444-471 | title and severity are the message text and the level, or their defaults |
| `CaseOperations.CaseCell.ImportSecureReview` | crates/secureflow-cli/src/main.rs:4170-4203 | succeeds exactly when the review is about this target and the extended case is valid; never refused for a class |
| `CaseOperations.PushedReview` | crates/secureflow-cli/src/main.rs:4170-4203 | one contextual source, one evidence record and one contextual candidate per finding, with the title, severity, confidence and derived identifier of each |
| `CaseOperations.CaseFromRun` | crates/secureflow-cli/src/main.rs:4105-4168 | yields the case built from the run, part by part, exactly when that case is valid; never refused for a class |
| `CaseOperations.HistoryGrows` | crates/secureflow-case/src/lib.rs:160-345 | along every run of successful operations the case stays valid, its identity and target never change, and every list is append-only |
| `CaseOperations.DecisionsAreFinal` | crates/secureflow-case/src/lib.rs:281-290 | a decision once taken is there for ever and remains the only one on its candidate |
| `CaseOperations.OnlyDecideDecides` | crates/secureflow-cli/src/main.rs:4519-4579 | the number of decisions is the initial one plus the human decisions taken: imports and staged advice never add, drop or replace one |
| `CaseOperations.AuthorityAlwaysHolds` | crates/secureflow-case/src/lib.rs:234-252 | at every point of every run each candidate rests on an existing source, and is an engine, contextual or external candidate exactly when that source is an engine, contextual or SARIF one; none rests on an agent |
| `CaseOperations.ReimportAlwaysFails` | crates/secureflow-case/src/lib.rs:414-422 | in no run are the same bytes imported twice |
| `SarifRoundTrip.ExportReads` | crates/secureflow-case/src/lib.rs:477-482 | the exported document is read back as one result per candidate, in order |
| `SarifRoundTrip.ExportTells` | crates/secureflow-case/src/lib.rs:477-482 | each exported result names its candidate, tells the human verdict or `pending`, and says that it is no verdict |
| `SarifRoundTrip.ResultReads` | crates/secureflow-case/src/lib.rs:444-457 | title and level are read where the export wrote them |
| `SarifRoundTrip.CandidatesSurvive` | crates/secureflow-case/src/lib.rs:404-482 | exporting one case and importing into another appends as many candidates, in order, with the same titles, severity defaulted to `note`, and the importer's own class and confidence |
| `DerivedIds.CandidateTextsDiffer` | crates/secureflow-case/src/lib.rs:450-453 | the texts that candidates of one document are named after differ whatever the titles, since the number before the bar differs |
| `DerivedIds.NewIdsDistinct` | crates/secureflow-case/src/lib.rs:450-453 | the new identifiers are distinct exactly when the shortened digest keeps those texts apart |
| `DerivedIds.HistoryNames` | crates/secureflow-case/src/lib.rs:308-345 | along every run from a created case, candidates are named after texts that start with their source and evidence after the documents given |
| `DerivedIds.TextsAreFresh` | crates/secureflow-case/src/lib.rs:450-453 | a new source's texts are no old ones, so without a digest collision its candidates meet none that the case has |
| `SarifRoundTrip.NewIntegrity` | crates/secureflow-case/src/lib.rs:404-475 | the imported case keeps integrity exactly when the case holds none of the derived identifiers and the shortened digests of the texts do not collide |
| `SarifRoundTrip.ImportOfExportAccepted` | crates/secureflow-case/src/lib.rs:404-482 | into any valid case, the round trip is accepted if and only if source name and version are acceptable texts and that condition holds |
| `SarifRoundTrip.ImportOfNewExportAccepted` | crates/secureflow-case/src/lib.rs:404-482 | into any case that a run of operations made, and with a shortened digest that is injective on the inputs used: accepted if and only if name and version are acceptable texts and the case holds neither the document nor its source |
| `AtomicWrite.WriteCopy` | crates/secureflow-cli/src/main.rs:5291-5337 | the private copy is a new file with exactly the bytes, synced, or nothing is left behind |
| `AtomicWrite.WriteAtomicNew` | crates/secureflow-cli/src/main.rs:5281-5346 | success means all the bytes at a name that was free, linked after a copy in the same folder was synced; failure means that name is as before; nothing else changes |
| `CaseSession.PrepareStage` | crates/secureflow-cli/src/main.rs:4519-4571 | a copy with the recommendation is prepared exactly when the request is complete and that copy is valid; it records the candidate, agent name, recommendation, rationale and time of the request |
| `CaseSession.StageableAdds` | crates/secureflow-cli/src/main.rs:4519-4571 | the one recommendation added records candidate, agent name, recommendation, rationale and time of the request, each in its own field |
| `CaseSession.Session.Stage` | crates/secureflow-cli/src/main.rs:4519-4579 | success replaces the case after the bytes are on disk; failure changes neither memory nor output |
| `CaseSession.InvestigateCandidate` | crates/secureflow-cli/src/main.rs:4501-4512 | answers with the candidate, its evidence identifiers and the human-only authority exactly when the candidate exists |
| `CaseSession.OfferedEvidenceExists` | crates/secureflow-cli/src/main.rs:4501-4512 | in a valid case every evidence identifier offered exists |
| `CaseSession.Session.Handle` | crates/secureflow-cli/src/main.rs:4483-4517 | one request: memory and disk agree afterwards, decisions are untouched, only a staging answer changes anything; reading answers with the case in memory, which after a stage is what the output holds; investigating answers with that candidate exactly when it exists |
| `CaseSession.Session.Serve` | crates/secureflow-cli/src/main.rs:4422-4481 | over any request sequence memory equals the initial case or what the stage output holds, decisions never change and at most one stage is accepted, none when the output existed |
| `ProspectiveStudy.CheckNext` | crates/secureflow-bench-adapter/src/prospective_v2.rs:948-970 | one turn refuses only cases that no valid dataset could contain, and otherwise extends the sets and the lineage map exactly |
| `ProspectiveStudy.CheckCases` | crates/secureflow-bench-adapter/src/prospective_v2.rs:926-1039 | the one pass over three sets, a map and counters accepts exactly datasets with distinct identifiers, paths and hashes and split-consistent lineages, and counts each split |
| `ProspectiveStudy.ValidateDataset` | crates/secureflow-bench-adapter/src/prospective_v2.rs:926-1039 | a dataset is accepted exactly when times, size, cases, declared accounting and holdout sizes are right |
| `ProspectiveStudy.DatasetMeaning` | crates/secureflow-bench-adapter/src/prospective_v2.rs:926-1039 | an accepted dataset, spelled out: distinct identifiers, lineages within one split, counts that are the sizes of the splits, holdout minima |
| `ProspectiveStudy.ValidTextMeaning` | crates/secureflow-bench-adapter/src/prospective_v2.rs:1472-1478 | a text is visible at both ends, short enough and free of control characters |
| `ProspectiveStudy.PairFound` | crates/secureflow-bench-adapter/src/prospective_v2.rs:1118-1127 | finding by identifier and filtering by kind picks the one pair the equivalence names, in either order |
| `ProspectiveStudy.ValidateLanes` | crates/secureflow-bench-adapter/src/prospective_v2.rs:1073-1141 | accepts exactly two lanes, one a kind, named by the equivalence and equal in capability, environment, time limit and network |
| `ProspectiveStudy.LanesMeaning` | crates/secureflow-bench-adapter/src/prospective_v2.rs:1073-1141 | the two lanes, spelled out field by field |
| `ProspectiveSubmission.ValidateProtocol` | crates/secureflow-bench-adapter/src/prospective_v2.rs:838-857 | a protocol is accepted exactly when its fields, sealing time and lanes are |
| `ProspectiveSubmission.BindProtocolToDataset` | crates/secureflow-bench-adapter/src/prospective_v2.rs:551-599 | binding succeeds exactly when both documents are valid, dataset identifier and hash are those committed, the times are in order and the modes agree |
| `ProspectiveSubmission.BindingMeaning` | crates/secureflow-bench-adapter/src/prospective_v2.rs:551-599 | the binding, spelled out: identifier, hash, order of times, modes |
| `ProspectiveSubmission.LanesByKind` | crates/secureflow-bench-adapter/src/prospective_v2.rs:676-687 | looking the lanes up by kind finds the lanes that validation named by identifier |
| `ProspectiveSubmission.OnlyTreatmentDiffersIff` | crates/secureflow-bench-adapter/src/prospective_v2.rs:1117-1140 | acceptance forces group, capability, environment, time limit and network to be equal; the treatment is the only difference if and only if cohort, configuration and number of reviewers agree too, which is declared but not checked |
| `ProspectiveSubmission.PeopleAreFree` | crates/secureflow-bench-adapter/src/prospective_v2.rs:1095-1140 | nothing more is forced: the comparator of an accepted pair may get any other admissible cohort, configuration and number of reviewers |
| `ProspectiveSubmission.CohortsMayDiffer` | crates/secureflow-bench-adapter/src/prospective_v2.rs:1095-1140 | a concrete accepted pair of lanes, one of students and one of experts, that declares the treatment its only planned difference |
| `ProspectiveSubmission.VerifyProtocolControlArtifacts` | crates/secureflow-bench-adapter/src/prospective_v2.rs:657-705 | an invalid protocol is refused as such; otherwise success exactly when all sizes are allowed and the hashes are those committed for the lanes the equivalence names; the look-ups never fail |
| `ProspectiveSubmission.ValidateSubmission` | crates/secureflow-bench-adapter/src/prospective_v2.rs:860-925 | accepts exactly submissions bound to the study, naming a listed lane and an admissible case, first attempt, recorded between sealing and expiry |
| `ProspectiveSubmission.HoldoutIsolation` | crates/secureflow-bench-adapter/src/prospective_v2.rs:860-904 | an accepted preregistered submission names one holdout case sharing lineage, path text and bytes with no development or validation case; frozen, sealed, recorded and expiry times are in order; the holdout has at least twenty cases |
| `ProspectiveSubmission.SplitAccountingAddsUp` | crates/secureflow-bench-adapter/src/prospective_v2.rs:971-999 | the three declared split counts add up to the total although the checker never adds them |
| `Markdown.BuildTerminalSafe` | crates/secureflow-cli/src/main.rs:5024-5038 | the loop appends the safe form of each character in order |
| `Markdown.UnsafeListed` | crates/secureflow-cli/src/main.rs:5024-5038 | the characters escaped are those below 32, from 127 to 159, and the two ranges of directional controls |
| `Markdown.EscapeReads` | crates/secureflow-cli/src/main.rs:5024-5038 | tab, newline and return have short escapes; every other character's is its code in hexadecimal digits |
| `Markdown.TerminalSafeMeaning` | crates/secureflow-cli/src/main.rs:5024-5038 | no control or directional character gets through, and text is left alone exactly when it has none |
| `Markdown.ChainConcat` | crates/secureflow-cli/src/main.rs:4848-4860 | the ten replacements distribute over concatenation |
| `Markdown.ChainIsSimultaneous` | crates/secureflow-cli/src/main.rs:4848-4860 | the ten sequential replacements equal one simultaneous substitution: none sees what an earlier one inserted |
| `Markdown.UnescapeUndoes` | crates/secureflow-cli/src/main.rs:4848-4860 | a reader of entities and backslash escapes recovers the escaped text |
| `Markdown.SpecialsAlwaysEscaped` | crates/secureflow-cli/src/main.rs:4848-4860 | every special character but the backslash stands behind an odd run of backslashes, and the text never ends in an open escape |
| `Markdown.NoRawAngles` | crates/secureflow-cli/src/main.rs:4848-4860 | no raw angle bracket remains and no unsafe character appears |
| `Markdown.MarkdownTextMeaning` | crates/secureflow-cli/src/main.rs:4848-4860 | all of it at once, for every value |
| `SchemaRefs.UsedRefs` | scripts/generate_trust_schemas.py:41-50 | fails exactly on a `$ref` that is no string, and otherwise returns exactly the names referred to anywhere inside |
| `SchemaRefs.StripMeaning` | scripts/generate_trust_schemas.py:45 | the name is what follows `#/$defs/`, or the whole text |
| `SchemaRefs.Expand` | scripts/generate_trust_schemas.py:56 | one round adds exactly what the needed definitions refer to and fails exactly on an undefined or unreadable one |
| `SchemaRefs.ReachableIsLeast` | scripts/generate_trust_schemas.py:54-58 | the reachable names lie in every set that contains the body's references and is closed |
| `SchemaRefs.NeededDefinitions` | scripts/generate_trust_schemas.py:54-58 | the loop ends, succeeds exactly when every reachable name is a readable definition, and returns exactly the reachable names |
| `SchemaRefs.EmittedIsExact` | scripts/generate_trust_schemas.py:54-59 | by the names the script reads out of references, every name used in body and definitions is an emitted definition, and every definition emitted is reachable through emitted ones |
| `SchemaRefs.ResolvesIff` | scripts/generate_trust_schemas.py:45 | as a JSON Pointer in a URI fragment, a reference text points at the definition the script takes it to mean exactly when that definition is there and the text is the prefix and a plain name |
| `SchemaRefs.AllResolveIff` | scripts/generate_trust_schemas.py:54-59 | every reference of an emitted schema resolves in its definitions if and only if every reference text in body and emitted definitions is the prefix followed by a name without tilde, slash or percent sign |
| `SchemaRefs.OneReferenceEmitted` | scripts/generate_trust_schemas.py:54-59 | a schema of one reference is emitted whatever the reference's text, as long as the table has the name read out of it |
| `SchemaRefs.DanglingIsEmitted` | scripts/generate_trust_schemas.py:45 | two concrete schemas that are emitted with a dangling reference: one text without the prefix, one with a slash in the name |
| `CatalogBatches.TakeRecord` | crates/secureflow-cli/src/main.rs:2351-2357 | a record joins the batch, and the batch is handed over exactly when it has become full |
| `CatalogBatches.ImportBatches` | crates/secureflow-cli/src/main.rs:2344-2361 | the batches handed over concatenate to the records read, none is empty, each is cut as soon as it is full and stays within 50 000 records and 64 MiB plus one record; a failure leaves a prefix |
| `CatalogBatches.CutIsDetermined` | crates/secureflow-cli/src/main.rs:2344-2361 | only one sequence of batches can come out of given records |
| `CatalogBatches.ImportBySource` | crates/secureflow-cli/src/main.rs:2402-2442 | source by source: each batch has records of one source only, between 1 and 50 000 of them and less than 64 MiB plus one record; success hands over each source's records in order, failure a prefix of that |
| `CatalogBatches.OfSourceInOrder` | crates/secureflow-cli/src/main.rs:2402-2442 | the records of a source are picked in their own order and none is left out |
| `CatalogBatches.BySourceBlocks` | crates/secureflow-cli/src/main.rs:2402-2442 | each listed source's records stand between those of the sources before and after it |
| `CatalogBatches.ImportedOncePerListing` | crates/secureflow-cli/src/main.rs:2486-2529 | a record is handed over as often as it occurs times as often as its source is listed |
| `CatalogBatches.ImportedExactlyOnce` | crates/secureflow-cli/src/main.rs:2402-2442 | whatever the lists, every record is handed over exactly once if and only if every record's source is listed exactly once |
| `CatalogBatches.CollectNames` | crates/secureflow-knowledge/src/snapshot.rs:518-525 | the set of names is as large as the list exactly when no source name repeats |
| `CatalogBatches.CountClaims` | crates/secureflow-knowledge/src/snapshot.rs:538-559 | refuses at least records that are too large, empty or of an unlisted source, and counts the records of every source |
| `CatalogBatches.ValidateManifest` | crates/secureflow-knowledge/src/delta.rs:625-712 | refuses at least repeated source names, records of unlisted sources or out of bounds, and wrong declared counts |
| `CatalogBatches.AcceptedOnce` | crates/secureflow-knowledge/src/snapshot.rs:518-592 | what passes those tests, and so whatever a loader accepts, is handed over exactly once |
| `CatalogBatches.ImportManifest` | crates/secureflow-cli/src/main.rs:2385-2442 | loading and importing: success means every record of the manifest was handed over exactly once, a refused manifest hands over nothing |

## Left out

- SHA-256, RFC 3339 parsing, UTF-8 validity of names, serialization and the SQLite description of a database are
  parameters. Where collisions matter the condition is part of the statement (`CollisionFree`), or injectivity on the
  inputs used is a stated hypothesis (`Separates`, `SeparatesDocuments`).
- Zstandard: decompression is an abstract function from bundle bytes to one frame's content, and the header's
  content size an abstract check on the bundle's bytes.
- `usize` is 64 bits wide. Characters are Unicode scalar values, so unpaired surrogates in JavaScript strings are
  not modelled.
- Fingerprint: errors of `read_dir` and metadata calls, and a tree that changes between listing and hashing, are not
  modelled; `HashTargetFile` alone covers a file whose length changed. Only what is fed to the hash is modelled.
- `sha256_target_with_limits` joins path components by `/` as on Unix; other main separators are not modelled.
- TargetHasher.Sha256TargetWithLimits: does not say which limit is reported; that the reported error is the one of the
  order-free traversal is stated by `CollectRegularFiles`.
- Engine runs: process spawning, sandboxing, timeouts, retries and the re-hash of the binary. A read failure is a step
  that may happen at any time.
- Installation: file permissions, symbolic links inside parent paths and concurrent writers. A created folder or file
  is visible at once; what a failed write leaves is some prefix.
- BundleInstall.InstallBundle: when clean-up removals themselves fail only the preservation of existing files and the
  meaning of success are claimed, as temporary entries may then survive.
- Bundle manifests: the field tests of descriptor, provenance and policy are abstract predicates or one opaque
  `identity`; a source's declared profile is an uninterpreted function of its name, license, evidence and locator.
- BundleInstall.InstallBundle: the manifest's own validation is the flag `manifestValid`; that a pinned hash has the form
  of a hash is not tested, since it must equal one.
- BundlePublish.TrustState.Save: the identity checks of store and lock, the generation counter and encoding are failures
  for reasons of their own; which journal a power loss leaves when only the folder sync failed is not modelled, as both
  settle to the same.
- BundlePublish.TrustState.RecoverPending: what makes a folder private or a path canonical is given by `Host`; the export
  of receipts is not modelled.
- SchemaRefs.ResolvesIff: percent-encoding of characters other than the percent sign is not modelled.
- Security Case JSON: unknown or missing keys, wrong types, explicit nulls and the 32 MiB limit on uploads; both
  validators are modelled on typed cases. Enumerations are datatypes, so a bad enumeration value cannot be written.
- BundleReads.DecodeInto: the decoder's window limit and its buffering are not modelled.
- CaseSession.Session.Handle: JSON-RPC framing, the fixed texts of descriptions and errors, and failing writes to
  standard output are not modelled, nor is the multi-case server around it.
- Prospective study: outside the lanes, the long lists of single-field tests (hash shapes, texts, declared booleans,
  metrics, outcomes) are predicates given by `Platform`; digests of whole documents are functions. Paths are compared
  as texts, so two spellings of one path count as two.
- CatalogBatches.CountClaims: the record tests on paths, hashes, texts and ecosystems are not modelled; they only refuse
  more.
- CatalogBatches.ValidateManifest: the loaders' other tests (ordering, paths, hashes, times, byte totals, withdrawals)
  are not modelled; they only refuse more.
- Catalog imports: what the catalog does with a batch, snapshot and delta registration, and merging of counters.
- `catalog.rs`, the TUF client, delta and snapshot loaders, the web modules, the React interface, argument parsing,
  printing, release scripts and archive checks would add easy or unrelated members.
