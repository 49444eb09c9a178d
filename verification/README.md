# Verified model of the regime data pipeline

The repository keeps market and macro data files, publishes them under content-addressed keys, classifies calendar days,
and reports on long walk-forward runs. This project models the parts whose correctness rests on the interplay of several
steps, and proves what they promise.

**Publishing.** Local files are made canonical by a bounded fixpoint loop, hashed, uploaded under a key that embeds the
sha, and pinned by the manifest. `ArtifactKeys`, `StoreUris` and `LocalUris` model keys and the URIs made of them,
`CanonicalParquet` the fixpoint loop, `ArtifactStore` the local and the S3 store with their state, `ArtifactManifest`
the entries and their validation, `PublishSnapshot` the publish, dry-run and check loops. `PublishLoop` proves what
follows from the shape of the publish loop alone, `PublishProperties` what one publish achieves, and `PublishContents` what
it pins, told by the single pass and the sha alone. `PublishRuns` is a state machine: rewrites of local files, publishes
that stop or crash anywhere, torn local copies and manifest commits, in any order, and rewrites in the middle of an
artifact's round. SHA-256 and a single parquet pass are arbitrary functions; nothing depends on the absence of collisions.
`FullUris` concerns entries whose uri is no key.

**The manifest patcher.** `ManifestLines` reads and writes one line, `ManifestBlocks` finds artifact blocks,
`ManifestPatch` edits the list of lines in place. The walk over the lines is written for any line syntax;
`ManifestLineLaws.YamlIsLawful` shows that the patcher's own syntax obeys the laws the walk relies on.
`ManifestPatchProperties` and `ManifestTexts` prove that a patch changes what it should, reads back and settles.
`ManifestScalars` says what a scalar's text stands for, `ManifestWords` that minted uris need no quotes, and
`ManifestAgreement` that the patched text says what the payload in memory says. `ManifestRuns` puts the text into the state
machine: the pins that a reader finds in the file are durable.

**Calendars.** `Calendar` has day numbers, weekdays and month lengths; `FirstDay`, `FirstWeekday` and `DaysFollow` say that
they are those of the Gregorian calendar, counted from Monday, 1 January of the year 1. A trading calendar is an arbitrary
predicate on days. `TradingWindows`, `ExpiryCalendar`, `EarningsSeason` and `EventLabels` prove that decisions made from
bounded slices answer the unbounded questions.

**Replay and walk-forward statistics.** `ReplayDiff` characterises the JSON difference, `ReplayGate` the gate built on it,
`WalkforwardStats` the loops over label series.

**Accumulators.** `KeyedRows` has the few dataframe operations that `EpsHistory` and `MergeRefresh` share.
`Consolidation` and `ConsolidationProperties` model the merge of acquisition databases with new ids.

**Session coverage.** `SessionCoverage` relates three separately written gap checks.

`dafny verify dfyconfig.toml` verifies the project.

## Where the code departs from its descriptions

- A publish derives the new key from the entry's `uri`, although the comment beside it speaks of `local_path`
  (scripts/publish_canonical_snapshot.py:629-635). The model follows the code.
- Stripping undoes minting except for file names that are a dot followed by a sha other than the new one
  (`ArtifactKeys.StripUndoesMint`).
- `_relative_key(_uri_for_key(k)) == k` fails on S3 for keys with `?`, `#`, tab, carriage return or line feed, and on the
  local store for names that a file URI percent-encodes and for keys with `..` (`StoreUris.S3RoundTripIff`,
  `LocalUris.RoundTripSafeRoot`, `LocalUris.RoundTripUnsafeRoot`).
- The upload hashes a file anew while the manifest keeps the digest taken before. A rewrite in between breaks the new pin,
  for good, exactly if it changed the sha and the round changes the entry (`PublishRuns.RewriteBeforeUpload`,
  `PublishRuns.InterruptedSafeIff`, `PublishRuns.HarmfulRewriteNeverHeals`); the durability theorem has all other rewrites.
- The store, too, hashes a file before it copies or uploads it. If other bytes are copied, the pin does not resolve, and the S3
  store reports a match all the same (`ArtifactStore.RewriteDuringPut`).
- Five entries of manifests/runs/regime_engine_2026-05-17.yaml carry full `s3://` uris. Minting makes `s3:/` of
  `s3://`, which no store accepts, so a publish with upload ends at such an entry once its content has changed
  (`FullUris.FullUriIsNeverUploaded`).
- What a publish with `--skip-upload` changed, a later publish does not upload (`PublishProperties.SkippedUploadStaysMissing`).
- An entry whose logical file name is a dot and a sha gets another logical key when it is published
  (`PublishProperties.MintedKeepsKeyIff`).
- A replayed document that differs from the stored one by a null-valued key only has no difference, except beside a NaN:
  there the comparison goes into the dict and meets two NaNs on their own (`ReplayDiff.NullKeyExposesNaN`).
- A window of an event that starts after the event's day is read by the absolute value of its start, so that (1, 3) stands for
  the sessions from -1 to 3 (`EventLabels.WindowReadIff`, `EventLabels.LateWindowReadsBack`).
- The publish-time coverage check cleans tickers before it compares them and the loader's check does not. A symbol that
  cleaning changes therefore passes at publish time with any gap (`SessionCoverage.CoverageInheritedIff`,
  `SessionCoverage.UncleanSymbolUncovered`).
- The earnings windows built for a range do not cover the quarter already under way at its start
  (`EarningsSeason.BuiltWindowsDecide`), and the season question fails for some days of January to March of year 1
  (`EarningsSeason.OwnQuarterDecides`).
- A refreshed table is sorted and free of duplicate keys only once a second dated batch has been merged, or if the first
  batch with rows was already so (`MergeRefresh.RunIncreasingIff`).
- The blob count that a consolidation reports includes blobs whose artifact is missing, which are not imported
  (`ConsolidationProperties.ReportedBlobs`).
- An artifact block that is followed by a name line of another indentation is not found by the patcher
  (`ManifestBlocks.BlockOfIff`).

## Model

| member | source | states |
|---|---|---|
| `ArtifactKeys.StripUndoesMint` | src/regime_data_fetch/artifact_store.py:82-111 | Stripping a minted key gives the key back exactly for the normalised keys whose file name is not a dot and another sha: names without extension, with several dots or an embedded sha included. |
| `ArtifactKeys.MintedKeyIs` | src/regime_data_fetch/artifact_store.py:82-95 | Minting puts the sha between the file's name and its extension, `x/y.parquet` becoming `x/y.<sha>.parquet`, and leaves the directory alone; a dot in front or at the end of a name makes no extension. |
| `ArtifactKeys.MintInjective` | src/regime_data_fetch/artifact_store.py:82-95 | Two minted keys are equal exactly if the normalised logical keys and the shas are, whatever the keys look like. |
| `ArtifactKeys.StripRendered` | src/regime_data_fetch/artifact_store.py:98-111 | Stripping changes the file name of a key and nothing else. |
| `StoreUris.S3RoundTripIff` | src/regime_data_fetch/artifact_store.py:457-532 | The S3 store reads a key back from its own URI exactly if the key has no character that URL parsing drops or cuts at. |
| `LocalUris.RoundTripSafeRoot` | src/regime_data_fetch/artifact_store.py:290-294 | Under a root of URL-safe names the local store reads a key back from its own URI exactly if the key is URL-safe and has no "..". |
| `LocalUris.RoundTripUnsafeRoot` | src/regime_data_fetch/artifact_store.py:465-494 | Under any other root the same holds exactly where the fallback on the root's own name applies. |
| `LocalUris.CollapseClimbs` | src/regime_data_fetch/artifact_store.py:465-470 | Resolving a path cancels a name against the ".." after it, and ".." does nothing at the root. |
| `CanonicalParquet.CanonicalizeParquetBytes` | src/regime_data_fetch/canonical_parquet.py:34-42 | The loop returns the first payload that one more pass leaves alone, or the error of the loop. |
| `CanonicalParquet.CanonicalIsFixpoint` | src/regime_data_fetch/canonical_parquet.py:34-42 | For any single pass, a canonical payload is a fixpoint and canonicalises to itself; the loop succeeds exactly if one of its rounds reaches a fixpoint. |
| `ArtifactStore.Store.ExistingOrRaise` | src/regime_data_fetch/artifact_store.py:221-242 | An object that is reused has, in a truthful store, the sha that the caller is told; going on to write changes no object that is there unless overwriting was asked for; a refusal means other content without that request. |
| `ArtifactStore.Store.PutBytes` | src/regime_data_fetch/artifact_store.py:199-219 | Result and new state of the store after a put of bytes, errors included. |
| `ArtifactStore.Store.PutFile` | src/regime_data_fetch/artifact_store.py:176-197 | The same for a put of a file, which may not exist. |
| `ArtifactStore.Store.GetFile` | src/regime_data_fetch/artifact_store.py:244-263 | A get succeeds exactly if the uri resolves to bytes of the expected sha, and touches the destination only then. |
| `ArtifactStore.Store.CheckFile` | src/regime_data_fetch/artifact_store.py:265-288 | Match, drift, missing or unverifiable, with the sha found, and with the caller's hint in place of the local store's own hash where it names the object's file; in a truthful store and with a true hint, a match means that the pin resolves, and drift or missing that it does not. |
| `ArtifactStore.TrueHintAgrees` | src/regime_data_fetch/artifact_store.py:265-288 | A hint that tells the object's true sha never changes the answer. |
| `ArtifactStore.PutResolves` | src/regime_data_fetch/artifact_store.py:176-242 | In a truthful store, after a put that returns, the key resolves to bytes with the payload's sha and a check reports a match. |
| `ArtifactStore.PutPlaces` | src/regime_data_fetch/artifact_store.py:176-242 | After a put that returned, overwriting or not, the object at the key's place has the payload's sha and the reported size, and is the payload unless one of that sha was there; no other object has changed. |
| `ArtifactStore.PlacesDistinct` | src/regime_data_fetch/artifact_store.py:176-242 | Different normalised keys lead to different places in either store, if they hold no colon and, in the local store, no "..". |
| `ArtifactStore.ForeignUriRefused` | src/regime_data_fetch/artifact_store.py:465-519 | Either store refuses the URIs of the other one, and the S3 store those of other buckets. |
| `ArtifactStore.PutIsAppendOnly` | src/regime_data_fetch/artifact_store.py:176-242 | A put without overwrite never changes an object that is there. |
| `ArtifactStore.AppendKeepsPins` | src/regime_data_fetch/artifact_store.py:244-288 | What resolves keeps resolving to the same sha while the store only grows. |
| `ArtifactStore.TornObjectWedgesKey` | src/regime_data_fetch/artifact_store.py:176-242 | A torn copy under a free key makes every later put of other content fail and stays as it is. |
| `ArtifactStore.RewriteDuringPut` | src/regime_data_fetch/artifact_store.py:176-197 | If the source is rewritten between the store's hash and its copy, the pin resolves exactly if the key was taken or the sha stayed; the S3 store stays truthful exactly then, but reports a match in any case. |
| `ArtifactManifest.Validate` | src/regime_data_fetch/artifact_manifest.py:115-188 | Validation accepts exactly the non-empty manifests of valid entries with distinct names, paths and uris, and reports the first problem otherwise. |
| `ArtifactManifest.EntryChecks` | src/regime_data_fetch/artifact_manifest.py:115-129 | The error of an entry is that of the first failing check: stage, 64 lower-case hex digits, a relative path that has no ".." between slashes, no negative row count. |
| `ArtifactManifest.ValidManifestIff` | src/regime_data_fetch/artifact_manifest.py:115-188 | Valid manifests are the non-empty ones whose entries pass these checks and no two of which share a name, a path or a uri. |
| `PublishSnapshot.Publisher.PublishOne` | scripts/publish_canonical_snapshot.py:600-666 | What publishing one artifact does to files, store and entry, step by step, including each way to fail. |
| `PublishSnapshot.Publisher.PublishRefreshed` | scripts/publish_canonical_snapshot.py:621-666 | The part after the file was made canonical: match, mint, upload, update. |
| `PublishSnapshot.Publisher.RunPublish` | scripts/publish_canonical_snapshot.py:590-667 | The loop over the selected artifacts; an exception leaves the effects of the entries before it. |
| `PublishSnapshot.Publisher.RunDryRun` | scripts/publish_canonical_snapshot.py:556-587 | The answers of the dry run to the selected entries in order, or the first error among them; nothing changes. |
| `PublishSnapshot.Publisher.RunCheck` | scripts/publish_canonical_snapshot.py:466-553 | A report for every selected entry, with local, store and semantic status, and whether none of them is an issue; or the first error of the store, or the error of reading the reference data before the loop. |
| `PublishSnapshot.AskAllMeaning` | scripts/publish_canonical_snapshot.py:512-587 | Asking entry after entry gives the answer of each at its place, or the error of the first entry that has one. |
| `PublishContents.PublishPinsContent` | scripts/publish_canonical_snapshot.py:600-666 | After a publish that returned, told by the single pass and the sha alone: an asked-for entry with a parquet file has the sha of the content that one to three passes over the old file settle on, the file holds that content unless the old one had its sha, and rows and dates of a changed entry are read from it; for other files the content is the old one. Nothing else of the entry changes but the uri, and missing files and other entries stay. |
| `PublishContents.DigestIs` | src/regime_data_fetch/canonical_parquet.py:18-42 | The digest of a parquet file is the sha of the content its passes settle on within three passes, any other file's that of its bytes. |
| `PublishContents.UnsettledIff` | src/regime_data_fetch/canonical_parquet.py:28-42 | There is no digest exactly if no such content exists. |
| `PublishContents.IsParquetIff` | scripts/publish_canonical_snapshot.py:449-450 | Parquet files are those named something and ".parquet", in small or capital letters. |
| `PublishContents.ResolvedParts` | scripts/publish_canonical_snapshot.py:429-446 | Absolute paths name themselves, what lies in data/raw is found in the data root and anything else in the repository. |
| `PublishContents.FilesStayOrSettle` | scripts/publish_canonical_snapshot.py:613-620 | Whether a publish returns or fails, each file ends up with its old content or, if it is a parquet file, with what the passes over it settle on. |
| `PublishContents.OnlyNamedFilesChange` | scripts/publish_canonical_snapshot.py:600-620 | A publish that returned changed no file but those of selected entries. |
| `PublishContents.TurnFailsIff` | scripts/publish_canonical_snapshot.py:600-637 | With such a content, an entry fails for the daily contract, a uri that cannot be minted or a refused upload, in this order, and not at all once its content is pinned. |
| `PublishContents.TurnFailsUnsettled` | scripts/publish_canonical_snapshot.py:605-614 | It fails to be made canonical exactly if there is no such content, and never if the file is missing. |
| `PublishContents.PublishReports` | scripts/publish_canonical_snapshot.py:600-667 | A publish that returned reports on the asked-for entries in their order, with the sha before and after and whether the entry was missing, matched, or was changed with or without upload. |
| `PublishContents.DryRunMeaning` | scripts/publish_canonical_snapshot.py:556-587 | The four answers of a dry run and its failure, told by the content that a publish would pin. |
| `PublishContents.CheckOfContent` | scripts/publish_canonical_snapshot.py:466-553 | Local status, semantic status and the hint for the store, told by the same content. |
| `PublishContents.CleanCheckIff` | scripts/publish_canonical_snapshot.py:512-553 | A check finds no issue exactly if for every asked-for entry the file is there, that content has the manifest's sha and passes the semantic checks, and the store matches or cannot tell. |
| `PublishProperties.PublishIdempotent` | scripts/publish_canonical_snapshot.py:590-667 | A second publish after one that returned reports match or missing for everything and changes no file, object or entry. |
| `PublishProperties.CheckAfterPublish` | scripts/publish_canonical_snapshot.py:512-553 | In a truthful store, after a publish that returned, the check reports a match in the store, and a local match unless the file is missing, for every selected entry that matched in the store before or that a dry run had announced. |
| `PublishProperties.StoreMatchesIff` | scripts/publish_canonical_snapshot.py:489-667 | In a truthful store, after a publish that returned, an entry matches exactly if it matched before, or if an announced entry, itself or another one, is now pinned to the same place and sha. |
| `PublishProperties.SkippedUploadStaysMissing` | scripts/publish_canonical_snapshot.py:590-667 | What a publish without upload changed, and whose new uri leads to a free place, stays missing from the store over a later publish with upload. |
| `PublishProperties.DryRunPredicts` | scripts/publish_canonical_snapshot.py:556-587 | Before a publish that returns, a dry run says WOULD_UPLOAD for exactly the selected entries the publish will change, although the publish rewrites files as it goes. |
| `PublishProperties.EntryUploads` | scripts/publish_canonical_snapshot.py:629-642 | Publishing an entry into a truthful store only adds to the store, and a changed entry was uploaded: its new uri resolves to its new sha and the store reports a match. |
| `PublishProperties.PublishKeepsLogicalKeys` | scripts/publish_canonical_snapshot.py:629-642 | A publish, returning or failing, never changes the logical key of an entry whose logical key is normalised and whose logical file name is not a dot and a sha. |
| `PublishProperties.MintedKeepsKeyIff` | scripts/publish_canonical_snapshot.py:629-635 | A new uri has the old one's logical key exactly if that key is normalised and its file name is not a dot and another sha. |
| `PublishProperties.PublishKeepsManifestValid` | src/regime_data_fetch/artifact_manifest.py:166-188 | A valid manifest with distinct logical keys stays valid with distinct logical keys: minted keys collide neither with each other nor with untouched uris. |
| `PublishProperties.DistinctKeysDistinctUris` | src/regime_data_fetch/artifact_store.py:82-111 | Distinct logical keys mean distinct uris. |
| `PublishRuns.PublishIsARun` | scripts/publish_canonical_snapshot.py:890-990 | Whatever a publish with upload does from any state is a run of the state machine, ending with the payload committed or, if the publish fails, with the manifest as it was. |
| `PublishRuns.PinDurability` | scripts/publish_canonical_snapshot.py:590-667 | Over any run of rewrites between artifacts and harmless ones inside them, publishes, exceptions, crashes, torn copies and commits, every pin of the manifest on disk or of any earlier version resolves to bytes with its sha. |
| `PublishRuns.NextKeepsSafe` | scripts/publish_canonical_snapshot.py:965-990 | Each step keeps the invariant: truthful store, all pins ever committed resolve, and so do those of the payload in memory. |
| `PublishRuns.ResolvesForever` | src/regime_data_fetch/artifact_store.py:176-242 | What resolves at one moment of a run resolves at every later one, to the same bytes. |
| `PublishRuns.RewriteBeforeUpload` | scripts/publish_canonical_snapshot.py:613-637 | For a round that changes the entry, the new pin is good exactly if the file, as it is at the upload, has the sha of the digest, whether the key was free or taken. |
| `PublishRuns.InterruptedSafeIff` | scripts/publish_canonical_snapshot.py:613-642 | A rewrite inside a round keeps the invariant exactly if it kept the sha or the round changes no entry. |
| `PublishRuns.CopiedSafeIff` | src/regime_data_fetch/artifact_store.py:176-197 | A rewrite between the store's hash and its copy keeps the invariant exactly if the copy is faithful. |
| `PublishRuns.HarmfulRewriteNeverHeals` | scripts/publish_canonical_snapshot.py:613-642 | The pin that any other rewrite leaves behind resolves neither then nor at any later moment of any run. |
| `PublishRuns.ManifestStaysValid` | src/regime_data_fetch/artifact_manifest.py:166-188 | Over any run, the manifest on disk and the payload in memory stay valid with distinct logical keys. |
| `PublishRuns.SkippedUploadDangles` | scripts/publish_canonical_snapshot.py:636-642 | A publish without upload leaves a changed entry pinning a key with nothing under it. |
| `PublishRuns.TornCopyBlocksPublish` | src/regime_data_fetch/artifact_store.py:187-242 | After a torn copy, publishing the same content is refused. |
| `FullUris.FullUriIsNeverUploaded` | scripts/publish_canonical_snapshot.py:629-642 | A publish with upload never changes an entry with a full `s3://` uri and puts nothing for it; if its content has changed, the publish ends there with an error. |
| `ManifestBlocks.ArtifactBlockSpans` | scripts/publish_canonical_snapshot.py:713-736 | The loop finds for every name its last recorded block, and no other name. |
| `ManifestBlocks.BlockOfIff` | scripts/publish_canonical_snapshot.py:713-736 | A name has a block exactly if one of its name lines is followed by one of the same indentation or by none; the last such line starts it. |
| `ManifestBlocks.UniformIndentKeepsBlocks` | scripts/publish_canonical_snapshot.py:713-736 | With uniform indentation no name line is lost. |
| `ManifestBlocks.OwnedBy` | scripts/publish_canonical_snapshot.py:713-736 | The lines of a block are exactly those between its name line and the next, so blocks of different names share no line. |
| `ManifestPatch.PatchArtifactBlockLines` | scripts/publish_canonical_snapshot.py:739-760 | In place, the first line of each updated key in the block gets its new value, all other lines stay, and the fields that were not found are those reported. |
| `ManifestPatch.PatchManifest` | scripts/publish_canonical_snapshot.py:677-710 | For the artifacts in any order: success exactly if all blocks and fields exist, one text determined by the patches alone, and the right error otherwise. |
| `ManifestPatchProperties.OnlyFirstOccurrences` | scripts/publish_canonical_snapshot.py:739-760 | A changed line lies in the block of a patched artifact and is the first there with an updated key. |
| `ManifestPatchProperties.KeepsOutline` | scripts/publish_canonical_snapshot.py:677-760 | Line count, name lines, blocks and keys stay where they are. |
| `ManifestPatchProperties.ReadBack` | scripts/publish_canonical_snapshot.py:739-795 | Patched fields read back as their new values and all others as before. |
| `ManifestPatchProperties.StaysPatchable` | scripts/publish_canonical_snapshot.py:694-699 | Which patches apply to a manifest does not change by patching it. |
| `ManifestPatchProperties.RepatchIsNoop` | scripts/publish_canonical_snapshot.py:739-795 | Patching again changes nothing exactly if every written value settles. |
| `ManifestLineLaws.PatchedFields` | scripts/publish_canonical_snapshot.py:749-771 | A patched line keeps its key and has the rendered value. |
| `ManifestLineLaws.FieldLineIff` | scripts/publish_canonical_snapshot.py:763-771 | Exactly which lines have a key, and which key and value they have: what stands on either side of the first colon, without the white space around. |
| `ManifestLineLaws.PatchedLineKeeps` | scripts/publish_canonical_snapshot.py:749-754 | A patched line keeps all that stands before the colon, indentation included, and its line end. |
| `ManifestLineLaws.RenderedStyle` | scripts/publish_canonical_snapshot.py:781-795 | The new text is quoted as the old one was, and a null stays empty where the text was. |
| `ManifestLineLaws.NameLineIff` | scripts/publish_canonical_snapshot.py:674-730 | Exactly which lines are name lines, with what indentation and name: white space, dash, white space, "name:", white space and a text, which may have one pair of quotes around the name. |
| `ManifestLineLaws.FormatTwice` | scripts/publish_canonical_snapshot.py:781-795 | Rendering over one's own rendering changes nothing, except for text that looks quoted in an unquoted place. |
| `ManifestLineLaws.YamlIsLawful` | scripts/publish_canonical_snapshot.py:713-795 | The patcher's line syntax: updates keep name lines and keys, values read back, and settle exactly under that condition. |
| `ManifestTexts.PatchedTextLines` | scripts/publish_canonical_snapshot.py:693-710 | Splitting the written text gives the very lines that were written. |
| `ManifestTexts.PatchedTextReads` | scripts/publish_canonical_snapshot.py:677-795 | On texts: the new text has the new value of every patched field and the old value of every other one. |
| `ManifestTexts.RepatchTextIsNoop` | scripts/publish_canonical_snapshot.py:677-795 | On texts: patching again writes the same text exactly if no written text looks quoted where the old value was not quoted. |
| `ManifestScalars.RenderedDenotesIff` | scripts/publish_canonical_snapshot.py:781-795 | The text written over an old value stands for the new value always between single quotes, between double quotes exactly if the value has no backslash, and bare exactly if it has neither white space nor quotes around it; that of a number always does, for a reader of decimal numbers. |
| `ManifestScalars.ReadableIff` | scripts/publish_canonical_snapshot.py:781-795 | The values that every quoting style renders faithfully are exactly those without backslash and without white space or quotes around them. |
| `ManifestScalars.IntTextReads` | scripts/publish_canonical_snapshot.py:784-785 | A reader of decimal numbers reads every integer back from the text written for it. |
| `ManifestWords.MintedUriWord` | scripts/publish_canonical_snapshot.py:629-635 | Minting makes a uri without white space, quotes and backslashes of one without. |
| `ManifestAgreement.PatchableIff` | scripts/publish_canonical_snapshot.py:694-760 | A patch applies exactly if each artifact to patch has a block with every field to patch. |
| `ManifestAgreement.PublishExplained` | scripts/publish_canonical_snapshot.py:639-666 | The reported updates turn every old entry into the one that the publish leaves in memory. |
| `ManifestAgreement.PatchAgreesWithPayload` | scripts/publish_canonical_snapshot.py:965-990 | A text that represented the payload before a publish represents it after the patch, if the patch applies; that the written values need no quotes follows from the old uris and from dates and shas. |
| `ManifestRuns.TextStaysConsistent` | scripts/publish_canonical_snapshot.py:677-710 | Over any run, with patches that do not apply as one more way to fail, the manifest file says what the payload on disk says. |
| `ManifestRuns.TextPinDurability` | scripts/publish_canonical_snapshot.py:965-990 | Whatever the manifest file says at some moment, each artifact has a pin there, and the pin resolves to bytes with its sha then and at every later moment. |
| `TradingWindows.ExpandOkIff` | src/regime_data_fetch/event_calendar_windows.py:19-42 | Expansion succeeds exactly if the anchor trades and the 14-day slices hold enough sessions. |
| `TradingWindows.ExpandExact` | src/regime_data_fetch/event_calendar_windows.py:19-42 | A successful expansion is the anchor's window in the unbounded trading calendar: the days of rank -lookback to lookahead, in order. |
| `TradingWindows.CountIsCardinality` | src/regime_data_fetch/event_calendar_windows.py:19-42 | Ranks count sessions: the count between two days is the size of the set of days on which the exchange trades. |
| `TradingWindows.ToleratedClosures` | src/regime_data_fetch/event_calendar_windows.py:19-42 | Fourteen days hold ten weekdays, so exactly 10 - lookback closures before and 10 - lookahead after are tolerated. |
| `TradingWindows.ElectionIsTheTuesday` | src/regime_data_fetch/event_calendar_windows.py:12-16 | The election date is the one Tuesday from 2 to 8 November. |
| `TradingWindows.ElectionWindowIff` | src/regime_data_fetch/event_calendar.py:115-126 | The (5, 10) election window tolerates no closure in the 14 days after the election. |
| `TradingWindows.ElectionWindowSurvivesThanksgiving` | src/regime_data_fetch/event_calendar.py:115-126 | If the Thursday from 22 to 28 November is the only possible closure after it, the window exists. |
| `ExpiryCalendar.ThirdFridayIff` | src/regime_data_fetch/expiry_calendar.py:72-78 | The third Friday is the one Friday from the 15th to the 21st. |
| `ExpiryCalendar.AnchorIsLastSession` | src/regime_data_fetch/expiry_calendar.py:11-25 | The anchor is the month's last session on or before the Friday from the 15th to the 21st, and fails exactly if there is none. |
| `ExpiryCalendar.BuildAnchors` | src/regime_data_fetch/expiry_calendar.py:53-69 | The loop over months gives the anchors of exactly the months of the range. |
| `ExpiryCalendar.AnchorsMeaning` | src/regime_data_fetch/expiry_calendar.py:53-69 | One anchor a month in order, or the failure of the first month without one. |
| `ExpiryCalendar.BuiltAnchors` | src/regime_data_fetch/expiry_calendar.py:53-69 | The anchor of a month stands at the place of that month in the list. |
| `ExpiryCalendar.OwnMonthDecides` | src/regime_data_fetch/event_calendar.py:231-240 | With three sessions up to each third Friday, a date lies in some month's expiry window exactly if it lies in its own month's. |
| `EarningsSeason.InWindowIff` | src/regime_data_fetch/earnings_season_calendar.py:10-18 | A quarter's window runs from the Monday from the 8th to the 14th of its first month to 35 days later. |
| `EarningsSeason.WindowsDisjoint` | src/regime_data_fetch/earnings_season_calendar.py:10-18 | Windows of different quarters share no day. |
| `EarningsSeason.SeasonIff` | src/regime_data_fetch/earnings_season_calendar.py:43-65 | A date is in season exactly if it is at most 35 days after the second Monday of the first month of some quarter of some year, and not before it. |
| `EarningsSeason.OwnQuarterDecides` | src/regime_data_fetch/earnings_season_calendar.py:43-82 | The previous quarter never adds a date; the question fails exactly in the first quarter of year 1, outside its window. |
| `EarningsSeason.BuildWindows` | src/regime_data_fetch/earnings_season_calendar.py:21-40 | The loop ends and builds the windows of the quarter starts in the range. |
| `EarningsSeason.BuiltWindowsDecide` | src/regime_data_fetch/earnings_season_calendar.py:21-58 | The built windows decide membership of a date in range exactly if its quarter starts no earlier than the start month. |
| `EarningsSeason.BuiltWindowsInOrder` | src/regime_data_fetch/earnings_season_calendar.py:21-40 | Each built window ends before the next one starts. |
| `EventLabels.MatchingScheduledEventLabels` | src/regime_data_fetch/event_calendar.py:472-496 | The loop collects the labels of the events whose window holds the date, and fails if some window cannot be expanded. |
| `EventLabels.ResolveEventLabel` | src/regime_data_fetch/event_calendar.py:219-253 | Scheduled labels, expiry week and earnings season together, or the first failure. |
| `EventLabels.ResolutionMeaning` | src/regime_data_fetch/event_calendar.py:219-253 | The matching labels are exactly those that apply, told by the ranks of sessions around events and third Fridays and by the second Mondays of quarters; strictly by precedence, the primary one first; alone the normal calendar if none applies. |
| `EventLabels.ResolveOkIff` | src/regime_data_fetch/event_calendar.py:219-253 | A resolution succeeds exactly if relevant events and the month's anchor trade and have the sessions they need within 14 days on each side, and the date is not out of season in the first quarter of year 1. |
| `EventLabels.EventSaysByLabel` | src/regime_data_fetch/event_calendar.py:115-126 | For each label, the event types that give it and the sessions around the event for which they do. |
| `EventLabels.WindowReadIff` | src/regime_data_fetch/event_calendar.py:483-490 | The window of an event is read as written exactly if it starts no later than the event's day. |
| `EventLabels.LateWindowReadsBack` | src/regime_data_fetch/event_calendar.py:483-490 | The window (1, 3) is read as the sessions of rank -1 to 3. |
| `EventLabels.OrderAndRepetitionIrrelevant` | src/regime_data_fetch/event_calendar.py:219-253 | Order and repetition of events do not matter. |
| `EventLabels.MoreEventsMoreLabels` | src/regime_data_fetch/event_calendar.py:219-253 | More events never remove a label other than the normal calendar. |
| `ReplayDiff.DiffValues` | scripts/run_shadow_replay_check.py:69-83 | The loop over the united keys computes the difference, in any order of the keys. |
| `ReplayDiff.BooleansAreNumbers` | scripts/run_shadow_replay_check.py:69-71 | Comparing as Python does, a truth value equals the numbers 1 and 0 and nothing else but itself. |
| `ReplayDiff.DiffNoneIff` | scripts/run_shadow_replay_check.py:69-83 | No difference means equality after null-valued keys of dicts reached through dicts are dropped, and no NaN compared with a NaN on its own; inside a dict or list that is equal throughout, a NaN equals itself. |
| `ReplayDiff.NoDifferenceReflexiveIff` | scripts/run_shadow_replay_check.py:69-83 | A document has no difference to itself exactly if it is not itself a NaN. |
| `ReplayDiff.ExposedIff` | scripts/run_shadow_replay_check.py:69-83 | A NaN is compared on its own exactly if it stands on both sides at the end of a path of dict keys along which the dicts differ. |
| `ReplayDiff.DiffWithoutNaN` | scripts/run_shadow_replay_check.py:69-83 | If one of the documents has no NaN, no difference means equality up to those null-valued keys. |
| `ReplayDiff.NullKeyExposesNaN` | scripts/run_shadow_replay_check.py:69-83 | A null-valued key beside a NaN makes a difference, although it alone does not count and the NaN alone does not either. |
| `ReplayDiff.NoDifferenceSymmetric` | scripts/run_shadow_replay_check.py:69-83 | The verdict does not depend on the sides. |
| `ReplayDiff.NoDifferenceTransitive` | scripts/run_shadow_replay_check.py:69-83 | The verdict is transitive. |
| `ReplayDiff.WeakerThanEquality` | scripts/run_shadow_replay_check.py:69-83 | A null-valued key does not count in a dict and does count inside a list. |
| `ReplayDiff.DiffReportsBothSides` | scripts/run_shadow_replay_check.py:69-83 | Where the comparison parts the documents, the difference holds exactly the two values found there, each under its side. |
| `ReplayDiff.ClassificationSound` | scripts/run_shadow_replay_check.py:86-100 | If the difference touches no classification field, everything at or below a state or label key agrees in both documents. |
| `ReplayDiff.ClassificationKeyIff` | scripts/run_shadow_replay_check.py:86-94 | The classification keys are "state" and "label", and all that end in an underscore and one of the two. |
| `ReplayDiff.TouchesIff` | scripts/run_shadow_replay_check.py:86-100 | The search finds a classification key exactly if a path through dicts and lists leads past one. |
| `ReplayDiff.DiffTouchesIff` | scripts/run_shadow_replay_check.py:69-100 | A difference touches a classification field exactly if the documents part below a classification key, or part where one of them holds such a key. |
| `ReplayGate.ReplayAllResults` | scripts/run_walkforward_replay_check.py:59-141 | Replaying gives one result for every successful run, and all match exactly if all documents agree up to null-valued keys with no NaN compared on its own. |
| `ReplayGate.BreaksQualificationIff` | scripts/run_walkforward_replay_check.py:99-111 | For every date, in terms of its two documents: it breaks qualification exactly if they part below a classification key, or part where one of them holds such a key; if it does not, everything at or below a classification key agrees; it matches exactly if they agree throughout. |
| `ReplayGate.ReplayFailsIff` | scripts/run_walkforward_replay_check.py:59-69 | The replay fails exactly if a run lacks a path, and names the first such date. |
| `ReplayGate.SuccessRunsAre` | scripts/run_walkforward_replay_check.py:48-56 | The replayed runs are the successful rows, each as often as the table has it. |
| `ReplayGate.ReasonsMeaning` | scripts/build_walkforward_report.py:409-452 | When each of the five reasons is given. |
| `ReplayGate.VerdictMeaning` | scripts/run_walkforward_replay_check.py:114-141 | The verdict passes exactly if there was a successful run and all of them agree; it has their dates and the versions that replayed them. |
| `ReplayGate.CleanGateIff` | scripts/build_walkforward_report.py:409-452 | The exact meaning of a clean gate, for a verdict read back against a table that may have changed. |
| `ReplayGate.CleanGateUnchangedTable` | scripts/build_walkforward_report.py:310-323 | With the table unchanged: some successful run, all dates agree, one engine and one config version. |
| `ReplayGate.VersionlessVerdictPasses` | scripts/build_walkforward_report.py:409-452 | A verdict without versions passes against a table of several versions. |
| `WalkforwardStats.LongestRuns` | scripts/build_walkforward_report.py:167-182 | Each label of the series, and no other, with the length of its longest block. |
| `WalkforwardStats.BestIsLongest` | scripts/build_walkforward_report.py:167-182 | The length is attained by a block and no block is longer. |
| `WalkforwardStats.UnknownStretch` | scripts/build_walkforward_report.py:206-216 | The same number as the longest run of "unknown", 0 if there is none. |
| `WalkforwardStats.SwitchCountIsCardinality` | scripts/build_walkforward_report.py:185-189 | The shifted comparison counts exactly the switches. |
| `WalkforwardStats.MaximalRuns` | scripts/build_walkforward_report.py:167-189 | A non-empty series is exactly switches + 1 maximal runs, whose lengths add up to its length. |
| `WalkforwardStats.LengthBound` | scripts/build_walkforward_report.py:282-301 | A series is no longer than its longest run times switches + 1. |
| `WalkforwardStats.FalseSwitchCount` | scripts/build_walkforward_report.py:192-203 | The loop counts exactly the set of flip-flops. |
| `WalkforwardStats.FlipsAreSwitches` | scripts/build_walkforward_report.py:282-301 | Flip-flops are switches, so the reported rate lies between 0 and 1. |
| `WalkforwardStats.FlipsMonotone` | scripts/build_walkforward_report.py:192-203 | A longer horizon finds at least the same flip-flops. |
| `WalkforwardStats.TwoLabelFlips` | scripts/build_walkforward_report.py:192-203 | With two labels and a covering horizon every switch but the last is a flip-flop. |
| `EpsHistory.History.AppendWeekly` | src/regime_data_fetch/aggregate_eps.py:220-249 | The new table after a live fetch; a sorted table stays sorted, and only the row of the fetched date changes. |
| `EpsHistory.History.SeedFromTimeline` | src/regime_data_fetch/aggregate_eps.py:252-297 | The new table after a seed; a missing or empty timeline is an error and changes nothing. |
| `EpsHistory.AppendedRows` | src/regime_data_fetch/aggregate_eps.py:220-249 | A live fetch replaces the row of its date and no other. |
| `EpsHistory.SeededRows` | src/regime_data_fetch/aggregate_eps.py:252-297 | A seed fills the dates without a row, each with its last capture, and leaves the others. |
| `EpsHistory.RunRows` | src/regime_data_fetch/aggregate_eps.py:220-297 | After every interleaving the table is sorted with one row a date: the latest live row, else the first seeded one. |
| `EpsHistory.FinalRowMeaning` | src/regime_data_fetch/aggregate_eps.py:220-297 | That row by position: the label, value and source of the last live fetch of the date, else of the last capture in the first seed that has the date. |
| `EpsHistory.Confluence` | src/regime_data_fetch/aggregate_eps.py:220-297 | The table depends only on the order of the live fetches and the order of the seeds, not on how they interleave. |
| `EpsHistory.SeedMoves` | src/regime_data_fetch/aggregate_eps.py:220-329 | Wherever one seed comes among live fetches, table and four-week revisions are the same. |
| `EpsHistory.LaterFetchExtends` | src/regime_data_fetch/aggregate_eps.py:300-329 | A fetch for a new latest date adds one revision and changes none. |
| `EpsHistory.RefetchIsLocal` | src/regime_data_fetch/aggregate_eps.py:300-329 | Fetching a date again can change only its own revision and the one four rows later. |
| `MergeRefresh.StoredTable.WriteMerged` | src/regime_data_fetch/fetch_workflow.py:126-143 | Each key of the batch reads as the batch's last row and every other key as before; a dated batch merged into rows leaves them sorted with unique keys; a failure, exactly for rows without a date column, leaves the tree. |
| `MergeRefresh.MergeFails` | src/regime_data_fetch/fetch_workflow.py:93-123 | A merge fails exactly for a batch with rows and no date column. |
| `MergeRefresh.MergedRows` | src/regime_data_fetch/fetch_workflow.py:100-123 | Each key of the batch holds the batch's last row, all other keys their old row. |
| `MergeRefresh.RunLookup` | src/regime_data_fetch/fetch_workflow.py:100-143 | Over any sequence of batches no key is lost and the last writer wins. |
| `MergeRefresh.RunIncreasingIff` | src/regime_data_fetch/fetch_workflow.py:100-143 | The table is sorted with unique keys, except while its rows are one batch stored as it came that is not. |
| `MergeRefresh.GoodFirstBatch` | src/regime_data_fetch/fetch_workflow.py:100-143 | If the first batch with rows is sorted with unique keys, so is the table forever. |
| `MergeRefresh.RemergeIsNoop` | src/regime_data_fetch/fetch_workflow.py:100-123 | Merging the same dated batch again changes nothing exactly if the table was left sorted with unique keys. |
| `MergeRefresh.SymbolDateIsOrder` | src/regime_data_fetch/fetch_workflow.py:131-135 | Symbol and date, compared in turn, order the keys strictly. |
| `MergeRefresh.TextBeforeIff` | src/regime_data_fetch/fetch_workflow.py:131-135 | Symbols are ordered by the first character in which they differ. |
| `Consolidation.Target.ImportOneSource` | src/regime_data_fetch/acquisition_consolidation.py:139-350 | One transaction: succeeds exactly if no reference dangles, leaves the imported tables and their counts, and rolls back otherwise. |
| `Consolidation.Target.Consolidate` | src/regime_data_fetch/acquisition_consolidation.py:71-136 | The target holds exactly the sources before the first missing or dangling one; success exactly if there is none, and otherwise the error names a missing database or a run id that the source refers to and does not have. |
| `ConsolidationProperties.HistoryOf` | src/regime_data_fetch/acquisition_consolidation.py:91-106 | Sources with valid references have a history of targets, each the import of one source into the one before, and it ends in the consolidated target. |
| `ConsolidationProperties.IdsInjective` | src/regime_data_fetch/acquisition_consolidation.py:147-225 | Id maps are injective and map into the range of the new rows. |
| `ConsolidationProperties.IdsDisjoint` | src/regime_data_fetch/acquisition_consolidation.py:147-225 | Rows of different sources never share an id. |
| `ConsolidationProperties.RunsEmbedded` | src/regime_data_fetch/acquisition_consolidation.py:151-182 | Every run of every source is in the target with its columns; its notes end in "imported_from=", label and path, after the notes it had and a separating bar, if it had any. |
| `ConsolidationProperties.ArtifactsEmbedded` | src/regime_data_fetch/acquisition_consolidation.py:184-231 | Every artifact is in the target with its columns, points to the image of its own source's run, and has such notes. |
| `ConsolidationProperties.OutputsEmbedded` | src/regime_data_fetch/acquisition_consolidation.py:254-288 | Every output is in the target with its columns, points to the image of its own source's run, and has such notes. |
| `ConsolidationProperties.ReferencesFollow` | src/regime_data_fetch/acquisition_consolidation.py:151-231 | Following an artifact's run in the target gives the run it had in its source. |
| `ConsolidationProperties.BlobsEmbedded` | src/regime_data_fetch/acquisition_consolidation.py:233-252 | An artifact has in the target exactly the blob it has in its source. |
| `ConsolidationProperties.RowsAddUp` | src/regime_data_fetch/acquisition_consolidation.py:109-130 | Runs, artifacts and outputs of the target are as many as those of the sources together. |
| `ConsolidationProperties.BlobsAddUp` | src/regime_data_fetch/acquisition_consolidation.py:233-252 | The target has one blob for each blob of a known artifact. |
| `ConsolidationProperties.ReportedBlobs` | src/regime_data_fetch/acquisition_consolidation.py:343-350 | The reported blob count is the imported one exactly if no blob dangles. |
| `ConsolidationProperties.CountsAreRows` | src/regime_data_fetch/acquisition_consolidation.py:343-350 | An import reports how many rows the source's tables have. |
| `ConsolidationProperties.LastSourceWins` | src/regime_data_fetch/acquisition_consolidation.py:299-341 | Each symbol and date holds the bar of the last source that has one, and no bar comes from nowhere. |
| `SessionCoverage.ActiveIntervalsBySymbol` | scripts/publish_canonical_snapshot.py:353-386 | The loop groups the membership rows by cleaned ticker, blank tickers left out. |
| `SessionCoverage.ExpectedSymbolSessions` | scripts/publish_canonical_snapshot.py:244-274 | The sessions in range on which the symbol is a member. |
| `SessionCoverage.PublishGap` | scripts/publish_canonical_snapshot.py:223-241 | The sessions the publish-time check raises about. |
| `SessionCoverage.ExpectedConstituentSessions` | scripts/profile_engine.py:412-433 | The sessions in range on which the constituent is active. |
| `SessionCoverage.ConstituentGap` | scripts/profile_engine.py:372-396 | The sessions the loader's check raises about. |
| `SessionCoverage.LoadTree` | scripts/profile_engine.py:311-369 | Loading succeeds exactly if every ticker is loadable, yields the non-empty slices, and otherwise raises about the first ticker that is not, with exactly the sessions it misses. |
| `SessionCoverage.LeftEarlyIff` | scripts/profile_engine.py:324-333 | A ticker may lack its file exactly if its rows have an end date and all their end dates lie before 4 January 2016. |
| `SessionCoverage.PublishIsAllSlices` | scripts/publish_canonical_snapshot.py:223-274 | With one reading of the intervals, publishing accepts exactly the dates of which the loader accepts every slice. |
| `SessionCoverage.CoverageInheritedIff` | scripts/profile_engine.py:372-433 | With the same membership rows, passing the publish-time check always means passing the loader's check for every slice exactly for the symbols that are not blank and that cleaning leaves alone, and for those that the loader never takes for active. |
| `SessionCoverage.UncleanSymbolUncovered` | scripts/profile_engine.py:372-433 | For any other symbol and any day on which the loader takes it for active, observations on the days before and after pass at publish time and fail in the loader. |
| `SessionCoverage.SlicesGlue` | scripts/profile_engine.py:339-359 | Two accepted slices with an observed date in common make one accepted slice. |
| `SessionCoverage.WithoutIntervals` | scripts/_v2_calibration_helpers.py:293-312 | Without membership intervals both checks are the plain gap check. |

## Left out

- Publishing with `--skip-upload` and puts with `overwrite=True` are no steps of the runs: they give up durability on purpose.
- PublishRuns.PinDurability: a rewrite between digest and upload that changes the sha of an entry being changed is no step
  of a run that goes on, nor is one between the store's hash and its copy; `PublishRuns.InterruptedSafeIff` and
  `PublishRuns.CopiedSafeIff` show that exactly these break a pin. A round has one rewrite inside it, not two.
- Two publishers at once, deletion of objects, and a store root that overlaps the data files.
- PublishSnapshot.Publisher.RunCheck: what the semantic checks look at in parquet content, and how the SPY and membership
  entries are read for them, are arbitrary functions; the calendar part is in `SessionCoverage`.
- Symbolic links and Windows paths.
- Parquet encoding, SHA-256, the NYSE holiday table, JSON and YAML loading: abstract functions or left to the caller.
- ManifestScalars.RenderedDenotesIff: plain scalars that YAML would type, such as a sha of digits only, or that hold YAML
  punctuation stand for themselves, and a scalar ends on its line.
- ManifestRuns.TextPinDurability: the manifest is written by publishes only, and the entries' uris have no white space, quotes
  or backslashes at first.
- ReplayDiff.DiffNoneIff: all NaN of the documents are the one object that the JSON reader hands out.
- ManifestTexts.PatchedTextReads: texts whose only line break is the newline; the other breaks that `splitlines` knows are
  modelled, but a patched line loses them.
- EarningsSeason.SeasonIff: dates for which the question fails are excluded; `EarningsSeason.OwnQuarterDecides` says which.
- WalkforwardStats.FalseSwitchCount: the horizon is a natural number, as configured horizons are.
- TradingWindows.ExpandExact: lookback and lookahead as the event table has them, not negative in total; the source's use
  of an absolute value for the lower bound makes no difference there; `EventLabels.WindowReadIff` says when it does.
- EpsHistory.RunRows: dates are never missing; estimates are exact numbers, and NaN is a missing value.
- MergeRefresh.RunLookup: key columns have no missing values, sorting by several columns is stable, and a partitioned tree
  reads back as the frame that was written.
- Null FRED observations that are dropped after a merge.
- Consolidation.Target.ImportOneSource: the normalised tables filled from output files, and logging, are not modelled; the
  parameter JSON is augmented by an arbitrary function.
- SessionCoverage.LoadTree: prices are not modelled, only dates; the tickers are given instead of selected by overlap.
- Fetchers, retries, scraping, markdown and JSON reports, profiling, argument parsing: no property that spans steps.
- The regime engine, feature store and shadow storage are not part of this model; replay takes stored and replayed
  documents as given.
