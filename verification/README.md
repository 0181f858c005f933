# Gaviero: a verified model of the core algorithms

Gaviero runs coding agents on a repository. This project models the parts of it that hold an
algorithm or a state, and proves what they promise:

- **Path patterns** (`PathPattern`, `PathMatch`, `PathText`): does a path match, can two patterns
  share a path. The memoised two-index recursion is shown to decide exactly whether two patterns have
  a common path, from a denotation of patterns as sets of texts.
- **Settings** (`AppendSetting`, `Settings`, `SettingsList`, `WorkspaceSettings`): dotted lookup and
  update over JSON, the cascade of layers, `key+` additions, the precomputed index, and the two
  readers of the same files.
- **Write gate** (`HunkAssembly`, `WriteGate`, `GateBuckets`, `GateActions`, `GateWorld`,
  `GateProtocol`): assembling a file from accepted hunks, the three buckets of proposals, what goes to
  the disk, and every run of proposers that interleave.
- **Settings key scanner** (`KeyTokenizer`, `KeySpans`, `KeyDocuments`, `KeyPlaces`, `KeyPrefixes`): a
  lenient tokenizer and a stack machine, against JSON text as in sections 4, 5 and 7 of RFC 8259 with
  comments in it, and on half-edited files.
- **Conflict markers** (`ConflictMarkers`): a scanner that backtracks, against a declarative notion of
  conflict region.
- **Prompt journal** (`JournalRecord`, `Journal`): an append-only log with torn writes.
- **Redaction** (`SecretScan`) and **the managed block of `.cursorignore`** (`ManagedBlock`).
- **Config snapshot** (`ConfigRestore`, `RestoreUndo`): undoing a run over a small file system.

`Text`, `Json` and `Selection` hold the string operations, the JSON values and the parts of lists that
the others share. Loops and updated state are methods, proved against functions; the properties are
lemmas about those functions, among them for each operation what it gives in terms of its inputs
alone. `hide` statements only keep the proofs small.

Where the code does not keep what it or its comments say, the model keeps the code, and the
condition under which the promise holds is proved in both directions:

- the overlap of two patterns is conservative exactly unless one of them trims to `.`, which only
  `matches` treats as the whole workspace (`ConservativeExactlyUnlessRoot`); a directory pattern is
  read alike by `matches` and `patterns_overlap` exactly when its name has no wildcard
  (`ReadAlikeExactlyWhenLiteralDirectory`);
- the settings index agrees with the cascade exactly for keys whose first segment is not empty and
  whose inner segments do not end in `+` (`GetAgreesExactlyOnWalkable`); the two readers agree
  exactly unless the repo is also the user folder with another workspace folder between them
  (`ReadersAgreeExactly`); a lookup that names no repo in workspace mode agrees exactly where the
  repo's file is another layer too;
- the listing of a setting shows what resolution leaves out: an object added to a list, and
  anything added to a scalar or an object (`AddsWhatIsListedExactly`, `SetLayerShowsExactly`); it
  also leaves out the entries of a built-in default that an addition extends (`UnsetShowsExactly`);
- proposers take the gate's lock twice, so two overlapping proposers on one path are never linked,
  and finalizing one leaves the other as it was (`OverlappingProposersEscape`); proposals are linked
  exactly when one was committed before the other began (`EveryRunKeepsInv`);
- the assembled file is the splice of the decided hunks exactly when no copied line ends in CRLF, for
  every decision (`AssembledIsSplice`): otherwise the copied lines lose their carriage returns
  (`AssembledIsRewritten`), whether hunks are accepted (`AcceptAllGivesProposed`) or not
  (`RejectAllGivesOriginal`); a newly created file loses its final newline
  (`NewFileLosesFinalNewline`);
- the key scanner reports the keys of a JSON document under their JSON names exactly when no reported
  key is written with one of the escapes b, f, n, r, t or u
  (`ReportsDocumentKeysExactlyWhenPlain`);
- an update of `.cursorignore` that asks for no block still rewrites a file without one, unless it is
  blank or ends every line in a bare line feed and has no blank tail (`InactiveSyncIsIdleExactly`);
- a journal append after a torn one is lost (`AppendKeptExactlyAtBoundary`);
- repeating the `.cursorignore` update changes nothing exactly unless a line ends in a bare
  carriage return; activating and deactivating removes a blank file that existed before
  (`LastCallDecides`).

One limitation is stated by the code itself and holds in the model: an isolated run leaves a bare
`.gaviero` folder behind (`GavieroDirectoryStays`).

## Model

| member | source | states |
|---|---|---|
| `PathPattern.DecideIsExact` | crates/gaviero-core/src/path_pattern.rs:67-154 | The recursion on two token lists is true exactly when some text is accepted by both; the file only promises a conservative answer |
| `PathPattern.MeetStars` | crates/gaviero-core/src/path_pattern.rs:111-116 | Two leading stars: the star that passes less of the common text can be dropped, so advancing one side at a time finds every shared text |
| `PathPattern.MeetStarChar` | crates/gaviero-core/src/path_pattern.rs:118-129 | A star against a character shares a text exactly when the star ends here or can consume that character |
| `PathPattern.MeetChars` | crates/gaviero-core/src/path_pattern.rs:131-139 | Two characters share a text exactly when they agree and the rests do; `?` never stands for a slash |
| `PathPattern.ThirdBranchRedundant` | crates/gaviero-core/src/path_pattern.rs:111-116 | Advancing both stars at once decides nothing the other two branches do not |
| `PathPattern.Step` | crates/gaviero-core/src/path_pattern.rs:76-89 | From any correct memo the answer is that of the memo-free recursion; the memo stays correct, only grows at or beyond the pair, and exactly the added pairs were expanded, once each |
| `PathPattern.StepInner` | crates/gaviero-core/src/path_pattern.rs:91-140 | Same, and the pair under way is not stored by its own expansion, which is why nothing is expanded twice |
| `PathPattern.Intersect` | crates/gaviero-core/src/path_pattern.rs:71-74 | True exactly when the patterns share a text; every pair is expanded at most once, at most (m+1)(n+1) expansions in all |
| `PathMatch.Compile` | crates/gaviero-core/src/path_pattern.rs:30-61 | The index loop yields the tokens of the normalised pattern without the trailing slashes of a directory, and says whether it was one |
| `PathMatch.PrintOfLex` | crates/gaviero-core/src/path_pattern.rs:36-60 | Printing the tokens gives back the pattern text, and two adjacent stars are always read as one `**` |
| `PathMatch.LexOfPrint` | crates/gaviero-core/src/path_pattern.rs:36-60 | The token list is the only well-formed reading of a pattern text |
| `PathMatch.Matches` | crates/gaviero-core/src/path_pattern.rs:157-179 | True exactly when the pattern is `.`, or the text is accepted, or (for a directory) it is the bare name or lies below a text the name accepts |
| `PathMatch.ExpansionIsUnder` | crates/gaviero-core/src/path_pattern.rs:211-219 | The expansion `name` + `/` + `**` accepts exactly the texts below a directory that the name accepts |
| `PathMatch.PatternsOverlap` | crates/gaviero-core/src/path_pattern.rs:190-209 | True exactly when some text is covered by both patterns in the reading that keeps wildcards in directory names |
| `PathMatch.OverlapIsConservative` | crates/gaviero-core/src/path_pattern.rs:157-219 | When one path matches both patterns and neither is `.`, they overlap |
| `PathMatch.RootPatternMissesOverlap` | crates/gaviero-core/src/path_pattern.rs:158-162 | For a pattern that trims to `.` there is a pattern and a path that both match although the two do not overlap |
| `PathMatch.ConservativeExactlyUnlessRoot` | crates/gaviero-core/src/path_pattern.rs:157-219 | The overlap test over-approximates common matches for every other pattern exactly when the pattern does not trim to `.` |
| `PathMatch.ReadAlikeExactlyWhenLiteralDirectory` | crates/gaviero-core/src/path_pattern.rs:164-172 | `matches` and the overlap test cover the same texts with a directory pattern exactly when its name holds no wildcard |
| `PathMatch.OverlapIsExact` | crates/gaviero-core/src/path_pattern.rs:157-219 | For patterns that both readers read alike, overlap holds exactly when some path matches both |
| `PathText.NormalizedInCharacters` | crates/gaviero-core/src/types.rs:79-84 | Of a pattern or path, white space at both ends and one `./` in front go and nothing else |
| `PathText.OneDotSlashGoes` | crates/gaviero-core/src/types.rs:79-84 | A second `./` stays |
| `PathText.TokensMeanCharacters` | crates/gaviero-core/src/path_pattern.rs:36-60 | The compiled tokens accept exactly the texts that the characters stand for: `**` any text, `*` any without a slash, `?` one character but a slash, the rest themselves |
| `PathText.CoversInCharacters` | crates/gaviero-core/src/path_pattern.rs:30-219 | For every pattern, what `matches` and the overlap test take it to cover, from its characters alone: the workspace for `.`, a bare name and what lies below for a name with slashes behind it, else the glob |
| `PathText.RespelledPattern` | crates/gaviero-core/src/path_pattern.rs:30-219 | Padding a pattern or putting `./` before it changes neither reading of it, but for `./.`, which is not the workspace |
| `PathText.RespelledPath` | crates/gaviero-core/src/path_pattern.rs:157-179 | Padding a path or putting `./` before it does not change which patterns match it |
| `AppendSetting.PushSettingEntry` | crates/gaviero-core/src/workspace.rs:1575-1588 | An entry replaces the first one of its trimmed name in place; otherwise it is appended unless an equal one is there |
| `AppendSetting.AppendSetting` | crates/gaviero-core/src/workspace.rs:1542-1573 | The six cases of adding a value to a base, null and non-matching kinds included |
| `AppendSetting.ObjectsMerge` | crates/gaviero-core/src/workspace.rs:1549-1554 | Object and object: the keys of both, each key of the addition with its value, every other key with the base's |
| `AppendSetting.OtherKinds` | crates/gaviero-core/src/workspace.rs:1542-1573 | Every other pair of kinds: the base unchanged, the added object itself, or the base's list with the addition pushed |
| `AppendSetting.NewEntriesAreAppended` | crates/gaviero-core/src/workspace.rs:1563-1588 | Entries that are new by value and by name are appended in their order |
| `AppendSetting.SameNameIsReplaced` | crates/gaviero-core/src/workspace.rs:1575-1588 | An entry takes the place of the first one of its name, whatever white space surrounds either name |
| `AppendSetting.PushAllOverwrites` | crates/gaviero-core/src/workspace.rs:1563-1588 | Old entries keep their places, each name's first entry becomes the last addition of that name, what follows are additions |
| `AppendSetting.PushAllSettles` | crates/gaviero-core/src/workspace.rs:1563-1588 | Afterwards every addition is present by name or value, and each added name holds its last addition |
| `AppendSetting.AppendIsIdempotent` | crates/gaviero-core/src/workspace.rs:1530-1588 | A second addition of a value changes nothing, for every base and every value |
| `Settings.ReadsBackExactlyUnlessShadowed` | crates/gaviero-core/src/workspace.rs:1489-1626 | A written key is read back for every value exactly when no object on its path holds the rest of the key as one flattened member |
| `Settings.DotGetAfterDotSet` | crates/gaviero-core/src/workspace.rs:1489-1626 | What a lookup returns after a write: the written value, or the flattened member that hides it |
| `Settings.DotSetLeavesOthers` | crates/gaviero-core/src/workspace.rs:1612-1626 | A write changes no lookup of a key whose segments are not prefix-comparable, even when it replaces a scalar by an object |
| `Settings.DottedIsNested` | crates/gaviero-core/src/workspace.rs:1489-1626 | A key of several segments means nested objects: a lookup finds the value there, a write to an empty document makes them |
| `Settings.MostSpecificDecides` | crates/gaviero-core/src/workspace.rs:1509-1528 | A layer that adds nothing decides by its own value if it sets the key, else the broader layers do |
| `Settings.AddedMembersShow` | crates/gaviero-core/src/workspace.rs:1509-1573 | A member named in the most specific added object is what the lookup shows; the base's other members stay |
| `Settings.LayeredValue` | crates/gaviero-core/src/workspace.rs:1509-1528 | With its fast path and its loop, the full fold of the layers, defaults used only under an addition |
| `Settings.CascadeWithoutAdditions` | crates/gaviero-core/src/workspace.rs:1513-1516 | When no layer adds, the fold is the value of the most specific layer that sets the key |
| `Settings.RepeatedLayerIsHarmless` | crates/gaviero-core/src/workspace.rs:1500-1574 | Applying the same file twice in a row changes no lookup |
| `Settings.AppendedKeys` | crates/gaviero-core/src/workspace.rs:1591-1610 | The walk adds exactly the recorded dotted paths to the list, once each, whatever the order of the members |
| `Settings.WalkFindsAddition` | crates/gaviero-core/src/workspace.rs:1489-1610 | Completeness: an addition that lookup sees, nested or flattened, is recorded under its dotted path |
| `Settings.FromBases` | crates/gaviero-core/src/workspace.rs:2116-2142 | Missing files are skipped, broken ones listed, and the index holds the resolved value of every key some layer was seen to add to |
| `Settings.LoadedFiles` | crates/gaviero-core/src/workspace.rs:2116-2131 | The layers are the folders whose file parses, in order and each with its document; the broken list names those whose file does not |
| `Settings.GetAgreesOnWalkable` | crates/gaviero-core/src/workspace.rs:2116-2151 | For a key with no empty first segment and no inner segment ending in `+`, the indexed lookup is the fold over the layers |
| `Settings.GetAgreesExactlyOnWalkable` | crates/gaviero-core/src/workspace.rs:1509-2151 | The indexed lookup agrees with the fold for all files exactly for those keys |
| `SettingsList.ListWithBases` | crates/gaviero-core/src/workspace.rs:2159-2178 | The entries of a list setting, each with the folder whose file wrote it; a layer that sets the key starts over |
| `SettingsList.ListedHasSource` | crates/gaviero-core/src/workspace.rs:2153-2178 | An entry is listed under a folder exactly when that folder's file wrote it and no more specific file sets the key |
| `SettingsList.ListedIsResolved` | crates/gaviero-core/src/workspace.rs:2153-2178 | For a setting that its most specific setter makes a list or null, with no object added from there on and no default in play that is a scalar or has entries, the resolved list is that setter's list with the other listed entries pushed in order, whatever the overridden layers hold |
| `SettingsList.AddsWhatIsListedExactly` | crates/gaviero-core/src/workspace.rs:1542-2178 | For every base and every addition: the value resolves to the list that is shown for it exactly when nothing is listed, or the base is a list or null and the addition no object that the list lacks |
| `SettingsList.EveryListAddsWhatIsListed` | crates/gaviero-core/src/workspace.rs:1542-2178 | An addition resolves to what is listed for it, over all lists so far, exactly unless it is an object |
| `SettingsList.SetLayerShowsExactly` | crates/gaviero-core/src/workspace.rs:1509-2178 | Over any broader layers, a layer that sets the key and adds to it shows its resolved value exactly under that condition on its two values |
| `SettingsList.UnsetShowsExactly` | crates/gaviero-core/src/workspace.rs:1509-2178 | An addition that is no object to a setting that no layer sets shows its resolved value, whatever is added, exactly when the built-in default is null or an empty list |
| `WorkspaceSettings.LayerBases` | crates/gaviero-core/src/workspace.rs:2067-2080 | The user folder, the workspace folder and the repo in this order, each folder once |
| `WorkspaceSettings.LookupPrecedence` | crates/gaviero-core/src/workspace.rs:1002-1052 | A setting that no file adds to comes from the repo's file, else the workspace's, else the user's; the repo's is asked for a root among the folders, or for no root when one folder is open without a workspace file |
| `WorkspaceSettings.ReadersAgree` | crates/gaviero-core/src/workspace.rs:1002-1052 | The workspace reader and the layered reader resolve a walkable key alike unless the repo is the user folder around another workspace folder; for a lookup whose root and workspace give no repo layer, if the repo's file is another layer |
| `WorkspaceSettings.ReadersAgreeExactly` | crates/gaviero-core/src/workspace.rs:1002-2151 | They resolve every walkable key alike, whatever the files hold, exactly in these cases, for every root, mode and folder list |
| `HunkAssembly.AssembleFinalContent` | crates/gaviero-core/src/write_gate.rs:583-630 | Copied lines, hunk texts by status, and a final newline that follows the original |
| `HunkAssembly.AssembledIsRewritten` | crates/gaviero-core/src/write_gate.rs:583-630 | For every diff and every decision: the file is the splice of the chosen lines with the copied lines' carriage returns gone, its final newline following the original |
| `HunkAssembly.AssembledIsSplice` | crates/gaviero-core/src/write_gate.rs:583-630 | It is the splice itself exactly when no copied line ends in CRLF; one character is lost for each that does |
| `HunkAssembly.AcceptAllGivesProposed` | crates/gaviero-core/src/write_gate.rs:583-630 | All hunks accepted: the proposed text up to a final newline exactly when no copied line ends in CRLF, and the proposed text exactly when moreover both texts end alike |
| `HunkAssembly.AcceptedCrlfFileIsRewritten` | crates/gaviero-core/src/write_gate.rs:583-630 | A two-line CRLF file whose second line is replaced and accepted does not become the proposed text |
| `HunkAssembly.RejectAllGivesOriginal` | crates/gaviero-core/src/write_gate.rs:583-630 | No hunk accepted: the original, exactly when no copied line ends in CRLF |
| `HunkAssembly.NewFileLosesFinalNewline` | crates/gaviero-core/src/write_gate.rs:621-627 | A new file (empty original) is written without the newline that its proposed text ends in |
| `HunkAssembly.NewlineFollowsOriginal` | crates/gaviero-core/src/write_gate.rs:621-627 | At most one newline is added or taken at the end; the text ends in one if the original does |
| `HunkAssembly.AssembledLines` | crates/gaviero-core/src/write_gate.rs:583-630 | For every decision that runs no two lines together: the line count is the original's plus the difference of the accepted hunks, less one where a bare newline at the end is dropped; no lines leave at most a newline |
| `HunkAssembly.SeparatedIsJoinable` | crates/gaviero-core/src/diff_engine.rs:6-46 | When an equal line stands between any two hunks, as in every diff, no decision runs two lines together, with or without final newlines |
| `HunkAssembly.TerminatedIsJoinable` | crates/gaviero-core/src/write_gate.rs:583-630 | Between newline-terminated texts no decision runs two lines together |
| `HunkAssembly.DecisionIsLocal` | crates/gaviero-core/src/write_gate.rs:583-630 | For any text and any hunks, one fixed text before the hunk and one after it serve every status of it: a decision changes only the hunk's own slice |
| `HunkAssembly.UpdateProposalStatus` | crates/gaviero-core/src/write_gate.rs:632-662 | The status from the hunks, early exit included: all accepted, all rejected, some accepted, or still pending |
| `HunkAssembly.StatusInTermsOfHunks` | crates/gaviero-core/src/write_gate.rs:632-662 | Accepted, rejected, partial and pending, each exactly when the statuses of the hunks say so; no hunks are pending |
| `WriteGate.WriteGatePipeline.NextId` | crates/gaviero-core/src/write_gate.rs:122-126 | Ids are handed out once, in order |
| `WriteGate.WriteGatePipeline.InsertProposal` | crates/gaviero-core/src/write_gate.rs:238-274 | By the effective mode: queued as active, written at once with every hunk accepted, dropped, or deferred |
| `WriteGate.WriteGatePipeline.TakePendingProposals` | crates/gaviero-core/src/write_gate.rs:298-302 | Returns the deferred list in order and moves it to the review hold |
| `WriteGate.WriteGatePipeline.TakePendingProposalsForConv` | crates/gaviero-core/src/write_gate.rs:309-327 | Returns the deferred proposals of one conversation and holds them; the others stay deferred |
| `WriteGate.WriteGatePipeline.HoldForReview` | crates/gaviero-core/src/write_gate.rs:331-338 | Holds each proposal whose id is not held yet |
| `WriteGate.WriteGatePipeline.ReleaseReviewHoldIds` | crates/gaviero-core/src/write_gate.rs:342-347 | Drops exactly the held proposals with these ids |
| `WriteGate.WriteGatePipeline.FinalizeProposal` | crates/gaviero-core/src/write_gate.rs:430-467 | Removes the proposal, supersedes its tracked peers and returns the write or the deletion |
| `WriteGate.WriteGatePipeline.MarkConflictPair` | crates/gaviero-core/src/write_gate.rs:551-579 | Links each tracked peer to the new id once, with one update for each peer that changed |
| `WriteGate.WriteGatePipeline.ConflictCandidatesForPath` | crates/gaviero-core/src/write_gate.rs:521-543 | The tracked ids on the path, strictly increasing |
| `WriteGate.WriteGatePipeline.DecideHunk` | crates/gaviero-core/src/write_gate.rs:369-388 | Sets one hunk, ignores an index out of range, and recomputes the status |
| `WriteGate.WriteGatePipeline.DecideAll` | crates/gaviero-core/src/write_gate.rs:406-425 | Sets every hunk and the status outright, an empty hunk list included |
| `GateActions.FinalizeActs` | crates/gaviero-core/src/write_gate.rs:430-467 | Finalizing acts exactly for an active proposal, on its path: a deletion exactly for a deletion, else the content that the decided hunks make of the original, stated from the diff: the splice, all accepted the proposed text, none the original, each exactly without copied CRLF |
| `GateActions.InsertActs` | crates/gaviero-core/src/write_gate.rs:238-274 | Inserting acts exactly when the conversation's own mode, or else the default, accepts by itself: a deletion for a deletion, else the content of all hunks accepted, whatever their status was |
| `GateActions.InsertPlaces` | crates/gaviero-core/src/write_gate.rs:238-274 | Which bucket an inserted proposal joins and what the observer hears, for each mode in force |
| `GateActions.OwnModeDecides` | crates/gaviero-core/src/write_gate.rs:75-82 | A conversation's own mode decides for its proposals, the default for all others |
| `GateActions.DecideAllThenFinalize` | crates/gaviero-core/src/write_gate.rs:406-467 | A proposal accepted or rejected as a whole and finalized writes the proposed text up to the final newline, or the original, exactly without copied CRLF |
| `GateActions.AutoAcceptIsAcceptAndFinalize` | crates/gaviero-core/src/write_gate.rs:238-467 | Accepting by itself acts exactly as reviewing, accepting everything and finalizing |
| `GateActions.MarkLinksPeers` | crates/gaviero-core/src/write_gate.rs:551-579 | Each tracked peer that lacks the new id gets it behind its links and is reported once; nothing else changes |
| `GateActions.HoldKeepsFirst` | crates/gaviero-core/src/write_gate.rs:331-338 | Held proposals stay in front, of each new id the first is added, and no id is held twice |
| `GateActions.ReleaseKeepsOthers` | crates/gaviero-core/src/write_gate.rs:342-347 | The other held proposals stay, in their order |
| `GateBuckets.CandidatesFromView` | crates/gaviero-core/src/write_gate.rs:521-543 | With disjoint buckets the candidates are the tracked ids on the path, whichever bucket holds them |
| `GateBuckets.DrainConvConserves` | crates/gaviero-core/src/write_gate.rs:309-327 | Draining a conversation loses, adds and changes no tracked proposal, keeps the buckets disjoint, and moves exactly its deferred ones |
| `GateBuckets.DrainIsStable` | crates/gaviero-core/src/write_gate.rs:309-327 | Of two drained, or two kept, proposals the one queued first comes first |
| `GateBuckets.DrainAllConserves` | crates/gaviero-core/src/write_gate.rs:298-302 | Same for draining everything: the hold grows by the deferred list |
| `GateBuckets.DrainsKeepCandidates` | crates/gaviero-core/src/write_gate.rs:298-543 | No drain changes the conflict candidates of any path |
| `GateBuckets.InsertView` | crates/gaviero-core/src/write_gate.rs:238-274 | Inserting a fresh proposal tracks it exactly in the two reviewing modes and changes no other |
| `GateBuckets.FinalizeView` | crates/gaviero-core/src/write_gate.rs:430-467 | Finalizing edits exactly the tracked peers, wherever they are, and sends one update each before the final event |
| `GateWorld.BeginKeepsInv` | crates/gaviero-core/src/acp/client.rs:229-258 | Reading the ids on the path and taking an id in one critical section makes a ticket whose peers are the committed, tracked proposals on the path |
| `GateWorld.CommitKeepsInv` | crates/gaviero-core/src/acp/client.rs:301-309 | Inserting and linking in a later critical section keeps every list of links exact, whatever happened in between |
| `GateProtocol.StepKeepsInv` | crates/gaviero-core/src/write_gate.rs:238-579 | So does every other operation: drains, releases, decisions, finalizing and mode changes |
| `GateProtocol.EveryRunKeepsInv` | crates/gaviero-core/src/acp/client.rs:229-306 | In every interleaving of proposers, drains, releases, decisions and mode changes: disjoint buckets, and two tracked proposals are linked, both ways and once, exactly when they are on one path and one was committed before the other began |
| `GateProtocol.FinalizeSupersedesRivals` | crates/gaviero-core/src/write_gate.rs:430-467 | In any such state finalizing supersedes exactly the linked proposals that are still tracked, with exactly one update each, and changes no other |
| `GateProtocol.SequentialProposersFormCliques` | crates/gaviero-core/src/write_gate.rs:521-579 | When proposers do not overlap, the tracked proposals on a path are all linked to each other, and to nothing else |
| `GateProtocol.SequentialFinalizeSupersedesPath` | crates/gaviero-core/src/write_gate.rs:430-467 | Then finalizing supersedes every proposal still tracked on the path, with exactly one update each, and changes no other |
| `GateProtocol.FinalizeSparesOthers` | crates/gaviero-core/src/write_gate.rs:430-467 | In any reachable state finalizing leaves a tracked proposal that is no rival exactly as it was |
| `GateProtocol.OverlappingProposersEscape` | crates/gaviero-core/src/acp/client.rs:229-309 | In every run, when a proposer begins while another is under way, finalizing either of them, whenever later, leaves the other as it was, even on one path |
| `GateProtocol.TwoWritesAtOnce` | crates/gaviero-core/src/acp/client.rs:229-309 | It happens: for any two non-empty writes to one path by overlapping proposers the second is still pending when the first is finalized |
| `KeyTokenizer.Tokenize` | crates/gaviero-core/src/settings_overrides.rs:147-232 | The scan with its running line and column yields each lexeme at its true line and column |
| `KeyTokenizer.LexIsInOrder` | crates/gaviero-core/src/settings_overrides.rs:147-232 | For any text the lexemes are non-empty, in order, disjoint, inside the text, and none spans a line break |
| `KeyTokenizer.TokensArePlaced` | crates/gaviero-core/src/settings_overrides.rs:147-232 | A token's line counts the line breaks before its first character, its column the characters since the last one |
| `KeyPlaces.PlacesAreCounts` | crates/gaviero-core/src/settings_overrides.rs:147-232 | The line of an offset is the number of line feeds before it, its column the distance to the last one |
| `KeySpans.JsonKeySpans` | crates/gaviero-core/src/settings_overrides.rs:235-279 | The loop over tokens with its stack and last key yields the spans of the keys that the machine finds |
| `KeySpans.ScanFindsKeys` | crates/gaviero-core/src/settings_overrides.rs:235-279 | On the tokens of any JSON tree: exactly the object keys outside arrays, in pre-order, with their paths and object flags |
| `KeyDocuments.LexOfItems` | crates/gaviero-core/src/settings_overrides.rs:147-232 | JSON text in any layout, line and block comments included, is read as its tokens, an escaped character standing for itself |
| `KeyDocuments.ScanOfWrittenDocument` | crates/gaviero-core/src/settings_overrides.rs:147-279 | From the text of a document, however it is laid out, to exactly its object keys outside arrays, with flags and positions, under the names the tokenizer reads |
| `KeyPlaces.SpelledToks` | crates/gaviero-core/src/settings_overrides.rs:205-228 | A text whose characters, white space and comments aside, are the braces, brackets, colons, commas and strings of a JSON tree has the tokens of the tree |
| `KeyPlaces.SpansArePlaced` | crates/gaviero-core/src/settings_overrides.rs:147-279 | For every document given by its characters: one span for each key outside arrays, in document order; its line and start column are those of the opening quote, its end column that behind the closing quote, and the text between them is the quoted key |
| `KeyDocuments.ReadRightlyExactlyWhenPlain` | crates/gaviero-core/src/settings_overrides.rs:186-199 | A string is read as JSON means it (named escapes, code units and surrogate pairs) exactly when no escape is one of b, f, n, r, t, u |
| `KeyDocuments.ReportsDocumentKeysExactlyWhenPlain` | crates/gaviero-core/src/settings_overrides.rs:147-279 | The scanner reports the keys of a JSON document under their JSON names exactly when no key outside arrays has such an escape |
| `KeyDocuments.UnicodeKeyIsMisread` | crates/gaviero-core/src/settings_overrides.rs:186-199 | A document whose one key is written with a code-unit escape is reported to hold another key |
| `KeyPrefixes.SameTokens` | crates/gaviero-core/src/settings_overrides.rs:144-232 | Two texts that start alike have the same tokens at the same places as long as these end before the texts part |
| `KeyPrefixes.SamePrefixSameKeys` | crates/gaviero-core/src/settings_overrides.rs:144-279 | Whatever follows, they are reported to hold the same keys up to the last one whose next two tokens end before that point |
| `KeyPrefixes.DamagedDocumentKeepsKeys` | crates/gaviero-core/src/settings_overrides.rs:144-279 | A document damaged from some character on still yields its keys before the damage, each under its path and at its place |
| `ConflictMarkers.FindConflictRegions` | crates/gaviero-core/src/git_conflict.rs:39-88 | Exactly the triples of start, separator and end markers with no other marker between, in order and disjoint; the scan ends although it resets |
| `ConflictMarkers.MalformedStart` | crates/gaviero-core/src/git_conflict.rs:84-86 | Where the scan gives up on a start marker, no region begins there, so the reset loses nothing |
| `ConflictMarkers.MarkersInCharacters` | crates/gaviero-core/src/git_conflict.rs:138-148 | A marker line begins with seven characters of one kind, the separator with no eighth |
| `ConflictMarkers.ClassifyConflictLine` | crates/gaviero-core/src/git_conflict.rs:91-123 | For any list of regions the first one that gives the line a kind decides, else the line's own marker |
| `ConflictMarkers.BuildConflictAnnotatedLines` | crates/gaviero-core/src/git_conflict.rs:126-136 | A line is ours or theirs exactly when it lies in that half of a region, marker lines keep their kind, and dropping the kinds gives back the lines |
| `JournalRecord.DecodeOfEncode` | crates/gaviero-core/src/session_journal.rs:114-117 | Every entry is read back from its line, whatever characters its fields hold |
| `JournalRecord.RecordIsJson` | crates/gaviero-core/src/session_journal.rs:50-117 | A record is the JSON object of its five fields in order and under their names: the number in decimal, each string a JSON string that means the field |
| `JournalRecord.EncodeIsOneLine` | crates/gaviero-core/src/session_journal.rs:114-117 | A record holds no control character, so a prompt of many lines stays on one line |
| `JournalRecord.PrefixIsNoRecord` | crates/gaviero-core/src/session_journal.rs:133-137 | No proper prefix of a record is a record |
| `JournalRecord.RecordAfterBegunOne` | crates/gaviero-core/src/session_journal.rs:133-157 | A record, or part of one, behind a begun record is never read as a record |
| `Journal.JournalFile.AppendEntry` | crates/gaviero-core/src/session_journal.rs:107-131 | The file grows by the record and a line feed |
| `JournalRecord.StrictReaderReads` | crates/gaviero-core/src/session_journal.rs:133-157 | There is a reader that reads every record back and rejects every other line that torn appends can leave: the contract the journal asks of the JSON reader |
| `Journal.JournalFile.Load` | crates/gaviero-core/src/session_journal.rs:138-165 | With any JSON reader: the entries of the readable lines in order, and how many others were not blank |
| `Journal.LoadedLines` | crates/gaviero-core/src/session_journal.rs:138-165 | The entries are those of the lines that are not blank and decode, in file order; the count is that of the lines that are not blank and do not |
| `Journal.JournalFile.Checkpoint` | crates/gaviero-core/src/session_journal.rs:186-195 | Empties an existing journal, creates none |
| `Journal.JournalFile.ForgetConversation` | crates/gaviero-core/src/session_journal.rs:201-221 | With any JSON reader: rewrites the file with the records of the other conversations it reads |
| `Journal.LoadReturnsSurvivors` | crates/gaviero-core/src/session_journal.rs:107-221 | After any run of appends, torn appends, checkpoints and forgotten conversations, loading with any reader that keeps that contract returns exactly the records that a five-line reference says survive |
| `Journal.TornAppendKeepsEarlier` | crates/gaviero-core/src/session_journal.rs:133-165 | Appended entries load in order; cutting the last append anywhere keeps all earlier ones and adds the last only if its whole record was written |
| `Journal.ForgetIsFilter` | crates/gaviero-core/src/session_journal.rs:197-221 | Forgetting a conversation and loading is a filter, whatever the file holds |
| `Journal.ForgetKeepsOthers` | crates/gaviero-core/src/session_journal.rs:197-221 | After forgetting, no loaded entry belongs to the conversation, every other entry is loaded as often as before, and in the same order, whatever the file held |
| `Journal.ForgetStepKeepsOthers` | crates/gaviero-core/src/session_journal.rs:107-221 | The same for a forgetting step after any run, and both loads are the surviving records |
| `Journal.AppendKeptExactlyAtBoundary` | crates/gaviero-core/src/session_journal.rs:107-131 | In any run an append is recovered exactly when the file was empty or ended in a line feed |
| `SecretScan.FindSecrets` | crates/gaviero-core/src/secret_scan.rs:50-66 | Hits in byte order and disjoint; a match is reported exactly when no reported hit of an earlier rule overlaps it, and every match overlaps some hit |
| `SecretScan.CandidatesAreMatches` | crates/gaviero-core/src/secret_scan.rs:50-63 | The candidates are exactly the rules' matches, each under the rule it matched |
| `SecretScan.OverlapIsShared` | crates/gaviero-core/src/secret_scan.rs:54-56 | Two hits overlap exactly when they share a character |
| `SecretScan.PickIsChosen` | crates/gaviero-core/src/secret_scan.rs:50-66 | The greedy choice by rule order is the one that those conditions describe |
| `SecretScan.SortedChoice` | crates/gaviero-core/src/secret_scan.rs:64-65 | Sorting by start keeps the chosen hits and leaves each ending before the next begins |
| `SecretScan.Redact` | crates/gaviero-core/src/secret_scan.rs:70-88 | Character by character: outside the hits copied, a hit replaced by one marker of its rule; each rule once, in first-hit order |
| `SecretScan.MarkersTellRules` | crates/gaviero-core/src/secret_scan.rs:80-80 | A marker is its rule's name in a fixed frame; different rules have different markers |
| `SecretScan.FirstSeenIsFirst` | crates/gaviero-core/src/secret_scan.rs:68-88 | The listed rules are those that fired, once each, in the order of their first hits |
| `SecretScan.RedactedHidesHits` | crates/gaviero-core/src/secret_scan.rs:68-88 | Texts with hits of the same rules in the same order and the same text around them have the same redaction: nothing of a secret shows, not even its length |
| `SecretScan.LongestAscendingRun` | crates/gaviero-core/src/secret_scan.rs:213-226 | The length of the longest run in which each byte, lowercased, is the previous one plus one, wrapping |
| `SecretScan.RunsAscend` | crates/gaviero-core/src/secret_scan.rs:213-226 | A run is a stretch in which every byte is the first one plus its distance, modulo 256 |
| `ManagedBlock.CursorignoreWithBlock` | crates/gaviero-core/src/instructions.rs:351-386 | The user's lines without their blank tail, the block behind an empty line when active, and no file only when nothing is left of a file that was not blank |
| `ManagedBlock.OutsideIsTheRest` | crates/gaviero-core/src/instructions.rs:351-368 | The user's lines are all lines in order but those from a begin line to the next end line, or to the end of the file |
| `ManagedBlock.MarkerLines` | crates/gaviero-core/src/instructions.rs:351-368 | A line is a marker exactly when it is the marker text with white space behind it |
| `ManagedBlock.DroppedTailIsBlank` | crates/gaviero-core/src/instructions.rs:369-372 | What is cut off the user's lines is their blank tail, all of it |
| `ManagedBlock.BlockIsLast` | crates/gaviero-core/src/instructions.rs:373-386 | An active file reads: the user's lines, an empty line if there are any, the block, and nothing behind it |
| `ManagedBlock.KeptOfSynced` | crates/gaviero-core/src/instructions.rs:351-386 | Reading the written file gives the user's lines, in order and unchanged but for final carriage returns, and the block |
| `ManagedBlock.LastCallDecides` | crates/gaviero-core/src/instructions.rs:349-386 | A second call gives what it would have given alone (so repeating is idle) exactly unless a kept line ends in a carriage return or a blank file was activated and then deactivated |
| `ManagedBlock.DeactivationRestoresTidyFile` | crates/gaviero-core/src/instructions.rs:349-386 | A file without block, carriage returns and blank tail comes back whole after activation and deactivation |
| `ManagedBlock.InactiveSyncIsIdleExactly` | crates/gaviero-core/src/instructions.rs:349-386 | A call without a block leaves a file as it is exactly when it is blank, or has no block, only bare line feeds at its line ends, a final one, and no blank tail |
| `ConfigRestore.ConfigRestore.Capture` | crates/gaviero-cli/src/state.rs:401-424 | Fails exactly when a listed path is a directory or lies below a file; else remembers content or absence of each file and which listed directories were absent |
| `ConfigRestore.ConfigRestore.Restore` | crates/gaviero-cli/src/state.rs:428-456 | The first call restores files, then directories, in list order and names the files that failed; a second call changes nothing |
| `RestoreUndo.FileOutcome` | crates/gaviero-cli/src/state.rs:433-450 | A file comes back as saved, only missing directories above it change besides, and it fails exactly when a directory stands in its place or a file above it |
| `RestoreUndo.FailuresAreBlocked` | crates/gaviero-cli/src/state.rs:433-450 | The reported paths are, in list order, exactly those where that was so when their turn came |
| `RestoreUndo.RestoreUndoesExactly` | crates/gaviero-cli/src/state.rs:401-456 | Restoring after any run gives back the captured tree exactly when the run kept to snapshotted files, listed new directories and directories on the way to a saved file; then no file fails |
| `RestoreUndo.FilesComeBack` | crates/gaviero-cli/src/state.rs:433-450 | After the file phase every path but the new listed directories is as captured |
| `RestoreUndo.DirsGo` | crates/gaviero-cli/src/state.rs:451-454 | Removing the new directories deepest first leaves none of them |
| `RestoreUndo.IsolatedRunIsUndone` | crates/gaviero-cli/src/state.rs:19-39 | The same for the program's own two lists, which are laid out as the theorem needs |
| `RestoreUndo.GavieroDirectoryStays` | crates/gaviero-cli/src/state.rs:19-44 | A run that made `.gaviero` leaves it behind, since that folder is in no list |
| `RestoreUndo.ShallowFirstLeavesDirectory` | crates/gaviero-cli/src/state.rs:31-39 | With the shallow directory first, an empty nest of new directories would stay: the order is needed |

## Left out

- Git, worktrees, CLI dispatch, reports, MCP setup and printing: subprocess calls and formatting.
- The diff library, the regex engine and the JSON parser are oracles: `HunkAssembly.IsDiff` (sorted, disjoint hunks that carry the lines they cover) with `HunkAssembly.Separated` (an equal line between them), `SecretScan.ValidMatches` (ordered, disjoint, non-empty matches per rule) and JSON values stand for what they return.
- A carriage return without a line feed: the diff library also splits lines there, `HunkAssembly.IsDiff` counts line feeds only.
- Text is a sequence of characters. Byte offsets, character boundaries and UTF-8 errors (a journal that is not UTF-8 loads as empty) are not part of this model, and neither is the 64-bit width of ids and timestamps.
- `workspace.rs` `hardcoded_default` is an arbitrary function of the key, and the files are an arbitrary function of the folder; folders stand for their canonical form.
- JSON numbers are opaque, and objects have no member order; `Settings.AppendedKeys` holds for every order.
- Settings.DotSet: a value-level function; the update in place of one document is not modelled.
- AppendSetting.PushSettingEntry: returns the new list instead of changing the vector in place.
- JournalRecord.Decode: one reader that keeps the contract `JournalRecord.Reads`; the JSON library itself, which also accepts other spellings of a record, is an oracle with that contract, so `Journal.JournalFile.Load` takes the reader as a parameter.
- Journal.JournalFile.AppendEntry: the file is its text, and a write is cut at a character; flushing, syncing and file-system errors are not modelled.
- GateProtocol.EveryRunKeepsInv: scope checks, the decision not to propose an unchanged file (an abandoned ticket here) and building a proposal from a diff happen outside the model; the observer is the list of its events.
- WriteGate.WriteGatePipeline.FinalizeProposal: does not claim that at most one of several rivals is ever written; the code does not check the status, so this depends on its callers.
- `write_gate.rs` `accept_node`, `build_proposal`, `build_delete_proposal`: they need tree-sitter node names and the diff.
- `scope_enforcer.rs` and the agent scopes of the gate: list lookups whose glob part is `PathMatch.Matches`.
- `settings_overrides.rs` `override_marks`: a filter over the key spans and lookups proved here.
- `secret_scan.rs` `redact_json_into`, `excerpt`, `value_body`: `SecretScan.Redact` on each string of a JSON tree, and slices around a hit.
- `instructions.rs` `render`, `truncate_at_char_boundary`, `nested_files`: text assembly under a byte budget.
- `workspace.rs` typed getters, `defining_base`, port and hash derivation: one lookup each.
- ConfigRestore.ConfigRestore.Restore: symbolic links, permissions, retries and partial writes are not modelled; dropping the object calls the same method.
