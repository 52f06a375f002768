# st2, modelled and proved in Dafny

st2 runs a fleet of agents: it keeps their declarations in a catalog, carries requests and replies
between them, supervises their processes, and shows them on a phone. This project models the parts
of it whose correctness is hardest to see and proves what they are for.

| part | files | what is proved |
|---|---|---|
| Conversation on the phone | `Conversation*.dfy` | what is held is always one gap-free stretch of the session's history |
| Request and reply transport | `Transport*.dfy` | one message per key under any interleaving and any crash; a reply once seen stays |
| Agent tree and glasses | `Paths.dfy`, `Tree*.dfy`, `Boxes*.dfy` | the listing still encodes the tree; the boxes tile the glass |
| Declaration publication | `Bundle*.dfy`, `Publish*.dfy` | the digest decides the tree; receipts chain; replays publish nothing |
| Declaration authoring | `Authority*.dfy`, `SourceEdit*.dfy` | who may edit; what an edit undone restores |
| Socket and terminal | `Feed*.dfy`, `Terminal*.dfy`, `InputQueue.dfy` | nothing is held in the background; one terminal process per follow; keys in order |
| Supervised evaluation | `SupervisorChain.dfy`, `Supervision.dfy`, `Shell.dfy`, `ExitMarkers.dfy` | one notice per crash; a command survives quoting |
| macOS installation | `Install*.dfy` | a failed installation is undone |

Each part has a specification on values, the source's loops and objects as methods and classes proved
equal to it, and theorems about it. `dafny verify dfyconfig.toml` checks all of it.

What surrounds a part is a parameter or a step of its own: file operations, awaits, timers and
callbacks are single steps that may come in any order, and answers of other programs are arbitrary
within what their own contracts say. SHA-256 is taken to be injective where the text says so, and only there.

Where a promise does not hold without a condition, the condition is exact, or a run that breaks the
promise is given:

- a page read back is applied whole only if nothing reset or trimmed the held entries meanwhile, and only if something is
  held, a live cursor answered, or nothing lies between the frames delivered and the page (`ConversationLimits`);
- a revision of entries older than all held leaves a hole unless it is trimmed off or revises the newest of them
  (`ConversationStrays.ChangeIff`);
- `status` loses a reply whose file name was used before (`TransportNames.NameUsedTwiceLosesReply`);
- a layout with a childless split leaves a hole (`Boxes.CoveredIff`);
- an inserted field does not come out again without trace when the agent had no block, an empty one-line block, or a
  trailing semicolon without exactly one gap after it (`SourceEditInverse.InsertThenRemove`);
- a second drop in one connection attempt, which a missed probe followed by the socket's end causes, leaves a timer that
  opens a socket in the background (`FeedRun.SecondDropReconnects`), and a missed probe leaves its socket open
  (`FeedRun.MissedLeavesSocketOpen`);
- a terminal process without a name is forgotten by the next attach (`TerminalScreens.UnnamedIsForgotten`), and two
  errors in a row can send an attach after the follow has ended (`TerminalTimers.ForgottenTimerAttaches`);
- a supervisor in a circle, named once by identity and once by bus id, is told of one crash twice
  (`SupervisorChain.NamesTwiceIff`, `SupervisorChain.TwiceByTwoNames`);
- a restore loses a command's set-user-ID bit, and a reused job directory can add files and plists
  (`InstallRollback.RestoreUndoesInstall`).

## Model

| member | source | states |
|---|---|---|
| `Conversation.ApplyConversation` | apps/ios/sessionView.ts:115-147 | the Map filled in loops gives the frame's specified merge, trim and flags |
| `Conversation.ApplyOlderPage` | apps/ios/sessionView.ts:151-162 | the loop over an older page gives the specified fill (`PageKeepsHeld` says which entries those are) |
| `Conversation.ReadOlder` | apps/ios/sessionView.ts:182-200 | the live cursor, the expired cursor and the fifty hops give the specified page or error |
| `ConversationRevisions.PageKeepsHeld` | apps/ios/sessionView.ts:157-161 | every held entry stays, body and all; every other entry is the page's first reading of an id not held; no such id is missing and none is there twice |
| `ConversationRevisions.PageSaysMore` | apps/ios/sessionView.ts:157-161 | there is more before exactly when the page said so, the cursor is the page's if it has one, and a page of another session only ends the loading |
| `ConversationRevisions.MergeMembers` | apps/ios/sessionView.ts:134-140 | after a frame each id is at the frame's last reading, gone if that is not conversation, and as it was if the frame is silent |
| `ConversationRevisions.ChangeShowsLatest` | apps/ios/sessionView.ts:125-145 | what a change frame shows is that, less only the oldest beyond the window |
| `ConversationRevisions.OtherSessionForgets` | apps/ios/sessionView.ts:120-135 | a frame of another session leaves nothing of the old one |
| `ConversationRevisions.NewestIsHighest` | apps/ios/sessionView.ts:135-137 | the newest sequence is the highest seen |
| `ConversationRevisions.SequenceCarriesOn` | apps/ios/sessionView.ts:135 | it carries on within a session and starts afresh with a newest page or another session |
| `ConversationRevisions.HeldIsWhatIsRead` | apps/ios/sessionView.ts:96-147 | in every run an entry of the stretch held is shown exactly when it is neither a status nor a usage entry |
| `ConversationRevisions.CursorIsUsedIff` | apps/ios/sessionView.ts:188-190 | a cursor is read exactly while younger than four minutes, and an expired answer starts again from the newest |
| `ConversationRevisions.HopsAnswer` | apps/ios/sessionView.ts:191-199 | the answer is the first page back that reaches past the oldest held, ends the session or has no cursor, within fifty hops |
| `ConversationFrames.FrameShows` | apps/ios/sessionView.ts:115-147 | for every frame and everything held before: what is shown is the frame's last readings and what is carried over, less only the oldest beyond the window; a newest page keeps pages read back exactly while it meets them or is all there is |
| `ConversationFrames.FrameSaysMore` | apps/ios/sessionView.ts:107-146 | there is more before exactly when the pages read back say so, or without pages when the newest page or the state before says so or something was left out |
| `ConversationFrames.FirstFrameShows` | apps/ios/sessionView.ts:115-147 | so for a first frame |
| `ConversationFrames.LoadingEnds` | apps/ios/sessionView.ts:151-170 | marking a page as loading or failed changes the marks alone, and a page or a failure ends the loading |
| `ConversationFrames.SortIsStable` | apps/ios/sessionView.ts:141 | entries of one place in the order stay as they came |
| `ConversationFrames.PutKeepsPlace` | apps/ios/sessionView.ts:138 | a revised entry keeps its place in the Map, a new one goes to its end |
| `ConversationBlock.SortedBlock` | apps/ios/sessionView.ts:141 | sorting entries of distinct ids in the history's places is strictly ordered and keeps exactly the places |
| `ConversationBlock.MergeSlots` | apps/ios/sessionView.ts:134-140 | merging items keeps ids unique and holds exactly the old and new conversational entries |
| `ConversationBlock.FillSlots` | apps/ios/sessionView.ts:158-159 | filling from an older page keeps ids unique and holds exactly both sides' conversational entries |
| `ConversationBlock.TrimmedBlock` | apps/ios/sessionView.ts:142-145 | dropping the oldest held entries of a block leaves a block |
| `ConversationBlock.BlockIsStretch` | apps/ios/sessionView.ts:146 | a block's entries are, in order, the conversational entries of one stretch of history |
| `ConversationRun.ReadBackMeets` | apps/ios/sessionView.ts:182-200 | a page read back by live cursor or by hopping from the newest joins the held block, and, when something is held, the live cursor answered, or the page is the session's start, leaves nothing out |
| `ConversationRun.StepKeepsGapFree` | apps/ios/sessionView.ts:107-200 | opening, refreshing, changing, reading back and marking each keep the held entries one block |
| `ConversationRun.RunKeepsGapFree` | apps/ios/sessionView.ts:107-200 | so does every run from a session's opening frame |
| `ConversationRun.HeldIsOneStretch` | apps/ios/sessionView.ts:107-200 | in every run the held list is the conversational part of one stretch, sorted, unique by id, reaching the last frame's end, and starting at the first entry when there is nothing older |
| `ConversationLimits.LatePageIff` | apps/ios/sessionView.ts:151-162 | a page applied after the block moved up leaves one block exactly when nothing readable lies between |
| `ConversationLimits.StrayRevisionIff` | apps/ios/sessionView.ts:134-147 | a revision of one entry below the block leaves one block exactly when nothing was read back and the window is full, so that it is trimmed off again, or nothing readable lies between |
| `ConversationStrays.ChangeIff` | apps/ios/sessionView.ts:134-147 | for every change frame, however many entries below the block it revises, what is held is one block up to the frame's end exactly when the revisions the window has room for are the newest readable entries below the block |
| `ConversationStrays.ReachesIff` | apps/ios/sessionView.ts:134-147 | and, with something held, exactly then any block at all |
| `ConversationLimits.LatePageLeavesHole` | apps/ios/sessionView.ts:151-162 | a history, a held block and a page for which a hole appears |
| `ConversationLimits.UnanchoredReadIff` | apps/ios/sessionView.ts:188-196 | with nothing held and no cursor, what a page read back leaves is one block reaching the frames delivered exactly when nothing readable lies between them and the page, or the page has nothing readable |
| `ConversationLimits.UnheldPageLeavesHole` | apps/ios/sessionView.ts:191-196 | a session, a read-back with nothing held and a change frame after which an entry is missing |
| `ConversationTrim.TrimThenMerge` | apps/ios/sessionView.ts:134-145 | trimming before merging loses nothing of the newest entries |
| `ConversationTrim.TrimOnceOrAlways` | apps/ios/sessionView.ts:115-147 | trimming after every change frame equals merging all frames and trimming once, with the latest revisions |
| `ConversationTrim.ReplaceLeavesSnapshot` | apps/ios/sessionView.ts:126-146 | a newest page that keeps nothing read back leaves the state those frames start from |
| `ConversationTrim.SinceSnapshot` | apps/ios/sessionView.ts:115-147 | so from that page on, what is shown is the newest of the page and all changes merged at once |
| `TransportDisk.Disk.PublishOnce` | src/request.rs:396-451 | the file operations of one call leave the specified files and answer (`RefusedIff` and `FirstIsPublished` say which those are) |
| `TransportDisk.Disk.Publish` | src/request.rs:241-278 | an empty key, an undeclared principal and an undeclared agent are refused in that order; otherwise the request's record, message and receipt |
| `TransportDisk.Disk.ReplyTo` | src/request.rs:280-319 | a reply is refused for an undeclared agent, for a request that is missing, unreadable or addressed elsewhere, and for one that names no declared principal; otherwise it is published once under the joined key, to that principal's inbox |
| `TransportDisk.PublicationTells` | src/request.rs:241-278 | a request is made exactly for a key, a declared principal and a declared agent, from the one to the other's inbox |
| `TransportDisk.ResponseTells` | src/request.rs:280-319 | a reply is made exactly for a declared agent to a request in its inbox, or archive if it is not there, that is addressed to it and names a declared principal, whose inbox it goes to |
| `TransportDisk.PublishedIsFound` | src/request.rs:241-300 | a request published under a free key and name is the one its agent replies to |
| `TransportOnce.StepKeepsInv` | src/request.rs:396-462 | every file operation, crash and archive move of any caller keeps the transport's invariant |
| `TransportOnce.RunKeepsInv` | src/request.rs:396-462 | so does every interleaving of any number of callers |
| `TransportOnce.OneMessagePerKey` | src/request.rs:396-451 | all message files ever created for one key have one name and one content |
| `TransportOnce.ReceiptsAgree` | src/request.rs:396-451 | all successful receipts for one key name one file, and at most one is not deduplicated |
| `TransportOnce.ReceiptWasDelivered` | src/request.rs:443-450 | every successful receipt, deduplicated or not, names a message that stood in the inbox with the reserved bytes |
| `TransportOnce.RefusedWritesNothing` | src/request.rs:415-436 | a call refused for reusing a key never created a message |
| `TransportOnce.RecordIsForever` | src/request.rs:456-462 | a reserved record is never replaced |
| `TransportOnce.RetryCompletes` | src/request.rs:396-451 | a caller left alone completes whatever was interrupted, under the reserved name and bytes, unless the key or the name is taken by something else |
| `TransportOnce.ReplayIsDeduplicated` | src/request.rs:396-451 | a second call answers the first file, deduplicated, and adds nothing |
| `TransportOnce.SoloIsARun` | src/request.rs:396-451 | a caller left alone takes steps of the concurrent machine |
| `TransportKeys.PublishAgainIff` | src/request.rs:415-451 | once published, a principal's key is refused to a second request exactly when the recipient, the tags or the body differ, and answers the first file otherwise |
| `TransportKeys.ReplyAgainIff` | src/request.rs:280-319 | once replied, an agent's second reply to the same requester and key is refused exactly when the request file, the tags or the body differ |
| `TransportKeys.RefusedIff` | src/request.rs:415-451 | whatever is on disk, a call is refused exactly over a record of another version, key, sender, recipient or envelope, or over other bytes under the reserved name |
| `TransportKeys.FirstIsPublished` | src/request.rs:396-451 | on a free key and name the caller's own message is delivered and nothing else changes |
| `TransportKeys.RunKeepsWords` | src/request.rs:396-451 | in every run each record is the candidate of the caller that created it |
| `TransportKeys.ReceiptIsForOwnWords` | src/request.rs:396-451 | in every run a caller told its message is published has exactly its own sender, subject, thread, tags and envelope delivered to its recipient under that name |
| `TransportKeys.RefusedSaidOther` | src/request.rs:435-441 | and one refused for its key had another envelope than the record |
| `TransportKeys.PublishedIsAnswerable` | src/request.rs:476-492 | a request as published is one a reply accepts |
| `TransportKeys.ForgedIsRefused` | src/request.rs:476-492 | one with any mark missing or changed is not |
| `TransportKeys.ReplyAnswers` | src/request.rs:360-377 | a reply as published answers its request |
| `TransportKeys.ForgedIsNoReply` | src/request.rs:360-377 | one with any mark missing or changed does not |
| `TransportStatus.ComputeStatus` | src/request.rs:344-393 | the two scans and the in-place dedup give the specified status |
| `TransportStatus.DedupDecidesEqual` | src/request.rs:378-392 | one reply survives adjacent dedup exactly when all replies found are equal |
| `TransportStatus.StatusNeverConflicts` | src/request.rs:344-393 | no run of publishes, replies and archive moves makes a scan report conflicting replies |
| `TransportStatus.ListedReplyReported` | src/request.rs:344-393 | a scan that lists a reply reports it |
| `TransportKeys.StatusTells` | src/request.rs:344-393 | `status` is pending exactly when no listed message answers, and reports the words of one that does |
| `TransportNames.FreshNamesAgree` | src/request.rs:416 | when callers draw fresh file names, no message is ever archived over another of its name |
| `TransportNames.PresentIsListed` | src/request.rs:360-377 | with fresh names, a reply present before a scan is listed by it, even if it moves from inbox to archive between the two listings |
| `TransportNames.RepliedStays` | src/request.rs:344-393 | with fresh names, once replied, every later scan gives the same sender, tags and body |
| `TransportKeys.ReplyIsReported` | src/request.rs:280-393 | with fresh names, once an agent has been told its reply is published, every later scan reports that agent, those tags and that body |
| `TransportNames.FilingKeepsStatusIff` | crates/st-drivers/src/message.rs:2533-2555 | whatever the names, archiving the one reply keeps `status` replied exactly when no other bytes are archived under its name, and makes it pending otherwise |
| `TransportNames.NameUsedTwiceLosesReply` | crates/st-drivers/src/message.rs:2533-2555 | a run in which a reused name turns a replied request pending |
| `TransportStatus.StateKeyInjective` | src/request.rs:304 | the NUL-joined reply key determines the requester and the key, for bus ids without NUL |
| `TransportStatus.StateKeyNeedsNulFree` | src/request.rs:304 | with a NUL in a bus id two requests share one reply record |
| `TransportStatus.RefusedReplyIsARealReuse` | src/request.rs:280-319 | a reply is refused only over an earlier, different reply to the same request |
| `Paths.SplitJoin` | apps/ios/agentsView.ts:194 | splitting a joined path gives back its components |
| `TreeLines.CompactFolders` | apps/ios/agentsView.ts:222-244 | the Map of what each folder holds and the joining loop give the specified line names |
| `TreeLines.ListTree` | apps/ios/agentsView.ts:193-216 | the sort and the open-folder loop give the specified lines |
| `TreeLines.SortedInOrder` | apps/ios/agentsView.ts:195-200 | rows come in order of path |
| `TreeShape.NamesJoin` | apps/ios/agentsView.ts:232-243 | the line names of a path, joined, spell the path |
| `TreeShape.EnclosingNames` | apps/ios/agentsView.ts:232-243 | a folder that ends a line gives its line names as the first of every path through it |
| `TreeTheorems.TreeReadsBack` | apps/ios/agentsView.ts:193-244 | reading the lines with a stack indexed by depth gives every row, once each, in path order, under its full folder path |
| `TreeTheorems.HolderEncloses` | apps/ios/agentsView.ts:236 | a line ends exactly at a folder that holds something other than one folder |
| `TreeTheorems.EveryFolderOnce` | apps/ios/agentsView.ts:193-244 | folder keys are pairwise distinct, and the folders listed are exactly those on the way to a row that hold something other than one folder |
| `TreeOrder.ListedUnder` | apps/ios/agentsView.ts:194 | a managed row is listed under its path, a found one under `found` and its host |
| `TreeOrder.ComponentsAre` | apps/ios/agentsView.ts:194 | components are what stands between slashes, empty ones left out |
| `TreeOrder.LessIff` | apps/ios/agentsView.ts:197 | names are ordered by the first character in which they differ |
| `TreeOrder.AtMostIff` | apps/ios/agentsView.ts:195-200 | paths by the first component in which they differ, the shorter first |
| `TreeOrder.SortIsStable` | apps/ios/agentsView.ts:195-200 | rows of one path keep their order |
| `TreeOrder.EveryRowKeyed` | apps/ios/agentsView.ts:213 | every row line is keyed by its row's id |
| `Boxes.ComputeGroupBoxes` | apps/ios/glassesView.ts:58-71 | the recursion with its running start gives the specified boxes |
| `Boxes.SharesMakeOne` | apps/ios/glassesView.ts:60-62 | the shares of a split with a child make up the whole, clamped or even |
| `Boxes.BoxesTile` | apps/ios/glassesView.ts:58-71 | in any layout no point is in two boxes or outside the parent; in a populated one none is left out |
| `Boxes.BoxesPartition` | apps/ios/glassesView.ts:58-71 | each point of the half-open parent is in exactly one box, every other point in none |
| `Boxes.CoveredIff` | apps/ios/glassesView.ts:58-71 | every point of the parent is covered exactly when every split has a child |
| `Boxes.AreasSum` | apps/ios/glassesView.ts:58-71 | areas sum to the parent's exactly when every split has a child, and to less otherwise |
| `BoxesOrder.BoxesMatchGroups` | apps/ios/glassesView.ts:49-71 | group `i` and box `i` belong to the same leaf, whatever the layout |
| `BoxesOrder.LeavesInOrder` | apps/ios/glassesView.ts:49-52 | they come in strict reading order |
| `BoxesOrder.EveryLeafListed` | apps/ios/glassesView.ts:49-52 | and no leaf is missed |
| `BoxesShares.ChildrenAdjoin` | apps/ios/glassesView.ts:63-70 | children lie one behind the other along the split's direction, from its beginning to its end, each as wide across as it is |
| `BoxesShares.ChildrenShare` | apps/ios/glassesView.ts:60-62 | two children share by the ratio, kept between a tenth and nine tenths; otherwise all get the same |
| `BoxesShares.LeafIsNarrowed` | apps/ios/glassesView.ts:58-71 | a leaf's width is narrowed by the splits to the right above it alone, and its height by those down |
| `BundleCode.EncodePrefix` | src/agent_publish.rs:849-856 | a record's bytes are read one way, whatever follows them |
| `BundleCode.EncodeAllInjective` | src/agent_publish.rs:849-856 | the bytes of a list of records determine the list |
| `BundleCode.PathBytesInjective` | src/agent_publish.rs:823-827 | a relative path's bytes determine its components |
| `BundleCode.EightBytes` | src/agent_publish.rs:849-856 | the eight length bytes hold every 64-bit length |
| `BundleReader.NumberIsRead` | src/agent_publish.rs:849-856 | a length is read back from its eight bytes, most significant first |
| `BundleReader.PathIsRead` | src/agent_publish.rs:823-827 | a path's components are read back between its slashes |
| `BundleReader.RecordsAreRead` | src/agent_publish.rs:849-856 | a reader written from the format gives back every list of records |
| `Bundle.Hasher.HashRecord` | src/agent_publish.rs:849-856 | the six updates feed one framed record |
| `Bundle.Hasher.HashBundleDir` | src/agent_publish.rs:820-847 | the recursive directory loop feeds the specified records in order of name, and refuses exactly the trees with a special entry or a name that is not UTF-8 |
| `Bundle.HashBundle` | src/agent_publish.rs:813-818 | the digest is fed the domain and then the records |
| `BundleTree.RecordsAre` | src/agent_publish.rs:820-847 | the records are exactly what a reader of the tree finds, path by path |
| `BundleTree.RecordsInOrder` | src/agent_publish.rs:858-862 | they come in one order, fixed by the paths |
| `BundleTree.ListingOrder` | src/agent_publish.rs:858-862 | two trees that differ only in the order their directories are listed in, at any depth, are hashed from the same bytes |
| `BundleTree.StreamDecidesTree` | src/agent_publish.rs:813-862 | two bundles are hashed from the same bytes exactly when they have the same directories, files, contents and execute flags |
| `BundleReader.StreamIsRead` | src/agent_publish.rs:813-862 | behind the domain name and a zero byte the reader finds exactly the directories and files of the tree, with path, execute flag and content |
| `BundleReader.ExecuteBits` | src/agent_publish.rs:820-847 | a file is flagged exactly when an execute bit of owner, group or others is set |
| `BundleNames.AcceptedNamesAreText` | src/agent_publish.rs:820-847 | a name is accepted exactly when it spells Unicode scalar values in UTF-8 |
| `BundleNames.HashedIff` | src/agent_publish.rs:820-847 | a bundle is hashed exactly when everything in it is a file or a directory under a path that is text |
| `BundleProjection.BundleProjectionMatches` | src/agent_publish.rs:998-1040 | the walk of both trees gives the specified answer |
| `BundleProjection.MatchesIffShows` | src/agent_publish.rs:998-1040 | it is true exactly when the target shows all of the candidate, permission bits included |
| `BundleProjection.MutualMatchSameStream` | src/agent_publish.rs:998-1040 | two bundles that show all of each other are hashed alike |
| `Publish.Store.Publish` | src/agent_publish.rs:289-450 | the checks in order, the write and the read-back give the specified receipt or refusal and catalog (`SpecPublishedIff`, `BundlePublishedIff` and `SpecKeepsDirectory` say which) |
| `PublishChain.RefusalChangesNothing` | src/agent_publish.rs:289-450 | a refusal leaves the catalog unchanged, unless it came after the write |
| `PublishChain.ReceiptTells` | src/agent_publish.rs:289-450 | a receipt names the hash that stood before and the one that stands now; no other agent changes |
| `PublishChain.PublishedAsExpected` | src/agent_publish.rs:341-387 | published means the expectation held, the bytes changed, and a bundle's directory was absent and is now the candidate |
| `PublishChain.MarkersGuard` | src/agent_author/markers.rs:84-120 | bytes marked as Nix's are replaced only under exactly the marker they carry |
| `PublishFiles.SpecKeepsDirectory` | src/agent_publish.rs:422-432 | a published spec is the one file of the agent's directory that changes; every other file there, and every other agent, is as it was |
| `PublishFiles.UnchangedShowsAll` | src/agent_publish.rs:397-416 | a bundle answered unchanged is on disk, every file and directory of it |
| `PublishFiles.InputIsHashed` | src/agent_publish.rs:215-217 | the input hash of a receipt is the request's, and the hash of the spec's bytes or of all the bundle's framed entries |
| `PublishFiles.SameInputSameTree` | src/agent_publish.rs:215-217 | so two receipts have one input hash exactly when the bundles hold the same tree, where SHA-256 tells the two apart |
| `PublishFiles.SpecPublishedIff` | src/agent_publish.rs:289-450 | a declared spec is published exactly when the expectation holds of what stands there, other bytes are the caller's to replace, and the catalog is admitted before and after |
| `PublishFiles.BundlePublishedIff` | src/agent_publish.rs:289-450 | a declared bundle exactly when it is expected absent, nothing stands at its target, and the catalog is admitted |
| `PublishFiles.UndeclaredIsRefused` | src/agent_publish.rs:289-316 | anything else, and anything whose target cannot be read, is refused and changes nothing |
| `PublishFiles.RefusedOver` | src/agent_author/markers.rs:84-120 | over other bytes, each marker refusal is given exactly when the markers call for it, and before the expectation is asked |
| `PublishFiles.HashForm` | src/agent_publish.rs:549-559 | a hash is 64 lower-case hexadecimal digits |
| `PublishFiles.MalformedIff` | src/agent_publish.rs:290-292 | first comes a hash out of form, then an asserted owner that is empty or padded |
| `PublishChain.ReceiptsChain` | src/agent_publish.rs:289-450 | in every sequence of requests the receipts of one agent chain |
| `PublishChain.FirstReceipt` | src/agent_publish.rs:289-450 | the first of them starts from what stood at the beginning |
| `PublishChain.CreateReplayUnchanged` | src/agent_publish.rs:341-352 | anywhere later in a sequence, with other agents published between, a create-only request repeated is answered unchanged, for specs and bundles, if the catalog still admits it |
| `PublishChain.ReplaceReplayRefused` | src/agent_publish.rs:353-367 | so too, a hash-conditioned replacement repeated is refused exactly when the hashes differ, so always while SHA-256 tells bytes apart |
| `Authority.AuthorizeActor` | src/agent_author.rs:162-208 | the walk ends on every catalog and accepts exactly no actor, the target itself, or a supervisor, as written or qualified, anywhere on the target's unbounded chain |
| `Authority.RevisitDecides` | src/agent_author.rs:181-201 | stopping at the first agent seen before loses no acceptance |
| `Authority.LastDeclared` | src/agent_author.rs:175-178 | of several declarations of one bus id the last counts |
| `AuthorityChains.AllowedIffWalk` | src/agent_author.rs:162-208 | read off the declarations: an edit is allowed exactly for no actor, the target, or an actor that supervises the end of some walk up the declared supervisors |
| `AuthorityChains.StepsUpIsClimb` | src/agent_author.rs:181-201 | a step up is the name the last declaration gives, or that name on its own host where only that is declared |
| `SourceEdit.InsertNode` | src/agent_author.rs:352-404 | the edit of the text's copy gives the specified addition or refusal, all other text as it was (`InsertionAdds` and the lemmas beside it say what is added where) |
| `SourceEdit.RemoveField` | src/agent_author.rs:415-488 | the line, separator and gap rules give the specified removal or refusal |
| `SourceEditShape.InsertionAdds` | src/agent_author.rs:352-404 | every insertion adds the field as authored, between blanks, one separator, one line end or the new braces, with only whitespace from there to the closing brace |
| `SourceEditShape.InsertionRefusedIff` | src/agent_author.rs:355-385 | it is refused exactly when the span is outside the text or the block does not end in a brace alone on its line |
| `SourceEditShape.AddsBlock` | src/agent_author.rs:363-366 | without a block the field comes in new braces behind the declaration |
| `SourceEditShape.AddsLine` | src/agent_author.rs:374-391 | in a block of several lines it gets a line before the brace's, indented like a first child that has its own line, and two deeper than the brace otherwise |
| `SourceEditShape.AddsInline` | src/agent_author.rs:392-404 | in a one-line block it goes behind the last child, with the separator that child's end calls for |
| `SourceEditShape.RemovalTakes` | src/agent_author.rs:415-488 | for every field, which range goes: the line with its comment, the blanks around it, the separator behind or before it, or the field alone; otherwise a refusal |
| `SourceEditShape.SkippedCharacters` | src/agent_author.rs:374-480 | the characters each rule skips |
| `SourceEditInverse.InsertThenRemove` | src/agent_author.rs:352-498 | a field inserted can always be removed, and that restores the text exactly for blocks over several lines, one-line blocks whose last child has no semicolon, and those with one space after it |
| `SourceEditInverse.RemovalTakesOnlyTrivia` | src/agent_author.rs:415-488 | a removal takes the field and beyond it only blanks, one separator, and the field's own comment and line end |
| `Feed.StepKeeps` | apps/ios/feed.ts:87-305 | every callback, timer and request keeps the feed's invariant, if no attempt is dropped twice |
| `FeedRun.Follower.Take` | apps/ios/feed.ts:87-305 | the object's methods take exactly the specified step, and keep the invariant |
| `FeedRun.QuietIsSilent` | apps/ios/feed.ts:93-230 | in every run, backgrounded or closed, no socket is held, no reconnect, probe or window timer is pending, and the sockets still open are exactly those the probe gave up that have not ended since |
| `FeedRun.QuietStaysSilent` | apps/ios/feed.ts:93-154 | and nothing but returning to the foreground starts anything |
| `FeedRun.LateOpenIsClosed` | apps/ios/feed.ts:195-207 | a socket that opens late is closed, not adopted |
| `FeedAlive.NeverStuck` | apps/ios/feed.ts:195-230 | in every run in the foreground the feed holds its attempt's socket, is opening it, or has a timer pending to open another |
| `FeedAlive.LiveIsProbed` | apps/ios/feed.ts:161-177 | it says live exactly while a probe is pending |
| `FeedAlive.RefusedIsAskedAgain` | apps/ios/feed.ts:180-188 | a refused window leaves exactly one timer to ask for it again, and one failure more |
| `FeedAlive.AskStaysPending` | apps/ios/feed.ts:180-193 | that timer stays until it rings, the window loads or is refused again, or all windows are asked for anew |
| `FeedAlive.AskRings` | apps/ios/feed.ts:185 | ringing forgets the timer and keeps the count |
| `FeedAlive.FailuresCountLosses` | apps/ios/feed.ts:93-254 | the failure count is the sockets lost since a snapshot, the foreground or a person's request last forgave them |
| `FeedRun.DropTracksIff` | apps/ios/feed.ts:219-230 | a drop leaves every timer known exactly when none was waiting to reconnect |
| `FeedRun.SecondDropReconnects` | apps/ios/feed.ts:161-230 | a run in which a second drop opens a socket in the background |
| `FeedRun.MissedLeavesSocketOpen` | apps/ios/feed.ts:161-230 | a run in which a missed probe leaves its socket open in the background |
| `TerminalFence.WithFreshTerminalFence` | apps/ios/terminalControls.ts:17-40 | what is read and sent, and the outcome, are exactly those of the tries up to the first that does not go round, at most eight; every action carries the fence read just before it from the expected incarnation |
| `TerminalFence.EndsOneWay` | apps/ios/terminalControls.ts:17-40 | the loop ends one way and its last line is never reached |
| `TerminalFence.EightTries` | apps/ios/terminalControls.ts:17-40 | a store that moves under every try gets eight reads and eight actions, each with the fence just read, and the last refusal is thrown |
| `TerminalFenceSteps.DriveIsTheLoop` | apps/ios/feed.ts:348-366 | inside a follow, answered await by await, the loop logs exactly those reads and actions and hands the follow exactly that outcome |
| `TerminalFollow.StepKeepsClosed` | apps/ios/feed.ts:312-423 | every step keeps the log silent after the end and its actions fresh |
| `TerminalFollow.RunIsFenced` | apps/ios/feed.ts:312-423 | in every run no handler is called after the end, and every action comes right after a read of its incarnation |
| `TerminalEnds.EndsIff` | apps/ios/feed.ts:358-423 | an open follow ends exactly when closed, refused for good, or shown another process |
| `TerminalEnds.InterruptedIff` | apps/ios/feed.ts:358-405 | it sets a timer and counts a failure exactly for what may pass; a screen of its process forgives all |
| `TerminalEnds.TriesUntilAttached` | apps/ios/feed.ts:337-405 | in every run, from an attach on, an open follow has a request in flight or a timer set until it is attached or its socket is lost |
| `TerminalIncarnation.OneIncarnation` | apps/ios/feed.ts:337-375 | in every run all screens shown are of the one incarnation first learned, if what teaches it and any screen before it has a name |
| `TerminalIncarnation.ActionsToOne` | apps/ios/feed.ts:337-398 | and all actions are sent to it |
| `TerminalIncarnation.NamedForGood` | apps/ios/feed.ts:341-375 | once it is known no later read or screen needs a name |
| `TerminalScreens.OneFromHereIff` | apps/ios/feed.ts:341-375 | for every open state of every run, all screens from there on are of one incarnation exactly when the follow knows one |
| `TerminalScreens.SameAsShownIff` | apps/ios/feed.ts:341-375 | after a screen was shown, all later ones are of its process exactly when that process has a name |
| `TerminalScreens.UnknownShowsAny` | apps/ios/feed.ts:337-347 | an open follow that knows no incarnation can show any process next |
| `TerminalScreens.UnnamedIsForgotten` | apps/ios/feed.ts:341-347 | with an empty incarnation a follow shows two processes |
| `TerminalTimers.RetryKnownIff` | apps/ios/feed.ts:400-405 | a retry keeps its timer known exactly when none was pending |
| `TerminalTimers.StopCancelsIff` | apps/ios/feed.ts:407-423 | the end leaves no timer pending exactly when the follow knew them all |
| `TerminalTimers.NothingRingsAfterTheEnd` | apps/ios/feed.ts:400-423 | so with one retry scheduled at a time nothing starts an attach after the end |
| `TerminalTimers.ForgottenTimerAttaches` | apps/ios/feed.ts:337-423 | a run in which two errors in a row lead to an attach sent after the end |
| `TerminalFollower.Follower.AttachTerminal` | apps/ios/feed.ts:337-348 | attaching cancels what was in flight and starts with the first read, or the fenced loop once an incarnation is known |
| `TerminalFollower.Follower.ReadAnswered` | apps/ios/feed.ts:337-367 | a read coming back takes exactly the specified step |
| `TerminalFollower.Follower.ActionReturned` | apps/ios/feed.ts:348-367 | an action coming back takes exactly the specified step |
| `TerminalFollower.Follower.ScreenArrived` | apps/ios/feed.ts:369-375 | so does a screen |
| `TerminalFollower.Follower.StreamFailed` | apps/ios/feed.ts:377-383 | so does an error |
| `TerminalFollower.Follower.CloseTerminal` | apps/ios/feed.ts:388-398 | so does closing |
| `InputQueue.RunIsOrderly` | apps/ios/terminalKeys.ts:70-95 | in every interleaving at most one request is out, it carries all that waited, and an idle queue has nothing waiting |
| `InputQueue.OneAtATime` | apps/ios/terminalKeys.ts:84-94 | in every interleaving, between two requests the first one came back |
| `InputQueue.TypedIsAccountedFor` | apps/ios/terminalKeys.ts:70-95 | what was sent or dropped, followed by what waits, is what was typed, in order |
| `InputQueue.WithoutFailureAllIsSent` | apps/ios/terminalKeys.ts:84-94 | without a failure the batches sent and what waits are everything typed |
| `InputQueue.EveryReturnIsTold` | apps/ios/terminalKeys.ts:84-94 | in every interleaving each request that came back is told once, in order, as arrived or failed |
| `InputQueue.ArrivalSendsOn` | apps/ios/terminalKeys.ts:87-91 | an arrival sends on at once all that waited, as one request |
| `InputQueue.FailureEmpties` | apps/ios/terminalKeys.ts:92 | a failure drops what waited and sends nothing |
| `InputQueue.KeyQueue.Type` | apps/ios/terminalKeys.ts:76-80 | a push takes exactly the specified step and keeps the queue valid |
| `InputQueue.KeyQueue.Return` | apps/ios/terminalKeys.ts:84-94 | so does a request coming back; a failure drops exactly what waits at that moment |
| `SupervisorChain.ComputeChain` | src/eval_run.rs:1235-1252 | the walk ends on every catalog with the one duplicate-free chain |
| `SupervisorChain.EveryAncestorInChain` | src/eval_run.rs:1235-1252 | nobody on the unbounded walk up is missing from it |
| `AuthorityChains.ChainReports` | src/eval_run.rs:1235-1252 | read off the declarations: each name of the chain reports to the next by the first declaration that goes by it, and nobody further is left out |
| `SupervisorChain.OneAgentTwice` | src/eval_run.rs:1235-1252 | an agent is in it twice only as its last name, and only when supervisors run in a circle |
| `SupervisorChain.NamesTwiceIff` | src/eval_run.rs:1235-1252 | two names of the chain stand for one agent exactly when the walk closes just behind it under another name |
| `SupervisorChain.OneSpellingTellsOnce` | src/eval_run.rs:1235-1252 | never, if every supervisor is written one way in all declarations |
| `SupervisorChain.TwiceByTwoNames` | src/eval_run.rs:1235-1252 | a catalog in which it happens |
| `Supervision.Supervisor.Tick` | src/eval_run.rs:1457-1494 | the loop over declared sessions with its two sets gives the specified state (`ReadingTells` says what it makes of a session) |
| `Supervision.Supervisor.CrashDing` | src/eval_run.rs:1255-1281 | one notice goes to each member of the chain, in order |
| `Supervision.RungOnce` | src/eval_run.rs:1255-1281 | exactly once to each member, and to nobody else |
| `Supervision.ReadingTells` | src/eval_run.rs:1466-1480 | a tick finds a crash exactly when sessions were listed, the last one with that id is missing or dead, it did not exit with 0, and no exit code 0 was left behind |
| `Supervision.OneNoticePerStretch` | src/eval_run.rs:1457-1494 | in every run, a stretch without life gives each supervisor of the first entry with that id exactly one notice if some tick of it found a crash, and none otherwise |
| `Supervision.AliveIsSilent` | src/eval_run.rs:1473-1477 | a reading that is alive gives none |
| `Supervision.UndeclaredIsSilent` | src/eval_run.rs:1468-1494 | nobody hears of a session no task declares |
| `Shell.EscapeReadsBack` | src/eval_run.rs:467-469 | a quoted value reads back whole, quotes, blanks, newlines and backslashes included |
| `Shell.LineReadsBack` | src/eval_run.rs:495-502 | every rendered line is read as exactly the arguments it was rendered from |
| `Shell.WrapperReadsBack` | src/eval_run.rs:473-503 | the wrapper is read as exactly its six words |
| `ExitMarkers.MarkedRunsCommand` | src/eval_run.rs:473-503 | the first terminal entry of an agent runs the command it had, with its own marker, and nothing else changes |
| `ExitMarkers.MarkersDiffer` | src/eval_run.rs:486 | two ids never share a marker, if neither is an absolute path |
| `ExitMarkers.AddExitMarkers` | src/eval_run.rs:473-503 | the in-place loop rewrites every agent so |
| `Install.Machine.Backup` | scripts/install-macos.py:166-194 | the home is not touched, the job holds the specified copies, and a command that is no file is refused |
| `Install.Machine.Install` | scripts/install-macos.py:227-247 | the changes come in order, and stop at a plist without an executable |
| `Install.Machine.Restore` | scripts/install-macos.py:250-278 | the app, the plists and the commands are put back as specified |
| `InstallRollback.RestoreUndoesInstall` | scripts/install-macos.py:166-278 | from every start and every point of failure a restore returns exactly what was there, if and only if the job held no stray file or plist and no command's mode goes beyond the nine permission bits |
| `InstallRollback.FreshJobRestores` | scripts/install-macos.py:317-322 | with a job of its own only the modes matter |
| `InstallRollback.InstalledExactly` | scripts/install-macos.py:227-247 | a whole installation leaves the app, `st3` and `stui` linked into it, `st` linked to `st3`, every service's plist running the app's `st3` with all else in it kept, and nothing else changed |
| `InstallRollback.InstallsIff` | scripts/install-macos.py:234-246 | it stops exactly at a service's plist that is there and runs nothing |
| `InstallRollback.RestoreAgain` | scripts/install-macos.py:250-278 | a restore interrupted anywhere and run again ends in the same state |
| `InstallRollback.SetUserIdIsLost` | scripts/install-macos.py:189 | a command that does not come back as it was |
| `InstallRollback.Transact` | scripts/install-macos.py:349-355 | the try and except as a whole |

## Left out

- ConversationRun.HeldIsOneStretch: timestamps are collation ranks rather than strings, one session is followed at a time, and reading a page and applying it is one step (`LatePageIff` says when a later one fits). Unless the window is full, a change frame revises only entries that are held, new, or not conversational (`ChangeIff` says exactly which others leave one block). A read-back is anchored: something is held, the live cursor answered, or the page is the session's start (`UnanchoredReadIff` says exactly when another leaves one block).
- TransportNames.RepliedStays: message file names are fresh, as their random part makes them; `FilingKeepsStatusIff` and `NameUsedTwiceLosesReply` say what happens otherwise.
- TransportStatus.StatusNeverConflicts: a request names its principal by bus id, as `publish` writes it; a hand-written request with a bare identity, which `reply` would deliver to that host's principal, is not one of the machine's calls.
- TransportOnce.OneMessagePerKey: record and message creation are single atomic steps, JSON is faithful, and SHA-256 file names are injective.
- Boxes.BoxesPartition: numbers are reals, so floating-point rounding is not modelled.
- SourceEdit.InsertNode: offsets count characters, not bytes, and KDL parsing gives the spans.
- BundleTree.StreamDecidesTree: says nothing of SHA-256 itself, only of the bytes it is given; lengths fit in 64 bits.
- Publish.Store.Publish: parsing, full-catalog validation, locking, fsync, parent directories and the mode of a written declaration are parameters or absent; the catalog is what stands in each agent's directory.
- Feed.StepKeeps: window contents, wording, the conversation's own retry timer and the probe's own waits are not modelled; a client always has something to probe.
- TerminalFollow.RunIsFenced: issue texts are abbreviated, and handlers do not call back into the follow.
- InputQueue.RunIsOrderly: the send and failure callbacks do not push.
- Shell.LineReadsBack: the reader knows quoting, backslashes and blanks, and gives up on any other bare character a shell would interpret.
- Supervision.OneNoticePerStretch: delivery of the message itself, routes, respawning and timeouts are not modelled.
- InstallRollback.RestoreUndoesInstall: signing, verification, registration, plist file modes and the staging directories are not modelled; a bundle is its files.
- Command line parsing, printing, KDL parsing, git and shell judges, and every screen, colour and label: they would add only easy members.
