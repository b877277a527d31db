# KnowMe mobile: verified models of its client-side protocols

The KnowMe mobile client keeps most of its decisions on the server, but several of its screens carry real
algorithms and protocols of their own: saving an edited message by compare-and-set, splitting text into
mentions, a file store that must survive a crash at any moment, merging pages of notifications, a bounded back
stack, likes raced against status reads, a serialised draft queue, purchases retried under one key, a recency
list and a load guard. This project models them in Dafny and proves what they promise, for every input and every
interleaving, and where a promise fails it proves exactly when.

`dafny verify dfyconfig.toml` verifies the whole project.

## How the models are built

Each screen that changes its state step by step is a class whose methods follow the source's handlers and are
proved against a function on the state before. Each protocol is then a deterministic `Step` over a list of
actions: the user's, the network's and the server's. An action that is not enabled changes nothing, so a claim
about `Run(actions)` for all `actions` is a claim about every reachable state. Fields called auxiliary in a
comment record history for the statements; no step of the client reads them. The store's methods take the fate of
every awaited call as an input: it may work, throw, or be the last thing the process does, with or without having
taken effect, and what a method promises is stated for all fates.

| file | models |
|---|---|
| `MessageEdit.dfy` | the message editor against a server history, with late, repeated, reordered and lost events and requests |
| `MentionText.dfy` | the mention pattern with its backtracking, the scanner, and the rule they amount to |
| `StickerPaths.dfy`, `StickerPacks.dfy`, `StickerPackStore.dfy` | identifiers, file names and manifests; what each operation makes of registry and files for every fate of its awaits; the store at work and its serial runs |
| `NotificationCenter.dfy` | merging notification groups over any number of pages |
| `BackStack.dfy` | the 24-entry screen history against the ideal trail |
| `FeedLikes.dfy`, `FeedDrafts.dfy`, `ReelSlot.dfy` | likes against status reads; the draft queue and publishing; the rolling hash |
| `Purchases.dfy` | purchase keys kept over lost answers |
| `Organization.dfy` | overlapping loads guarded by a generation |
| `ExpressionRecents.dfy` | recent and favourite glyphs |
| `Common.dfy` | UTF-16 text, `trim`, options |

## What the code does not promise

- Two edits of a message within one millisecond of the server's clock share an `editedAt`, and the
  compare-and-set then loses one of them (`MessageEdit.ClockTieLosesUpdate`, `MessageEdit.AcceptedSaveLosesIff`).
- After a refused save, "Version serveur" restores the version last received, not the server's; saving again
  succeeds exactly when the newest version had arrived (`MessageEdit.ResetThenSaveSucceedsIff`, and
  `MessageEdit.ResetCanFailAgain` for a run in which it had not).
- A failed read of the sticker registry looks like an empty one: creating a pack then unregisters all the others
  (`StickerPackStore.CreationCanUnregister`, exactly when: `StickerPacks.CreatingKeepsOthersIff`), and deleting one
  returns normally with the pack still registered (`StickerPackStore.DeletionCanLeavePack`, exactly when:
  `StickerPackStore.Store.DeleteKnowStickerPack`).
- A registry write that took effect and throws all the same makes the clean-up delete the files of the pack just
  registered (`StickerPackStore.CleanUpCanBreakPack`, exactly when over runs: `StickerPackStore.AlwaysConsistentIff`);
  the other packs stay intact (`StickerPackStore.RunLosesExactly`). A rename may leave manifest and registry apart
  (`StickerPackStore.RenameCanDisagree`, exactly when: `StickerPacks.RenameOutcome`).
- A merged unread count is exact exactly when each group merged in repeated no unread notification, or everything
  seen for its key so far was unread (`NotificationCenter.UnreadOverPages`; `NotificationCenter.RepeatedUnreadCountsTwice`
  is a case in which it is too high).
- When the bound has made the back stack forget an entry besides home, going back leads home instead of to it
  (`BackStack.BackCanDisagree`, exactly when: `BackStack.SomeBackDisagreesIff`).
- A like whose answer is lost, or dropped by a reload, can leave the wrong heart on screen
  (`FeedLikes.LostAnswerShowsWrongly`, `FeedLikes.ReloadInFlightShowsWrongly`); the exact conditions are
  `FeedLikes.ShownLikeIsServersIff` and `FeedLikes.UnlockedLikeIsServersIff`.
- Leaving the shop forgets its pending keys, and a second purchase can be charged (`Purchases.ReopeningCanDebitTwice`);
  the charges for an offer stay bounded exactly when the shop is never left with its key pending
  (`Purchases.DebitsStayBoundedIff`, `Purchases.LeavingIsSafeIff`).
- Emojis chosen while a sticker is being sent are forgotten (`ExpressionRecents.ChosenEmojiIsForgotten`), which is
  harmless exactly when, latest first, they already headed the list that was captured
  (`ExpressionRecents.StaleStickerIsHarmlessIff`, over runs `ExpressionRecents.AlwaysRightIff`).
- The favourites stored when a sticker is sent are those of before it was pressed
  (`ExpressionRecents.RemovedFavoriteIsStoredAgain`); what is stored is what is shown exactly as long as the toggles
  made during sends leave the favourites as they were (`ExpressionRecents.StoredIsShownIff`).

## Model

| member | source | states |
|---|---|---|
| MessageEdit.MessageEditControl.constructor | apps/mobile/src/MessageEditControl.tsx:38-42 | the editor opens on the given version, idle and without conflict |
| MessageEdit.MessageEditControl.OnMessageUpdated | apps/mobile/src/MessageEditControl.tsx:48-63 | an event for this message is adopted, or raises a conflict when the text differs from both versions, even with an out-of-date captured base; other messages change nothing |
| MessageEdit.MessageEditControl.BeginSave | apps/mobile/src/MessageEditControl.tsx:77-92 | a save starts only with 1 to 4000 trimmed characters, idle and without conflict, and sends that text with the held stamp |
| MessageEdit.MessageEditControl.SaveAnswered | apps/mobile/src/MessageEditControl.tsx:93-97 | the version in the answer is adopted whole |
| MessageEdit.MessageEditControl.SaveRejected | apps/mobile/src/MessageEditControl.tsx:98-108 | a version conflict blocks saving; any other failure leaves the editor as it was, idle |
| MessageEdit.MessageEditControl.ResetToServer | apps/mobile/src/MessageEditControl.tsx:111-115 | the text becomes the base text again and the conflict is cleared |
| MessageEdit.NoLostUpdate | apps/mobile/src/MessageEditControl.tsx:77-96 | in every run each accepted save replaced exactly the version its text was last taken from, with that version's content as its base, and no request is applied twice |
| MessageEdit.EditorNamesServerVersion | apps/mobile/src/MessageEditControl.tsx:48-61 | in every run, whatever the clock does, the held stamp and base name one server version, and without a conflict the text was taken from that one |
| MessageEdit.TypedTextSurvives | apps/mobile/src/MessageEditControl.tsx:52-60 | in every run, whatever text an event discards, even under an out-of-date captured base, is the content of a version in the server's history |
| MessageEdit.EventIsAdopted | apps/mobile/src/MessageEditControl.tsx:50-61 | in every run an event is adopted: its text too if the editor's is the captured base or already the event's, and otherwise the text stays and is in conflict |
| MessageEdit.UntouchedEditorFollows | apps/mobile/src/MessageEditControl.tsx:50-61 | in every run an editor in which nothing was typed shows the version that arrives, without conflict |
| MessageEdit.TypedTextIsSaved | apps/mobile/src/MessageEditControl.tsx:77-97 | in every run an editor that has the newest version saves exactly the trimmed text typed, and then shows it |
| MessageEdit.ResetThenSaveSucceedsIff | apps/mobile/src/MessageEditControl.tsx:98-115 | refused, reset, retyped and saved again, the save is accepted if and only if the newest version had been received |
| MessageEdit.ResetCanFailAgain | apps/mobile/src/MessageEditControl.tsx:98-115 | a run in which that save is refused again |
| MessageEdit.AcceptedSaveLosesIff | apps/api/src/messaging/message-editing.service.ts:48-66 | in every run, whatever the clock does, a save is accepted over a version its text was not taken from if and only if the newest version carries the stamp of the older one it was taken from |
| MessageEdit.TickingIff | apps/api/src/messaging/message-editing.service.ts:54-66 | stamps stay distinct if and only if each write uses a stamp no version carries |
| MessageEdit.ClockTieLosesUpdate | apps/api/src/messaging/message-editing.service.ts:54-66 | a run with a repeated stamp in which an accepted save replaces a version that was never shown |
| MentionText.BacktrackResult | apps/mobile/src/KnowMeMentionText.tsx:17 | backtracking with the lookahead finds the whole run of word characters or nothing |
| MentionText.MatchAtIsLocal | apps/mobile/src/KnowMeMentionText.tsx:17 | the pattern matches at an index exactly the mention that begins there (only at 0) or one character later |
| MentionText.ExecFindsNext | apps/mobile/src/KnowMeMentionText.tsx:20-23 | the next match is the next position that satisfies the rule; none is skipped |
| MentionText.TurnsDescribe | apps/mobile/src/KnowMeMentionText.tsx:20-30 | from any cursor the loop can stand at, what it pushes is the decomposition of the rest of the text |
| MentionText.GuardsNeverFire | apps/mobile/src/KnowMeMentionText.tsx:21-25 | no match has an empty username or starts before the cursor, so neither `continue` is ever taken |
| MentionText.ScanIsTheDecomposition | apps/mobile/src/KnowMeMentionText.tsx:16-32 | the scanned parts are the decomposition of the text: lossless, with a mention at exactly the positions of the rule |
| MentionText.Parts | apps/mobile/src/KnowMeMentionText.tsx:16-32 | the loop over the matches returns that decomposition, for every text |
| MentionText.DescribesIsLossless | apps/mobile/src/KnowMeMentionText.tsx:26-30 | the values of a decomposition put together are the text |
| MentionText.DescribesFindsExactlyTheMentions | apps/mobile/src/KnowMeMentionText.tsx:17-28 | mention parts stand at exactly the positions that satisfy the rule |
| MentionText.DecompositionIsUnique | apps/mobile/src/KnowMeMentionText.tsx:18-31 | a text has only one decomposition |
| MentionText.PartsAreCanonical | apps/mobile/src/KnowMeMentionText.tsx:26-30 | no part is empty and no two plain parts are neighbours |
| StickerPaths.FilenameInjective | apps/mobile/src/KnowStickerPackStore.ts:46 | padded index names differ for different indices, however many |
| StickerPaths.FilenameIs | apps/mobile/src/KnowStickerPackStore.ts:46 | a file name is the index in digits, padded with zeros to three, and the extension |
| StickerPaths.PathsAre | apps/mobile/src/KnowStickerPackStore.ts:31-46 | everything of a pack lies in the directory named after it |
| StickerPaths.RootsShareNoPath | apps/mobile/src/KnowStickerPackStore.ts:117-118 | no path lies under the directories of two packs |
| StickerPaths.ManifestRoundTrip | apps/mobile/src/KnowStickerPackStore.ts:72-80 | the manifest has the pack's identifier and name and lists its files in order with their names, and directory plus listed name gives back each URI |
| StickerPackStore.Store.ReadPacks | apps/mobile/src/KnowStickerPackStore.ts:18-24 | a read that works gives the packs of the known format, one that fails gives an empty list, and neither throws |
| StickerPackStore.Store.WritePacks | apps/mobile/src/KnowStickerPackStore.ts:25 | the registry is replaced whole or not at all, and the call returns or throws, as its fate says |
| StickerPackStore.Store.CheckAndCopy | apps/mobile/src/KnowStickerPackStore.ts:43-47 | a copy succeeds if and only if the size is 100 bytes to 8 MiB and both calls work, and touches one path |
| StickerPackStore.Store.ConvertOne | apps/mobile/src/KnowStickerPackStore.ts:38-51 | a medium is made if and only if it is an accepted image and its calls work; however the copy ends, a temporary deletion that takes effect leaves no temporary file |
| StickerPackStore.Store.ConvertAll | apps/mobile/src/KnowStickerPackStore.ts:37-52 | if and only if all are made: one sticker file and one item for each medium, in order, under the new directory only |
| StickerPackStore.Store.RegisterPack | apps/mobile/src/KnowStickerPackStore.ts:56-62 | the registry is written exactly when the complete manifest is and the read does not stop the process |
| StickerPackStore.Store.BuildPack | apps/mobile/src/KnowStickerPackStore.ts:36-63 | how it ends and what it leaves of files and registry for all fates; success if and only if every medium is made, the manifest is written and the registry write works |
| StickerPackStore.Store.BuildOrCleanUp | apps/mobile/src/KnowStickerPackStore.ts:36-67 | the same with the deletion that follows an exception |
| StickerPackStore.Store.CreateKnowStickerPack | apps/mobile/src/KnowStickerPackStore.ts:29-68 | success if and only if the input is valid and the calls work; it prepends one pack whose directory holds one distinct file for each medium and an agreeing manifest, and keeps the others if and only if the registry could be read; an exception after which the clean-up takes effect leaves no file; which registered packs are intact afterwards is given exactly, in a store where some already are not |
| StickerPacks.RegisteredPackIs | apps/mobile/src/KnowStickerPackStore.ts:53-62 | whenever a creation has registered a pack, however it ended, that has the whole trimmed label and one item for each medium with its own name and path |
| StickerPacks.CreatedStickers | apps/mobile/src/KnowStickerPackStore.ts:46-47 | the sticker file of each medium is its own conversion |
| StickerPackStore.CreateSucceedsFor | apps/mobile/src/KnowStickerPackStore.ts:29-50 | only a label of 1 to 80 characters with 1 to 120 images of 100 bytes to 8 MiB succeeds, and it does when every call works |
| Common.TrimIs | apps/mobile/src/KnowStickerPackStore.ts:30 | trimming keeps the stretch from the first to the last character that is not space |
| StickerPackStore.Store.SaveRenamedPack | apps/mobile/src/KnowStickerPackStore.ts:70-89 | which of manifest and registry has changed, and whether it returns or throws, for every fate of its calls, the write of the old manifest included |
| StickerPacks.RenameOutcome | apps/mobile/src/KnowStickerPackStore.ts:70-89 | a rename stopped anywhere leaves the same packs intact, and keeps manifests in agreement if and only if it changed both manifest and registry or neither |
| StickerPackStore.Store.RenameKnowStickerPack | apps/mobile/src/KnowStickerPackStore.ts:92-99 | success if and only if the name is accepted, the pack is found and the calls work if there is anything to write; then the name of that pack alone changes; an exception that the old manifest follows changes nothing |
| StickerPackStore.Store.RenameKnowStickerItem | apps/mobile/src/KnowStickerPackStore.ts:100-111 | the same for the name of one item; identifiers, order and URIs stay |
| StickerPackStore.Store.DeleteKnowStickerPack | apps/mobile/src/KnowStickerPackStore.ts:113-119 | a normal return leaves the pack unregistered if and only if the registry could be read or did not hold it; files go only after that, only its own, and all of them if the deletion takes effect |
| StickerPackStore.Store.Session | apps/mobile/src/KnowStickerPackStore.ts:29-119 | after any serial run of operations, each stopped anywhere, what is on disk of every registered pack is right, and a pack is intact if and only if the operations and their fates did not cost it a file |
| StickerPackStore.RunLosesExactly | apps/mobile/src/KnowStickerPackStore.ts:29-119 | the same of runs as values: the packs with a file missing are those lost before and those whose own creation broke them, as long as they stay registered |
| StickerPackStore.AlwaysConsistentIff | apps/mobile/src/KnowStickerPackStore.ts:29-119 | from a consistent store, every registered pack is intact after every operation of a run if and only if no creation breaks its own pack |
| StickerPackStore.CleanUpCanBreakPack | apps/mobile/src/KnowStickerPackStore.ts:61-65 | one creation whose registry write takes effect and throws: the pack is registered without its files |
| StickerPackStore.RenameCanDisagree | apps/mobile/src/KnowStickerPackStore.ts:82-86 | one rename after which the manifest has the new name and the registry the old |
| StickerPackStore.DeletionCanLeavePack | apps/mobile/src/KnowStickerPackStore.ts:113-115 | one deletion that returns normally with the pack still registered |
| StickerPackStore.CreationCanUnregister | apps/mobile/src/KnowStickerPackStore.ts:61-62 | one creation after which an earlier pack is no longer registered |
| StickerPacks.IntactElsewhere | apps/mobile/src/KnowStickerPackStore.ts:65-66 | what happens under one pack's directory leaves every other pack as it was, intact or not |
| StickerPacks.NewPackIsIntact | apps/mobile/src/KnowStickerPackStore.ts:53-60 | the files written before registration make the new pack intact, with a manifest that is its image |
| StickerPacks.NewPackFileCount | apps/mobile/src/KnowStickerPackStore.ts:46-60 | the new directory holds exactly as many different files as media, and the manifest |
| StickerPacks.CreatingKeepsSound | apps/mobile/src/KnowStickerPackStore.ts:61-62 | a pack put in front of those read, or of none, costs no other pack a file |
| StickerPacks.CreatedFiles | apps/mobile/src/KnowStickerPackStore.ts:64-67 | a creation changes only its own directory, and a clean-up that takes effect restores the files of before |
| StickerPacks.CreateOutcome | apps/mobile/src/KnowStickerPackStore.ts:29-68 | a creation stopped anywhere loses a file of a registered pack if and only if its registry write took effect and threw and the clean-up then deleted one |
| StickerPacks.RenamingKeepsSound | apps/mobile/src/KnowStickerPackStore.ts:81-88 | manifest new or old with registry new or old: in all four the same packs are intact |
| StickerPacks.DeletingKeepsSound | apps/mobile/src/KnowStickerPackStore.ts:116-118 | the remaining packs stay as they were with the directory there, partly deleted or gone |
| StickerPacks.DeleteOutcome | apps/mobile/src/KnowStickerPackStore.ts:113-119 | a deletion leaves the same other packs intact, whatever the fates of its calls |
| StickerPacks.DeletedInPlace | apps/mobile/src/KnowStickerPackStore.ts:114-116 | the deleted pack is taken out of its place and the others keep their order |
| StickerPacks.OfFormatConcat | apps/mobile/src/KnowStickerPackStore.ts:22 | reading keeps the packs of the format in their order |
| StickerPacks.FindIsFirst | apps/mobile/src/KnowStickerPackStore.ts:95 | the pack found is the first with the identifier |
| StickerPacks.CreatingKeepsOthersIff | apps/mobile/src/KnowStickerPackStore.ts:61-62 | the registry that a creation writes keeps the others if and only if the read worked or there were none |
| NotificationCenter.MergeGroups | apps/mobile/src/NotificationCenterExperience.tsx:126-158 | the loop over the map and the sort compute the merge that the lemmas below are about |
| NotificationCenter.Center.Loaded | apps/mobile/src/NotificationCenterExperience.tsx:188-199 | an appended page of the same view is merged; anything else replaces what is shown |
| NotificationCenter.Center.ViewChanged | apps/mobile/src/NotificationCenterExperience.tsx:217-221 | a change of view forgets the cursor and the groups |
| NotificationCenter.PutReplaces | apps/mobile/src/NotificationCenterExperience.tsx:127-137 | setting a key replaces its group or adds one, and keys stay distinct |
| NotificationCenter.SortKeeps | apps/mobile/src/NotificationCenterExperience.tsx:153-157 | sorting puts the newest first and keeps exactly the groups |
| NotificationCenter.PagesMerge | apps/mobile/src/NotificationCenterExperience.tsx:126-158 | over any number of pages: each key once, its ids the duplicate-free union, count and grouped to match, the greatest date, newest first once merged |
| NotificationCenter.PagesShowLast | apps/mobile/src/NotificationCenterExperience.tsx:126-152 | over any number of pages each group shows a notification that was given for its key, with the greatest date and of equal dates the last seen, the category of the group last seen, and the ids in the order first seen |
| NotificationCenter.DistinctInOrder | apps/mobile/src/NotificationCenterExperience.tsx:134-136 | the set of ids keeps each where it occurs first |
| NotificationCenter.CombinedFields | apps/mobile/src/NotificationCenterExperience.tsx:137-151 | one merge, field by field, the capped sum of the unread counts included |
| NotificationCenter.PutKeepsPlaces | apps/mobile/src/NotificationCenterExperience.tsx:127-137 | setting a key keeps its place among the groups, or takes the last one |
| NotificationCenter.SortIsStable | apps/mobile/src/NotificationCenterExperience.tsx:153-157 | groups of equal dates stay in the order they had |
| NotificationCenter.PageOrderIrrelevant | apps/mobile/src/NotificationCenterExperience.tsx:192-199 | keys, id sets, counts and latest dates do not depend on the order of the pages nor on reading one twice |
| NotificationCenter.UnreadOverPages | apps/mobile/src/NotificationCenterExperience.tsx:134-144 | over any number of exact pages the counts are never too low nor above the group size, and the count of a key is exact if and only if each group of it repeated no unread notification of those before, or all were unread so far |
| NotificationCenter.MergedUnreadExactIff | apps/mobile/src/NotificationCenterExperience.tsx:141-144 | merging an exact group into one that may already count too high is exact if and only if that one was exact and no unread id was on both sides, or all ids are unread |
| NotificationCenter.RepeatedUnreadCountsTwice | apps/mobile/src/NotificationCenterExperience.tsx:141-144 | two exact pages whose merged count is too high |
| BackStack.AppNavigation.constructor | apps/mobile/App.tsx:1184-1187 | navigation opens at home with no history |
| BackStack.AppNavigation.ScreenEffect | apps/mobile/App.tsx:1218-1228 | the effect consumes the one-shot flag, clears the history at home, or pushes the screen left behind and keeps 24 |
| BackStack.AppNavigation.SetScreen | apps/mobile/App.tsx:1218-1228 | a screen change with the effect after it |
| BackStack.AppNavigation.HardwareBackPress | apps/mobile/App.tsx:1230-1258 | only an unobstructed press away from home navigates; at home it asks to quit; the social screen's children may take it |
| BackStack.AppNavigation.UserChanged | apps/mobile/App.tsx:1334-1339 | another user starts from home with nothing to go back to |
| BackStack.HistoryRefinesTrail | apps/mobile/App.tsx:1218-1228 | the history has at most 24 entries and is the ideal trail without the entries forgotten at its peak; it is the whole trail if and only if the trail never exceeded 24 |
| BackStack.BackAgreesWithTrail | apps/mobile/App.tsx:1245-1249 | back agrees with the trail while the history is not empty; otherwise it goes home, which is the trail's answer only if one entry is left |
| BackStack.SomeBackDisagreesIff | apps/mobile/App.tsx:1218-1249 | going back from any state, some press leads elsewhere than the trail if and only if the bound has forgotten at least two entries |
| BackStack.BackCanDisagree | apps/mobile/App.tsx:1226-1249 | a run of 26 opens and 24 presses after which back goes home past a screen visited before |
| BackStack.SettledBetweenEvents | apps/mobile/App.tsx:1245-1249 | between events the flag is down, neighbours differ, home is only at the bottom and has no history |
| BackStack.RunThenBackReachesHome | apps/mobile/App.tsx:1245-1249 | repeated back presses are at home after exactly a stated number of presses, at most one more than the history holds |
| FeedLikes.AssignedIsOwnBatch | apps/mobile/src/FeedExperience.tsx:1011-1015 | each post is asked about in exactly one batch, and the assembled answer says of it what that batch's page says |
| FeedLikes.FeedExperience.LikeStatusEffect | apps/mobile/src/FeedExperience.tsx:1006-1018 | a new run forgets what is shown, deactivates the previous read and captures the revision |
| FeedLikes.FeedExperience.StatusAnswered | apps/mobile/src/FeedExperience.tsx:1015-1016 | a complete read is shown only under the revision it captured |
| FeedLikes.FeedExperience.BeginLike | apps/mobile/src/FeedExperience.tsx:1020-1024 | a like starts only on a current feed, online and unlocked, and locks its post |
| FeedLikes.FeedExperience.LikeAnswered | apps/mobile/src/FeedExperience.tsx:1026-1038 | an answer of the current generation is shown, moves the public count by one but not below zero, and raises the revision; any answer unlocks |
| FeedLikes.FeedExperience.LikeFailed | apps/mobile/src/FeedExperience.tsx:1033-1038 | a failure only unlocks |
| FeedLikes.ShownLikeIsServersIff | apps/mobile/src/FeedExperience.tsx:1005-1039 | in every run, reloads and lost answers included, a shown like is the server's if and only if the server has toggled the post an even number of times since it last gave the client its value |
| FeedLikes.UnlockedLikeIsServersIff | apps/mobile/src/FeedExperience.tsx:1005-1039 | for an unlocked post: if and only if an even number of those toggles had their answer lost or dropped by a reload |
| FeedLikes.LikesReconcile | apps/mobile/src/FeedExperience.tsx:1005-1039 | in one generation with every like answered or not applied, every unlocked post with a known like shows the server's |
| FeedLikes.AnsweredLikeIsShown | apps/mobile/src/FeedExperience.tsx:1028-1037 | in every run the answer to a like of the current generation is shown, is the server's, changes no other post and unlocks this one |
| FeedLikes.MissedAnswerOnlyUnlocks | apps/mobile/src/FeedExperience.tsx:1028-1037 | an answer overtaken by a reload, or lost, unlocks the post and shows nothing new |
| FeedLikes.PressSendsIff | apps/mobile/src/FeedExperience.tsx:1020-1024 | in every run a press sends a like and locks its post if and only if the feed is current, online, and no like of it is under way |
| FeedLikes.CompleteReadShowsAll | apps/mobile/src/FeedExperience.tsx:1011-1015 | in every run a complete read under its own revision shows, of every post it asked about, what its batch answered |
| FeedLikes.OvertakenReadShowsNothing | apps/mobile/src/FeedExperience.tsx:1015 | a read overtaken by a confirmed like shows nothing |
| FeedLikes.LostAnswerShowsWrongly | apps/mobile/src/FeedExperience.tsx:1033-1038 | a run in which a lost answer leaves the wrong like shown and unlocked |
| FeedLikes.ReloadInFlightShowsWrongly | apps/mobile/src/FeedExperience.tsx:1024-1028 | a run in which a reload drops an answer and an older status is shown |
| FeedDrafts.FeedComposer.constructor | apps/mobile/src/FeedExperience.tsx:830-838 | the chain of writes begins settled and nothing is being published |
| FeedDrafts.FeedComposer.AutosaveTimer | apps/mobile/src/FeedExperience.tsx:875-878 | a save is chained behind the end of the chain and becomes its end |
| FeedDrafts.FeedComposer.BeginPublish | apps/mobile/src/FeedExperience.tsx:961-974 | publishing starts once, online and with text or photos, and posts the trimmed text, or a space, with the photos |
| FeedDrafts.FeedComposer.PostAnswered | apps/mobile/src/FeedExperience.tsx:974-986 | once the post is accepted the end of the chain at that moment is awaited |
| FeedDrafts.SavesAreSerialised | apps/mobile/src/FeedExperience.tsx:876-878 | at most one save is under way, and saves reach storage in scheduling order whichever fail |
| FeedDrafts.PublishedDraftStaysCleared | apps/mobile/src/FeedExperience.tsx:961-987 | no save scheduled before a successful clear is written after it, and whatever is stored later for the account comes from a save scheduled after it |
| FeedDrafts.StoreIsReplay | apps/mobile/src/FeedExperience.tsx:876-878 | what is stored is what the logged writes leave when replayed in order |
| FeedDrafts.JobsAreAutosaves | apps/mobile/src/FeedExperience.tsx:873-878 | the chained saves are the autosaves of the run, one for each, with the account and the text and photos typed |
| FeedDrafts.StoreIsLastTyped | apps/mobile/src/FeedExperience.tsx:870-886 | after any run the draft stored for an account is what was typed at the last of its autosaves to reach storage after its last clear |
| ReelSlot.AllUnitsHashedIff | apps/mobile/src/FeedExperience.tsx:814 | every code unit of the seed is hashed if and only if it has no surrogate pair |
| ReelSlot.FirstUnitsAppend | apps/mobile/src/FeedExperience.tsx:814 | a code unit is left out exactly if it completes a surrogate pair with the one before it |
| ReelSlot.SeedIsPolynomial | apps/mobile/src/FeedExperience.tsx:814 | the reduce is the base-31 polynomial modulo 2^32, and every value before truncation is exact in double precision |
| ReelSlot.ReelsAfterPost | apps/mobile/src/FeedExperience.tsx:812-816 | the slot lies between 1 and the smaller of 6 and the number of posts, and is the hash's choice unless the feed is shorter |
| Purchases.CosmeticsMarketplace.constructor | apps/mobile/src/CosmeticsMarketplaceExperience.tsx:40-45 | the shop opens idle with no pending key |
| Purchases.CosmeticsMarketplace.BeginBuy | apps/mobile/src/CosmeticsMarketplaceExperience.tsx:87-94 | one purchase at a time, under the pending key if there is one, which is then kept |
| Purchases.CosmeticsMarketplace.BuyAnswered | apps/mobile/src/CosmeticsMarketplaceExperience.tsx:94-109 | an answer forgets that offer's key |
| Purchases.CosmeticsMarketplace.BuyThrew | apps/mobile/src/CosmeticsMarketplaceExperience.tsx:103-109 | a failure keeps every key |
| Purchases.DebitsAccountedFor | apps/mobile/src/CosmeticsMarketplaceExperience.tsx:87-110 | in every run the charges for an offer are the answers received, plus the pending key if charged, plus the charged keys forgotten with the screen |
| Purchases.AtMostOnceDebit | apps/mobile/src/CosmeticsMarketplaceExperience.tsx:43-45 | while the screen is never left with the offer's key pending, the charges lie between the answers received and one more if a key is pending |
| Purchases.RetrySendsSameKey | apps/mobile/src/CosmeticsMarketplaceExperience.tsx:90-109 | in every run, after a failure the same offer is bought again under the key of the first try |
| Purchases.NextPurchaseHasNewKey | apps/mobile/src/CosmeticsMarketplaceExperience.tsx:90-96 | in every run, after an answer the shop is free and the next purchase of the offer has a new key |
| Purchases.DebitsStayBoundedIff | apps/mobile/src/CosmeticsMarketplaceExperience.tsx:43-45 | in every run, whatever late requests still reach the server, the charges stay within that bound if and only if the screen was never left with the offer's key pending |
| Purchases.LeavingIsSafeIff | apps/mobile/src/CosmeticsMarketplaceExperience.tsx:45 | leaving the screen is safe for an offer if and only if it has no pending key at that moment |
| Purchases.ReopeningCanDebitTwice | apps/mobile/src/CosmeticsMarketplaceExperience.tsx:45 | a run that leaves the screen with a pending key: one answer, two charges, nothing pending |
| Organization.MessagesOrganization.constructor | apps/mobile/src/MessagesOrganizationExperience.tsx:113-126 | the panel begins empty at generation 0 |
| Organization.MessagesOrganization.BeginLoad | apps/mobile/src/MessagesOrganizationExperience.tsx:140-146 | a load takes the next generation and clears what is shown |
| Organization.MessagesOrganization.ConversationsAnswered | apps/mobile/src/MessagesOrganizationExperience.tsx:149-151 | the list is shown only for the current generation |
| Organization.MessagesOrganization.CountsSettled | apps/mobile/src/MessagesOrganizationExperience.tsx:153-176 | for the current generation only, the overview counts the conversations and says of each collection what its own request answered, with a warning if one was rejected |
| Organization.MessagesOrganization.LoadThrew | apps/mobile/src/MessagesOrganizationExperience.tsx:177-186 | a failure of the current load, of its list or of a count without items, clears the panel and ends the loading |
| Organization.MessagesOrganization.SwitchEffect | apps/mobile/src/MessagesOrganizationExperience.tsx:189-202 | a change of account or panel invalidates every load, and an open panel starts one |
| Organization.ShownComesFromLatestLoad | apps/mobile/src/MessagesOrganizationExperience.tsx:140-202 | whatever is shown is the answer to the most recently started load, for the current account; the overview counts what is listed and reports each request of that load; there is a warning exactly if one was rejected |
| Organization.LoadingIffLatestUnfinished | apps/mobile/src/MessagesOrganizationExperience.tsx:184-202 | the spinner turns exactly while that load is current and unfinished |
| ExpressionRecents.ChatExpressionKeyboard.constructor | apps/mobile/src/ChatExpressionKeyboard.tsx:86-99 | restored lists are cut to 36 |
| ExpressionRecents.ChatExpressionKeyboard.ChooseEmoji | apps/mobile/src/ChatExpressionKeyboard.tsx:100-107 | a chosen glyph moves to the front of the list, and both lists are stored |
| ExpressionRecents.ChatExpressionKeyboard.ToggleFavorite | apps/mobile/src/ChatExpressionKeyboard.tsx:120-123 | a favourite is removed, or put in front within the bound, and both lists are stored |
| ExpressionRecents.ChatExpressionKeyboard.BeginSticker | apps/mobile/src/ChatExpressionKeyboard.tsx:223-225 | one sticker at a time, with the lists of that moment captured |
| ExpressionRecents.ChatExpressionKeyboard.StickerAnswered | apps/mobile/src/ChatExpressionKeyboard.tsx:227-234 | a sent sticker is recorded in the captured list, which is stored with the captured favourites |
| ExpressionRecents.TruncationCommutes | apps/mobile/src/ChatExpressionKeyboard.tsx:104 | moving to the front commutes with keeping the first 36 |
| ExpressionRecents.UsedIs | apps/mobile/src/ChatExpressionKeyboard.tsx:104 | a used glyph comes first, then the others in their order, up to 36 |
| ExpressionRecents.UsesNext | apps/mobile/src/ChatExpressionKeyboard.tsx:103-107 | an emoji counts as used when chosen, a sticker's glyph when sent |
| ExpressionRecents.FirstOccurrencesInOrder | apps/mobile/src/ChatExpressionKeyboard.tsx:103-107 | the ideal list has each glyph at its most recent use |
| ExpressionRecents.RecentsRefineRecency | apps/mobile/src/ChatExpressionKeyboard.tsx:103-107 | after any uses the list is the first 36 of the distinct glyphs in order of last use, with any emojis chosen during sends as long as those were harmless |
| ExpressionRecents.AlwaysRightIff | apps/mobile/src/ChatExpressionKeyboard.tsx:223-235 | in every run the list is right all the time if and only if at every sticker sent the emojis chosen meanwhile were harmless |
| ExpressionRecents.StaleStickerIsHarmlessIff | apps/mobile/src/ChatExpressionKeyboard.tsx:223-235 | whatever emojis are chosen during a send, the sticker is recorded in the right list if and only if those, latest first and without its own glyph, already were first among the others |
| ExpressionRecents.ChosenEmojiIsForgotten | apps/mobile/src/ChatExpressionKeyboard.tsx:103-107 | a run in which the emoji chosen during a send is not in the list afterwards |
| ExpressionRecents.StoredIsShownIff | apps/mobile/src/ChatExpressionKeyboard.tsx:100-123 | in every run the stored lists are the shown ones all the time if and only if they were at first and, at every sticker sent, the favourites toggled meanwhile were back as captured |
| ExpressionRecents.RemovedFavoriteIsStoredAgain | apps/mobile/src/ChatExpressionKeyboard.tsx:227-233 | a run in which a favourite removed during a send is stored again |
| ExpressionRecents.ToggleFlips | apps/mobile/src/ChatExpressionKeyboard.tsx:108-123 | a toggle changes membership and keeps favourites distinct and bounded |
| ExpressionRecents.ToggledIs | apps/mobile/src/ChatExpressionKeyboard.tsx:120-123 | a toggled favourite is taken out of its place or put in front, and the others stay in order |
| ExpressionRecents.ToggleTwiceRestoresIff | apps/mobile/src/ChatExpressionKeyboard.tsx:108-123 | toggling twice restores the list if and only if the glyph was first, or was absent and the list not full |

## Left out

- MessageEdit.NoLostUpdate: holds under the hypothesis that the server never repeats an `editedAt` for the message (`TickingIff` says when, write by write); without it `ClockTieLosesUpdate` is a counterexample.
- MessageEdit.MessageEditControl.BeginSave: the press sees the state of the latest render, and a save is not started twice before `busy` is rendered; only the event handler is given an out-of-date closure.
- StickerPackStore.Store.WritePacks: a registry or manifest write takes effect whole or not at all, whether or not it throws; copies and directory deletions may stop half way. A directory is the files under it.
- StickerPackStore.Store.Session: operations run one after the other; overlapping ones are not protected by the source and can lose each other's registry changes.
- StickerPackStore.Store.RenameKnowStickerPack: a rename to the name already registered writes nothing, so it does not repair a manifest left behind by an earlier crash; agreement is therefore claimed from agreement before.
- StickerPackStore.Store.CreateKnowStickerPack: `documentDirectory` is a constant that is available, `safeId` draws identifiers nothing uses yet, and label normalisation is a parameter.
- NotificationCenter.PagesMerge: dates are valid and given as times; a date that does not parse makes the source's comparator answer NaN.
- NotificationCenter.Center.Loaded: overlapping loads have no generation guard in the source, and which answer wins is not modelled.
- BackStack.AppNavigation.SetScreen: one screen change for each commit, with the effect run before the next event.
- FeedLikes.LikesReconcile: likes come from this client only, and a like that fails is not applied later.
- FeedDrafts.PublishedDraftStaysCleared: a save is one write; the copying of media inside it is not modelled, and no timer fires between the accepted post and the clear, as publishing is rendered by then.
- Purchases.AtMostOnceDebit: purchase keys never repeat, and the server's own refusal of a second purchase of an owned item is not modelled.
- ExpressionRecents.RecentsRefineRecency: the restored list has no duplicates and is restored before the first use; the writes back to storage are taken to happen in order.
- ExpressionRecents.ToggleFlips: the GIF and sticker-asset favourites toggle in the same way on lists of their own, which are not modelled.
- ReelSlot.ReelsAfterPost: the hour and the account are the caller's text.
- The voice composer, the media picker's paging, games, wallets and guest play: their rules live in other files or on the server.
- The other version-checked forms (drafts, locale, appearance, download settings, creator profile): weaker copies of the message editor.
- Screens, styles, alerts, animations, gestures and translations.
