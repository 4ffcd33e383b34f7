# complete-mentions: the three handlers, modelled in Dafny

The mention-completion component of complete-mentions (a React Native text
input that turns `@name` into a mention) keeps all of its logic in three
handler factories in `src/utils`. Each is a small, sequential, in-memory
state machine, and each is modelled here as a Dafny class whose fields are
the factory's closure variables. Pure functions specify the classes, and the
lemmas are about those functions.

- `Synchronizer` (`synchronizer.dfy`) models `createSynchronizeHandler`:
  - two bounded, most-recent-first histories, one of texts and one of selections;
  - a queue of update tags, capped at 10;
  - a `sync` notification when the two newest tags form the platform's pair.
- `Tracker` (`tracker.dfy`) models `createTrackingHandler`, one idle/tracking machine per trigger tag:
  - a history of tracking flags, from which starts and stops are reported only on flips;
  - the trigger position, which is -1 while idle;
  - the live keyword and the query reported to `keywordChange` subscribers;
  - `commit`, which splices the chosen name into the text.
  
  Each step is a function over the closure state (`State`), paired with a class method that updates the fields as the source does and is proved equal to that function.
- `Mentions` (`mentions.dfy`) models `createMentionsHandler`:
  - the registry of committed mention spans;
  - `addMention`, which pushes a span and stably re-sorts by start;
  - `updateMentions`, which runs the removal pass, then the shift pass, then publishes a rendering and an extraction;
  - `rerender` and `extract`, each a loop that walks the list.
- `Js` (`js.dfy`) models the JavaScript built-ins the handlers use:
  - `slice`, which clamps negative and out-of-range indices;
  - element access, which yields `undefined` out of range;
  - `Math.min`, `Math.max` and `Math.abs`.
- `Types` (`types.dfy`) holds the selection and the edit record that the handlers receive.

Subscriber calls go into an append-only `events` log on each handler, oldest first. The platform test `Platform.OS === 'android'` becomes a constructor parameter `isAndroid`. The React nodes produced by renderers are an opaque type parameter `N`.

The methods `AndroidPairingScenario`, `TrackingCommitScenario`, `MentionSurvivesTypingScenario` and `MentionMovesAndDiesScenario` are worked examples: they drive a handler through a concrete session and assert what it publishes. They are written as assertions, not as contracts, so they have no row in the table below.

Five behaviours of the code that a reader might not expect are modelled as written:
- The committed text keeps a trailing space ("hi Bob ", not "hi Bob").
- `commit` reports a start a second time when the update just before it was the one that started tracking (`FinishStops`, `CommitRightAfterStart`).
- The keyword query is the field between the first and the second tag character (`split(tag)[1]`), not everything after the first tag.
- Pasting or autocompleting two or more characters with the caret at a mention's end removes the mention, while typing one character there keeps it (`PasteAtEndRemoves`, `CaretEditBoundaries`).
- A forward delete of a mention's first character keeps the mention and moves it back by one, so its span no longer covers its name: over "hi Bob " becoming "hi ob ", [3, 6) becomes [2, 5), which covers " ob" (`ForwardDeleteAtStartShifts`).

## Model

| member | source | states |
|---|---|---|
| Js.Slice | src/utils/createMentionsHandler.ts:156 | `slice` gives at most the whole sequence: the exact subrange when the bounds are in range, the suffix when the end overshoots, nothing for an empty or out-of-range start |
| Synchronizer.Push | src/utils/createSynchronizeHandler.ts:37-38 | prepend-and-truncate: for a positive cap the new value comes first, followed by the newest old entries, min(cap, n+1) in all; a zero cap keeps nothing, a negative one drops entries from the end |
| Synchronizer.PairsExactly | src/utils/createSynchronizeHandler.ts:47-52 | a sync fires exactly when the queue has two newest tags that differ, the newer being `selection` on Android and `text` elsewhere; two same-kind tags never sync |
| Synchronizer.PushPairs | src/utils/createSynchronizeHandler.ts:38-52 | after pushing a tag, a sync fires exactly when the previous newest tag was of the other kind and the pushed one is the platform's closing kind |
| Synchronizer.SyncHandler.constructor | src/utils/createSynchronizeHandler.ts:26-31 | histories `[initialText]` and `[initialSelection]`, empty queue, no notification |
| Synchronizer.SyncHandler.Check | src/utils/createSynchronizeHandler.ts:47-59 | notifies once with both full histories exactly when the queue pairs; changes no history or queue |
| Synchronizer.SyncHandler.UpdateSelection | src/utils/createSynchronizeHandler.ts:33-40 | a selection equal to the head changes nothing; any other is pushed onto the history (cap `buffer`) and its tag onto the queue (cap 10), then a pair notifies; the text history is untouched; positive-buffer histories stay non-empty and within `buffer` |
| Synchronizer.SyncHandler.UpdateText | src/utils/createSynchronizeHandler.ts:41-45 | every text, even a repeat of the head, is pushed onto the history and its tag onto the queue, then a pair notifies; the selection history is untouched; the bounds are kept |
| Tracker.FirstWord | src/utils/createTrackingHandler.ts:84 | `/([^\s]+)/.exec(s)[0]`: none exactly when s is all whitespace; otherwise a non-empty, whitespace-free run starting at the first non-whitespace character and ending at whitespace or the end |
| Tracker.WordIsFirstWord | src/utils/createTrackingHandler.ts:84 | a non-empty whitespace-free string is its own first word |
| Tracker.WordLengthOfWord | src/utils/createTrackingHandler.ts:84 | the longest whitespace-free prefix of a whitespace-free string is all of it |
| Tracker.SecondField | src/utils/createTrackingHandler.ts:86 | `split(c)[1]`: undefined exactly when c does not occur; otherwise the c-free run right after the first c, ending at the next c or the end |
| Tracker.PreCheck | src/utils/createTrackingHandler.ts:52-73 | exactly one entry is prepended to the history and the older entries are kept; the state invariant is preserved |
| Tracker.RefreshKeyword | src/utils/createTrackingHandler.ts:82-89 | history and position are unchanged and the invariant is kept |
| Tracker.PostCheck | src/utils/createTrackingHandler.ts:75-80 | the state is unchanged, or it was tracking and is now stopped |
| Tracker.CheckStep | src/utils/createTrackingHandler.ts:110-122 | the history becomes its newest min(10, n) entries, position and keyword are kept, and the events are the flip of the two newest entries |
| Tracker.StepEmitsOnFlip | src/utils/createTrackingHandler.ts:91-122 | an update reports a start exactly when it took the tracker from idle to tracking and a stop exactly on the opposite flip, after the keyword change, which is reported exactly when a position is set |
| Tracker.StepKeepsInv | src/utils/createTrackingHandler.ts:91-96 | the keyword update, post-check and check keep the invariant, and the check brings the history within its cap |
| Tracker.PreCheckStarts | src/utils/createTrackingHandler.ts:60-64 | tracking starts in the pre-check only at the position just before the caret |
| Tracker.StepFromPre | src/utils/createTrackingHandler.ts:75-122 | whatever the pre-check did, the rest of the update reports exactly the flip between the previous and the final tracking flag |
| Tracker.FreshStartSurvives | src/utils/createTrackingHandler.ts:75-88 | tracking that has just started at the caret is never stopped by the post-check of the same update |
| Tracker.KeywordIsWord | src/utils/createTrackingHandler.ts:82-88 | after an update with a position set, the keyword is the first word of the text from the position, non-empty and whitespace-free; an idle tracker has an empty keyword |
| Tracker.StartsAtTrigger | src/utils/createTrackingHandler.ts:59-64 | an idle tracker starts exactly when the character before the caret is the one-character tag; it then sits at caret−1 with `true` prepended, and otherwise stays idle with `false` prepended |
| Tracker.StopsOnPreCheck | src/utils/createTrackingHandler.ts:65-72 | while tracking, the pre-check stops exactly on a ranged previous selection, a space before the caret, or a caret before the trigger; stopping resets position and keyword and prepends `false`; otherwise `true` is repeated |
| Tracker.PostCheckStops | src/utils/createTrackingHandler.ts:75-80 | an idle tracker is untouched; a tracking one stays tracking, unchanged, exactly when caret−1 is at most position + keyword length, and otherwise ends idle with `false` prepended |
| Tracker.FinishStops | src/utils/createTrackingHandler.ts:140-142 | commit's check–stop–check always reports a stop, preceded by a start when the history's previous entry was not `true`; the tracker ends idle with a capped history |
| Tracker.SpliceShape | src/utils/createTrackingHandler.ts:124-138 | the result text is the text left of the trigger, the shown name, a space, and the text after the keyword plus one character; the sliced text is the same without the name; start is the position and end−start is the raw name's length; removing the shown name from the text gives the sliced text |
| Tracker.CommitScenario | src/utils/createTrackingHandler.ts:124-138 | committing "Bob" over "hi @bo" gives "hi Bob ", sliced "hi  ", span [3, 6) |
| Tracker.TypingTriggerStarts | src/utils/createTrackingHandler.ts:52-96 | typing "@" after "hi " from idle starts tracking at 3 and reports the empty query, then the start |
| Tracker.TypingAfterTrigger | src/utils/createTrackingHandler.ts:52-96 | typing "b" after the trigger keeps tracking, sets the keyword "@b" and reports the query "b" with no new start |
| Tracker.CommitRightAfterStart | src/utils/createTrackingHandler.ts:124-142 | committing right after the starting update reports start then stop and yields "hi Bob " over [3, 6) |
| Tracker.TrackingHandler.constructor | src/utils/createTrackingHandler.ts:36-39 | the handler starts idle: history `[false]`, position -1, empty keyword |
| Tracker.TrackingHandler.StopTracking | src/utils/createTrackingHandler.ts:46-50 | the fields become `Stop` of the old state |
| Tracker.TrackingHandler.PreHandleTrackingState | src/utils/createTrackingHandler.ts:52-73 | the fields become `PreCheck` of the old state; nothing is reported |
| Tracker.TrackingHandler.UpdateKeyword | src/utils/createTrackingHandler.ts:82-89 | the fields and the reported query are those of `RefreshKeyword` |
| Tracker.TrackingHandler.PostHandleTrackingState | src/utils/createTrackingHandler.ts:75-80 | the fields become `PostCheck` of the old state; nothing is reported |
| Tracker.TrackingHandler.Check | src/utils/createTrackingHandler.ts:110-122 | the fields and the reported flip are those of `CheckStep` |
| Tracker.TrackingHandler.UpdateTracker | src/utils/createTrackingHandler.ts:91-96 | the four steps in order, equal to `Step`; the invariant and the history cap are kept |
| Tracker.TrackingHandler.Commit | src/utils/createTrackingHandler.ts:124-149 | returns the `Splice` of the text with the old position and keyword; leaves the tracker idle; reports the two checks' flips and then the result |
| Mentions.InsertPermutes | src/utils/createMentionsHandler.ts:72 | one insertion step adds the new mention and nothing else (as a multiset) |
| Mentions.InsertAt | src/utils/createMentionsHandler.ts:72 | insertion puts the mention after everything before its insertion point (the last of which starts no later) and before everything that starts strictly later |
| Mentions.InsertSorted | src/utils/createMentionsHandler.ts:72 | inserting into a sorted list keeps it sorted |
| Mentions.InsertStable | src/utils/createMentionsHandler.ts:72 | insertion keeps the relative order of mentions with equal starts, the new one joining them last |
| Mentions.SortByStartSpec | src/utils/createMentionsHandler.ts:72 | the sort's result is sorted by start, is a permutation of the input, and keeps equal-start mentions in input order (stable) |
| Mentions.SortSortedIsIdentity | src/utils/createMentionsHandler.ts:72 | sorting a sorted list changes nothing |
| Mentions.AddedMention | src/utils/createMentionsHandler.ts:70-73 | `addMention` grows the list by exactly the new mention, leaves it sorted and, from a sorted list, places the new mention after every mention starting no later and before every one starting later |
| Mentions.SortKeepsDistinctIds | src/utils/createMentionsHandler.ts:71-72 | pushing a mention with a fresh identity and sorting keeps the identities distinct |
| Mentions.FreshIdJoins | src/utils/createMentionsHandler.ts:52-72 | with identities distinct and below the counter, the new mention (the counter's value) keeps them distinct and below the next counter value |
| Mentions.DistinctSorted | src/utils/createMentionsHandler.ts:72 | the sort keeps identities distinct |
| Mentions.Survivors | src/utils/createMentionsHandler.ts:75-122 | the removal pass only removes: the result is an order-preserving subsequence of the list, containing exactly the mentions the edit does not invalidate, unchanged |
| Mentions.SurvivorsCount | src/utils/createMentionsHandler.ts:75-122 | the removal pass keeps every surviving mention exactly as often as the old list had it, and removed ones not at all |
| Mentions.SurvivorsSorted | src/utils/createMentionsHandler.ts:75-122 | the removal pass keeps a sorted list sorted |
| Mentions.SurvivorsApart | src/utils/createMentionsHandler.ts:75-122 | the removal pass keeps non-overlapping spans non-overlapping |
| Mentions.SurvivorsDistinct | src/utils/createMentionsHandler.ts:75-122 | the removal pass keeps identities distinct |
| Mentions.RangedRemovesOverlapping | src/utils/createMentionsHandler.ts:84-96 | a ranged edit over a forward range removes a mention exactly when that range and the mention's span overlap |
| Mentions.BatchRemoval | src/utils/createMentionsHandler.ts:97-110 | a batch edit removes a mention exactly when its span meets the batched span, end points included, and does not start inside it while ending past it; so a mention ending at or inside the batched span, or containing it, is removed, and one wholly outside or starting inside and ending past it is kept |
| Mentions.PasteAtEndRemoves | src/utils/createMentionsHandler.ts:97-110 | a caret jump of two or more from a mention's end (a paste there) removes the mention |
| Mentions.CaretEditBoundaries | src/utils/createMentionsHandler.ts:111-120 | typing at a mention's start or end keeps it; deleting from its end removes it, from its start keeps it (then the shift moves it back by one); a caret strictly inside removes it; a caret outside keeps it |
| Mentions.ForwardDeleteAtStartShifts | src/utils/createMentionsHandler.ts:111-133 | a forward delete of a mention's first character keeps it and moves it back by one, so its span covers other text |
| Mentions.ShiftAll | src/utils/createMentionsHandler.ts:124-138 | the shift pass keeps the length, every mention's data and width; mentions before the previous caret stay, the others move by the change in text length |
| Mentions.ShiftKeepsCovered | src/utils/createMentionsHandler.ts:124-138 | the shift pass keeps each mention's tag, so its renderer and extractor are still found |
| Mentions.ShiftKeepsOrder | src/utils/createMentionsHandler.ts:124-138 | when the text did not get shorter, the shift pass keeps the list sorted and non-overlapping |
| Mentions.ShrinkingEditCanUnsort | src/utils/createMentionsHandler.ts:111-138 | a concrete edit that shrinks the text by five under a one-step caret move keeps both mentions through the removal pass and leaves them out of order after the shift |
| Mentions.OneCharDeleteKeepsOrder | src/utils/createMentionsHandler.ts:111-138 | a one-character deletion from a caret keeps a sorted, non-overlapping list so through the removal and shift passes |
| Mentions.ShiftKeepsIds | src/utils/createMentionsHandler.ts:129-133 | the shift pass keeps every identity and their distinctness |
| Mentions.ShiftBeforeAndAfter | src/utils/createMentionsHandler.ts:127-136 | an edit at or before every mention moves them all by the length change; an edit after every start leaves the list as it was |
| Mentions.UpdateKeepsOrder | src/utils/createMentionsHandler.ts:140-142 | an edit that does not shorten the text keeps a sorted, non-overlapping, distinct-identity list so through both passes |
| Mentions.RenderFrom | src/utils/createMentionsHandler.ts:153-167 | a walk over n mentions yields 2n+1 parts |
| Mentions.RenderShape | src/utils/createMentionsHandler.ts:150-167 | part 2i is the plain slice from the previous mention's end to mention i's start, part 2i+1 its rendered node, and the last part the text after the last mention |
| Mentions.RenderPartAt | src/utils/createMentionsHandler.ts:153-162 | the two parts produced for mention i, by position |
| Mentions.RenderLastPart | src/utils/createMentionsHandler.ts:163-166 | the final part is the text after the last mention's end |
| Mentions.NoMentions | src/utils/createMentionsHandler.ts:150-151 | with no mentions the rendering is exactly `[text]` and the extraction is the text |
| Mentions.RenderCoversText | src/utils/createMentionsHandler.ts:153-167 | for mentions placed in order in the text, the plain parts interleaved with the mentions' spans give back exactly the text |
| Mentions.ExtractIdentity | src/utils/createMentionsHandler.ts:180-193 | for mentions placed in order in the text whose extractors return their span's text, the extraction is the text |
| Mentions.ApartSpansArePlaced | src/utils/createMentionsHandler.ts:180-193 | non-overlapping spans within the text are placed in order |
| Mentions.IdentityExtraction | src/utils/createMentionsHandler.ts:174-194 | for non-overlapping mentions within the text whose extractors return their span's text, `extract` publishes the text unchanged |
| Mentions.RenderAndExtractAgree | src/utils/createMentionsHandler.ts:147-194 | `extract` cuts the text where `rerender` does: the extraction is the rendering with each node replaced by the extractor output |
| Mentions.OneMention | src/utils/createMentionsHandler.ts:153-193 | with one mention, the rendering is the text before it, its node and the text after it, and the extraction is the same with the extractor output |
| Mentions.BobEdits | src/utils/createMentionsHandler.ts:75-138 | a mention over "Bob" in "hi Bob " survives typing after it in place, moves by one when "X" is typed at the start, and is dropped when a letter inside it is deleted |
| Mentions.BobOutputs | src/utils/createMentionsHandler.ts:147-194 | the rendering and extraction of "hi Bob !" with that mention |
| Mentions.RenderParts | src/utils/createMentionsHandler.ts:147-168 | the `forEach` walk of `rerender` builds exactly the rendering |
| Mentions.ExtractString | src/utils/createMentionsHandler.ts:174-194 | the `forEach` walk of `extract` builds exactly the extraction |
| Mentions.MentionsHandler.constructor | src/utils/createMentionsHandler.ts:48-55 | no renderers, extractors or mentions, counter 0 |
| Mentions.MentionsHandler.AddRenderer | src/utils/createMentionsHandler.ts:62-64 | registers (or replaces) the tag's renderer; nothing else changes |
| Mentions.MentionsHandler.AddExtractor | src/utils/createMentionsHandler.ts:66-68 | registers (or replaces) the tag's extractor; nothing else changes |
| Mentions.MentionsHandler.AddMention | src/utils/createMentionsHandler.ts:70-73 | the list becomes the sort of the old list plus the mention with the counter's old value; the counter grows by one; identities stay distinct and below it |
| Mentions.MentionsHandler.HandleRemove | src/utils/createMentionsHandler.ts:75-122 | the list becomes its survivors; identities stay valid |
| Mentions.MentionsHandler.HandleMove | src/utils/createMentionsHandler.ts:124-138 | the list becomes its shift; identities stay valid |
| Mentions.MentionsHandler.Rerender | src/utils/createMentionsHandler.ts:147-172 | publishes the rendering of the text; changes nothing else |
| Mentions.MentionsHandler.Extract | src/utils/createMentionsHandler.ts:174-198 | publishes the extraction of the text; changes nothing else |
| Mentions.MentionsHandler.UpdateMentions | src/utils/createMentionsHandler.ts:140-145 | the list becomes the shift of the survivors; then the rendering and then the extraction of the new text are published, in this order |

## Left out

- `on` (subscription) in all three handlers: subscribers are not modelled as callbacks; every notification is appended to the handler's `events` log, and a subscriber list of any length sees that same sequence.
- `on('initialsync')` of the synchronizer: it relies on `setTimeout` scheduling.
- The React components and hooks (`src/components`, `src/hooks`, `src/context`), the demos and the re-exports: UI wiring without logic of its own, including the tag component's fixed replay of selection and text updates after a commit.
- `Platform.OS`: injected as the constructor parameter `isAndroid`.
- The nodes renderers return are an opaque type parameter; renderers and extractors are total Dafny functions supplied in maps.
- Strings are sequences of Dafny characters; JavaScript's UTF-16 code units (surrogate pairs) are not distinguished, and `\s` is modelled by its code-point list.
- Tracker.TrackingHandler.Commit: requires a tracked position, because with position -1 the source's `slice(0, -1)` would splice at the wrong place.
- Tracker.TrackingHandler.UpdateTracker: requires that the text from a tracked position holds a word, because the source reads `[0]` of a null match there.
- Mentions.MentionsHandler.UpdateMentions: requires a renderer and an extractor for the tag of every surviving mention, because the source calls `undefined` otherwise; Rerender and Extract require the same.
- Synchronizer.SyncHandler.UpdateSelection: requires a non-empty selection history, because the source reads `.start` of `undefined` once a non-positive `buffer` has emptied it.
- Tracker.PreCheck: the tag is compared with one character, as `text[i] === tag` does; a longer tag never starts tracking, which the invariant records.
- Mentions.ShiftKeepsOrder: order through both passes is proved for edits that do not shorten the text (`UpdateKeepsOrder`) and for one-character deletions from a caret (`OneCharDeleteKeepsOrder`); a caret edit that shortens the text by more than one character can leave the list out of order (`ShrinkingEditCanUnsort`), and ranged and batch deletions are not characterised.
- Mentions.SortByStart: `Array.prototype.sort` with the start-difference comparator is modelled as a stable insertion sort; engines may use another stable algorithm, and only its result (sorted, permutation, stable) is relied on.
- JavaScript object keys: renderer and extractor maps are Dafny maps, so inherited prototype keys such as `toString` are not present.
