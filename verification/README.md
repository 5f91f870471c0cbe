# Shopping-list voice commands in Dafny

This project models the voice-command pipeline of a Hebrew-first shopping-list web app. The pipeline takes a speech transcript and turns it into changes to the list. The model has four parts:

- **Item-phrase parser** (`ItemParser`, `App.tsx`):
  - normalizes a transcript;
  - splits it into clauses at commas and spoken conjunctions;
  - fuses compound names (`mergeCompounds`);
  - scans each clause into `{ name, qty }` items, placing number words and digits as prefix or suffix quantities.
- **Command dispatch and executor** (`Commands`, `ListStore`, `Executor`, `App.tsx`):
  - `isClearListCommand` for the four app languages;
  - the first-match dispatch of `executeVoiceTextWithUndo` (clear, delete, mark bought, increase, decrease, add);
  - `findItemByName`, `updateQty`, `togglePurchased`;
  - the undo ledger and `runUndoActions`.

  The Firestore collection is a `Store` object holding a map from item id to item. The React `items` snapshot the handlers read is a separate value, the *view*, which may lag behind the store.
- **Tap-to-record session** (`TapCapture`, `App.tsx`):
  - the per-index buffer of final transcripts and the last interim transcript that `onresult` maintains;
  - `mergeChunks`, which stitches the finals together;
  - the combination of finals and interim text on stop;
  - the `voiceUi` state machine (idle, recording, processing, review) with `tapActiveRef` and `startGuardRef`.

  The recogniser callbacks and the timers are methods the environment calls.
- **Stand-alone voice module** (`VoiceParser`, `VoiceSession`, `voice/`):
  - `parseVoiceSentence` and `wordToNumber`;
  - the module-level transcript buffer with start, collect and finish.

`Text` holds the JavaScript string operations the code relies on. It models `trim`, `/\s+/g` collapsing, character-class deletion and replacement, `toLowerCase`, `split`, `join`, `filter(Boolean)`, `includes`, `startsWith` and `\b`.

The pure code of the source (normalizers, lookups, the clear-list test, `parseVoiceSentence`) is written as functions. Each of its loops is a method proved against a function (`mergeCompounds`, the token scan, the clause loop, `mergeChunks`, the add loop, `runUndoActions`, the `onresult` loop). State that the source updates in place is a class with `modifies` clauses: the item store, the tap session and the voice-session buffer.

## Model

| member | source | states |
|---|---|---|
| Text.Trim | voice/voiceSession.ts:10-11 | `trim()` leaves no whitespace at either end, is no longer than the text after leading whitespace, and is empty exactly when the input is all whitespace |
| Text.TrimSlice | voice/voiceSession.ts:10-11 | what `trim()` keeps is the contiguous slice of the input between the two cuts |
| Text.Collapse | App.tsx:298 | `replace(/\s+/g, " ")` yields single-spaced text, never longer, empty only for empty input, with a space first exactly where the input starts with whitespace |
| Text.TrimCollapseNormal | App.tsx:2985 | collapsing then trimming always gives normal text: no whitespace at the ends and only single spaces inside |
| Text.NormalFixed | App.tsx:577 | normal text is left unchanged by collapse, by trim and by both |
| Text.CollapseKeepsChars | App.tsx:293-298 | collapsing adds no character except the space, and keeps lower-case text lower case |
| Text.CollapseAppend | App.tsx:298 | whitespace runs never cross a non-whitespace character, so collapse distributes over such a concatenation |
| Text.RemoveChars | voice/voiceParser.ts:39 | `replace(/[.,!?]/g, "")` never lengthens and leaves none of the removed characters |
| Text.RemoveCharsAppend | voice/voiceParser.ts:39 | character deletion works piece by piece over a concatenation |
| Text.ReplaceChars | App.tsx:303 | a one-for-one character replacement keeps the length and changes exactly the characters of the class |
| Text.Lower | App.tsx:296 | `toLowerCase()` keeps the length, maps every character, and its result is lower case |
| Text.LowerFixed | App.tsx:296 | lower-casing lower-case text changes nothing |
| Text.Split | voice/voiceParser.ts:47 | `split` yields at least one piece, and no piece holds a separator |
| Text.JoinSplit | voice/voiceParser.ts:47-53 | joining the pieces of a split on one character with that character gives the text back |
| Text.SplitFirst | voice/voiceParser.ts:47-53 | the text is its first piece, the separator and the remaining pieces joined again |
| Text.NonEmpty | App.tsx:2954 | `filter(Boolean)` keeps only non-empty strings, never more than it was given |
| Text.NonEmptySingle | App.tsx:600 | a single string survives `filter(Boolean)` exactly when it is non-empty |
| Text.NonEmptyAppend | App.tsx:600 | filtering a concatenation filters each side and keeps their order |
| Text.NonEmptyMembers | App.tsx:600 | a string is kept exactly when it is one of the parts and is non-empty |
| Text.NonEmptyOfFull | App.tsx:600 | parts that are all non-empty pass the filter unchanged |
| Text.ReplaceWordIdentity | App.tsx:305-306 | `\bפסיק\b` finds nothing in text without ASCII word characters, so the replacement leaves Hebrew text unchanged |
| Text.TrimKeepsOccurrence | voice/voiceParser.ts:38 | an occurrence of a word bounded by non-whitespace survives `trim`, shifted by the cut |
| Text.RemoveCharsKeepsOccurrence | voice/voiceParser.ts:39 | an occurrence of a word free of the deleted marks survives their deletion |
| Text.CollapseKeepsOccurrence | voice/voiceParser.ts:40 | an occurrence of a single-spaced word bounded by non-whitespace survives the collapse |
| ItemParser.Normalize | App.tsx:293-298 | `normalize` yields single-spaced text |
| ItemParser.NormalizeChars | App.tsx:293-298 | the normal form has no quote characters and is lower case |
| ItemParser.NormalizeTwice | App.tsx:293-298 | normalizing again only trims once more |
| ItemParser.NormalizeKeepsSpaceAfterQuote | App.tsx:293-298 | a quote deleted after the trim leaves a leading space, so `normalize` is not idempotent: `' a` gives ` a`, then `a` |
| ItemParser.NormalFixedPoint | App.tsx:293-298 | normal, lower-case, quote-free text is its own normal form |
| ItemParser.NormalizeVoiceText | App.tsx:300-310 | `normalizeVoiceText` yields normal text holding none of `. ? ! ，` |
| ItemParser.MarkPasses | App.tsx:301-306 | after the trim and the replacements of the marks and of the words פסיקים and פסיק, none of `. ? ! ，` is left |
| ItemParser.MarkPassesFixed | App.tsx:301-306 | trimmed text with no marks and without the word פסיק passes those replacements unchanged |
| ItemParser.NormalizeVoiceTextFixed | App.tsx:300-310 | text that is normal, has no marks, no פסיק and no filler word after a space is its own `normalizeVoiceText` |
| ItemParser.NormalizeVoiceTextDropsFiller | App.tsx:300-310 | "A בבקשה B", "A פליז B" and "A תודה B" with clean A and B normalize to "A B": the filler and its spaces become one space |
| ItemParser.FillerPassDrops | App.tsx:307 | on single-spaced text whose only filler pattern is the one between A and B, the filler pass yields "A B" |
| ItemParser.QtyFromToken | App.tsx:318-323 | a value exists exactly for quantity tokens (`isQtyToken`), and a digit token yields its decimal value |
| ItemParser.NumberWordValues | App.tsx:268-291 | the Hebrew number words stand for 1 to 10 |
| ItemParser.TokenQuantity | App.tsx:532 | the quantity of a token is at least 1, its value when that is positive, and 1 when it has none |
| ItemParser.ZeroDigitIsOne | App.tsx:531-532 | "0" is a quantity token with value 0 whose quantity is 1 |
| ItemParser.AsciiWordSurvives | App.tsx:293-316 | a lower-case ASCII word is its own normal form and is no quantity token |
| ItemParser.InheritedKeyIsQuantityAsWritten | App.tsx:312-316 | as written, `isQtyToken("constructor")` holds although the word has no numeric value and survives `normalize` |
| ItemParser.MergeCompounds | App.tsx:445-488 | the merge loop computes the greedy left-to-right fusion |
| ItemParser.MergeShape | App.tsx:445-488 | the output splits the input, in order, into groups: one token, or two adjacent non-quantity tokens joined by a space (the second possibly without its article ה) |
| ItemParser.MergedFromLength | App.tsx:445-488 | such a grouping never adds tokens and at most halves them |
| ItemParser.MergeWithoutFusion | App.tsx:451-485 | when no adjacent pair fuses, the merge changes nothing |
| ItemParser.QuantityTokensSurviveMerge | App.tsx:455-456 | a quantity token is never fused: it survives as its own token |
| ItemParser.CleanItem | App.tsx:576-578 | a cleaned item has a non-empty normal name and a quantity of at least 1 |
| ItemParser.CleanItems | App.tsx:576-578 | the closing `map`/`filter` yields only well-formed items, never more than it was given |
| ItemParser.CleanWellFormed | App.tsx:576-578 | the closing `map`/`filter` leaves well-formed items unchanged |
| ItemParser.ParseSegment | App.tsx:503-579 | every item of a clause has a non-empty, trimmed, single-spaced name and a quantity of at least 1 |
| ItemParser.ParseSegmentTokensToItems | App.tsx:503-579 | the clause parser computes `ParseSegment` |
| ItemParser.ScanTokens | App.tsx:511-578 | the scanning loop, final flush and closing `map`/`filter` compute the scanner's items, all well formed |
| ItemParser.FlushPlain | App.tsx:516-524 | flushing a single plain word emits it as one item with the given quantity and resets the scanner |
| ItemParser.PlainRunScan | App.tsx:554-571 | N plain words give N items of quantity 1 in spoken order, with nothing pending |
| ItemParser.WordCloses | App.tsx:554-571 | a plain word not followed by a quantity or a connector is emitted at once with the pending quantity |
| ItemParser.WordWaits | App.tsx:567-568 | a plain word followed by a quantity stays open |
| ItemParser.QuantityPends | App.tsx:535-539 | a quantity with no open name becomes the pending quantity |
| ItemParser.QuantityCloses | App.tsx:541-551 | a quantity after an open word closes it: with that quantity when it is the last token, otherwise with the pending quantity while becoming the next one |
| ItemParser.PlainRunItems | App.tsx:492-494 | a token list of plain words yields one item of quantity 1 per word, in order |
| ItemParser.PlainClause | App.tsx:503-578 | a clause of plain words of which no two fuse yields one item of quantity 1 per word, in order |
| ItemParser.PrefixQuantity | App.tsx:535-539 | "שתי בננות": the quantity before a word is that word's quantity |
| ItemParser.SuffixQuantity | App.tsx:541-545 | "בננות שתיים": a final quantity is the quantity of the word before it |
| ItemParser.MidQuantityGoesForward | App.tsx:547-551 | a quantity between two words closes the first with quantity 1 and goes to the second |
| ItemParser.PrefixQuantityOnlyNext | App.tsx:499-501 | a prefix quantity attaches only to the item right after it |
| ItemParser.ConjunctionAbsent | App.tsx:591-595 | a conjunction whose spaced pattern does not occur leaves the text unchanged |
| ItemParser.RewriteSkip | App.tsx:590-595 | a run of conjunction passes whose patterns are all absent changes nothing |
| ItemParser.ConjunctionBetween | App.tsx:591-595 | the single occurrence of a conjunction between two spaces, between A and B, becomes one comma: "A,B" |
| ItemParser.EarlierFree | App.tsx:590-595 | no conjunction earlier in the chain occurs in "A w B" for clean clauses A and B |
| ItemParser.OwnPass | App.tsx:590-595 | the pass of the conjunction itself turns "A w B" into "A,B" |
| ItemParser.RewriteAround | App.tsx:590-595 | the whole chain turns "A w B" into "A,B" for each of the five conjunctions and clean clauses A and B |
| ItemParser.CommaPieces | App.tsx:597-600 | "A,B" and "A, B" split, trim and filter into exactly the clauses A and B |
| ItemParser.CleanUtterance | App.tsx:586-587 | clean, lower-case, quote-free text passes both normalizers unchanged |
| ItemParser.SegmentsAroundConjunction | App.tsx:585-600 | "A וגם B", "A ואז B", "A אחר כך B", "A ואחר כך B" and "A ו B" each split into exactly the clauses A and B |
| ItemParser.SegmentsAroundComma | App.tsx:585-600 | "A, B" splits into exactly the clauses A and B |
| ItemParser.ParseTwo | App.tsx:602-607 | the items of two clauses are those of the first followed by those of the second |
| ItemParser.ItemsAroundConjunction | App.tsx:585-607 | the items of "A w B" are the items of A followed by the items of B |
| ItemParser.TrimAll | App.tsx:599 | each clause is trimmed, one for one |
| ItemParser.ParseSegments | App.tsx:602-607 | the items of the clauses are concatenated in order, and all are well formed |
| ItemParser.ParseItemsFromText | App.tsx:585-608 | the clause loop returns the in-order concatenation of the clause parser over the clauses, all well formed |
| ItemParser.ParseSegmentsSnoc | App.tsx:603-606 | one more clause appends exactly its items |
| ItemParser.MergeProgress | App.tsx:451-485 | one turn of the merge loop keeps the loop's invariant |
| Commands.BlankSymbols | App.tsx:2464 | every character other than a letter, digit or whitespace becomes a space, and the length is kept |
| Commands.ClearText | App.tsx:2461-2466 | the text the clear-list patterns see is normal |
| Commands.ClearTextKeepsWord | App.tsx:2461-2466 | cleaning never breaks up a lower-case word of letters and digits present in the transcript |
| Commands.ClearTextFixed | App.tsx:2461-2466 | normal lower-case text of letters, digits and spaces is its own cleaned text |
| Commands.ClearTextAvoids | App.tsx:2461-2466 | cleaning adds no character of a class it cannot produce |
| Commands.HebrewClearIsVerbSubstring | App.tsx:2505-2516 | in Hebrew, the whole clear-list test holds exactly when the cleaned text contains one of the ten clear verbs |
| Commands.HebrewClearText | App.tsx:2507-2516 | the anchored pattern and both `includes` conjunctions only accept texts the first pattern already accepts |
| Commands.ClearVerbAnywhere | App.tsx:2508 | a Hebrew clear verb anywhere in the transcript makes it a clear-list command |
| Commands.ClearNeedsQof | App.tsx:2507-2516 | a transcript without the letter ק is never a Hebrew clear-list command |
| Commands.BoundaryPatternsNeedAscii | App.tsx:2481-2503 | for a transcript without ASCII word characters, the Russian and Arabic tests reduce to their anchored patterns |
| Commands.NoWordThenWord | App.tsx:2474-2476 | a `\b…\b.*\b…\b` pattern never matches text without ASCII word characters |
| Commands.LeadingVerb | App.tsx:2687 | the alternative `^(v1\|v2\|…)\s+` takes is the first verb that leads the text, or none |
| Commands.AfterVerb | App.tsx:2687-2688 | there is a rest exactly when a verb leads the text, and it is a proper suffix of the text |
| Commands.TrailingWord | App.tsx:2699 | the first bought-word that ends the rest after a space, with text before it, or none |
| Commands.AddPayload | App.tsx:2733-2734 | the add payload is never longer than the text |
| Commands.AddPayloadOf | App.tsx:2733-2734 | after an add verb, the payload is the text with a leading "פריט " dropped when there is one, and the text itself otherwise |
| Commands.AddPayloadDropsItemWord | App.tsx:2733-2734 | "הוסף פריט X" yields the payload X |
| Commands.AddPayloadDropsVerb | App.tsx:2733-2734 | "הוסף X" yields X when X does not begin with "פריט " |
| Commands.MarkTargetReadsName | App.tsx:2699-2701 | "verb N bought-word" marks exactly the name N |
| Commands.VerbObjectReadsName | App.tsx:2712-2714 | "verb N" reads exactly the name N |
| Commands.Classify | App.tsx:2681-2736 | only empty text is no command; a clear-list text is always a clear; an add has a non-empty payload; a delete is chosen only when the clear-list test fails and a delete verb leads |
| Commands.ClassifyDelete | App.tsx:2681-2697 | "delete-verb N" is a clear when the clear-list test holds and otherwise deletes exactly N |
| Commands.ClassifyMark | App.tsx:2681-2710 | "mark-verb N bought-word" is a clear when the clear-list test holds and otherwise marks exactly N |
| Commands.ClassifyIncrease | App.tsx:2681-2720 | "increase-verb N" is a clear when the clear-list test holds and otherwise increases exactly N |
| Commands.ClassifyDecrease | App.tsx:2681-2730 | "decrease-verb N" is a clear when the clear-list test holds and otherwise decreases exactly N |
| Commands.ClassifyAdd | App.tsx:2681-2736 | "add-verb P" is a clear when the clear-list test holds and otherwise adds the payload of the text |
| Commands.ClassifyAddPlain | App.tsx:2732-2736 | a non-empty text that no verb leads is a clear or an add of the whole text |
| Commands.DeleteVerbClearsInHebrew | App.tsx:2681-2697 | in Hebrew, a text a delete verb leads is already a clear-list command |
| Commands.DeleteUnreachableInHebrew | App.tsx:2681-2697 | in Hebrew, the delete branch is never taken |
| Commands.DeleteMilkExample | App.tsx:2681-2697 | "מחק חלב" clears the whole list in Hebrew |
| Commands.Dispatch | App.tsx:2681-2736 | for any outcome of the clear-list test: only empty text is no command; a clear outcome always clears; an add has a non-empty payload; a delete needs a failed clear test and a leading delete verb |
| Commands.DispatchDelete | App.tsx:2681-2697 | "delete-verb N" is dispatched to a clear when the clear test holds and otherwise to a delete of exactly N |
| Commands.ListTailHasList | App.tsx:2508 | the first Hebrew pattern with its list-noun group required only matches text holding the word רשימה |
| Commands.IntendedNeedsList | App.tsx:2507-2516 | with the list noun required, a Hebrew clear-list text names the list, or is exactly one of the bare verbs מחק, רחק, מרחק |
| Commands.IntendedWithoutResh | App.tsx:2507-2516 | with the list noun required, a Hebrew text without the letter ר is a clear-list command only when it is the bare verb מחק |
| Commands.ClassifyIntended | App.tsx:2505-2516 | the dispatch under the corrected Hebrew clear test: only empty text is no command; a clear-list text clears; a delete needs the corrected test to fail and a delete verb to lead |
| Commands.ClassifyIntendedDelete | App.tsx:2687-2697 | with the corrected test, "delete-verb N" deletes exactly N, for any name without ר, unless the cleaned text is the bare verb מחק |
| Commands.DeleteWordIntended | App.tsx:2687-2697 | with the corrected test, "delete-verb W" for a one-word Hebrew name W without ר deletes W, so "מחק חלב" deletes the milk |
| Commands.ClearListIntended | App.tsx:2508 | with the corrected test, "מחק את הרשימה" still clears the list |
| Commands.ListPhraseIntended | App.tsx:2508 | "מחק את הרשימה" passes the corrected Hebrew clear-list test |
| ListStore.NormalizedNames | App.tsx:2426-2429 | the normalized names of the items, one for one and in order |
| ListStore.FirstEqual | App.tsx:2427 | the first index from a start holding the name, or -1 when there is none |
| ListStore.FirstOverlapping | App.tsx:2429 | the first index from a start whose name contains or is contained in the query, or -1 |
| ListStore.FindItemByName | App.tsx:2425-2431 | an exact normalized match is the first one; a partial match is returned only when there is no exact one, and is the first; null exactly when nothing matches either way |
| ListStore.ExactBeatsOverlap | App.tsx:2425-2431 | an exact match anywhere wins over every partial match before it |
| ListStore.FindById | App.tsx:1882 | `items.find(i => i.id === id)`: the first item with that id, or -1 |
| ListStore.WithQuantity | App.tsx:1936-1938 | a quantity update changes only that item's quantity and keeps the set of ids |
| ListStore.IncreaseAdds | App.tsx:1925-1929 | a positive delta adds exactly that much to the stored quantity and changes nothing else |
| ListStore.DecreaseClamps | App.tsx:1932-1938 | a decrease by one on a view in step with the store gives `max(1, q - 1)`, never below 1, and changes nothing else |
| ListStore.ToggleFromView | App.tsx:1880-1890 | on a view in step with the store (`Synced`), toggling flips the stored flag; toggling again from that same view, now stale, sets the same value |
| ListStore.Store.constructor | App.tsx:2038 | a new collection is empty |
| ListStore.Store.SetQuantity | App.tsx:2750 | the stored collection becomes the quantity update |
| ListStore.Store.CreateItem | App.tsx:2753-2762 | a new unpurchased item under a fresh id not in use |
| ListStore.Store.DeleteItem | App.tsx:1941-1944 | the item is removed, and nothing else changes |
| ListStore.Store.ClearList | App.tsx:2034-2056 | every item of the list is deleted |
| ListStore.Store.UpdateQty | App.tsx:1920-1939 | the stored collection becomes the `updateQty` outcome |
| ListStore.Store.Increment | App.tsx:1926-1928 | the atomic increment adds the delta to the stored quantity |
| ListStore.Store.TogglePurchased | App.tsx:1880-1890 | the stored collection becomes the toggle outcome |
| Executor.FirstActive | App.tsx:2747 | the first unpurchased item from a start with that normalized name, or -1 |
| Executor.FindActive | App.tsx:2747 | the item found is unpurchased and has the same normalized name; -1 exactly when no item qualifies |
| Executor.UndoOne | App.tsx:2659-2668 | one undo action never adds an item |
| Executor.CommandText | App.tsx:2677 | the text commands are read from is single-spaced |
| Executor.Edit | App.tsx:2687-2730 | a name that finds no item changes nothing; a delete removes exactly the found item; marking an item already shown as purchased changes nothing |
| Executor.IncreaseAddsOne | App.tsx:2712-2719 | on a view in step with the store (`Synced`), increasing a found item adds one to its stored quantity, keeps the ids and changes no other item |
| Executor.Apply | App.tsx:2681-2767 | only the add path records undo actions or takes fresh ids |
| Executor.Execute | App.tsx:2673-2768 | undo actions are returned only for an add command, and an empty text changes nothing |
| Executor.UndoStep | App.tsx:2659-2669 | undoing the first action leaves a collection the remaining actions undo |
| Executor.UndoPrefix | App.tsx:2659-2669 | after any prefix of the actions, the rest still undo what remains |
| Executor.UndoRestores | App.tsx:2656-2670 | running all the actions in order brings back the collection exactly |
| Executor.RestoreStep | App.tsx:2747-2751 | giving an existing item the parsed quantity and recording its old one keeps the add loop's invariant |
| Executor.CreateStep | App.tsx:2752-2763 | creating an item under a fresh id and recording it keeps the add loop's invariant |
| Executor.AddAllUndoable | App.tsx:2743-2765 | on a view in step with the store (`Synced`), the add loop keeps the collection well keyed, removes nothing, leaves items shown as purchased alone, and records actions that undo all it changed |
| Executor.UndoRestoresAddItems | App.tsx:2733-2767 | on a view in step with the store (`Synced`), running the actions an add command returns gives back the collection as it was |
| Executor.UndoRestoresCommand | App.tsx:2673-2768 | on a view in step with the store (`Synced`), whenever a transcript returns undo actions, running them gives back the collection as it was before the transcript |
| Executor.ActionStep | App.tsx:2744-2764 | a well-formed parsed item records exactly one action, and the created ids stay a contiguous range |
| Executor.ActionPerItem | App.tsx:2743-2765 | each item of the parser yields exactly one undo action, and the created items are exactly those with the fresh ids |
| Executor.DecreaseNeverBelowOne | App.tsx:2722-2730 | on a view in step with the store (`Synced`), "decrease" on an item found by name takes its quantity to `max(1, q - 1)` |
| Executor.MarkLeavesPurchased | App.tsx:2699-2710 | on a view in step with the store (`Synced`), "mark bought" on an item found by name leaves it purchased, whether it was or not |
| Executor.RunUndoActions | App.tsx:2656-2670 | the loop applies the actions in order |
| Executor.AddItem | App.tsx:2744-2764 | one turn of the add loop: the store and the actions become the ledger step |
| Executor.AddParsed | App.tsx:2743-2765 | the add loop turns the store and the actions into the ledger of all parsed items |
| Executor.EditItem | App.tsx:2687-2730 | the delete, mark, increase and decrease branches change the store as `Edit` says |
| Executor.Perform | App.tsx:2681-2767 | the dispatched branch changes the store and returns the actions as `Apply` says |
| Executor.ExecuteVoiceTextWithUndo | App.tsx:2673-2768 | the store and the returned actions are those of `Execute` |
| TapCapture.Overlap | App.tsx:2974-2982 | the overlap found is 0 or between 10 and the bound at which the texts join, and no longer overlap at or above 10 exists |
| TapCapture.Stitch | App.tsx:2957-2984 | an empty chunk changes nothing; a chunk the trimmed text so far already starts with, and that does not extend it, is dropped; the text so far is never rewritten; the result stays trimmed and ends with the chunk unless the chunk was dropped |
| TapCapture.Splice | App.tsx:2978 | splicing at an overlap keeps the text in front and ends with the chunk |
| TapCapture.SpaceJoin | App.tsx:2983 | joining with a space keeps the text in front and ends with the chunk |
| TapCapture.Fold | App.tsx:2956-2984 | the stitched text is trimmed |
| TapCapture.Merged | App.tsx:2955-2986 | `mergeChunks` yields normal text |
| TapCapture.LongestOverlap | App.tsx:2976-2982 | the countdown finds the longest overlap from the bound down to 10, or 0 |
| TapCapture.MergeChunks | App.tsx:2955-2986 | the loop computes the merged text |
| TapCapture.FoldStep | App.tsx:2957-2984 | one more chunk never rewrites the stitched text |
| TapCapture.FoldGrows | App.tsx:2957-2984 | the stitched text after some chunks begins the stitched text after any later chunk |
| TapCapture.CumulativeChunks | App.tsx:2965-2969 | chunks that each repeat and extend the previous one merge into the last chunk |
| TapCapture.StitchExtends | App.tsx:2966-2969 | a chunk that starts with the text so far replaces it |
| TapCapture.Put | App.tsx:2850 | `buf[i] = t` grows the array as needed, sets entry `i`, and leaves other entries (holes read as empty) |
| TapCapture.Heard | App.tsx:2846 | one normalized result per result |
| TapCapture.BufferPointwise | App.tsx:2843-2856 | every final result with text lands at its own index; all other entries keep what they held; interim results never reach the buffer |
| TapCapture.Combined | App.tsx:2987-2990 | the text a stop produces is normal |
| TapCapture.NothingHeard | App.tsx:2987-2998 | with no final text and a blank interim text, the stop produces nothing, which goes back to idle |
| TapCapture.CombineHeard | App.tsx:2987-2990 | the stop handler's computation yields `Combined` of the buffer and the interim text |
| TapCapture.TapSession.constructor | App.tsx:1320-1335 | an idle, inactive session with empty buffers |
| TapCapture.TapSession.StartTap | App.tsx:2770-2931 | without a recogniser or a user nothing changes; otherwise the buffers and draft are cleared, then recording and active when the recogniser starts, or idle and inactive when it fails |
| TapCapture.TapSession.StopTap | App.tsx:2933-2952 | an active session becomes inactive and processing, with one flush pending; otherwise nothing changes |
| TapCapture.TapSession.FlushElapsed | App.tsx:2952-3003 | after the wait the buffers are cleared; empty combined text goes idle, anything else goes to review as the draft |
| TapCapture.TapSession.Flush | App.tsx:2992-3002 | the flush step: buffers cleared, idle for empty text, review with the text as draft otherwise |
| TapCapture.TapSession.MicTap | App.tsx:4023-4028 | idle starts a session; recording stops it, pending a flush; processing or review ignores the tap |
| TapCapture.TapSession.OnResult | App.tsx:2838-2870 | the buffer and the interim text become those of reading the normalized results from `resultIndex` on |
| TapCapture.TapSession.Record | App.tsx:2843-2856 | the result loop computes the buffer and the interim text |
| TapCapture.TapSession.OnError | App.tsx:2872-2892 | "no-speech" changes nothing; any other error goes idle and clears the active flag |
| TapCapture.TapSession.OnEnd | App.tsx:2894-2902 | an active session schedules one restart unless the guard is up; the guard allows at most one pending restart per end |
| TapCapture.TapSession.RestartElapsed | App.tsx:2903-2915 | the restart timer lowers the guard |
| TapCapture.TapSession.SilenceElapsed | App.tsx:2826-2835 | after three seconds of silence an active session is stopped, pending a flush |
| TapCapture.TapSession.EditDraft | App.tsx:4164 | editing the draft only changes the draft |
| TapCapture.TapSession.CancelDraft | App.tsx:3051-3054 | the draft is cleared and the session is idle |
| TapCapture.TapSession.ConfirmDraft | App.tsx:3005-3049 | a blank draft only goes idle; otherwise the trimmed draft is executed on the store as `Execute` says, the draft is cleared, and the session is idle |
| TapCapture.TapSession.Close | App.tsx:3016-3018 | back to idle, with the draft cleared when it was used |
| VoiceParser.WordToNumber | voice/voiceParser.ts:31-34 | there is no value exactly when the word is neither all digits nor a number word; a number word's value is 1 to 10 |
| VoiceParser.DigitsNumber | voice/voiceParser.ts:32 | a word of digits stands for its decimal value; leading zeros add nothing; "0" is 0 |
| VoiceParser.Clean | voice/voiceParser.ts:37-40 | the cleaned text is single-spaced, free of `. , ! ?`, and never longer |
| VoiceParser.CleanFixed | voice/voiceParser.ts:37-40 | clean text stays as it is |
| VoiceParser.ParseVoiceSentence | voice/voiceParser.ts:36-64 | the result is always an add or a clear, never an ignore |
| VoiceParser.AddShape | voice/voiceParser.ts:47-63 | an add is the whole cleaned sentence with quantity 1, or what follows a first word that is a number, with exactly that number as quantity |
| VoiceParser.FirstWord | voice/voiceParser.ts:49-63 | without a clear phrase, a numeric first word adds the rest with exactly that quantity (so "0" gives 0); any other first word adds the whole sentence once |
| VoiceParser.OneWord | voice/voiceParser.ts:50-63 | a one-word sentence is added as it is with quantity 1, even when it is a number |
| VoiceParser.CleanKeepsPhrase | voice/voiceParser.ts:37-40 | cleaning keeps every occurrence of a single-spaced, mark-free phrase bounded by non-whitespace |
| VoiceParser.ClearAnywhere | voice/voiceParser.ts:42-45 | either clear phrase anywhere in the sentence clears the list |
| VoiceParser.MarkAfterSpace | voice/voiceParser.ts:37-56 | marks go after the trim, so a number word followed by " ?" becomes an add with an empty name |
| VoiceParser.WordToNumberAsWritten | voice/voiceParser.ts:33 | as written, the lookup finds a number exactly when the corrected one does, and anything else it finds is an inherited key |
| VoiceParser.InheritedKeyAsWritten | voice/voiceParser.ts:31-34 | "constructor" is no number, yet the lookup as written finds an inherited value instead of `null` |
| VoiceParser.NumberWordsAreHebrew | voice/voiceParser.ts:7-29 | every number word begins with a Hebrew letter |
| VoiceSession.DropIgnored | voice/voiceSession.ts:17 | the filter keeps no `ignore`, never lengthens, and drops nothing when there is nothing to drop |
| VoiceSession.FinishedPerEntry | voice/voiceSession.ts:14-17 | one command per buffered transcript, each `parseVoiceSentence` of its entry, in order |
| VoiceSession.Session.constructor | voice/voiceSession.ts:3 | the buffer starts empty |
| VoiceSession.Session.Start | voice/voiceSession.ts:5-7 | the buffer is empty |
| VoiceSession.Session.Collect | voice/voiceSession.ts:9-12 | blank text is ignored; anything else is appended, trimmed, after the earlier entries, which stay as they were; every entry stays non-empty and trimmed |
| VoiceSession.Session.Finish | voice/voiceSession.ts:14-21 | the commands are the parses of the buffered entries, one per entry and in order; the buffer is emptied, so an immediate second finish returns nothing |

## Left out

- Firestore, authentication and the list id: every write is a map update on `Store`. The `if (!listId) return` guards are not modelled, and neither are write failures. `updateDoc` on a missing item, which throws, is modelled as changing nothing.
- `clearListServer` batching in slices of 450 is modelled as one deletion of every item.
- `deleteItemWithFlash` is modelled as an immediate delete of the item, without the flash delay.
- `markPurchasedWithAnimation` is not modelled; the voice path calls `togglePurchased` directly.
- `purchasedAt` and `createdAt` timestamps, `isFavorite`, toasts, `setLastHeard`, vibration, the microphone noise-suppression stream and the voice timer are not modelled: they are UI, clock or device effects.
- `executeVoiceTextWithUndo` reads `items` in `findItemByName` and `latestItemsRef` in the add loop. The model uses one `view` for both.
- The recogniser and the timers are abstract events. `StartTap` takes `supported`, `signedIn` and `started` as parameters. The 220 ms flush, the 180 ms restart and the 3 s silence check are the methods `FlushElapsed`, `RestartElapsed` and `SilenceElapsed`. Their firing order is left to the caller.
- TapCapture.TapSession.SilenceElapsed takes whether three seconds have passed as a parameter; `Date.now()` is not modelled.
- TapCapture.TapSession.ConfirmDraft goes straight to idle. The intermediate "processing" state while the command runs is not kept, and neither is the error path of a failing write.
- The undo lemmas (`AddAllUndoable`, `UndoRestoresAddItems`, `UndoRestoresCommand`) hold only on a view in step with the store (`Synced`). The add loop records the quantity the view shows as the one to restore. When the view lags behind the store, undo writes back that stale quantity and does not give back the store as it was. Likewise, mark-bought skips the toggle when the view shows the item as purchased, even if the store does not (`MarkLeavesPurchased` and `ToggleFromView` also assume `Synced`).
- The 3-second undo toast and its timer are not modelled. `RunUndoActions` is the undo itself.
- The hold-to-talk session is not part of this model: it duplicates the tap session except for its join and its 90-second ceiling. `executeVoiceText`, the undo-less duplicate of the executor, is not part of this model either.
- ItemParser.ParseSegment and the other parser members take the word tables as a parameter (`Vocab`). `ItemParser.Tables` holds the tables App.tsx declares, and only the table-specific lemmas use it.
- Regular expressions are modelled one by one. The verb patterns of the executor (`^…\s+(.+)$`) are exact only on single-spaced text, which `CommandText` guarantees.
- `\p{L}\p{N}` is approximated by the Latin, Hebrew, Cyrillic and Arabic letter and digit ranges (`Commands.IsLetterOrDigit`). `toLowerCase` covers ASCII and basic Cyrillic (`Text.LowerChar`).
- Lengths count Unicode code points, not UTF-16 code units. The 10-to-60 overlap bounds of `mergeChunks` differ for characters outside the Basic Multilingual Plane.
- VoiceParser.WordToNumber and ItemParser.QtyFromToken give the exact value of any digit string. `Number()` rounds strings longer than 15 digits and turns very long ones into `Infinity`.
- `(s || "")` and `!text` on `null` or `undefined`: all inputs are strings here.
- ItemParser.SegmentsAroundConjunction, SegmentsAroundComma and ItemsAroundConjunction are proved for clean clauses only (`CleanClause`): non-empty, normal, lower case, no quotes, commas or newlines, no `. ? ! ，`, no word פסיק, no filler word after a space, and no conjunction between spaces. Clauses outside that shape are still parsed by the model, but no lemma states how they split.
- ItemParser.NormalizeVoiceTextDropsFiller covers one filler between two clean parts. Fillers at either end of the text and repeated fillers are parsed by the model, but no lemma states the result.
- NormalizeVoiceText has no idempotence lemma. As written, a repeated filler word (`תודה תודה`) is removed one occurrence per pass, so applying it twice can differ from applying it once.
- ItemParser.Normalize is not idempotent: `' a` normalizes to ` a`, which normalizes to `a` (`NormalizeKeepsSpaceAfterQuote`). `NormalizeTwice` shows that a second pass only trims.

## Findings

| source | as written | input that shows it | evidently intended | confidence | as-written member | corrected member |
|---|---|---|---|---|---|---|
| App.tsx:312-323 | `HEB_NUMBER_WORDS[tok] != null` reads a plain object, so the keys it inherits from `Object.prototype` count as quantity tokens, and `qtyFromToken` returns a function. `Math.max(1, fn)` is then `NaN`. | a typed or spoken draft "constructor" (`normalize` keeps it) | only digits and the listed number words are quantities | not executed | ItemParser.InheritedKeyIsQuantityAsWritten | ItemParser.QtyFromToken |
| voice/voiceParser.ts:31-34 | `NUMBER_WORDS[word] ?? null` also finds inherited keys, so `wordToNumber` returns a non-null function for them | "constructor חלב" becomes an add whose quantity is a function | null for every word that is neither digits nor a number word | not executed | VoiceParser.InheritedKeyAsWritten | VoiceParser.WordToNumber |
| App.tsx:2508 | every group after the verb in the first Hebrew clear-list pattern is optional, so any text containing a clear verb such as מחק clears the list, and the delete branch at App.tsx:2687-2697 is never reached | "מחק חלב" clears the whole list instead of deleting the milk | clear only when the list noun (רשימה or הרשימה) follows the verb | not executed | Commands.DeleteMilkExample | Commands.DeleteWordIntended |
