# Flashcard app core, modelled in Dafny

The app generates study flashcards (for a *student*) or one trivia card
(for a *traveler*) from a text-model reply. It stores each card as a
Firestore document under `users/{uid}/{persona}_cards`. It files the card
ids into collection documents under `users/{uid}/{persona}_collections`,
one of which is the landing collection `default`. Its modals move, delete
and re-file cards between collections.

This project models that core:

- the JavaScript string operations the parsers rely on (`trim`, `split`
  with a string separator, `replace` of the first occurrence, decimal
  rendering of an index);
- the array operators `arrayUnion` / `arrayRemove`;
- the reply parsers of both copies of the flashcards route, and the
  persona switch;
- the saving loop and collection steps of `POST`;
- the standalone trivia route;
- the dashboard's collection modal, as a state machine with move and
  delete;
- the generated-cards modal (index stepping, filing into a chosen or new
  collection);
- the dashboard page's set deletion and merge selection;
- the legacy set management modal over `flashcardCollections`;
- the removal by position on the standalone card page.

The store is modelled by these pieces:

- One persona's namespace is the class `Firestore.Namespace`, with two
  fields: `collections: map<string, CollectionDoc>` and
  `cards: map<string, CardDoc>`.
- Each store call is one method. `updateDoc` on a missing document
  reports failure. In the handlers, that failure ends the handler the way
  the thrown error reaches its `catch`.
- Ids that `addDoc` and `Date.now()` would produce are parameters.
- Each handler is a method on the component's class. Its `ensures` ties
  the new state and store to a pure effect function, and the lemmas state
  the source's promises about those effect functions.

Modules:

| module | file |
|---|---|
| `Wrappers` | `wrappers.dfy` |
| `Text` | `text.dfy` |
| `Seqs` | `seqs.dfy` |
| `Generation` | `generation.dfy` |
| `Firestore` | `firestore.dfy` |
| `FlashcardsRoute` | `flashcards_route.dfy` |
| `TriviaRoute` | `trivia_route.dfy` |
| `DashboardModal` | `dashboard_modal.dfy` |
| `FlashcardModal` | `flashcard_modal.dfy` |
| `DashboardPage` | `dashboard_page.dfy` |
| `SetManagement` | `set_management.dfy` |
| `FlashcardCollection` | `flashcard_collection.dfy` |

The two flashcards routes share their parsers, and `Generation` models
those once. They differ only in whether `POST` strips the new ids from
`default`: `app/api/flashcards/route.ts` has that step commented out, and
`app/api/flashcards/route_1.js` runs it. `FlashcardsRoute.DefaultPolicy`
selects between them.

When a collection is created on first use, its display name is
"Default Collection" exactly when the id is `default` **or** the id is
itself the text "Default Collection". `FlashcardsRoute.DisplayName`
states that corrected biconditional. The plain "only for `default`"
reading does not hold for the second id.

## Model

| member | source | states |
|---|---|---|
| Text.Trim | app/api/flashcards/route.ts:73 | the result is a contiguous slice of the input with only whitespace cut on either side, starts and ends with non-whitespace, and is empty exactly when the input is all whitespace |
| Text.IndexOf | app/api/flashcards/route.ts:86 | none exactly when the pattern does not occur; otherwise the first position where it occurs |
| Text.Split | app/api/flashcards/route.ts:85-86 | at least one piece; joining the pieces with the separator gives the input back; no piece contains the separator; every piece but the last ends cleanly, so each cut is at the leftmost occurrence (with `SplitJoin`, these pieces are the only ones meeting this) |
| Text.SplitJoin | app/api/flashcards/route.ts:85 | splitting the join of pieces that each end cleanly and do not contain the separator gives the pieces back |
| Text.ReplaceFirst | app/api/flashcards/route.ts:87 | an absent pattern leaves the text unchanged; otherwise the leftmost occurrence, and only it, is replaced and the text before and after it is kept |
| Text.ReplaceLeading | app/api/flashcards/route.ts:87 | replacing a leading label by nothing removes exactly that label |
| Text.DecimalRoundTrip | app/api/flashcards/route.ts:89 | the decimal rendering of an index parses back to the index |
| Text.NatToStringInjective | app/api/flashcards/route.ts:89 | different indices render differently |
| Seqs.RemoveAll | components/DashboardFlashcardModal.tsx:121-124 | `arrayRemove`: exactly the listed values are gone; the result is a subsequence of the input, and no repeats are added |
| Seqs.AppendMissing | components/DashboardFlashcardModal.tsx:109-112 | `arrayUnion`: the old list is a prefix of the result; membership is the union; no repeats are added; the appended ids come in the order of the arguments |
| Seqs.RemoveAfterAppend | app/api/flashcards/route_1.js:202-213 | a union followed by removing the same values leaves what the removal alone leaves |
| Seqs.AppendMissingIdempotent | components/DashboardFlashcardModal.tsx:110-112 | a second identical union changes nothing |
| Seqs.RemoveAllIdempotent | components/DashboardFlashcardModal.tsx:122-124 | a second identical removal changes nothing |
| Seqs.Toggle | app/dashboard/page.tsx:102-106 | an absent id is appended at the end; a present one is removed and the rest keeps its order; every other id is unaffected; no repeats are added |
| Seqs.ToggleTwice | app/dashboard/page.tsx:102-106 | toggling twice restores membership, and restores the list itself when the id was absent |
| Generation.MessageContent | app/api/flashcards/route.ts:73-75 | no content exactly when the reply is missing or all whitespace; otherwise the trimmed, non-empty text |
| Generation.ParseQA | app/api/flashcards/route.ts:86-88 | the answer is never empty, and question and answer are trimmed |
| Generation.ParseQAMeaning | app/api/flashcards/route_1.js:90-92 | the question is the text before the first answer label with the first question label removed, trimmed; the answer is the trimmed text between the first and second answer labels, else "Answer not provided" |
| Generation.ParseQADiscardsTail | app/api/trivia/route_1.js:53 | text after a second answer label does not change the parse |
| Generation.GenerateFlashcards | app/api/flashcards/route.ts:73-92 | the fallback card when the content is missing or blank; otherwise one card per blank-line block, with id `temp_i`, a non-empty answer and no image |
| Generation.FlashcardFallback | app/api/flashcards/route.ts:74-82 | the fallback card has id `temp_fallback`, a non-empty answer, no image, and a question ending in the subject and a question mark |
| Generation.GenerateFlashcardsBlocks | app/api/flashcards/route_1.js:89-94 | card i is block i parsed; the ids are pairwise distinct and never `temp_fallback` |
| Generation.WellFormedReply | app/api/flashcards/route_1.js:89-96 | a reply of n well-formed `Question:/Answer:` blocks yields n cards with those trimmed questions and answers, in order |
| Generation.BlockParses | app/api/flashcards/route.ts:86-88 | one well-formed block reads back as its trimmed question and its answer |
| Generation.GenerateTrivia | app/api/flashcards/route.ts:128-144 | the fallback card for a missing or blank reply; otherwise `temp_trivia` with the parse on `Answer:`/`Question:`; the answer is never empty |
| Generation.TriviaFallback | app/api/flashcards/route.ts:130-138 | the trivia fallback has id `temp_fallback`, a non-empty answer, no image, and a question ending in the location and a question mark |
| Generation.GenerateCards | app/api/flashcards/route.ts:155-164 | a traveler gets exactly one trivia card, a student gets the parsed cards, any other persona gets none; all cards carry the fetched image |
| TriviaRoute.ParseTriviaReply | app/api/trivia/route_1.js:44-55 | an error with the retrieval message exactly when the content is missing or blank; otherwise the parse, with a non-empty answer |
| TriviaRoute.Post | app/api/trivia/route_1.js:82-94 | status 500 with "Failed to fetch trivia or image" and the thrown message as details for an unusable reply; otherwise exactly the parsed question and answer with the image URL, which may be empty |
| TriviaRoute.AgreesWithGenerateTrivia | app/api/flashcards/route_1.js:133-151 | on a usable reply the standalone route and the flashcards route's trivia agree; on an unusable one the flashcards route falls back while the standalone route fails |
| Firestore.UnionInto | app/api/flashcards/route.ts:195-197 | only the named collection changes: its cards become the union; a missing id changes nothing |
| Firestore.RemoveFrom | app/api/flashcards/route_1.js:210-214 | only the named collection changes: its cards lose the values; a missing id changes nothing |
| Firestore.Namespace.SetCollection | app/api/flashcards/route.ts:176-179 | the document is written whole, created if absent; the cards are unchanged |
| Firestore.Namespace.AddCollection | components/DashboardFlashcardModal.tsx:100-105 | a new collection document is added under the fresh id |
| Firestore.Namespace.AddCard | app/api/flashcards/route.ts:185-189 | a new card document is added under the fresh id; the collections are unchanged |
| Firestore.Namespace.UpdateUnion | app/api/flashcards/route.ts:195-197 | succeeds exactly when the document exists, with the `UnionInto` result |
| Firestore.Namespace.UpdateRemove | app/api/flashcards/route_1.js:210-214 | succeeds exactly when the document exists, with the `RemoveFrom` result |
| Firestore.Namespace.DeleteCollection | app/dashboard/page.tsx:82 | that collection document is gone; nothing else changes |
| Firestore.Namespace.DeleteCards | components/DashboardFlashcardModal.tsx:149-154 | the listed card documents are gone in one step; the collections are unchanged |
| FlashcardsRoute.TargetId | app/api/flashcards/route.ts:149 | the requested collection name, `default` when it is absent |
| FlashcardsRoute.DisplayName | app/api/flashcards/route.ts:177 | "Default Collection" exactly for the ids `default` and "Default Collection"; any other id is its own name |
| FlashcardsRoute.AttachTarget | app/api/flashcards/route.ts:171-197 | the target exists afterwards, keeping its old name or taking the display name when new; it lists its old ids followed by the new ones; no other key appears |
| FlashcardsRoute.AttachFrame | app/api/flashcards/route_1.js:174-214 | no collection other than the target and (when stripping) `default` changes |
| FlashcardsRoute.AttachStripsDefault | app/api/flashcards/route_1.js:207-214 | when stripping, `default` exists afterwards if it did or was the target, lists none of the new ids, and keeps its other ids in order |
| FlashcardsRoute.StripDefaultOrphansDefaultTarget | app/api/flashcards/route_1.js:202-213 | with the default target, new ids listed nowhere before are listed nowhere after |
| FlashcardsRoute.KeepDefaultListsNewCards | app/api/flashcards/route.ts:195-207 | without stripping, the target, `default` included, lists every new id |
| FlashcardsRoute.SaveCards | app/api/flashcards/route.ts:183-192 | one stored card per generated card, in order, under the next fresh id; each returned card takes its id; earlier cards and the collections are untouched |
| FlashcardsRoute.Post | app/api/flashcards/route_1.js:155-217 | the response cards are the generated cards with their stored ids; `cardIds` are the fresh ids; the card store gains exactly those records; the collections become `AttachCollections` of the old ones |
| DashboardModal.FetchedCards | components/DashboardFlashcardModal.tsx:39-47 | every loaded card is a card document of the snapshot listed by the collection; every listed card document in the snapshot is loaded; the loaded cards keep the snapshot order |
| DashboardModal.TargetChoices | components/DashboardFlashcardModal.tsx:191 | the offered targets are exactly the loaded collections other than the one shown, in order |
| DashboardModal.WithoutSelected | components/DashboardFlashcardModal.tsx:126 | exactly the cards whose id is not selected, in order |
| DashboardModal.MirrorUnion | components/DashboardFlashcardModal.tsx:114-118 | only the target's local entry changes, by appending the ids as they are |
| DashboardModal.ClickCard | components/DashboardFlashcardModal.tsx:225 | in select and delete mode a click toggles the selection; otherwise it toggles the revealed answer |
| DashboardModal.Buttons | components/DashboardFlashcardModal.tsx:243-320 | Close, Move Cards and Delete Cards only in view mode; Cancel in select and delete mode; confirm only in select mode; Back and the move button only in move mode; the delete button only in delete mode |
| DashboardModal.DisabledButtons | components/DashboardFlashcardModal.tsx:283-313 | a button is disabled exactly when it acts on an empty selection, or is the move button with neither a chosen nor a named target |
| DashboardModal.InitialCoherent | components/DashboardFlashcardModal.tsx:27-34 | the freshly opened modal satisfies the modal invariant |
| DashboardModal.ClickPreservesCoherent | components/DashboardFlashcardModal.tsx:68-90 | clicks keep the id sets free of repeats and the selection empty in view mode |
| DashboardModal.PressPreservesCoherent | components/DashboardFlashcardModal.tsx:243-320 | every button keeps the invariant: no repeats, nothing selected in view mode, a selection in move mode |
| DashboardModal.ModeMachine | components/DashboardFlashcardModal.tsx:243-320 | the enabled move button never meets the early return; confirm and delete need a selection; Move Cards goes to select, Delete Cards to delete, Cancel to view with the selection cleared, the confirm button to move and Back to select, none of them touching the store; move mode offers neither delete nor start-move |
| DashboardModal.MoveIntoNewCollection | components/DashboardFlashcardModal.tsx:98-130 | the new document lists exactly the selection; the shown collection lists none of it; nothing else changes; the local list gains the new collection; the modal drops the moved cards, resets to view and closes |
| DashboardModal.MoveIntoExisting | components/DashboardFlashcardModal.tsx:108-130 | the target gains the selection after its own ids; the source loses it; other collections are unchanged; the modal resets to view and closes |
| DashboardModal.MoveOntoItself | components/DashboardFlashcardModal.tsx:108-124 | choosing the shown collection as target removes the selection from it and adds it nowhere |
| DashboardModal.MoveSourceMissing | components/DashboardFlashcardModal.tsx:108-124 | when the shown collection is gone, the target is already written and the local list already updated, but nothing else changes |
| DashboardModal.MoveRepeatIdempotent | components/DashboardFlashcardModal.tsx:108-124 | repeating a move into an existing collection leaves the store as the first move left it |
| DashboardModal.MirrorKeepsDuplicates | components/DashboardFlashcardModal.tsx:110-118 | the target entry of `MirrorUnion` lists the same ids as the store after `arrayUnion`, but repeats any selected id it already held |
| DashboardModal.DeleteEffects | components/DashboardFlashcardModal.tsx:138-162 | the selection leaves the source and the card store; other cards and collections are unchanged, so other collections keep dangling ids; the modal resets and closes |
| DashboardModal.DashboardFlashcardModal.constructor | components/DashboardFlashcardModal.tsx:36-66 | opens in view mode on `FetchedCards` and on one entry per collection document (id, name, cards) in snapshot order |
| DashboardModal.DashboardFlashcardModal.ToggleReveal | components/DashboardFlashcardModal.tsx:68-78 | the revealed ids are toggled for that id; nothing else changes |
| DashboardModal.DashboardFlashcardModal.ToggleCardSelection | components/DashboardFlashcardModal.tsx:80-90 | the selected ids are toggled for that id; nothing else changes |
| DashboardModal.DashboardFlashcardModal.Click | components/DashboardFlashcardModal.tsx:225 | the state becomes `ClickCard` of the old state |
| DashboardModal.DashboardFlashcardModal.MoveCards | components/DashboardFlashcardModal.tsx:92-136 | the outcome, the local state and the collections are those of `MoveCardsEffect`; card documents are untouched |
| DashboardModal.DashboardFlashcardModal.DeleteCards | components/DashboardFlashcardModal.tsx:138-166 | the outcome, the local state and the store are those of `DeleteCardsEffect` |
| DashboardModal.DashboardFlashcardModal.Press | components/DashboardFlashcardModal.tsx:243-320 | state and store become `PressEffect`: hidden or disabled buttons do nothing |
| FlashcardModal.JsRem | components/FlashcardModal.tsx:39 | the remainder's sign follows the dividend, its size is below the divisor, and it is exact for dividends below twice the divisor |
| FlashcardModal.NextIndex | components/FlashcardModal.tsx:38-40 | from an index in [0, n), the next index, wrapping to 0; NaN for an empty deck or a NaN index |
| FlashcardModal.PreviousIndex | components/FlashcardModal.tsx:42-44 | from an index in [0, n), the previous index, wrapping to n-1; NaN for an empty deck or a NaN index |
| FlashcardModal.NextPreviousInverse | components/FlashcardModal.tsx:38-44 | previous undoes next and next undoes previous |
| FlashcardModal.NextOrbit | components/FlashcardModal.tsx:38-40 | pressing next once per card returns to the starting card |
| FlashcardModal.AddMovesOutOfDefault | components/FlashcardModal.tsx:52-65 | adding to a collection other than `default` takes the ids out of `default` and lists them all in the chosen one after its own; nothing else changes |
| FlashcardModal.AddIntoDefault | components/FlashcardModal.tsx:52-65 | adding to `default` takes the ids out and puts them back at its end |
| FlashcardModal.AddToMissingStrandsCards | components/FlashcardModal.tsx:46-70 | a selection naming no stored collection, such as the initial text, fails after `default` was stripped, leaving cards that were only in `default` listed nowhere |
| FlashcardModal.CreateCollectionLists | components/FlashcardModal.tsx:75-91 | the new collection lists exactly the shown ids in order; `default` lists none; nothing else changes |
| FlashcardModal.FlashcardModal.constructor | components/FlashcardModal.tsx:19-23 | starts on card 0 with the picker on "Select a collection" and an empty name |
| FlashcardModal.FlashcardModal.HandleNext | components/FlashcardModal.tsx:38-40 | the index becomes `NextIndex` of the old one |
| FlashcardModal.FlashcardModal.HandlePrevious | components/FlashcardModal.tsx:42-44 | the index becomes `PreviousIndex` of the old one |
| FlashcardModal.FlashcardModal.HandleAddToCollection | components/FlashcardModal.tsx:46-72 | outcome and collections are those of `AddToCollectionEffect` on the shown cards' ids in order: skipped only without a selection or a user |
| FlashcardModal.FlashcardModal.HandleCreateCollection | components/FlashcardModal.tsx:74-101 | the store follows `CreateCollectionEffect`; on creation the picker gains exactly (new id, name), the name is cleared and the new id selected; otherwise nothing changes |
| DashboardPage.Dashboard.constructor | app/dashboard/page.tsx:44-50 | the page lists one entry per collection document (id, name, cards) in snapshot order, outside merge mode with nothing selected |
| DashboardPage.DropSet | app/dashboard/page.tsx:83 | exactly the entries of other ids, in order; the list is unchanged when the id is absent |
| DashboardPage.Dashboard.HandleDeleteSet | app/dashboard/page.tsx:78-87 | nothing happens without a user or a persona; otherwise exactly that collection document and its entries go; card documents are untouched |
| DashboardPage.Dashboard.ToggleSetForMerge | app/dashboard/page.tsx:102-106 | the selection becomes `Toggle` of the old one |
| DashboardPage.Dashboard.ToggleMergeMode | app/dashboard/page.tsx:144 | the mode flips and the merge selection is kept |
| DashboardPage.Dashboard.HandleMergeSets | app/dashboard/page.tsx:98-100 | nothing in the store or the page changes |
| DashboardPage.MergeAfterTwoPicks | app/dashboard/page.tsx:150-156 | from an empty selection, one pick leaves the merge button disabled; a second pick enables it exactly when it picks a different collection |
| SetManagement.Renamed | components/SetManagementModal.tsx:49-50 | only the name of that set changes; its cards and other sets stay |
| SetManagement.CardAdded | components/SetManagementModal.tsx:68-71 | only that set changes, gaining the card unless an equal card is there |
| SetManagement.CardRemoved | components/SetManagementModal.tsx:88-90 | only that set changes, losing every card equal to the given one |
| SetManagement.LegacyStore.UpdateName | components/SetManagementModal.tsx:49-50 | reports whether the set exists, and the sets become `Renamed` |
| SetManagement.LegacyStore.UnionCard | components/SetManagementModal.tsx:68-71 | reports whether the set exists, and the sets become `CardAdded` |
| SetManagement.LegacyStore.RemoveCard | components/SetManagementModal.tsx:85-90 | reports whether the set exists, and the sets become `CardRemoved` |
| SetManagement.FindById | components/SetManagementModal.tsx:86 | none exactly when no card has the id; otherwise the first card with it |
| SetManagement.WithoutId | components/SetManagementModal.tsx:91 | exactly the cards with other ids, in order |
| SetManagement.RemoveFoundIsFilter | components/SetManagementModal.tsx:86-91 | when ids are unique, the store's removal and the local filter agree |
| SetManagement.SharedIdDiverges | components/SetManagementModal.tsx:86-91 | with two cards sharing an id, the local list drops both but the store drops one |
| SetManagement.SetManagementModal.constructor | components/SetManagementModal.tsx:26-43 | loads the set's name and cards when signed in and the set exists |
| SetManagement.SetManagementModal.HandleRenameSet | components/SetManagementModal.tsx:45-55 | nothing without a user; otherwise only the set's name is written |
| SetManagement.SetManagementModal.HandleAddCard | components/SetManagementModal.tsx:57-79 | the card (entered texts, no image, clock id) is unioned into the set; on success it is appended locally and both inputs are cleared; otherwise nothing local changes |
| SetManagement.SetManagementModal.HandleRemoveCard | components/SetManagementModal.tsx:81-97 | nothing without a user or a shown card of that id; otherwise the store loses the first such card object and, on success, the list drops every card with the id |
| FlashcardCollection.KeepOthersShape | components/FlashcardCollection.tsx:25 | the filter equals the list with that one position cut out, or the list itself when the position is out of range |
| FlashcardCollection.HandleDelete | components/FlashcardCollection.tsx:24-26 | in range: the length drops by one, earlier cards keep their places and later ones shift down; out of range: unchanged; always a subsequence |

## Left out

- HTTP calls to the text model, Unsplash and Stripe are not modelled. The text-model reply (`choices[0].message.content`, possibly missing) and the chosen image URL are inputs. A failed upstream request, which throws in the source, is not modelled.
- Choosing the image URL from Unsplash's response shape is not modelled, because that shape belongs to an SDK outside this model.
- Authentication is reduced to a `signedIn` flag and the persona to a value; the uid path is not modelled. Firebase setup, the login page and the middleware are outside the model.
- Firestore is one namespace per persona, read and written in sequence. Races between `await`s are not modelled, nor are concurrent requests or offline caching. A `writeBatch` is one step.
- Strings are sequences of Unicode scalar values, while JavaScript strings are UTF-16 code units. Lengths and indices can differ outside the Basic Multilingual Plane; the separators and labels searched for here are ASCII, so where the text is cut does not change.
- Document-id validity is not modelled: an empty or slash-containing `collectionName` would make Firestore throw.
- `arrayUnion()` or `arrayRemove()` with no arguments is assumed to be a no-op. `POST` can send one when it saved no cards, for a persona other than traveler or student. The SDK's behaviour with zero arguments is not modelled.
- Ids from `addDoc` and `Date.now()` are parameters. Fresh ids are assumed unused in their collection, because the store guarantees it.
- `onClose` is recorded as a flag. `onUpdate`, `alert`, `console`, loading flags and all JSX rendering are not modelled, except the button lists and enabling rules that decide which handler can run.
- The `name` field that `moveCards` writes next to `collectionName` is not modelled. It always equals `collectionName`, and the modal reads `name || collectionName`, so the shown name is the same.
- SetManagementModal reads and writes `flashcardCollections`, a store separate from the `{persona}_collections` the dashboard lists. It is modelled as its own `LegacyStore`.
- Trivia card ids `temp_trivia` and `temp_fallback` can repeat across requests. They are replaced by stored ids in `POST` and never used as keys.
- Pages that only fetch, navigate or render are not part of this model, nor `CreateSetModal`, the Flashcard component or the upload page.
