# Smart Notes classification and filtering engine, in Dafny

This project models the core of `app.js`, the single-file "Smart Notes" web app, and proves properties of the model. The core has three parts.

- **The keyword classifier.** `suggestColor` scans the colour buckets red, blue and green in order and returns the colour of the first bucket with a trigger word in the lower-cased text, or gray if none has one. `suggestTags` scans `TAG_KEYWORDS` in declared order and collects the capitalised keywords that occur, stopping at three; it returns `["General"]` when it finds none.
- **The draft.** This is `appState.currentNote`. `updateSuggestions` sets its colour and tags from the form fields. The user can pick a colour, add a tag by hand (trimmed, capitalised, no exact duplicate, at most five) and remove a tag by index (`splice`, with `["General"]` when the list empties). `clearNoteForm` resets the draft.
- **The note collection.** `saveNote` puts the new note first, and `deleteNote` filters it out by id. `filterNotes` applies the colour, tag and search filters in that order. `updateTagFilter` builds the sorted list of distinct tags in use.

Modules, one per file:

- `Text` (`text.dfy`): the ECMAScript `trim` whitespace set, `toLowerCase` on the ASCII and Latin-1 capitals (A..Z, U+00C0..U+00DE except ×) and `toUpperCase` on the small letters a..z and U+00E0..U+00FE except ÷, `includes` as substring containment, and the order of the default `sort` (code-point order, which equals UTF-16 code-unit order on the Basic Multilingual Plane).
- `Seqs` (`seqs.dfy`): `filter` on sequences, with its membership, order and multiplicity facts.
- `Classifier` (`classifier.dfy`): the keyword tables, and the two suggestion loops. Each loop is proved equal to a declarative specification (`ColorFor`, `TagsFor`), and those specifications carry the properties.
- `Notes` (`notes.dfy`): the note record, the filters, delete-by-id and the distinct sorted tag list.
- `App` (`app.dfy`): the `NotesApp` class holding `notes` and the draft. Its methods change that state and keep the invariant `Valid()`: the draft has one to five distinct tags, and every saved note has trimmed non-empty content and title and a valid tag list.

Parts of the browser become plain inputs:

- The form fields are method parameters.
- `Date.now().toString()` and `new Date().toISOString()` are parameters `id` and `createdAt`.
- The `confirm` answer of `deleteNote` is the parameter `confirmed`.
- An `alert` becomes a rejected outcome with the state unchanged.

Behaviour of app.js worth noting:

- **A picked colour does not stick.** A colour picked by hand is overwritten by the next `updateSuggestions`; nothing marks it as chosen by the user.
- **Tag comparison is case-sensitive.** The duplicate check in `addManualTag` is exact (`includes`), so "TRABAJO" may stand next to "Trabajo". The distinct-tags invariant is therefore exact too.
- **Tags follow `TAG_KEYWORDS` order, not text order.** "Proyecto de universidad urgente" gives ["Universidad", "Proyecto"].
- **Rejections are alerts.** Blank content and a rejected tag are reported with `alert`, and the state stays as it was.

## Model

| member | source | states |
|---|---|---|
| Classifier.SuggestColor | app.js:64-78 | the loop over the buckets and their keywords returns exactly `ColorFor(text)`, the colour of the first bucket with a keyword in the lower-cased text, else gray |
| Classifier.FirstMatchingBucket | app.js:67-77 | the index returned is the first bucket with a matching keyword: all earlier buckets have none, and the index is the bucket count when none matches |
| Classifier.ColorForByPriority | app.js:14-18 | red keywords win over blue, and blue over green, wherever they occur in the text; gray is the fallback |
| Classifier.ColorForGrayIff | app.js:64-78 | the suggested colour is gray if and only if no colour keyword occurs in the lower-cased text |
| Classifier.SuggestTags | app.js:85-103 | returns exactly `TagsFor(text)`, the suggestion for the lower-cased text |
| Classifier.CollectTags | app.js:90-102 | the loop with its early break at three tags returns exactly `SuggestedFrom(keywords, text)`: the first three capitalised keywords found, or `["General"]` |
| Classifier.SuggestedFrom | app.js:85-103 | one to three tags are suggested |
| Classifier.MatchedKeywords | app.js:90-92 | exactly the keywords that occur in the lower-cased text are matched |
| Classifier.TagsForListOrder | app.js:24-35 | when keywords are found, the tags are the capitalised found keywords in `TAG_KEYWORDS` order, min(3, found) of them, a subsequence of the capitalised keyword list |
| Classifier.TagsForDistinct | app.js:85-103 | no tag is suggested twice |
| Classifier.TagsForGeneralIff | app.js:102 | the tags are `["General"]` if and only if no tag keyword occurs |
| Classifier.TagNamesFacts | app.js:24-35 | capitalising `TAG_KEYWORDS` gives ten distinct names, none of them "General" |
| Classifier.BlankTextSuggestsDefaults | app.js:114-116 | whitespace-only text is classified gray with `["General"]` |
| Classifier.RedWhenUrgent | app.js:15 | any text whose lower-cased form contains "urgente" is red |
| Classifier.ExampleUrgentIsRed | app.js:14-18 | "Proyecto de universidad urgente" is red: "urgente" is a red keyword |
| Classifier.ExampleUniversityBeforeProject | app.js:24-35 | the tags of "Proyecto de universidad urgente" are ["Universidad", "Proyecto"], in keyword-list order |
| Classifier.ExampleBuyMilk | app.js:14-35 | "Comprar leche" is green with `["General"]`, since "comprar" is green and "compras" does not occur |
| Text.Trim | app.js:279 | `trim` removes a whitespace-only prefix and suffix and leaves no whitespace at either end |
| Text.TrimEmptyIffBlank | app.js:114 | a string trims to "" if and only if it is whitespace only |
| Text.TrimIdempotent | app.js:359 | trimming twice is trimming once |
| Text.TrimFixedIff | app.js:279 | a string is its own trim if and only if it is empty or has no whitespace at either end |
| Text.LexTransitive | app.js:261 | the string order of the default `sort` is transitive (with LexIrreflexive and LexTotal, a strict total order) |
| Text.LexTotal | app.js:261 | any two different strings are ordered one way or the other |
| Seqs.Filter | app.js:321 | `filter` keeps exactly the elements satisfying the predicate and never lengthens the sequence |
| Seqs.FilterIsSubsequence | app.js:414-439 | `filter` keeps the original order |
| Seqs.FilterMultiplicity | app.js:414-439 | `filter` keeps every occurrence of a kept element and drops every occurrence of the others |
| Seqs.FilterFuse | app.js:414-439 | two successive filters equal one filter by the conjunction |
| Notes.FilterNotesIsConjunction | app.js:414-439 | the three skippable stages amount to one filter by colour and tag and search together |
| Notes.FilterNotesSpec | app.js:414-439 | a note is shown if and only if it is stored and passes all filters; the order and the multiplicities of stored notes are kept |
| Notes.FilterNotesUnfiltered | app.js:414-439 | with "all", "all" and no search text every note is shown in order |
| Notes.ColorThenTag | app.js:418-425 | filtering by colour and then by tag equals filtering by both at once |
| Notes.WithoutIdSpec | app.js:321 | deleting keeps exactly the notes with another id, in order, with their multiplicities |
| Notes.WithoutAbsentId | app.js:321 | deleting an id no note has changes nothing |
| Notes.WithoutIdIdempotent | app.js:321 | deleting the same id twice is deleting it once |
| Notes.InsertSorted | app.js:261 | inserting a new string into a strictly sorted list gives a strictly sorted list with exactly one more element |
| Notes.DistinctSortedTags | app.js:247-262 | the tag list is strictly sorted and holds exactly the tags used by some note |
| Notes.StrictlySortedUnique | app.js:260-261 | two strictly sorted lists with the same elements are equal |
| Notes.TagIndexIgnoresNoteOrder | app.js:247-262 | the tag list depends only on which notes are stored, not on their order |
| App.ComputeSuggestions | app.js:108-121 | the blank-text branch and the classifier branch together yield exactly the classifier's colour and tags for `title + " " + content`, and a valid tag list; the result is `Suggestions(title, content)` |
| App.SuggestedTagsValid | app.js:85-103 | suggested tags form a valid draft tag list: one to five, distinct |
| App.BlankJoinIff | app.js:111-114 | `title + " " + content` is blank if and only if both fields are |
| App.SuggestionsAreClassifierVerdict | app.js:108-121 | the blank-text branch of `updateSuggestions` agrees with the classifier, so the draft always gets the classifier's colour and tags for `title + " " + content` |
| App.TagAdditionOutcome | app.js:357-376 | a manual add is ignored if and only if the input is blank, refused as present if and only if the exact capitalised tag is there, refused as too many if and only if it is new and five tags exist; the tags are unchanged unless it is added |
| App.TagAdditionAdds | app.js:378-384 | an added tag is new and goes last, the other tags keep their places, and a lone "General" is replaced |
| App.TagAdditionKeepsValid | app.js:357-389 | a manual add keeps one to five distinct tags |
| App.TagAdditionTwice | app.js:367-370 | adding the same input again is refused as present and changes nothing |
| App.AddToSingleTag | app.js:367-384 | a new, trimmed, capitalised tag is appended after a single tag other than "General" |
| App.ExampleCaseSensitiveDuplicate | app.js:367 | "TRABAJO" is added next to "Trabajo": the duplicate check is case-sensitive |
| App.TagRemovalAt | app.js:395-401 | removing at an index in range deletes exactly that tag and keeps the rest in order; removing the only tag leaves `["General"]` |
| App.TagRemovalFromEnd | app.js:396 | a negative index counts from the end: removing at `index` with -len <= index < 0 is removing at len + index |
| App.TagRemovalBeforeStart | app.js:396 | an index below -len removes the first tag |
| App.TagRemovalOutOfRange | app.js:396 | an index past the end removes nothing |
| App.TagRemovalKeepsValid | app.js:395-401 | a removal keeps one to five distinct tags |
| App.NoteTitle | app.js:278-290 | the stored title is the trimmed title, or "Sin título" when that is empty; it is never empty and has no surrounding whitespace |
| App.NewNoteIsSaved | app.js:288-295 | a note built from a valid draft and non-blank content has trimmed content, the draft's colour and tags, the given id and timestamp, and is well formed |
| App.DeleteUndoesSave | app.js:298-321 | saving a note with a new id and then deleting that id gives back the previous collection |
| App.NotesApp.constructor | app.js:40-53 | the start state: no notes, an empty gray draft tagged `["General"]` |
| App.NotesApp.UpdateSuggestions | app.js:108-121 | the draft's colour and tags become the classifier's verdict on `title + " " + content`; a picked colour is overwritten; nothing else changes |
| App.NotesApp.PickColor | app.js:582-583 | only the draft's colour changes |
| App.NotesApp.AddManualTag | app.js:357-389 | the outcome and the new tags are `TagAddition` of the old tags; nothing else changes; the invariant holds |
| App.NotesApp.RemoveTag | app.js:395-404 | the new tags are `TagRemoval` of the old tags; nothing else changes; the invariant holds |
| App.NotesApp.ClearNoteForm | app.js:337-352 | the draft becomes the empty gray `["General"]` draft; the notes are unchanged |
| App.NotesApp.SaveNote | app.js:277-307 | saves if and only if the content is not blank; then the new note is put first and the draft is reset; otherwise nothing changes |
| App.NotesApp.DeleteNote | app.js:318-321 | when confirmed, the notes with that id are dropped; otherwise nothing changes; the draft is untouched |

## Left out

- Rendering: the colour badge, tag chips, note cards and the tag filter's `<option>` elements. The model keeps only the list of tags those options show. `escapeHtml` and `createNoteCard` are left out as display code.
- Persistence: `saveToLocalStorage` and `loadFromLocalStorage`, that is JSON and storage access and their failure notices. The constructor stands for a start with nothing stored.
- Notifications and timers: `showNotification`, the search debounce and the colour-picker toggle are user-interface effects.
- Filter setters: `setColorFilter`, `setTagFilter` and `setSearchFilter` only store a value and redraw. `FilterNotes` takes the filters as a value.
- Text.ToUpper: leaves µ (U+00B5), ß (U+00DF) and ÿ (U+00FF) unchanged, where `toUpperCase` gives Μ (U+039C), "SS" and Ÿ (U+0178); a tag that `addManualTag` capitalises starting with one of them therefore differs from Capitalize.
- Text.ToLower: covers ASCII and the Latin-1 letters only. The full Unicode case mapping of `toLowerCase`/`toUpperCase` (including mappings that change the string's length) is not modelled.
- Text.LexLess: compares Dafny characters (code points). For characters outside the Basic Multilingual Plane, JavaScript's UTF-16 code-unit order can differ.
- App.NotesApp.SaveNote: the tags are copied as a value. Array identity (`[...tags]`) and the in-place `push`/`splice` on the draft's array are not observable in a value model.
- App.NotesApp: the draft's `title` and `content` fields are only ever reset. The source never writes the form text into them, and the model does the same.
