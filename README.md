# Study companion: flashcard scheduler, note helpers and focus timer

This project models the logic inside the single-page study application in
`src/App.tsx`. The application's three widgets share an engine made of small,
deterministic parts, and those parts are what is modelled here:

- **Flashcard trainer** (`FlashcardsCard`):
  - a simplified SM-2 scheduling rule (grades 1 Again, 2 Hard, 3 Good, 4 Easy);
  - the due set, and the cursor over it;
  - adding, removing and grading cards;
  - the per-session and lifetime statistics and their accuracy percentages;
  - the session reset on entering study mode.
- **Notes** (`MainLayout`, `NotesPanel`, `EditorPanel`):
  - the first-match keyword categoriser;
  - `#tag` extraction, and merging tags without duplicates;
  - the global tag list;
  - grouping by category;
  - creating, deleting and updating notes, and moving the selection after a delete;
  - the slug that becomes a new category's id.
- **Focus timer** (`TimerCard`): the one-second tick, start/pause, reset, the
  minutes setting and the `mm:ss` face.

Modules:

| file | module | contents |
|---|---|---|
| `wrappers.dfy` | `Wrappers` | `Option`, `Max`, `Min` |
| `text.dfy` | `Text` | ASCII lower-casing, JavaScript white space, `trim`, `includes` |
| `seqs.dfy` | `Seqs` | `filter` and `[...new Set(xs)]` with their laws |
| `scheduler.dfy` | `Scheduler` | `calculateNextReview` and the rounding it uses |
| `stats.dfy` | `Stats` | session and lifetime statistics, accuracy, the streak replay |
| `flashcards.dfy` | `Flashcards` | the `Card` record, the due set, the cursor rules, class `Deck` |
| `notes.dfy` | `Notes` | the categoriser, tags, slugs, grouping, class `NoteBook` |
| `timer.dfy` | `Timer` | the tick step, the clock face, class `FocusTimer` |

Representation choices:

- **Ease** is an integer number of hundredths:
  - it starts at 250;
  - Again/Hard lowers it by 20, with a floor of 130;
  - Easy raises it by 15;
  - the result is capped at 300.
- **Rounding.** `Math.round(n / d)` is `floor(n/d + 1/2)`, written on integers by `Scheduler.RoundRatio`.
- **Time** is a natural number of milliseconds.
  - Adding `k` days is `now + k * 86 400 000`.
  - The clock reading is passed to every operation as `now`.
- **Stateful widgets are classes.** Each widget whose React state is step-updated through setters is a class: `Deck`, `NoteBook` and `FocusTimer`.
  - Each setter becomes a field assignment in a method.
  - Each method's `ensures` states the whole new state in terms of the pure functions.
  - Those functions carry the lemmas.
- **Due-set memo.** `dueCards` is a `useMemo` keyed on `cards` alone, so it is recomputed only when the deck changes.
  - `Deck.dueAt` is the clock reading of that last recomputation.
  - Every operation that replaces the deck sets `dueAt` to the operation's `now`.

Error cases, as the code handles them:

- **No range check on the grade.** `calculateNextReview` does not check the grade: any grade below 3 acts as Again/Hard, and any grade above 3 acts as Easy.
- **No error for a missing id.** `reviewCard` and `removeCard` raise no "not found" error.
  - Grading without a current card does nothing.
  - Removing an unknown id leaves the deck as it is, but still applies the cursor rule.
- **Adding blank text is silent.** `addCard` with blank text gives no validation error: the deck stays unchanged.

## Model

| member | source | states |
|---|---|---|
| Text.LowerChar | src/App.tsx:216 | lower-casing maps an upper-case letter to its lower-case letter and leaves every other character alone |
| Text.ToLower | src/App.tsx:216 | `toLowerCase` on ASCII letters, character by character |
| Text.ToLowerConcat | src/App.tsx:216 | lower-casing distributes over concatenation |
| Text.ToLowerIdempotent | src/App.tsx:216 | lower-casing twice is lower-casing once |
| Text.TrimStart | src/App.tsx:841 | drops exactly the leading white space |
| Text.TrimEnd | src/App.tsx:841 | drops exactly the trailing white space |
| Text.Trim | src/App.tsx:841 | the trimmed text is a slice of the input with only white space cut away before and after it; it neither starts nor ends with white space, and is empty exactly when the input is all white space |
| Text.SliceBetween | src/App.tsx:841 | a prefix of a suffix, with white space cut from both sides, is a slice of the whole text with only white space around it |
| Text.TrimOfTrimmed | src/App.tsx:841 | trimming already trimmed text changes nothing |
| Text.Contains | src/App.tsx:228 | `includes`: true exactly when the pattern occurs at some position |
| Text.ContainsInContext | src/App.tsx:216 | text added on either side keeps an occurrence |
| Seqs.Filter | src/App.tsx:833 | `filter`: only elements that pass, and every element that passes |
| Seqs.FilterConcat | src/App.tsx:833 | filtering keeps the original order |
| Seqs.FilterIdempotent | src/App.tsx:833 | filtering twice is filtering once |
| Seqs.FilterKeepsAll | src/App.tsx:319 | nothing is dropped when every element passes |
| Seqs.FilterDropsOne | src/App.tsx:319 | filtering out the one element that fails the predicate, between elements that pass, gives the rest in order |
| Seqs.Unique | src/App.tsx:245 | `[...new Set(xs)]`: no duplicates, and exactly the elements of `xs` |
| Seqs.UniqueOfDistinct | src/App.tsx:565 | a list without duplicates is its own de-duplication |
| Seqs.UniquePrefix | src/App.tsx:565 | appending elements keeps the earlier de-duplicated elements first and in order |
| Seqs.UniqueAbsorbs | src/App.tsx:565 | appending elements already present changes nothing |
| Scheduler.RoundRatio | src/App.tsx:812-816 | `Math.round(num/den)`: the result is within one half of `num/den` |
| Scheduler.RoundRatioUnique | src/App.tsx:812-816 | only one integer is within one half of `num/den` |
| Scheduler.RoundRatioMonotone | src/App.tsx:812-816 | rounding is monotone in the numerator |
| Scheduler.GoodInterval | src/App.tsx:812-814 | `Math.max(1, Math.round(interval * ease))`: at least 1, and above 1 it is the integer within one half of interval·ease |
| Scheduler.EasyInterval | src/App.tsx:815-817 | `Math.max(1, Math.round(interval * ease * 1.3))`: at least 1, and above 1 it is the integer within one half of interval·ease·1.3 |
| Scheduler.GoodIntervalGrows | src/App.tsx:812-814 | with ease at least 1.3 the Good interval is never shorter than the old one, and strictly longer from 2 days on |
| Scheduler.AddDays | src/App.tsx:820-821 | advancing by one day or more gives a strictly later instant |
| Scheduler.CalculateNextReview | src/App.tsx:805-828 | for every grade: interval at least 1, ease at most 3.0, an ease of at least 1.3 stays at least 1.3, next review is the interval in days after now |
| Scheduler.FailedReviewResets | src/App.tsx:809-811 | grade below 3, for every ease: interval 1, due one day later, ease min(3.0, max(1.3, ease − 0.2)), which is max(1.3, ease − 0.2) for an ease up to 3.2 and a strict drop for any ease above 1.3 |
| Scheduler.FailedReviewIgnoresInterval | src/App.tsx:809-811 | grade below 3: the prior interval has no influence on the result |
| Scheduler.GoodMultipliesByEase | src/App.tsx:812-814 | Good keeps the ease (capped at 3.0); the interval is the integer nearest interval·ease, or 1 when that product is below 1.5 |
| Scheduler.EasyMultipliesByEase | src/App.tsx:815-817 | every grade above 3 is Easy: the interval is `EasyInterval` (max(1, round(interval·ease·1.3))) and the ease is min(3.0, ease + 0.15) |
| Scheduler.EasyAtLeastGood | src/App.tsx:812-817 | Easy gives an interval no shorter than Good for the same state, and ease min(3.0, ease + 0.15) |
| Scheduler.CorrectAnswerGrowsInterval | src/App.tsx:812-817 | with ease at least 1.3, a correct grade never shortens the interval, and from 2 days on strictly lengthens it |
| Scheduler.NewCardGood | src/App.tsx:805-828 | a new card (ease 2.5, interval 1) graded Good is due in 3 days with ease 2.5 |
| Scheduler.EasyAfterThreeDays | src/App.tsx:815-817 | ease 2.5, interval 3, Easy: interval 10, ease 2.65 |
| Scheduler.AgainAtLowEase | src/App.tsx:809-811 | ease 1.4, interval 5, Again: interval 1, ease floored at 1.3 |
| Stats.FreshSession | src/App.tsx:926-931 | entering study mode zeroes the session counters and stamps the start time |
| Stats.RecordSession | src/App.tsx:897-901 | `studied` rises by 1; `correct` rises by 1 exactly when the answer is correct; correct ≤ studied is preserved |
| Stats.RecordLifetime | src/App.tsx:904-912 | answers rise by 1; correct answers rise by 1 exactly when correct; streak + 1 or 0; longest = max(longest, streak); streak ≤ longest ≤ correct ≤ studied is preserved |
| Stats.Accuracy | src/App.tsx:937-938 | 0 with no answers; otherwise the percentage rounded to nearest, within 0..100, and 100 when every answer was correct |
| Stats.ReplayCountsRuns | src/App.tsx:904-912 | from zero, any answer sequence yields its length, its number of correct answers, the length of its final correct run as streak and of its longest correct run as longest streak |
| Stats.FinalRunStep | src/App.tsx:905-908 | one more answer extends the final run of correct answers by one when correct and ends it otherwise |
| Stats.LongestRunStep | src/App.tsx:909-911 | one more answer makes the longest run the larger of the old longest run and the new final run |
| Stats.ReplayConsistent | src/App.tsx:904-912 | replaying answers from consistent statistics keeps them consistent and counts every answer |
| Stats.StreakBrokenThenRestarted | src/App.tsx:905-911 | a wrong answer ends a streak of 4 and keeps the longest streak at 4; the next right answer starts a streak of 1 |
| Flashcards.Due | src/App.tsx:831-834 | the due set holds exactly the deck's cards with no review date or one that has come |
| Flashcards.DueStaysDue | src/App.tsx:833 | a card due at some instant stays due later, and a card not yet due has a review date after that instant |
| Flashcards.DueConcat | src/App.tsx:831-834 | the due filter keeps deck order: it distributes over concatenation |
| Flashcards.DueIdempotent | src/App.tsx:831-834 | recomputing the due set from the due set gives the same sequence |
| Flashcards.CurrentCard | src/App.tsx:837 | exactly the due card at the cursor when the cursor is inside the due set, else exactly the deck's card at the cursor, else none; none exactly when the cursor is past the deck |
| Flashcards.NewCard | src/App.tsx:841-856 | trimmed front and back, ease 2.5, interval 1, zero counters, never reviewed, due at once |
| Flashcards.Graded | src/App.tsx:880-894 | the card takes its new ease, interval and review date from `CalculateNextReview` of the graded card; reviews and total reviews rise by 1, total correct rises by 1 exactly on a correct grade, streak + 1 or 0; reviewed now and not due now; id, text and creation date kept; card invariant preserved |
| Flashcards.ReviewDeck | src/App.tsx:880-894 | same length and ids; every card with the graded id becomes `Graded` of it, and every card with another id is unchanged |
| Flashcards.ReviewChangesOnlyCurrent | src/App.tsx:880-894 | with unique ids only the graded card changes; it becomes `Graded` of itself: new schedule from `CalculateNextReview`, reviews and total reviews + 1, total correct + 1 exactly on a correct grade, streak + 1 or 0, reviewed now; its invariant and id uniqueness are preserved |
| Flashcards.ReviewedLeavesDue | src/App.tsx:831-834 | up to the review instant, the due set after grading is the due set without the graded card |
| Flashcards.ReviewShrinksDue | src/App.tsx:868-894 | grading a due card removes exactly one card from the due set |
| Flashcards.RemoveId | src/App.tsx:862 | the deck without the cards of that id, all others kept |
| Flashcards.RemoveKeepsUnique | src/App.tsx:862 | removing keeps ids unique |
| Flashcards.RemoveShrinksDue | src/App.tsx:861-866 | with unique ids, removing shrinks the due set by one if the card was due, and not at all otherwise |
| Flashcards.DueIdCons | src/App.tsx:861-866 | with unique ids, a due card with a given id is either the first card or one of the rest, never both |
| Flashcards.ConsKeepsUnique | src/App.tsx:856 | a card with an unused id can go in front of a deck with unique ids and they stay unique |
| Flashcards.CursorAfterRemove | src/App.tsx:863-865 | a cursor before the last due position is kept; at or past it, the cursor lands on the second-to-last due position, or on 0 when at most one card was due; it never moves forward |
| Flashcards.RemoveKeepsCursorInDueSet | src/App.tsx:861-866 | removing the due card under a valid cursor leaves a valid cursor into the new due set, or 0 when it is empty |
| Flashcards.WrapNext | src/App.tsx:918-920 | a position below n that is congruent to index + 1 modulo n, for every index (also past n); below n it is the next position, wrapping to 0 |
| Flashcards.CursorAfterReview | src/App.tsx:917-921 | a position below the pre-review due length congruent to index + 1 modulo it when more than one card was due, else the same modulo the deck size when it has more than one card, else unchanged; for every cursor, also one past the due set |
| Flashcards.ReviewCursorPassesDueSet | src/App.tsx:917-918 | grading the second-to-last due card puts the cursor one past the shrunken due set |
| Flashcards.CardAccuracy | src/App.tsx:1035 | 0 for an unreviewed card, at most 100 for a well-formed one |
| Flashcards.Deck.SessionAccuracy | src/App.tsx:937 | 0 before any answer this session, otherwise at most 100 |
| Flashcards.Deck.OverallAccuracy | src/App.tsx:938 | 0 before any answer ever, otherwise at most 100 |
| Flashcards.Deck.DueCards | src/App.tsx:831-834 | the memoised due set: cards of the deck that were due when it was last computed, and every such card |
| Flashcards.Deck.Current | src/App.tsx:837 | the due card at the cursor from the memoised due set when the cursor is inside it, else the deck's card at the cursor; none exactly when the cursor is past the deck |
| Flashcards.Deck.constructor | src/App.tsx:785-802 | the stored deck and stored lifetime statistics, a fresh session, cursor 0, edit mode |
| Flashcards.Deck.AddCard | src/App.tsx:840-859 | blank front or back changes nothing; otherwise exactly one new card goes first and nothing else changes |
| Flashcards.Deck.RemoveCard | src/App.tsx:861-866 | the deck without that id, the cursor moved by the pre-removal due length, statistics unchanged |
| Flashcards.Deck.Review | src/App.tsx:868-922 | no current card: nothing changes; otherwise the graded deck, both statistics and the cursor change together, and the invariants hold |
| Flashcards.Deck.SetMode | src/App.tsx:925-935 | entering study mode resets the session and the cursor; other switches change only the mode |
| Notes.FirstMatch | src/App.tsx:227-231 | the first table entry with a keyword in the text; no earlier entry has one |
| Notes.AutoCategorize | src/App.tsx:215-233 | the first of study, work, research, ideas, personal with a keyword in the lower-cased title and body, else general |
| Notes.AutoCategorizeIgnoresCase | src/App.tsx:216 | the category does not depend on letter case |
| Notes.StudyTitleIsStudy | src/App.tsx:220 | a title containing "study" in any case gives a study note |
| Notes.ContainsPart | src/App.tsx:228 | `includes` of a string includes each of its pieces |
| Notes.ThoughtsIsNeverPersonal | src/App.tsx:223-224 | "thoughts" always matches the earlier ideas keyword "thought", so such a note is never filed as personal or general |
| Notes.WordPrefix | src/App.tsx:238 | the longest run of `\w` characters at the start |
| Notes.WordPrefixStops | src/App.tsx:238 | the `\w` run of a text is not changed by what follows a non-word character |
| Notes.ScanTags | src/App.tsx:238-239 | every extracted tag is a non-empty lower-case `\w` run (which runs, and in what order, is `ScanTagsMatches`) |
| Notes.ScanTagsStep | src/App.tsx:238-239 | at a `#` followed by a word character one tag is taken and scanning resumes after its word; anywhere else scanning moves on by one character |
| Notes.ScanTagsSuffix | src/App.tsx:238-239 | scanning from any position gives the tags at the match positions from there on, in increasing order |
| Notes.ScanTagsMatches | src/App.tsx:238-239 | for every text, the tags are the lower-cased `\w` runs after each `#` followed by a word character, in order of position |
| Notes.TagsFromMembers | src/App.tsx:238-239 | a tag is found from position k on exactly when it starts at some match position at or after k |
| Notes.ScanTagsSplit | src/App.tsx:236-240 | at a character that is neither `\w` nor `#`, the tags of the whole text are the tags before it followed by the tags after it |
| Notes.ExtractTags | src/App.tsx:236-240 | the tags of title + " " + body are exactly the title's tags followed by the body's tags |
| Notes.NoHashNoTags | src/App.tsx:238 | text without `#` has no tags |
| Notes.WordPrefixOfWord | src/App.tsx:238 | the `\w` run stops at the first non-word character |
| Notes.ScanRenderedTags | src/App.tsx:236-240 | `#w` tokens separated by spaces come back as the words, lower-cased, in order |
| Notes.MergeTags | src/App.tsx:565 | no duplicates, and exactly the union of existing and extracted tags |
| Notes.MergeKeepsExisting | src/App.tsx:563-566 | the existing tags stay first and in their order |
| Notes.MergeKnownTags | src/App.tsx:563-566 | extracting only tags the note already has leaves its tags unchanged |
| Notes.FlatTagsMembers | src/App.tsx:244 | a tag is in the flattened list exactly when some note has it |
| Notes.FlatTags | src/App.tsx:244 | every tag of every note is in the flattened list, and each listed tag belongs to some note |
| Notes.AllTags | src/App.tsx:243-247 | the global tag list holds each note tag exactly once |
| Notes.NotesInSnoc | src/App.tsx:291-297 | adding one note to the list adds it to its own category's group only |
| Notes.CategoryOf | src/App.tsx:292 | the note's category when it has one, else general; never empty |
| Notes.GroupStep | src/App.tsx:291-296 | adding the next note to its category's group, creating the group when it is new, keeps every group exactly its category's notes so far |
| Notes.GroupByCategory | src/App.tsx:289-298 | a category is a key exactly when some note has it, and each group is that category's notes in list order |
| Notes.FindIndex | src/App.tsx:318 | the first position with that id, or −1 when there is none |
| Notes.FindNote | src/App.tsx:512 | the note with the selected id, none when nothing is selected or the id is absent |
| Notes.RemoveNote | src/App.tsx:319 | the notes without that id, all others kept |
| Notes.NextSelection | src/App.tsx:322-325 | the id of a remaining note, and none for an empty list (the index, index − 1, first order is `DeleteSelectsNeighbour`) |
| Notes.RemoveNoteKeepsUnique | src/App.tsx:319 | removing a note keeps ids unique |
| Notes.RemoveUniqueNote | src/App.tsx:319 | with unique ids, removing one note splices it out |
| Notes.DeleteSelectsNeighbour | src/App.tsx:317-326 | deleting the selected note selects its successor, else its predecessor, else nothing |
| Notes.ApplyPatch | src/App.tsx:340-346 | the given fields replace the note's, the rest stay, `updated` is now |
| Notes.PatchNotes | src/App.tsx:340-346 | same length; each note with that id becomes `ApplyPatch` of it, stamped now; every other note is unchanged |
| Notes.Override | src/App.tsx:571 | `{ ...updates, ...autoUpdates }`: every field the second patch sets wins, the other fields come from the first, and a patch that sets nothing changes nothing |
| Notes.OverrideApplies | src/App.tsx:571 | applying the combined patch is applying the first patch and then the second |
| Notes.AutoUpdates | src/App.tsx:553-567 | when the title or body changes, the category is the automatic category of the new text and the tags are exactly `MergeTags` of the note's tags and the tags extracted from the new text; otherwise no automatic change |
| Notes.Slug | src/App.tsx:349 | a slug has no white space and no upper-case letter and is no longer than the name; a name without white space is just lower-cased, and an all-white-space name becomes `-` |
| Notes.DashRuns | src/App.tsx:349 | no white space remains, the result is no longer, and no upper-case letter appears that was not there |
| Notes.DashRunsNoWhitespace | src/App.tsx:349 | text without white space is unchanged |
| Notes.DashRunsAllWhitespace | src/App.tsx:349 | non-empty text made only of white space becomes one `-` |
| Notes.TrimStartRun | src/App.tsx:349 | skipping the white space at the start removes exactly a leading run |
| Notes.DashRunsLeadingRun | src/App.tsx:349 | a leading white-space run of any length becomes one `-` |
| Notes.DashRunsRun | src/App.tsx:349 | a maximal white-space run of any length at any position becomes one `-`, with the text before it unchanged and the text after it processed in turn |
| Notes.SlugRun | src/App.tsx:349 | in a name, a maximal white-space run becomes one `-` and the text before it is lower-cased |
| Notes.SlugIdempotent | src/App.tsx:349 | the slug of a slug is itself |
| Notes.SlugJoinsWords | src/App.tsx:349 | two words separated by any run of white space become both words lower-cased, joined by one `-` |
| Notes.NoteBook.constructor | src/App.tsx:64-74 | the stored notes, selection and categories |
| Notes.NoteBook.ActiveNote | src/App.tsx:512 | the selected note, when there is one and it is in the list; with the invariant, a note exactly when something is selected |
| Notes.NoteBook.Tags | src/App.tsx:243-247 | every tag of every note, each once |
| Notes.NoteBook.CreateNote | src/App.tsx:301-315 | an empty general note goes first and becomes the selected, active note; ids stay unique and the selection names a note |
| Notes.NoteBook.DeleteNote | src/App.tsx:317-326 | the note is removed; the selection moves only if it was the deleted note, and then to a remaining note or none; ids stay unique and the selection names a note |
| Notes.NoteBook.UpdateNoteMetadata | src/App.tsx:340-346 | only the named note is patched; ids and the selection stay valid |
| Notes.NoteBook.UpdateNote | src/App.tsx:549-575 | nothing without an active note; otherwise the active note takes the updates overridden by the automatic category and tags; ids and the selection stay valid |
| Notes.NoteBook.AddCategory | src/App.tsx:348-353 | appends the category with its slug id and returns that id |
| Timer.TickStep | src/App.tsx:690-697 | running at 1 second or less: 0 and stopped; running above 1: one second less; paused: unchanged; never increases |
| Timer.CountdownFinishes | src/App.tsx:686-700 | from s seconds, n < s ticks leave s − n running, and max(s, 1) or more ticks end at 0, stopped |
| Timer.PausedStaysPut | src/App.tsx:687 | a paused timer never changes |
| Timer.Decimal | src/App.tsx:703-704 | `String(n)`: decimal digits only, no leading zero, one digit exactly below 10, at most two digits below 100 |
| Timer.DecimalValue | src/App.tsx:703-704 | the digits denote n |
| Timer.PadStart2 | src/App.tsx:703-704 | `padStart(2, "0")`: at least two characters, the original at the end, and only `0` before it |
| Timer.LeadingZero | src/App.tsx:703-704 | a leading zero does not change the value |
| Timer.Clock | src/App.tsx:703-704 | splitting the face at its `:` gives back the minutes field and the two-character seconds field; neither field holds a `:` |
| Timer.ClockReadsBack | src/App.tsx:703-704 | minutes·60 + seconds read back as the time left, seconds below 60, five characters under 100 minutes |
| Timer.FocusTimer.constructor | src/App.tsx:677-679 | the configured minutes, the full time, paused |
| Timer.FocusTimer.Tick | src/App.tsx:689-698 | the state after one tick is `TickStep` of the state before; the time left never exceeds the configured time |
| Timer.FocusTimer.Toggle | src/App.tsx:762 | start/pause flips running and nothing else |
| Timer.FocusTimer.Reset | src/App.tsx:707-710 | paused with the full configured time; the time left never exceeds the configured time |
| Timer.FocusTimer.SetMinutes | src/App.tsx:682-684 | a new value restarts the countdown from the full time and keeps it running or paused; the same value changes nothing; the time left never exceeds the configured time |

## Left out

- Rendering, CSS classes, icons, the search box, tag and category filters, the category manager and `getCategoryColor`/`getCategoryName`: UI only.
- Persistence through `useLocalState` and `localStorage` (src/App.tsx:110-127): the state is held in fields, and the constructors take the stored values as parameters.
- `crypto.randomUUID`: fresh ids are parameters, required to be unused.
- `Date.now` and `new Date`, `setDate`, and how dates are displayed: `now` is a parameter. A day is a fixed 86 400 000 ms, so local-time and daylight-saving calendar steps are not modelled.
- `setInterval`, `setTimeout` and the saving indicator: only the effect of one tick is modelled, not when ticks happen. The model assumes the tick does not run while paused.
- The DOM feedback in `selectNote`: it only sets the selection, which is a plain field here.
- The sorts of the note list (title and category by `localeCompare`, `created` and `updated` numerically) and the search filtering before grouping: the view's order and filter are not part of this model. `Notes.GroupByCategory` takes the already filtered notes.
- Notes.GroupByCategory: returns a map, so it does not record the order of first appearance in which the panel lists the categories.
- Floating point: the timer's progress ring, the slider gradient and percentage texts with `toFixed`. The accuracy percentages are exact rationals rounded to nearest; the program divides and multiplies in IEEE-754 doubles, which can differ at exact halves.
- Ease as a double (2.5 − 0.2 repeatedly, etc.) is exact hundredths here, so accumulated binary rounding of the ease is not modelled.
- Letter case and `\w`: ASCII only. Unicode lower-casing and the JavaScript regular-expression engine are not modelled.
- The `|| 0` and `|| []` defaults for fields missing from older stored cards and notes: every field is present in the model.
- The flip state `showBack` and the text fields `front`/`back` of the add form: UI state. `Deck.AddCard` takes the texts as parameters and does not model clearing the fields.
- Flashcards.Deck.RemoveCard, Flashcards.Deck.Review: require distinct card ids, which the generated ids give; the source does not check this.
