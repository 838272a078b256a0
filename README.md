# CVortex web app: page logic in Dafny

CVortex is the recruiter front end of an interview bot: recruiters browse
candidates, open a candidate's card, and create vacancies with key skills,
interview questions and a bot link. Most of the app is rendering over a
REST client; this project models the part that decides something:

- the candidate list page (`CandidatesList` module): which candidates are
  shown for a search text, a status filter and the "show archived" box;
  how the table is sorted by a column (with missing scores and rejected
  statuses placed deliberately); the column-header cycle ascending →
  descending → reset to the application date; archiving a row;
- the vacancy form (`CreateVacancy` module): adding and deleting key
  skills, adding, deleting and editing questions, and the check that
  enables the submit button; the bot link's random UUID (`Uuid` module);
- the shared lookups (`StatusTypes` module): status label, status chip
  colour and score colour band;
- the candidate card (`CandidateDetails` module): the lookup of the
  candidate by the route's id and its archive button.

Each page is a class whose fields are the page's state variables (all of
them except the vacancy form's success flag, see "Left out"; the bot link,
which has no setter, is a `const` field) and whose methods are its event
handlers; what the page derives from its state
(filtered and sorted rows, form validity, the shown count) is a pure
function. `Text` models the JavaScript string operations the pages call
(`trim`, `toLowerCase`, `includes`, `String(n)`), `Seqs` the array
operations (`filter`, a stable `sort`), `Wrappers` the optional value
(a missing score, an absent route id), and `Candidates` the candidate
record the two candidate pages use.

The list page ranks eight stages (pending … rejected at interview), while
the `CandidateStatus` enum in `src/types/index.ts` has four values
(`screening_ok` … `interview_failed`). The code keys its ranking table on
the eight names, so the model gives the list page its own eight-valued
status type and keeps the four-valued enum for the label and colour
lookups.

## Model

| member | source | states |
|---|---|---|
| Text.Trim | src/pages/CreateVacancy.tsx:42 | the trimmed string is no longer than the input and neither starts nor ends with white space |
| Text.TrimIsSlice | src/pages/CreateVacancy.tsx:42 | trim keeps one contiguous slice of the input and everything cut off at either end is white space |
| Text.TrimEmptyIff | src/pages/CreateVacancy.tsx:100 | a string trims to empty exactly when it is all white space |
| Text.TrimIdempotent | src/pages/CreateVacancy.tsx:43 | trimming a trimmed string changes nothing |
| Text.TrimNoEdgeSpace | src/pages/CreateVacancy.tsx:42 | a string with no white space at either end is its own trim |
| Text.LowerChar | src/pages/CandidatesList.tsx:57-58 | A–Z, the Latin-1 capitals À–Þ (not ×), Ѐ–Џ and А–Я map to their lower-case letters; every other character is kept |
| Text.Lower | src/pages/CandidatesList.tsx:57-58 | lower-casing keeps the length |
| Text.LowerIdempotent | src/pages/CandidatesList.tsx:57-58 | lower-casing a lower-cased string changes nothing |
| Text.Includes | src/pages/CandidatesList.tsx:57-58 | the empty needle is always found, and a needle longer than the haystack never is |
| Text.IncludesIff | src/pages/CandidatesList.tsx:57-58 | `includes` is true exactly when the needle occurs at some position of the haystack |
| Text.IncludesEmpty | src/pages/CandidatesList.tsx:57-58 | the empty query is found in every string |
| Text.DecimalString | src/pages/CreateVacancy.tsx:54 | `String(n)` is a non-empty string of digits without a leading zero |
| Text.ParseDecimal | src/pages/CreateVacancy.tsx:54 | for the corrected numbering (the source parses no id): a string reads as a number exactly when it is a non-empty string of digits |
| Text.ParseDecimalString | src/pages/CreateVacancy.tsx:54 | reading `String(n)` back gives `n` |
| Text.DecimalStringInjective | src/pages/CreateVacancy.tsx:54 | different numbers give different question ids |
| Seqs.Filter | src/pages/CandidatesList.tsx:56-62 | `filter` returns at most as many elements, each from the input and each passing the test |
| Seqs.FilterIsSubsequence | src/pages/CandidatesList.tsx:56-62 | the filtered array is the input at strictly increasing positions, exactly the positions whose element passes |
| Seqs.FilterAll | src/pages/CandidatesList.tsx:56-62 | when every element passes, `filter` returns the input |
| Seqs.FilterKeeps | src/pages/CandidatesList.tsx:56-62 | every element that passes appears in the result |
| Seqs.FilterAppend | src/pages/CandidatesList.tsx:56-62 | filtering a concatenation is concatenating the filtered parts |
| Seqs.Insert | src/pages/CandidatesList.tsx:65 | one insertion step of the sort adds exactly the inserted element |
| Seqs.SortBy | src/pages/CandidatesList.tsx:65 | the sorted copy is a permutation of the input |
| Seqs.OrderedInit | src/pages/CandidatesList.tsx:65 | a sorted array stays sorted without its last element |
| Seqs.OrderedSnoc | src/pages/CandidatesList.tsx:65 | appending an element no smaller than the last keeps an array sorted |
| Seqs.InsertOrdered | src/pages/CandidatesList.tsx:65 | inserting into a sorted array by an antisymmetric comparator keeps it sorted |
| Seqs.SortByOrdered | src/pages/CandidatesList.tsx:65 | with an antisymmetric comparator every element compares at most equal to the next |
| Seqs.SortByAllEqual | src/pages/CandidatesList.tsx:66 | a stable sort with a comparator that always returns 0 keeps the input order |
| Seqs.OrderedByKey | src/pages/CandidatesList.tsx:78-91 | a comparator that subtracts integer keys leaves the keys non-decreasing |
| StatusTypes.StatusLabel | src/types/index.ts:84-93 | the four known status strings get their fixed Russian labels; any other string is returned unchanged |
| StatusTypes.StatusColor | src/types/index.ts:95-104 | success exactly for the two passed stages, error exactly for the two failed ones, default exactly for everything else |
| StatusTypes.KnownStatusesAreStyled | src/types/index.ts:114-119 | every enum value gets a colour other than default and a label other than its raw string |
| StatusTypes.ScoreColor | src/types/index.ts:106-112 | the five bands: at least 90 green, 70–89 light green, 50–69 yellow, 30–49 orange, below 30 red |
| StatusTypes.BandIndex | src/types/index.ts:106-112 | the position of a colour among the five bands, or -1 for any other colour |
| StatusTypes.BandsDistinct | src/types/index.ts:107-111 | the five band colours are pairwise different |
| StatusTypes.ScoreColorTotal | src/types/index.ts:107-111 | every integer score gets exactly one of the five colours |
| StatusTypes.ScoreColorMonotone | src/types/index.ts:107-111 | a higher score never gets a lower band |
| CandidatesList.FilteredCandidates | src/pages/CandidatesList.tsx:56-62 | the shown candidates are candidates of the page that pass the filter, never more than there are |
| CandidatesList.Visible | src/pages/CandidatesList.tsx:56-62 | a passing candidate is not archived unless archived rows are shown and has the filtered status; with an empty query and "all" every row the archive box allows passes |
| CandidatesList.VisibleIff | src/pages/CandidatesList.tsx:56-62 | a candidate passes exactly when the lower-cased query occurs in its lower-cased name or vacancy title, the filter is "all" or its status, and archived rows are shown or it is not archived |
| CandidatesList.FilteredIsSubsequence | src/pages/CandidatesList.tsx:56-62 | the filtered list keeps the passing candidates, all of them and only them, in the page's order |
| CandidatesList.VisibleIsShown | src/pages/CandidatesList.tsx:56-62 | every candidate that passes is in the filtered list |
| CandidatesList.FilterOffShowsAll | src/pages/CandidatesList.tsx:56-62 | with an empty query, "all" and archived rows shown, the filtered list is the whole list |
| CandidatesList.StatusRank | src/pages/CandidatesList.tsx:44-53 | ranks run from 1 to 8 and the two rejections, and only they, rank 7 or 8 |
| CandidatesList.StatusRankInjective | src/pages/CandidatesList.tsx:44-53 | no two statuses share a rank |
| CandidatesList.ScoreKey | src/pages/CandidatesList.tsx:81-88 | a missing score sorts as -1, a present one as itself |
| CandidatesList.NumericKey | src/pages/CandidatesList.tsx:78-91 | the status key is a rank from 1 to 8, a missing score's key is -1, the date's key is its time |
| CandidatesList.FieldComparison | src/pages/CandidatesList.tsx:68-92 | text columns use the collation; for the other columns the sign of the comparison is the order of their keys |
| CandidatesList.Compare | src/pages/CandidatesList.tsx:65-96 | ascending is the column's comparison, descending its negation, no direction always 0 |
| CandidatesList.CompareUnordered | src/pages/CandidatesList.tsx:66 | without a direction the comparator returns 0 for every pair |
| CandidatesList.CompareDescNegatesAsc | src/pages/CandidatesList.tsx:95 | for every column, descending is ascending negated |
| CandidatesList.MissingScoreFirst | src/pages/CandidatesList.tsx:81-88 | ascending by a score, a missing score compares below every non-negative score |
| CandidatesList.RejectedAfterOthers | src/pages/CandidatesList.tsx:78 | ascending by status, a rejected candidate compares above every candidate that is not rejected |
| CandidatesList.SortedCandidates | src/pages/CandidatesList.tsx:65 | the table rows are a permutation of the filtered list |
| CandidatesList.UnorderedKeepsOrder | src/pages/CandidatesList.tsx:66 | with no sort direction the rows are the filtered list in its order |
| CandidatesList.ComparatorAntisymmetric | src/pages/CandidatesList.tsx:65-96 | if the collation's sign flips with its arguments, so does the page's comparator for every column and direction: compare(a, b) > 0 exactly when compare(b, a) < 0 |
| CandidatesList.SortedIsOrdered | src/pages/CandidatesList.tsx:65-96 | every row compares at most equal to the next under the page's comparator |
| CandidatesList.SortedByNumericKey | src/pages/CandidatesList.tsx:78-95 | sorted by status, a score or the date, the column's key is non-decreasing ascending and non-increasing descending |
| CandidatesList.MissingScoresSortFirst | src/pages/CandidatesList.tsx:81-88 | ascending by a score, every row before a row without that score has no score or a negative one (never a non-negative one) |
| CandidatesList.RejectedSortLast | src/pages/CandidatesList.tsx:44-53 | ascending by status, every row after a rejected candidate is rejected too |
| CandidatesList.NextSortState | src/pages/CandidatesList.tsx:99-112 | a click leaves the clicked column or the date selected; only the date is left without a direction (or the state is unchanged); descending follows only ascending on the same column |
| CandidatesList.SortTransitions | src/pages/CandidatesList.tsx:99-112 | another column → that column ascending; same column ascending → descending; descending → date without direction; without direction → unchanged |
| CandidatesList.ThreeClicksReset | src/pages/CandidatesList.tsx:99-112 | three clicks on a new column end in the reset state |
| CandidatesList.AppliedAtStuckAfterReset | src/pages/CandidatesList.tsx:40-41 | from the opening state a click on the date resets the sort, and further clicks on the date change nothing |
| CandidatesList.SortStateOkPreserved | src/pages/CandidatesList.tsx:99-112 | only the date column is ever left without a direction, from the opening state on |
| CandidatesList.ArchiveToggled | src/pages/CandidatesList.tsx:114-117 | same length; each candidate with the id gets the opposite of the shown flag, with every other field kept; every other candidate is unchanged |
| CandidatesList.ArchiveToggleTwice | src/pages/CandidatesList.tsx:114-117 | pressing the button again on the updated row restores the list |
| CandidatesList.ArchiveHides | src/pages/CandidatesList.tsx:114-117 | after archiving, no shown row carries that id while archived rows are hidden, and every other candidate that was shown stays shown |
| CandidatesList.CandidatesListPage.constructor | src/pages/CandidatesList.tsx:36-41 | the page opens with no search, every status, archived rows hidden, the given candidates, newest first |
| CandidatesList.CandidatesListPage.Rows | src/pages/CandidatesList.tsx:56-96 | the table's rows are the filtered candidates rearranged (same multiset), and with no sort direction exactly the filtered list in page order |
| CandidatesList.CandidatesListPage.ShownCount | src/pages/CandidatesList.tsx:330 | the count under the table is the length of the filtered list |
| CandidatesList.CandidatesListPage.HandleSearchChange | src/pages/CandidatesList.tsx:163 | the search text becomes the typed value |
| CandidatesList.CandidatesListPage.HandleStatusFilterChange | src/pages/CandidatesList.tsx:125-127 | the status filter becomes the chosen value |
| CandidatesList.CandidatesListPage.HandleShowArchivedChange | src/pages/CandidatesList.tsx:189 | the archived box takes the checked value |
| CandidatesList.CandidatesListPage.HandleSort | src/pages/CandidatesList.tsx:99-112 | the new (column, direction) is the header transition of the old one |
| CandidatesList.CandidatesListPage.HandleArchiveToggle | src/pages/CandidatesList.tsx:114-117 | the candidates become the toggled list |
| Uuid.VariantNibble | src/pages/CreateVacancy.tsx:25 | the variant value is 8 to 11 and keeps the two low bits of the random nibble |
| Uuid.Placeholders | src/pages/CreateVacancy.tsx:22 | a template draws at most one nibble per character |
| Uuid.PlaceholdersNone | src/pages/CreateVacancy.tsx:22 | a template draws no nibble exactly when no character is `x` or `y` |
| Uuid.HexDigit | src/pages/CreateVacancy.tsx:26 | `toString(16)` of a nibble is a lower-case hex digit |
| Uuid.PlaceholdersAppend | src/pages/CreateVacancy.tsx:22 | the placeholders of a concatenation are those of its parts |
| Uuid.FillTemplate | src/pages/CreateVacancy.tsx:22-26 | `replace` keeps the template's length |
| Uuid.FillTemplateAt | src/pages/CreateVacancy.tsx:22-26 | the k-th placeholder takes the k-th random nibble (in variant form for `y`); other characters are kept |
| Uuid.UuidTemplateGroups | src/pages/CreateVacancy.tsx:22 | the template is the 8-4-4-4-12 groups joined by dashes |
| Uuid.GroupPlaceholders | src/pages/CreateVacancy.tsx:22 | the five groups hold 8, 4, 3, 4 and 12 placeholders |
| Uuid.PlaceholdersAppend5 | src/pages/CreateVacancy.tsx:22 | placeholders add up over five joined groups |
| Uuid.UuidTemplatePlaceholders | src/pages/CreateVacancy.tsx:22-23 | one UUID draws 31 random nibbles |
| Uuid.FillTemplateShape | src/pages/CreateVacancy.tsx:23-25 | an `x` becomes a hex digit, a `y` one of 8, 9, a, b, anything else itself |
| Uuid.UuidTemplateFixed | src/pages/CreateVacancy.tsx:22 | the template has dashes at 8, 13, 18, 23, the version 4 at 14, the variant placeholder at 19 |
| Uuid.GenerateUuid | src/pages/CreateVacancy.tsx:21-27 | for any 31 nibbles the text has 36 characters, dashes at 8, 13, 18, 23, `4` at 14, one of 8, 9, a, b at 19 and lower-case hex elsewhere |
| CreateVacancy.WithoutSkill | src/pages/CreateVacancy.tsx:48-50 | the deleted skill is gone and exactly the other skills remain |
| CreateVacancy.WithoutSkillKeepsOrder | src/pages/CreateVacancy.tsx:48-50 | the remaining skills keep their order, and a well-formed list stays well formed |
| CreateVacancy.SkillListAppend | src/pages/CreateVacancy.tsx:41-46 | a trimmed, non-blank, unlisted skill keeps the list free of blanks, untrimmed entries and repeats |
| CreateVacancy.AddTrimmedSkill | src/pages/CreateVacancy.tsx:41-46 | appending the trimmed input under the handler's condition keeps the list well formed |
| CreateVacancy.ApplyEdit | src/pages/CreateVacancy.tsx:68-72 | an edit never changes a question's id |
| CreateVacancy.WithoutQuestion | src/pages/CreateVacancy.tsx:62-66 | the remaining questions are questions of the list with another id |
| CreateVacancy.WithoutQuestionKeepsOthers | src/pages/CreateVacancy.tsx:62-66 | delete keeps exactly the questions with another id, in their order |
| CreateVacancy.EditedQuestions | src/pages/CreateVacancy.tsx:68-72 | an edit keeps the length and every id |
| CreateVacancy.EditChangesOneField | src/pages/CreateVacancy.tsx:68-72 | only the named field of the questions with the id changes; every other field and question is unchanged |
| CreateVacancy.DistinctDeleteRemovesAtMostOne | src/pages/CreateVacancy.tsx:62-66 | with distinct ids a delete removes at most one question and ids stay distinct |
| CreateVacancy.DeleteKeepsOneIfDistinct | src/pages/CreateVacancy.tsx:62-66 | with distinct ids and two or more questions, a delete leaves at least one |
| CreateVacancy.DuplicateIdDeletesBoth | src/pages/CreateVacancy.tsx:64 | two questions sharing an id are both deleted |
| CreateVacancy.DeleteFirstOfTwo | src/pages/CreateVacancy.tsx:64 | deleting the first of two questions with different ids leaves the second |
| CreateVacancy.MaxIdNumber | src/pages/CreateVacancy.tsx:54 | for the corrected numbering (the source parses no id): no id in use stands for a number above the maximum |
| CreateVacancy.FreshQuestionIdUnused | src/pages/CreateVacancy.tsx:54 | for the corrected numbering, which replaces the length-based id: the new id differs from every id in use |
| CreateVacancy.FormValid | src/pages/CreateVacancy.tsx:99-103 | a valid form has a non-empty title, a skill, and no question with empty text |
| CreateVacancy.FormValidIff | src/pages/CreateVacancy.tsx:99-103 | the form is valid exactly when the title is not all white space, there is a skill, and no question text is all white space |
| CreateVacancy.TimeLimitNotChecked | src/pages/CreateVacancy.tsx:253 | changing a time limit never changes validity: 30–300 is only an input attribute |
| CreateVacancy.NewQuestionBlocksSubmit | src/pages/CreateVacancy.tsx:52-60 | after adding a question the form is invalid until its text is filled in |
| CreateVacancy.BotLink | src/pages/CreateVacancy.tsx:38 | the bot link is the fixed start URL followed by a 36-character version-4 UUID text |
| CreateVacancy.VacancyForm.constructor | src/pages/CreateVacancy.tsx:32-38 | the form opens empty with one blank question numbered 1, and its bot link is built from the nibbles drawn on opening |
| CreateVacancy.VacancyForm.SetTitle | src/pages/CreateVacancy.tsx:128 | the title becomes the typed value |
| CreateVacancy.VacancyForm.SetSkillInput | src/pages/CreateVacancy.tsx:148 | the skill input becomes the typed value |
| CreateVacancy.VacancyForm.HandleAddSkill | src/pages/CreateVacancy.tsx:41-46 | the trimmed input is appended and the input cleared exactly when it is non-blank and unlisted, otherwise nothing changes; the list stays well formed |
| CreateVacancy.VacancyForm.HandleDeleteSkill | src/pages/CreateVacancy.tsx:48-50 | the skills become the list without that skill, and stay well formed |
| CreateVacancy.NewQuestion | src/pages/CreateVacancy.tsx:53-58 | the new question's id reads back as the old length plus one; its text and expected answer are blank and its limit is 60 seconds |
| CreateVacancy.VacancyForm.IsFormValid | src/pages/CreateVacancy.tsx:99-103 | when the current form is valid its title is non-empty, it has a skill, and no question has empty text |
| CreateVacancy.VacancyForm.HandleAddQuestion | src/pages/CreateVacancy.tsx:52-60 | one blank question with id `String(length + 1)` and a 60-second limit is appended; the others are unchanged |
| CreateVacancy.VacancyForm.HandleDeleteQuestion | src/pages/CreateVacancy.tsx:62-66 | nothing happens with one question; otherwise every question with the id is removed; distinct ids stay distinct and then the list stays non-empty |
| CreateVacancy.VacancyForm.HandleQuestionChange | src/pages/CreateVacancy.tsx:68-72 | the questions become the edited list and distinct ids stay distinct |
| CreateVacancy.VacancyForm.HandleAddQuestionFreshId | src/pages/CreateVacancy.tsx:52-60 | the corrected add appends a question with an unused id, so distinct ids stay distinct |
| CreateVacancy.ReusedIdQuestions | src/pages/CreateVacancy.tsx:54 | after add and delete of "1" the next question is numbered "2" again and deleting "2" removes both |
| CreateVacancy.FilledForm | src/pages/CreateVacancy.tsx:41-46 | typing a title and adding a non-blank skill gives a form with that title, the trimmed skill as its only skill, and the opening question |
| CreateVacancy.AddDeleteTwice | src/pages/CreateVacancy.tsx:52-66 | add, delete "1", add, delete "2" on the opening questions leaves no question |
| CreateVacancy.ReusedIdEmptiesQuestions | src/pages/CreateVacancy.tsx:62-66 | for any non-blank title and skill that sequence leaves zero questions and the form still valid |
| CandidateDetails.FindById | src/pages/CandidateDetails.tsx:32-34 | a found candidate is one of the page's candidates and carries the route's id; without a route id nothing is found |
| CandidateDetails.FindByIdFirst | src/pages/CandidateDetails.tsx:32-34 | no candidate is found exactly when no id matches the route's (or there is none); otherwise the found one is at the first matching index |
| CandidateDetails.ToggledArchive | src/pages/CandidateDetails.tsx:38 | the archived flag flips and every other field is kept |
| CandidateDetails.ToggledArchiveTwice | src/pages/CandidateDetails.tsx:38 | toggling twice restores the record |
| CandidateDetails.CandidateDetailsPage.constructor | src/pages/CandidateDetails.tsx:32-34 | the card opens on the lookup's result |
| CandidateDetails.CandidateDetailsPage.HandleArchiveToggle | src/pages/CandidateDetails.tsx:36-41 | without a candidate nothing changes and the not-found branch stays; with one, its flag flips |

## Left out

- JSX rendering, MUI styling and the theme: presentation only. `src/App.tsx`, `src/pages/VacanciesList.tsx`, `src/components/Layout.tsx`, `src/components/ProtectedRoute.tsx` and `src/pages/Login.tsx` (navigation, `localStorage` flags, redirects, a drawer flag) are not part of this model.
- `src/services/api.ts` (fetch, JSON and `localStorage` around the REST calls) is not part of this model; nor are the data fixtures, whose candidates are simply a parameter of the page.
- Text.Lower: `toLowerCase` is modelled for ASCII, Latin-1 and the basic Cyrillic block (the alphabets of the data); other Unicode case mappings, and mappings that change a string's length, are not.
- CandidatesList.FieldComparison: `localeCompare(…, 'ru')` is a parameter `collate`; the sorting lemmas assume only that its sign flips with its arguments.
- Seqs.SortBy: `Array.prototype.sort` is modelled as a stable insertion sort; the browser's algorithm is not, and the lemmas assume nothing about the comparator beyond antisymmetry, as the date and score columns satisfy.
- CandidatesList.NumericKey: dates are integers in milliseconds and scores integers; fractional and NaN scores are not modelled.
- CandidatesList.Visible: the status filter is a value of the eight-stage type or "all"; a JavaScript string that names no stage, and lookups of the ranking table with inherited object keys, are not modelled.
- StatusTypes.StatusLabel: keys such as `toString` that a plain JavaScript object inherits are not looked up as the object would; such a string is treated like any unknown status.
- StatusTypes.StatusColor: for the same reason, a key such as `constructor`, `toString` or `__proto__` gets `Default` in the model, while the page's object lookup returns the inherited member.
- CreateVacancy.VacancyForm.HandleQuestionChange: the handler accepts any key of the question; the page only edits text, time limit and expected answer, and the model offers only those. `parseInt` of an empty time-limit field (NaN) is not modelled; the time limit is any integer.
- Uuid.GenerateUuid: `Math.random` is replaced by the 31 nibbles it would draw, passed in; randomness is not modelled. The vacancy form's constructor takes those nibbles for its bot link.
- `handleSubmit` is not modelled: besides a log line and a timed redirect it sets the `showSuccess` flag, which is page state the form class leaves out, as it only shows a success message. `handleCopyLink` (clipboard), `handleRowClick` and the back buttons (navigation) are not modelled: they only act outside the page's state. The Enter key on the skill input is a second trigger of `HandleAddSkill`, which models it.
- The row link `/candidates/${id}` and the route pattern in `src/App.tsx` disagree; routing is not part of this model, and the card takes the route's id as a parameter.

## Findings

| source | as written | input that shows it | evidently intended | confidence | as-written member | corrected member |
|---|---|---|---|---|---|---|
| src/pages/CreateVacancy.tsx:54 | a new question's id is `String(questions.length + 1)`, and delete removes every question with the id (line 64) | on a fresh form: add (ids 1, 2), delete 1 (ids 2), add (ids 2, 2), delete 2: both questions go, the list is empty although the delete button is disabled only at one question (line 260), and isFormValid then accepts a vacancy without questions | each question gets an id no other question has, so a delete removes one question and at least one stays | high, not executed | CreateVacancy.ReusedIdEmptiesQuestions | CreateVacancy.VacancyForm.HandleAddQuestionFreshId |
