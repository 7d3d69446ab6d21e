# MARK_AI decision rules in Dafny

MARK_AI is a Next.js grading application for schools. Teachers upload answer sheets for an exam, an AI model grades them, and teachers review the results. Students see their results, a performance lab, flashcards, a study planner and an AI study guide. Parents claim their children by roll number and date of birth.

Most of the application is database queries and AI calls. The rules between those calls are small, deterministic and bounded. This project states those rules as total functions over immutable data and proves properties about them. Each query result, AI reply, browser event, clock reading and random value is a parameter. Each database or storage write is a returned value.

The model has one module per component of the application, one file each. Four modules are shared:

- `Wrappers`: `Option` and `Result`.
- `Text`: the JavaScript string operations the pages use, over `seq<char>`, one character per UTF-16 code unit. These are `trim`, `split`/`join`, `startsWith`/`endsWith`/`includes`, `indexOf`, `slice`, ASCII `toLowerCase`, decimal rendering and `parseInt`.
- `Numbers`: `Math.round`, `Math.ceil`, the `x || d` fallback for a nullable number, sums, means, and "the first greatest element" (the head of a stable descending sort). JavaScript numbers are exact reals.
- `Seqs` and `Grouping`: the array idioms `slice`, `filter`, `findIndex`, counting, and grouping by key in order of first appearance.

The remaining modules follow the application:

- String, URL and path helpers: `GoogleDrive`, `ContextText`, `Locale`, `Navigation`, `StudentFilters` (with `FormEncoding`, the `URLSearchParams` serializer), `CustomCard`, `VoiceInput`.
- Scoring arithmetic: `Scores`, `StudentDashboard`, `TeacherDashboard`, `Performance`, `Analytics`, `Admin`, `GradingProgress`, `ParentChildren`, `MarkRecovery`, `Streak`, `UpcomingExams`, `GradeSandbox`, `Flashcards`.
- Serialisers and response shapers: `ExportCommon`, `CsvExport`, `ExcelExport`, `ExamExport`, `BulkImport`, `GradeMerge`, `Assistant`.
- State reducers: `Kanban`, `Planner`, `Selection`, `SplitView`, `BatchUpload`, `Library`, `Guide`, `VoiceAssistant`.
- Validators and decision functions: `StudentSignup`, `Login`, `ParentClaim`, `DriveFetch`, `StudyUpload`.

Every member in the table below is a function, method or lemma whose contract states the behaviour cited. Lemmas relate an operation to its partner: an inverse, an independent reference definition, or an invariant it keeps.

## Model

| member | source | states |
|---|---|---|
| Numbers.Round | app/student/dashboard/page.tsx:89 | `Math.round`: the integer within half a unit of `x`, halves going up. |
| Numbers.Ceil | components/dashboard/upcoming-exams.tsx:27 | `Math.ceil`: the least integer not below `x`. |
| Numbers.RoundMonotone | app/student/dashboard/page.tsx:89 | Rounding keeps the order of two values. |
| Numbers.RoundBetween | app/student/dashboard/page.tsx:89 | A value between two integers rounds to a value between them. |
| Numbers.RoundInteger | app/student/analytics/page.tsx:86 | Rounding a whole number gives it back. |
| Numbers.OrNonZero | app/student/dashboard/page.tsx:86 | `max = total_marks \|\| 100` is never 0, so dividing by it is safe. |
| Numbers.ScorePercent | app/student/dashboard/page.tsx:86-87 | `(score \|\| 0) / (total \|\| 100) * 100`: without a total the score itself; with a non-zero total the result times the total is the score (0 when missing) times 100; a score within a positive total gives a percentage in `[0, 100]`. |
| Numbers.SumAppend | app/dashboard/page.tsx:90 | The running sum of a `reduce` splits over a concatenation. |
| Numbers.SumBounds | app/dashboard/page.tsx:90 | A sum of values in `[lo, hi]` lies between `n * lo` and `n * hi`. |
| Numbers.Mean | app/student/analytics/page.tsx:86 | The sum divided by the count: times the count it gives the sum back, and 0 for no values. |
| Numbers.MeanBounds | app/student/analytics/page.tsx:86 | The mean of values in `[lo, hi]` is in `[lo, hi]`. |
| Numbers.FirstMaxIndex | app/dashboard/admin/page.tsx:200 | The element a stable descending sort puts first: no element is greater, and every element before it is smaller. |
| Numbers.FirstMaxUnique | app/dashboard/admin/page.tsx:200 | That element is the only one with both properties. |
| Seqs.FirstN | components/student/tasks-widget.tsx:25 | `slice(0, n)`: a prefix, of length `n` or the whole list when it is shorter. |
| Seqs.Filter | components/student/tasks-widget.tsx:25 | `filter(p)`: every element kept passes `p` and comes from the list, and every element passing `p` is kept. |
| Seqs.FilterAppend | components/student/tasks-widget.tsx:25 | Filtering a concatenation is concatenating the filtered parts: the order is kept. |
| Seqs.FindIndex | app/student/performance/page.tsx:57 | `find(p)`, by position: the first position whose element passes `p`; none means no element passes. |
| Wrappers.GetOr | app/api/export/csv/route.ts:56 | `x \|\| default` for a missing value: the value when present, the default otherwise. |
| Text.TrimStart | app/actions/planner.ts:25 | The whitespace skip at the start of `parseInt`: the result is a suffix of the input that does not start with whitespace, and everything cut off is whitespace. |
| Text.Trim | components/ui/textarea.tsx:23 | `trim()`: the result is an infix of the input that neither starts nor ends with whitespace, and everything outside it is whitespace. |
| Text.TrimEmptyIffBlank | components/student/library-client.tsx:94 | `!s.trim()` holds exactly when the text is all whitespace (or empty). |
| Text.TrimOfTrimmed | components/ui/voice-textarea.tsx:23 | A value that neither starts nor ends with whitespace is its own trim. |
| Text.TrimIdempotent | components/ui/voice-textarea.tsx:72 | Trimming an already trimmed value changes nothing. |
| Text.TrimKeepsAbsentChar | components/student/custom-card-dialog.tsx:43 | Trimming never introduces a character, so a trimmed piece of a split still has no separator. |
| Text.Take | lib/utils.ts:21 | `substring(0, n)`: a prefix of the text whose length is `n` clamped to between 0 and the text's length. |
| Text.OrText | app/api/drive/fetch/route.ts:34 | `s \|\| d` on a string: a present, non-empty string is kept; a missing or empty one gives `d`. |
| Text.KeepLast | components/voice-assistant/voice-assistant-provider.tsx:139 | `slice(-n)`: a suffix of the text of length `n`, or the whole text when it is shorter. |
| Text.Split | components/student/custom-card-dialog.tsx:43 | `split(sep)` on one character: at least one piece, and no piece contains the separator. |
| Text.JoinSplit | components/student/custom-card-dialog.tsx:43 | Joining the pieces of a split with the separator gives the original text. |
| Text.SplitJoin | app/api/export/csv/route.ts:60-66 | Splitting a join of separator-free pieces, at least one, gives the pieces back. |
| Text.LastSegment | app/actions/study.ts:20 | `split('.').pop()`: a suffix of the name with no separator; the whole name when it has none; otherwise the character just before it is the separator. |
| Text.Lower | app/auth/student-signup/page.tsx:45 | `toLowerCase` on ASCII letters: same length; each capital becomes the matching small letter, every other character is kept, and no capital is left. |
| Text.LowerIdempotent | app/auth/student-signup/page.tsx:45 | Lower-casing twice is the same as lower-casing once. |
| Text.NatToString | components/dashboard/batch-upload-dialog.tsx:111-112 | A number rendered into a path or message is a non-empty run of decimal digits with no leading zero unless it is 0. |
| Text.IntToString | app/api/export/csv/route.ts:61-65 | `String(n)` of an integer is non-empty and starts with `-` exactly when `n` is negative. |
| Text.DigitRun | app/actions/planner.ts:25 | The digits `parseInt` reads: the longest prefix made of digits of the radix. |
| Text.ParseIntToString | app/actions/planner.ts:25 | `parseInt(String(n)) === n` for every integer `n`. |
| GoogleDrive.IdRun | lib/google-drive.ts:8-12 | The capture group `[a-zA-Z0-9_-]+`, taken greedily: a prefix of the text made only of id characters, stopped by the first character that is not one. |
| GoogleDrive.FindMatch | lib/google-drive.ts:20 | The position where `url.match(pattern)` matches: the leftmost index from `i` on where the shape is followed by an id character; no earlier index matches; none means no index from `i` on matches. |
| GoogleDrive.MatchPrefix | lib/google-drive.ts:20-22 | One shape: a captured id is always a non-empty run of id characters, and there is none exactly when the shape matches nowhere in the link. |
| GoogleDrive.MatchingShape | lib/google-drive.ts:19-24 | The loop over the shapes: the first shape, in order, that matches; every earlier shape fails; none means every shape fails. |
| GoogleDrive.ExtractFileId | lib/google-drive.ts:18-26 | `extractFileId`: the id of the first of the five shapes, in their order, that matches; such an id is non-empty and made of id characters; `null` exactly when none matches. |
| GoogleDrive.IdRunStops | lib/google-drive.ts:8 | The capture of an id followed by a non-id character is exactly that id. |
| GoogleDrive.PrefixesColonAtFive | lib/google-drive.ts:7-13 | Each of the five shapes starts with `https` and has its first colon at index 5. |
| GoogleDrive.NoMatchInColonFree | lib/google-drive.ts:7-13 | No shape can match inside text that has no colon, so the search passes over such text. |
| GoogleDrive.FindMatchFirst | lib/google-drive.ts:20 | The search from the start returns a matching position when no earlier position matches. |
| GoogleDrive.CaptureAfter | lib/google-drive.ts:20-22 | A shape followed by an id, with no earlier match, captures exactly that id. |
| GoogleDrive.EmbeddedFileLink | lib/google-drive.ts:18-26 | A `file/d/` link anywhere after colon-free text is recognised, and the id it yields is the one written in it. |
| GoogleDrive.PreviewUrlRoundTrip | lib/google-drive.ts:70-72 | `extractFileId(getPreviewUrl(id)) === id` for every valid id. |
| GoogleDrive.ThumbnailColons | lib/google-drive.ts:77-79 | A thumbnail link has exactly one colon, the one after `https`. |
| GoogleDrive.ThumbnailUrlNotRecognised | lib/google-drive.ts:77-79 | `extractFileId(getThumbnailUrl(id))` is `null`: the thumbnail shape is none of the five. |
| ContextText.TruncateContext | lib/utils.ts:12-22 | Missing or blank text becomes the fallback sentence; text within the limit is kept whole; longer text becomes its first `maxLength` characters followed by the truncation marker. |
| ContextText.MarkerNotBlank | lib/utils.ts:21 | A truncated text is never blank. |
| ContextText.TruncateNeverEmpty | lib/utils.ts:12-22 | The context handed on is never empty. |
| ContextText.TruncateIdempotent | lib/utils.ts:12-22 | Truncating an already truncated document with the same limit changes nothing. |
| ContextText.IsPdfByName | lib/pdf-extract.ts:45-48 | Unless the type is `application/pdf`, a file counts as a PDF exactly when its name ends in `.`, then `p`, `d`, `f` in either case. |
| CustomCard.CleanPieces | components/student/custom-card-dialog.tsx:43 | Never more tags than pieces, each non-empty, comma-free and trimmed. |
| CustomCard.CleanPiecesIsFilter | components/student/custom-card-dialog.tsx:43 | The cleaned tags are exactly the trimmed pieces that are not empty, in order: `map(trim).filter(t => t !== "")`. |
| CustomCard.ParseTags | components/student/custom-card-dialog.tsx:42-44 | An empty field gives no tags; otherwise exactly the comma-separated pieces, trimmed, with the empty ones dropped, in order; every tag is clean. |
| CustomCard.BlankFieldHasNoTags | components/student/custom-card-dialog.tsx:42-44 | An empty or blank tag field gives no tags. |
| CustomCard.ParseTagsRoundTrip | components/student/custom-card-dialog.tsx:42-44 | Clean tags written with commas between them parse back to the same tags. |
| CustomCard.NewCard | components/student/custom-card-dialog.tsx:48-56 | The inserted card carries the form's question, answer and subject, the parsed tags, level 1, and is due now. |
| CustomCard.AfterSubmit | components/student/custom-card-dialog.tsx:58-68 | Loading ends either way; a successful insert closes the dialog with an empty form, a failed one alerts and keeps what was typed. |
| Library.InitialTab | components/student/library-client.tsx:25-26 | A missing or empty `tab` parameter opens the missions tab, and `ai_studio` opens the studio. |
| Library.Initial | components/student/library-client.tsx:34-49 | The library opens with no sources selected, an empty input and the one greeting message. |
| Library.ToggleFile | components/student/library-client.tsx:52-55 | Toggling a file flips its selection and leaves the exams and messages alone. |
| Library.ToggleExam | components/student/library-client.tsx:56-59 | Toggling an exam flips its selection and leaves the files and messages alone. |
| Library.Placeholder | components/student/library-client.tsx:370-372 | The input asks to select sources when none is selected, and otherwise reports how many are being analysed. |
| Library.SelectingCountsOne | components/student/library-client.tsx:52-55 | Selecting a new file adds one to the count the placeholder reports. |
| Library.Synthesize | components/student/library-client.tsx:114-146 | With nothing selected it only alerts; otherwise it posts the fixed prompt with both selections and appends the prompt; a network failure appends the fixed failure message, a non-empty reply is appended, and an empty or missing reply appends nothing more; nothing else in the state changes. |
| Library.Send | components/student/library-client.tsx:148-171 | Blank input sends nothing; otherwise the input is posted with both selections and cleared, and the messages gain the input followed by the reply line. |
| Library.ReplyText | components/student/library-client.tsx:165-168 | A non-empty `data.reply` is added as it came; a reply without text adds `Error encountered.`, a failed request `Network error.`. |
| Library.BlankNotSent | components/student/library-client.tsx:149 | Whitespace-only input is never sent and leaves the page as it was. |
| Locale.ResolveLocale | i18n/request.ts:8-15 | The cookie's language when it is one of `en`, `hi`, `ta`; English for no cookie, an empty value or an unknown code. |
| Locale.ResolveIdempotent | i18n/request.ts:10-15 | Resolving an already resolved code changes nothing. |
| Locale.ValueRun | components/language-switcher.tsx:35 | The capture `[^;]+`: the longest start of the text without a `;`. |
| Locale.FindKey | components/language-switcher.tsx:35 | The leftmost position where the key is followed by a character other than `;`, or none when there is no such position. |
| Locale.CurrentLocale | components/language-switcher.tsx:33-37 | Never empty and never holds `;`; English without a document, and English when no `MARK_AI_LOCALE=` followed by a non-`;` character occurs anywhere in the cookie string. |
| Locale.CurrentLocaleOfLeadingPair | components/language-switcher.tsx:35-36 | A cookie string that begins with the locale pair reads back that pair's value. |
| Locale.CurrentLocaleOfPair | components/language-switcher.tsx:35-36 | Wherever it stands, the first `MARK_AI_LOCALE=` followed by a non-`;` character yields the text after it up to the next `;` (or the end). |
| Locale.CurrentLocaleAfterOtherCookie | components/language-switcher.tsx:35-36 | In `a=b; MARK_AI_LOCALE=hi` the pair after another cookie is found and `hi` is read. |
| Locale.CookieRoundTrip | components/language-switcher.tsx:26-36 | Reading the cookie the switcher wrote gives back the chosen language. |
| Locale.OfferedLanguagesRoundTrip | i18n/routing.ts:4-5 | Every supported language survives the cookie round trip and the server's check. |
| Locale.UnanchoredName | components/language-switcher.tsx:35 | The pattern is not anchored at a cookie boundary: a cookie whose name merely ends in `MARK_AI_LOCALE` is read as the language. |
| MarkRecovery.Rows | components/dashboard/mark-recovery-widget.tsx:35-52 | At most three lines, in fixed order, each present exactly when its figure is positive. |
| MarkRecovery.Render | components/dashboard/mark-recovery-widget.tsx:14-16 | Nothing is rendered exactly when the total lost is 0; otherwise the total and the breakdown lines. |
| MarkRecovery.HiddenWithoutFeedback | app/student/dashboard/page.tsx:93-109 | A dashboard without a recent exam or feedback shows no widget. |
| MarkRecovery.ShownIffSomeRow | components/dashboard/mark-recovery-widget.tsx:14-52 | With non-negative figures the widget is shown exactly when some breakdown line would be. |
| MarkRecovery.LostText | components/dashboard/mark-recovery-widget.tsx:31 | A figure is printed as a minus sign followed by the number. |
| MarkRecovery.LostTextReadsBack | components/dashboard/mark-recovery-widget.tsx:31 | A printed whole-number loss reads back as its negation. |
| MarkRecovery.LostTextIsIntText | components/dashboard/mark-recovery-widget.tsx:31 | The printed loss is the usual rendering of the negated number. |
| Navigation.SegmentItem | components/dashboard/navbar.tsx:113 | An item is highlighted exactly when the pathname contains its segment anywhere. |
| Navigation.DashboardItems | components/dashboard/navbar.tsx:109-122 | Overview, active exactly on `/dashboard`; then Exams, Grading and Students for a teacher or Results otherwise; then Messages and Settings, each active when the pathname contains its segment. |
| Navigation.LabelsOf | components/dashboard/navbar.tsx:109-122 | The labels are the items' titles, one per item. |
| Navigation.OverviewOnlyAtRoot | components/dashboard/navbar.tsx:109 | Overview is highlighted on the dashboard root only. |
| Navigation.ExamsMatchesWithoutBoundary | components/dashboard/navbar.tsx:113 | `/dashboard/exams-archive` highlights Exams, though it is neither `/dashboard/exams` nor below it. |
| Navigation.StudentItems | components/dashboard/navbar-student.tsx:95-98 | Home exactly on `/student/dashboard`; Library at or below the vault or study pages; Insights at or below performance or analytics; Flashcards at or below the flashcards page. |
| Navigation.VaultBoundary | components/dashboard/navbar-student.tsx:23 | A sibling whose name merely extends the vault's is not below it. |
| Navigation.ActivePrefix | components/dashboard/navbar-student.tsx:23 | An active page's path is a prefix of the pathname. |
| Navigation.Diverging | components/dashboard/navbar-student.tsx:23 | Two page paths that differ at some position are never both active. |
| Navigation.StudentItemsExclusive | components/dashboard/navbar-student.tsx:95-98 | The student navbar never highlights two items at once. |
| Flashcards.NextLevel | components/student/flashcard-deck.tsx:28 | A success raises the level by one, capped at 5; a failure lowers it by one, floored at 1. |
| Flashcards.NextLevelInRange | components/student/flashcard-deck.tsx:28 | Ratings keep a level in 1..5 and move it by at most one step, up on success and down on failure. |
| Flashcards.NextLevelInverse | components/student/flashcard-deck.tsx:28 | Below the ceiling, a failure undoes a success and a success undoes a failure. |
| Flashcards.ReviewDelayDays | components/student/flashcard-deck.tsx:31-33 | A defined delay exactly for a level that indexes the interval table, and then that table entry. |
| Flashcards.ReviewDelayIncreasing | components/student/flashcard-deck.tsx:31 | Higher levels wait strictly longer before the next review. |
| Flashcards.InitialDeck | components/student/flashcard-deck.tsx:19-21 | The deck starts on the first card, front side up, with the cards it was given. |
| Flashcards.Rate | components/student/flashcard-deck.tsx:22-62 | Rating never changes the cards; without a current card, or with a new level outside the interval table, nothing is sent and the deck stays; an undelivered PATCH, or an undelivered XP award on a success, leaves the deck where it is; otherwise it moves on; XP is requested only on success. |
| Flashcards.Advance | components/student/flashcard-deck.tsx:51-57 | The move after a rating: the front side shows, the cards are kept, and the position is what the Next button gives, staying on a card. |
| Flashcards.RateRequests | components/student/flashcard-deck.tsx:36-49 | Rating sends the card's new level and review delay first, and the 10-XP award exactly on success. |
| Flashcards.RateAdvances | components/student/flashcard-deck.tsx:51-57 | When the requests go through, the deck shows the front of the next card, staying on the last one. |
| Flashcards.Flip | components/student/flashcard-deck.tsx:83 | Clicking the card turns it over and changes nothing else. |
| Flashcards.Previous | components/student/flashcard-deck.tsx:128-129 | Steps back one card, front side up, except on the first card where the button is disabled. |
| Flashcards.Next | components/student/flashcard-deck.tsx:135-136 | Steps on one card, front side up, except on the last card where the button is disabled. |
| Flashcards.ActionsKeepDeckValid | components/student/flashcard-deck.tsx:25-136 | Every action keeps the position on a card. |
| Flashcards.RatingWalksDeck | components/student/flashcard-deck.tsx:51-57 | Successive ratings walk through the deck one card at a time and stop on the last card. |
| FormEncoding.Get | app/dashboard/students/student-filters.tsx:14 | `get` answers nothing exactly when no pair has the name, and otherwise a value paired with it. |
| FormEncoding.Delete | app/dashboard/students/student-filters.tsx:22 | `delete` removes pairs only, and leaves none with the name. |
| FormEncoding.SetLeavesOnePair | app/dashboard/students/student-filters.tsx:20 | After `set`, the name has exactly the one new pair, and `get` reads the new value. |
| FormEncoding.DeleteLeavesNone | app/dashboard/students/student-filters.tsx:22 | After `delete`, no pair has the name. |
| FormEncoding.DeleteKeepsOthers | app/dashboard/students/student-filters.tsx:32 | Deleting one filter keeps every other name's pairs, in order. |
| FormEncoding.SetKeepsOthers | app/dashboard/students/student-filters.tsx:30 | Setting one filter keeps every other name's pairs, in order. |
| FormEncoding.Utf8 | app/dashboard/students/student-filters.tsx:24 | A character encodes to one to four bytes, and an ASCII one to itself. |
| FormEncoding.EncodeEmits | app/dashboard/students/student-filters.tsx:24 | An encoded name or value holds only unreserved characters, `+`, `%` and hex digits, and so no `&` or `=`. |
| FormEncoding.DecodeEncode | app/dashboard/students/student-filters.tsx:24 | Parsing an encoded text gives back exactly its UTF-8 bytes. |
| FormEncoding.SplitSerialized | app/dashboard/students/student-filters.tsx:24 | Splitting the query string on `&` gives back one encoded `name=value` piece per pair, in order. |
| FormEncoding.SplitPiece | app/dashboard/students/student-filters.tsx:24 | Each piece splits on `=` into exactly the encoded name and the encoded value. |
| Selection.Without | components/ai-guide/ai-guide-view.tsx:39 | `filter(i => i !== id)`: exactly the other ids remain, and the list gets shorter when the id was in it. |
| Selection.Toggle | components/ai-guide/ai-guide-view.tsx:39 | Toggling selects the id exactly when it was not selected, and leaves every other id's membership alone; selecting appends it at the end, deselecting shortens the list. |
| Selection.WithoutAbsent | components/ai-guide/ai-guide-view.tsx:39 | Removing an id that is not there changes nothing. |
| Selection.ToggleTwiceRestores | components/ai-guide/ai-guide-view.tsx:39 | Toggling an absent id twice gives back the list as it was. |
| Selection.ToggleKeepsOrder | components/ai-guide/ai-guide-view.tsx:39 | The other ids keep their relative order. |
| Selection.ToggleKeepsDistinct | components/ai-guide/ai-guide-view.tsx:39 | A list without duplicates stays without duplicates. |
| SplitView.ZoomOut | components/student/student-split-view.tsx:140 | Zooming out lowers the zoom by 10, never below 50, and keeps a valid zoom valid. |
| SplitView.ZoomIn | components/student/student-split-view.tsx:144 | Zooming in raises the zoom by 10, never above 200, and keeps a valid zoom valid. |
| SplitView.ZoomRoundTrip | components/student/student-split-view.tsx:140-144 | Above the floor, zooming out then in returns to the same zoom; below the cap, in then out does. |
| SplitView.ZoomStaysInRange | components/student/student-split-view.tsx:52-144 | From the initial 100, any run of presses stays a multiple of 10 within 50..200. |
| SplitView.Rotate | components/student/student-split-view.tsx:148 | The angle stays in 0..359 and a quarter turn stays a quarter turn. |
| SplitView.FourTurns | components/student/student-split-view.tsx:148 | Four turns bring any shown angle back to itself, and one turn of a quarter angle changes it. |
| SplitView.Pages | components/student/student-split-view.tsx:64-66 | The pages are the sheet's file list when not empty, else its single file, else the placeholder; never none. |
| SplitView.PrevPage | components/student/student-split-view.tsx:160 | The previous page, never before the first. |
| SplitView.NextPage | components/student/student-split-view.tsx:172 | The next page, never past the last. |
| SplitView.PageStaysValid | components/student/student-split-view.tsx:160-173 | The page index stays valid under either button, and back after forward returns except on the last page. |
| SplitView.NumberOf | components/student/student-split-view.tsx:71 | `Number(score \|\| 0)`: a missing score is 0, a number is itself, and blank text is 0. |
| SplitView.WholeValue | components/student/student-split-view.tsx:71 | Text without a minus sign reads as a non-negative number. |
| SplitView.TextScoreReadsBack | components/student/student-split-view.tsx:71 | A score written out as text counts as the number it names. |
| SplitView.TotalOfNumbers | components/student/student-split-view.tsx:71 | Without text scores the total is the plain sum, a missing score counting 0. |
| SplitView.NaNPoisons | components/student/student-split-view.tsx:71 | One unreadable text score anywhere makes the total `NaN`. |
| SplitView.ToggleReview | components/student/student-split-view.tsx:74-80 | Pressing the open row closes its panel; pressing any other opens that one. |
| SplitView.SetComment | components/student/student-split-view.tsx:82-89 | Editing sets the comment of the one row edited and leaves the others alone. |
| SplitView.Disputes | components/student/student-split-view.tsx:92 | The disputes are exactly the questions whose comment has something other than whitespace, each taken from the evaluations. |
| SplitView.DisputeHasComment | components/student/student-split-view.tsx:92 | A dispute exists only if some row carries a comment. |
| SplitView.SubmitEnabled | components/student/student-split-view.tsx:305 | Enabled exactly when nothing is saving and some row has a non-empty comment; so enabled whenever a dispute is typed, and when disabled outside saving, submitting would write nothing. |
| SplitView.SubmitReview | components/student/student-split-view.tsx:91-133 | No disputes alerts and writes nothing; a declined confirmation does nothing; otherwise one flag per dispute, then the sheet's review request, and the success or failure alert. |
| SplitView.BlankCommentEnablesButAlerts | components/student/student-split-view.tsx:92-305 | A whitespace-only comment enables the button yet raises the "add a comment" alert. |
| SplitView.BlankEditWithdraws | components/student/student-split-view.tsx:82-92 | Editing a comment to blank withdraws that question from the disputes. |
| Streak.Effect | components/student/streak-reminder.tsx:18-46 | Without a last activity the banner shows with no countdown; otherwise the countdown is the remaining hours rounded up when at most 6 remain, 0 once the day has run out, the banner untouched otherwise; a milestone streak starts the celebration. |
| Streak.Dismiss | components/student/streak-reminder.tsx:82 | The close button hides the banner and changes nothing else. |
| Streak.EndCelebration | components/student/streak-reminder.tsx:44 | A click or the five-second timer ends the celebration and changes nothing else. |
| Streak.BannerColour | components/student/streak-reminder.tsx:59-64 | Red exactly at zero hours left, orange exactly for one to three hours, yellow otherwise. |
| Streak.BannerText | components/student/streak-reminder.tsx:68-77 | The reset message at zero, the start message without a countdown, the countdown otherwise. |
| Streak.CountdownRange | components/student/streak-reminder.tsx:30-32 | A countdown is a whole number of hours from 1 to 6. |
| Streak.ShownWhenDue | components/student/streak-reminder.tsx:18-38 | From the initial state, the banner is shown exactly when there was no activity or at most six hours are left. |
| Streak.RedWhenReset | components/student/streak-reminder.tsx:34-60 | From the initial state, the banner is red exactly when the day has run out. |
| Streak.OrangeInLastThreeHours | components/student/streak-reminder.tsx:30-62 | From the initial state, the banner is orange exactly when more than zero and at most three hours are left. |
| Streak.MilestoneRenders | components/student/streak-reminder.tsx:41-48 | A milestone streak always renders the component. |
| Streak.QuietWhenSafe | components/student/streak-reminder.tsx:30-48 | Away from milestones and with more than six hours left, nothing renders. |
| Planner.Toggle | app/actions/planner.ts:37 | A completed task goes back to pending; any other status becomes completed. |
| Planner.ToggleSettles | app/actions/planner.ts:37 | Toggling three times is toggling once, and a status other than pending or completed is never seen again: two toggles take it to pending. |
| Planner.ToggleTwice | app/actions/planner.ts:37 | On pending and completed, toggling twice restores the status. |
| Planner.NewRow | app/actions/planner.ts:21-28 | The inserted row is pending, belongs to the student, keeps the title, and stores the duration as `parseInt` reads it. |
| Planner.AddTask | app/actions/planner.ts:6-33 | No user, then no student, refuse with their fixed messages; an insert error returns the database's message; otherwise the new row is added. |
| Planner.DurationReadsBack | app/actions/planner.ts:25 | A duration typed as a whole number of minutes is stored as that number. |
| Planner.ToggleTask | app/student/planner/planner-client.tsx:23 | Same length; the tasks with the id get the toggled status, the others are unchanged. |
| Planner.ToggleTaskTwice | app/student/planner/planner-client.tsx:22-25 | Toggling a pending or completed task twice, each time with the status shown, restores the list. |
| Planner.Ratio | app/student/planner/planner-client.tsx:179 | The completed share lies in 0..1: 0 without tasks and 1 when all are completed. |
| Planner.ProgressPercent | app/student/planner/planner-client.tsx:183 | The ring's number lies in 0..100 and is the rounded completed percentage. |
| Planner.RingOffset | app/student/planner/planner-client.tsx:179 | The undrawn part lies in 0..351: all of it without tasks, none when every task is completed. |
| Planner.CompletingFillsRing | app/student/planner/planner-client.tsx:179 | Completing an open task with a unique id fills more of the ring. |
| Planner.CompletingCountsOne | app/student/planner/planner-client.tsx:18-23 | Toggling one open task with a unique id completes exactly one more task. |
| Planner.AfterSubmit | app/student/planner/planner-client.tsx:28-40 | Loading ends; a refused task alerts with its message and keeps the dialog open, an added one closes it. |
| Planner.Open | components/student/tasks-widget.tsx:25 | The open tasks are exactly the tasks that are not completed, in order. |
| Planner.Shown | components/student/tasks-widget.tsx:25 | The widget shows the first five open tasks, or all when there are fewer. |
| Planner.EmptyIffAllCompleted | components/student/tasks-widget.tsx:42 | The empty state shows exactly when every task is completed. |
| Planner.OpenFromTasks | components/student/tasks-widget.tsx:25 | Every open task comes from the list. |
| Planner.Overflow | components/student/tasks-widget.tsx:92-94 | The note appears exactly with more than five tasks, and counts the tasks beyond five. |
| Planner.OverflowCountsCompleted | components/student/tasks-widget.tsx:92-94 | The note counts completed tasks too: six completed tasks show "1 more" with no task listed. |
| Scores.Percentages | app/student/dashboard/page.tsx:84-88 | Each sheet's score as a percentage of its exam's marks, 100 when missing, in order. |
| Scores.AverageScore | app/student/dashboard/page.tsx:82-90 | 0 without sheets; otherwise within half a unit of the mean of the unrounded percentages. |
| Scores.AverageScoreBounds | app/student/dashboard/page.tsx:82-90 | Sheets scored within their marks average to a percentage in 0..100. |
| Scores.AverageOfEqual | app/api/parent/children/route.ts:43-48 | Sheets that all score the same whole percentage average to it. |
| Scores.AverageOfOne | app/student/dashboard/page.tsx:82-90 | A single sheet's average is its rounded percentage. |
| StudentDashboard.Candidates | app/student/dashboard/page.tsx:53-59 | At most five tasks, each a pending high-priority task of the list. |
| StudentDashboard.NextBestIndex | app/student/dashboard/page.tsx:61-67 | None exactly without candidates; otherwise the first of the heaviest candidates, as the head of a stable descending sort by weight. |
| StudentDashboard.NextBestTask | app/student/dashboard/page.tsx:61-67 | None exactly without candidates; otherwise one of them. |
| StudentDashboard.HeaviestIsRecommended | app/student/dashboard/page.tsx:62-66 | A task weighing strictly more than all others is recommended, wherever it was fetched. |
| StudentDashboard.TiesKeepFetchOrder | app/student/dashboard/page.tsx:62-66 | With equal weights the earliest fetched candidate is recommended. |
| StudentDashboard.HeroCard | app/student/dashboard/page.tsx:179-198 | With a recommended task, its title, its reason when it has one, and the mission link; without one, the vault card; the text is never empty. |
| StudentDashboard.ResultBand | app/student/dashboard/page.tsx:241-243 | Emerald from 80, amber from 60, red below 60: each band exactly on its range. |
| StudentDashboard.ResultBandMonotone | app/student/dashboard/page.tsx:241-243 | A higher percentage never gets a worse band. |
| StudentDashboard.ResultCards | app/student/dashboard/page.tsx:224-243 | At most four cards, one per recent exam in order, each with its rounded percentage and the band of it. |
| StudentDashboard.OneExamCardIsAverage | app/student/dashboard/page.tsx:82-226 | With a single recent exam, its card shows the same figure as the average. |
| StudentDashboard.RecoveryStats | app/student/dashboard/page.tsx:93-109 | Zeros unless there is a recent exam whose feedback carries an analysis; then each of the three figures is the analysis's own, a missing one counted as 0. |
| StudentDashboard.RecoveryNonNegative | app/student/dashboard/page.tsx:101-107 | Non-negative recorded losses give non-negative figures. |
| StudentDashboard.StreakDays | app/student/dashboard/page.tsx:157 | The pill shows the streak, 0 when missing. |
| StudentFilters.InitialSearch | app/dashboard/students/student-filters.tsx:14 | A non-empty starting text is the `search` parameter's value; an empty one means the parameter is missing or empty. |
| StudentFilters.EditSearch | app/dashboard/students/student-filters.tsx:17-25 | A non-empty debounced search sets `search`; an empty one removes it. |
| StudentFilters.EditClass | app/dashboard/students/student-filters.tsx:27-35 | Empty or `all` removes `class`; any other value sets it. |
| StudentFilters.EditSection | app/dashboard/students/student-filters.tsx:37-45 | Empty removes `section`; any other value sets it. |
| StudentFilters.Target | app/dashboard/students/student-filters.tsx:24 | Every edit navigates to the student list, whose query is the serialised parameters. |
| StudentFilters.TargetReadsBack | app/dashboard/students/student-filters.tsx:24 | The target's query reads back: one `&` piece per parameter, each splitting on `=` into the parameter's encoded name and value, which decode to them. |
| StudentFilters.EditKeepsOthers | app/dashboard/students/student-filters.tsx:18-44 | An edit keeps every other parameter's pairs as they were, in order. |
| StudentFilters.AllClassesUndoes | app/dashboard/students/student-filters.tsx:29-33 | Picking `all` after a class forgets the class and nothing else. |
| TeacherDashboard.IsLow | app/dashboard/page.tsx:42-44 | A sheet is low when its score, 0 if missing, is below 60 % of its total marks, 100 if missing. |
| TeacherDashboard.AtRiskStudents | app/dashboard/page.tsx:40-46 | Every student in the set has a low sheet, and the student of a low last sheet is in it. |
| TeacherDashboard.AtRiskMembership | app/dashboard/page.tsx:40-47 | A student is at risk exactly when one of the sheets is theirs and below 60 %. |
| TeacherDashboard.AtRiskAtMostSheets | app/dashboard/page.tsx:40-48 | No more students at risk than sheets. |
| TeacherDashboard.AtRiskAtMostLimit | app/dashboard/page.tsx:36-48 | The count never exceeds the sample of 50 sheets. |
| TeacherDashboard.RepeatedStudentCountedOnce | app/dashboard/page.tsx:45 | Another sheet of a student already counted leaves the count as it is. |
| TeacherDashboard.NewStudentAddsOne | app/dashboard/page.tsx:44-45 | A low sheet of a student not yet counted adds one. |
| TeacherDashboard.MissingScoreIsLow | app/dashboard/page.tsx:44 | A sheet without a score always counts as at risk. |
| TeacherDashboard.ExamAverage | app/dashboard/page.tsx:90-92 | 0 without scored sheets; otherwise within half a unit of the mean score. |
| TeacherDashboard.ExamAverageBounds | app/dashboard/page.tsx:90-92 | The average lies between the lowest and the highest score. |
| TeacherDashboard.QueueLabel | app/dashboard/page.tsx:233 | `Review` exactly for a graded sheet, `Grade` otherwise. |
| Analytics.XpBucketsSpec | app/student/analytics/page.tsx:45-54 | One bucket per day label, each day once, in the order of its first log, and each bucket holds the sum of exactly that day's amounts. |
| Analytics.XpConserved | app/student/analytics/page.tsx:45-54 | Bucketing by day neither loses nor invents XP: the buckets add up to all logged amounts. |
| Analytics.GroupByXp | app/student/analytics/page.tsx:45-54 | Grouping keyed amounts keeps their total. |
| Analytics.CumulativeXp | app/student/analytics/page.tsx:57-61 | One running total per bucket, each the XP of the buckets up to and including it. |
| Analytics.LastTotalIsAllXp | app/student/analytics/page.tsx:57-61 | The last running total is all the XP logged. |
| Analytics.PrefixXpMonotone | app/student/analytics/page.tsx:57-61 | Without negative buckets the running totals never go down. |
| Analytics.ExamScoreData | app/student/analytics/page.tsx:64-70 | One point per approved sheet, in order: its percentage the rounded share of the marks (100 when missing), named after the exam when it has a name and `Exam` otherwise, filed under its subject when it has one and `General` otherwise. |
| Analytics.GroupsNonEmpty | app/student/analytics/page.tsx:77-81 | Every subject entry created holds at least one percentage, so the mean divides by a positive count. |
| Analytics.SubjectRowsSpec | app/student/analytics/page.tsx:84-88 | Each subject row counts exactly that subject's sheets and averages their unrounded percentages, rounded. |
| Analytics.SubjectCountsAddUp | app/student/analytics/page.tsx:74-88 | The subject counts add up to the number of approved sheets. |
| Analytics.Headline | app/student/analytics/page.tsx:101-106 | XP and streak default to 0 and are otherwise the stored values; a missing or zero level shows 1, any other level itself; the exam count is the number of approved sheets. |
| Admin.AdminAccess | app/dashboard/admin/page.tsx:11-19 | The page is shown exactly to a user whose metadata role is `admin`; no user goes to the login page, anyone else to the dashboard. |
| Admin.StatsOrDefault | app/dashboard/admin/page.tsx:33-41 | The statistics row is used when there is one, and all zeros otherwise. |
| Admin.ScoreBadge | app/dashboard/admin/page.tsx:258-263 | Green from 80, blue from 60, yellow from 40, red below 40: each badge exactly on its band. |
| Admin.ScoreBadgeMonotone | app/dashboard/admin/page.tsx:258-263 | A higher average never gets a lower badge. |
| Admin.Averages | app/dashboard/admin/page.tsx:200 | Each class's average, a missing one read as 0. |
| Admin.TopClass | app/dashboard/admin/page.tsx:200 | None exactly without classes; otherwise a class whose average is not beaten by any, and the first such, as a stable descending sort puts first. |
| Admin.TopClassBestBadge | app/dashboard/admin/page.tsx:200-210 | The top class's badge is at least as good as every other class's. |
| Admin.CompletionRate | app/dashboard/admin/page.tsx:232-234 | 0 without sheets; otherwise within half a unit of the graded sheets' percentage of all sheets. |
| Admin.CompletionRateBounds | app/dashboard/admin/page.tsx:232-234 | With no more graded than total sheets the rate lies in 0..100, and is 100 when every sheet is graded. |
| ParentChildren.ChildOf | app/api/parent/children/route.ts:40-61 | Each entry copies the student's identity, class, roll number and figures and the mapping's relation; it counts the student's sheets and carries their average percentage. |
| ParentChildren.ChildrenOf | app/api/parent/children/route.ts:40-62 | One entry per mapping, in order. |
| ParentChildren.ListChildren | app/api/parent/children/route.ts:8-67 | 401 exactly without a user; no children without a parent record or mappings; otherwise one entry per mapping; a 500 only when some mapping's student is missing. |
| ParentChildren.NoSheetsNoAverage | app/api/parent/children/route.ts:42-48 | A child without sheets shows no exams and an average of 0. |
| ParentChildren.ChildAverageBounds | app/api/parent/children/route.ts:43-48 | A child whose sheets score within their marks has an average in 0..100. |
| Performance.Gaps | app/student/performance/page.tsx:44-54 | All zero without feedback; otherwise each category's figure is the plain sum of the records' figures for it (0 for a record without analysis or a missing figure), and the total is the sum of the three. |
| Performance.AccumulateAppend | app/student/performance/page.tsx:45-52 | Accumulating two batches of records is adding their accumulations. |
| Performance.PartIsSum | app/student/performance/page.tsx:45-51 | For each of the three categories, the accumulated losses are the plain sum of the records' figures for it, a record without analysis and a missing figure counting 0. |
| Performance.GetPct | app/student/performance/page.tsx:74 | 0 when the total is not positive; otherwise within half a unit of the value's percentage of the total. |
| Performance.ShareBounds | app/student/performance/page.tsx:74 | With non-negative losses every share lies in 0..100. |
| Performance.SharesNearHundred | app/student/performance/page.tsx:162-190 | The three rounded shares add up to 100, give or take one. |
| Performance.RecommendationThreshold | app/student/performance/page.tsx:200 | The recommendation appears exactly when the unrounded concept share is at least 40.5 %. |
| Performance.SandboxStats | app/student/performance/page.tsx:56-70 | The defaults without an approved sheet, without feedback, or when the first approved sheet's first feedback record has no analysis; otherwise that analysis's three figures (missing ones 0), the sheet's score and its exam's total marks (100 when missing or zero); the maximum is never 0. |
| Performance.SandboxUsesNewestApproved | app/student/performance/page.tsx:57-68 | The sandbox takes the newest approved sheet's score, marks (100 when missing) and feedback, whatever older sheets say. |
| Performance.SlotAsWritten | app/student/performance/page.tsx:84-86 | As written, the page renders the unimported sandbox component exactly when the maximum is positive, so that case fails and the sandbox is never shown. |
| Performance.PageFailsAsWritten | app/student/performance/page.tsx:1-5 | As written, whenever no exam has negative total marks the sandbox's slot is a render failure. |
| Performance.Slot | app/student/performance/page.tsx:84-86 | With the component imported, the sandbox is shown exactly when the maximum is positive, seeded with the computed stats. |
| Performance.MaxScorePositive | app/student/performance/page.tsx:56-68 | The sandbox's maximum is positive unless some exam's total marks are negative (a missing or zero maximum becomes 100). |
| Performance.SandboxShownUnlessNegativeMarks | app/student/performance/page.tsx:84-86 | With the component imported, the sandbox is shown, seeded with the computed stats, unless some exam's total marks are negative. |
| GradeSandbox.ProjectedScore | components/performance/predictive-grade-sandbox.tsx:20-26 | The projection is the smaller of the maximum and the rounded sum of the current grade and the recovered marks: it exceeds neither, and equals one of them. |
| GradeSandbox.NoImprovementKeepsGrade | components/performance/predictive-grade-sandbox.tsx:20-29 | With every slider at 0, a whole-mark grade within the maximum is projected unchanged and no gain badge shows. |
| GradeSandbox.ProjectionMonotone | components/performance/predictive-grade-sandbox.tsx:20-26 | With no negative losses, moving any slider up never lowers the projection. |
| GradeSandbox.ScaleMonotone | components/performance/predictive-grade-sandbox.tsx:21-23 | A larger share of non-negative lost marks wins back at least as much. |
| GradeSandbox.FullImprovement | components/performance/predictive-grade-sandbox.tsx:21-23 | With every slider at 100 all lost marks are won back. |
| GradeSandbox.SetSlider | components/performance/predictive-grade-sandbox.tsx:57 | Dragging one slider changes that category's share and no other. |
| GradeSandbox.SliderMovesStayValid | components/performance/predictive-grade-sandbox.tsx:39-93 | Slider moves (0 to 100 in steps of 10) and Reset keep every share a valid slider position. |
| GradingProgress.GradedSheets | app/dashboard/grading/page.tsx:39 | 0 without a list; otherwise how often `graded` occurs plus how often `approved` occurs, never more than the sheets. |
| GradingProgress.GradedCountIsMultiplicity | app/dashboard/grading/page.tsx:39 | Counting the sheets that pass the graded-or-approved test is adding the two statuses' occurrence counts. |
| GradingProgress.ApprovalKeepsGradedCount | app/dashboard/grading/page.tsx:39 | Approving a graded sheet leaves the graded count as it is. |
| GradingProgress.Progress | app/dashboard/grading/page.tsx:38-40 | The progress lies in 0..100; it is 0 without sheets and otherwise the graded share of the sheets, in percent. |
| GradingProgress.Share | app/dashboard/grading/page.tsx:40 | A share of a positive whole, in percent, lies in 0..100 and scales back to the part. |
| GradingProgress.ShownProgress | app/dashboard/grading/page.tsx:62 | The printed figure lies in 0..100 and within half a unit of the progress. |
| GradingProgress.AllGradedIsComplete | app/dashboard/grading/page.tsx:38-40 | When every sheet is graded or approved the bar is full. |
| Grouping.KeyIndex | app/student/analytics/page.tsx:47 | `acc.find` by key: a position holding the key, and none exactly when no group has it. |
| Grouping.DedupeSpec | app/student/analytics/page.tsx:45-54 | The reference key order holds exactly the keys that occur, each once. |
| Grouping.ValuesForAbsent | app/student/analytics/page.tsx:77-79 | A key that never occurs has no values. |
| Grouping.InsertKeys | app/student/analytics/page.tsx:47-52 | Inserting a value adds its key at the end when it is new and keeps the key order otherwise. |
| Grouping.GroupByKeys | app/student/analytics/page.tsx:45-54 | The groups come in the order of each key's first occurrence, one group per key. |
| Grouping.GroupByValues | app/student/analytics/page.tsx:74-82 | Each group holds exactly the values of its key's items, in order. |
| Grouping.TotalSizeUpdate | app/student/analytics/page.tsx:80-81 | Replacing one group changes the total by the change in that group's size. |
| Grouping.GroupBySize | app/student/analytics/page.tsx:74-82 | Grouping loses no value and invents none: the group sizes add up to the item count. |
| UpcomingExams.DaysLeft | components/dashboard/upcoming-exams.tsx:27 | `Math.ceil` of the days between now and the exam: the least whole number not below the exact difference. |
| UpcomingExams.Label | components/dashboard/upcoming-exams.tsx:56 | `Today` exactly when no day is left (a past date included); otherwise text ending in ` days left` whose leading number reads back as the days left. |
| UpcomingExams.RowOf | components/dashboard/upcoming-exams.tsx:26-56 | Each row carries its exam, its days left, red urgency exactly at three days or fewer, and its label. |
| UpcomingExams.Render | components/dashboard/upcoming-exams.tsx:15-33 | The empty state exactly without exams; otherwise one row per exam, in order. |
| UpcomingExams.TodayIffNotFuture | components/dashboard/upcoming-exams.tsx:27-56 | `Today` is shown exactly when the exam is not in the future. |
| UpcomingExams.UrgentIffWithinThreeDays | components/dashboard/upcoming-exams.tsx:27-55 | An exam is red exactly when it is at most three days away. |
| UpcomingExams.DaysLeftMonotone | components/dashboard/upcoming-exams.tsx:27 | A later exam never has fewer days left. |
| VoiceAssistant.Get | components/voice-assistant/voice-assistant-provider.tsx:158 | `map.get`: a setter exactly when some entry has the name, and then that entry's. |
| VoiceAssistant.Register | components/voice-assistant/voice-assistant-provider.tsx:105-108 | `map.set`: an existing name keeps its place, a new one is added last; no other name changes position. |
| VoiceAssistant.Unregister | components/voice-assistant/voice-assistant-provider.tsx:110-112 | `map.delete`: only entries are removed, and none with the name is left. |
| VoiceAssistant.RegisterOverwrites | components/voice-assistant/voice-assistant-provider.tsx:105-108 | After registering, the name looks up to the new setter and every other name to what it had. |
| VoiceAssistant.UnregisterRemoves | components/voice-assistant/voice-assistant-provider.tsx:110-112 | After unregistering, the name is gone and every other name looks up as before. |
| VoiceAssistant.RegisterKeepsUnique | components/voice-assistant/voice-assistant-provider.tsx:105-108 | The registry never holds one name twice. |
| VoiceAssistant.RegisterNewLast | components/voice-assistant/voice-assistant-provider.tsx:106 | An entry past the old ones is the name just registered. |
| VoiceAssistant.Lookup | components/voice-assistant/voice-assistant-provider.tsx:157-169 | The exact name's setter when there is one; failing that, the setter of the first registered name equal to the field ignoring case. |
| VoiceAssistant.UnmatchedIgnored | components/voice-assistant/voice-assistant-provider.tsx:157-173 | A field finds no setter exactly when no registered name matches it, even ignoring case. |
| VoiceAssistant.Extend | components/voice-assistant/voice-assistant-provider.tsx:138-140 | The new history is the last 1000 characters of the old one followed by the exchange, all of it when it fits; a missing response prints as `undefined` and a null one as `null`. |
| VoiceAssistant.NewestExchangeKept | components/voice-assistant/voice-assistant-provider.tsx:138-140 | The newest exchange survives the cut whenever it fits in the limit by itself. |
| VoiceAssistant.RequestFor | components/voice-assistant/voice-assistant-provider.tsx:123-128 | The request carries the transcript, path and form context, and at most the last 500 characters of the history. |
| VoiceAssistant.Fill | components/voice-assistant/voice-assistant-provider.tsx:155-175 | No more setter calls than fields. |
| VoiceAssistant.FillAllMatched | components/voice-assistant/voice-assistant-provider.tsx:156-174 | When every field has a setter, each is called once, in field order, with its own value. |
| VoiceAssistant.FillShape | components/voice-assistant/voice-assistant-provider.tsx:156-174 | Every call made is the lookup of some field, with that field's value. |
| VoiceAssistant.Process | components/voice-assistant/voice-assistant-provider.tsx:115-200 | A failed request or unsuccessful reply sets the error (its own or the default) and the apology and keeps the history; a successful one extends the history, clears the error, keeps any non-empty response, navigates to exactly the non-empty paths of its navigate actions in order, and makes exactly the setter calls of its fill actions in order. |
| VoiceAssistant.Navigations | components/voice-assistant/voice-assistant-provider.tsx:143-152 | Only non-empty paths of navigate actions are followed, and every navigate action with a non-empty path is. |
| VoiceAssistant.Calls | components/voice-assistant/voice-assistant-provider.tsx:143-176 | Every setter call comes from the fill of some fill action that carries fields. |
| VoiceAssistant.NavigationsInOrder | components/voice-assistant/voice-assistant-provider.tsx:144 | The actions are handled in order: the navigations of two lists joined are the two lists' navigations joined. |
| VoiceAssistant.CallsInOrder | components/voice-assistant/voice-assistant-provider.tsx:144 | The setter calls of two lists of actions joined are the two lists' calls joined. |
| VoiceAssistant.OneAction | components/voice-assistant/voice-assistant-provider.tsx:145-176 | A single action navigates exactly when it is a navigate with a non-empty path, and calls setters exactly when it is a fill with fields; speak and follow-up actions do neither. |
| VoiceAssistant.FailureTouchesNothing | components/voice-assistant/voice-assistant-provider.tsx:192-197 | A failed command navigates nowhere, fills no field and keeps the history. |
| VoiceAssistant.HistoryStaysBounded | components/voice-assistant/voice-assistant-provider.tsx:127-139 | However long the conversation, the history kept stays within 1000 characters and what is sent within 500. |
| VoiceInput.Aggregate | components/ui/voice-input.tsx:43-53 | The loop collects exactly the final and the interim transcripts from `resultIndex` on, each in order. |
| VoiceInput.Emitted | components/ui/voice-input.tsx:55-59 | The finals when there are any, else the interims marked not final, else nothing. |
| VoiceInput.EarlierResultsIgnored | components/ui/voice-input.tsx:46 | Results before `resultIndex` are never read again. |
| VoiceInput.NoFinalsGiveInterims | components/ui/voice-input.tsx:55-59 | With no final result in the range, the interims are handed on, marked not final. |
| VoiceInput.Mount | components/ui/voice-input.tsx:28-40 | The button is supported exactly when the browser has a recogniser, and starts not listening. |
| VoiceInput.OnError | components/ui/voice-input.tsx:62-68 | An error stops listening; a refused microphone hides the button for good. |
| VoiceInput.OnEnd | components/ui/voice-input.tsx:70-72 | The end of recognition stops listening and changes nothing else. |
| VoiceInput.Toggle | components/ui/voice-input.tsx:81-95 | Nothing without a recogniser; a press stops listening, or starts it unless starting throws. |
| VoiceInput.ToggleTwice | components/ui/voice-input.tsx:81-95 | Two presses that both succeed bring the button back to where it was. |
| VoiceInput.HookHandle | components/ui/voice-input.tsx:129-133 | A final transcript is appended after a space; an interim one changes nothing. |
| VoiceInput.HookKeepsOnlyFinals | components/ui/voice-input.tsx:129-137 | After clearing, the transcript is each final text in turn, each after a space; interims leave no trace. |
| VoiceInput.Append | components/ui/voice-textarea.tsx:22-23 | The new value neither starts nor ends with whitespace and is no longer than the value, a space and the text. |
| VoiceInput.AppendJoinsWithOneSpace | components/ui/voice-textarea.tsx:22-23 | Dictating into trimmed text adds the trimmed words after exactly one space. |
| VoiceInput.AppendToEmpty | components/ui/voice-textarea.tsx:22-23 | Dictating into an empty field gives the trimmed text. |
| VoiceInput.TextareaTranscript | components/ui/voice-textarea.tsx:19-29 | A final transcript reports the appended value and clears the preview; an interim one only shows as the preview. |
| VoiceInput.InputFieldTranscript | components/ui/voice-textarea.tsx:69-74 | Only a final transcript changes the value, by the same append rule. |
| VoiceInput.PlainTranscript | components/ui/textarea.tsx:15-30 | Nothing at all without a change handler; otherwise the same rule, a missing value counting as empty. |
| VoiceInput.FieldsAgree | components/ui/textarea.tsx:15-30 | The three fields agree on what a final transcript does to a value. |
| ExportCommon.CheckRequest | app/api/export/csv/route.ts:9-30 | The checks in order: a missing or empty exam id first, then no user, then no exam; only when all pass does the export go on, with the exam found. |
| ExportCommon.StatusCode | app/api/export/excel/route.ts:10-31 | A refusal is sent with 400, 401 or 404. |
| ExportCommon.Sanitize | app/api/export/csv/route.ts:72 | `replace(/[^a-z0-9]/gi, '_')`: same length; letters and digits kept, every other character replaced by `_`. |
| ExportCommon.SanitizedAlphabet | app/api/export/excel/route.ts:90 | A sanitised name holds only ASCII letters, digits and underscores. |
| ExportCommon.SanitizeIdempotent | app/api/export/excel/route.ts:90 | Sanitising twice changes nothing more. |
| ExportCommon.SanitizeKeepsAlnum | app/api/export/excel/route.ts:90 | A name of only letters and digits is kept as it is. |
| ExcelExport.PercentageText | app/api/export/excel/route.ts:51-53 | `0%` for a missing or zero score; otherwise the rounded share of the marks followed by `%`. |
| ExcelExport.RoundedShare | app/api/export/excel/route.ts:52 | `Math.round(score / marks * 100)`: within half a unit of the exact percentage. |
| ExcelExport.RowOf | app/api/export/excel/route.ts:44-56 | `S.No` is the position plus one; the score is the sheet's, 0 when missing; the percentage as above. |
| ExcelExport.Rows | app/api/export/excel/route.ts:44-56 | One row per sheet, in order; no rows when the sheet list is missing. |
| ExcelExport.AverageScore | app/api/export/excel/route.ts:70-73 | 0 without rows; otherwise within half a unit of the mean score. |
| ExcelExport.SummaryOf | app/api/export/excel/route.ts:62-75 | The summary carries the exam's name and marks, the row count and the average score. |
| ExcelExport.Export | app/api/export/excel/route.ts:7-92 | Refused exactly when the request checks fail, with their status code; otherwise the results rows, the summary computed from them and the sanitised `_results.xlsx` name. |
| ExcelExport.IntSumBounds | app/api/export/excel/route.ts:71 | A sum of scores in `[lo, hi]` lies between `n * lo` and `n * hi`. |
| ExcelExport.AverageWithinMarks | app/api/export/excel/route.ts:70-73 | Scores within the exam's marks give an average within them too. |
| ExcelExport.PercentageReadsBack | app/api/export/excel/route.ts:51-53 | A positive score within positive marks prints a percentage between 0 and 100 whose number reads back with `parseInt`. |
| ExcelExport.AgreesWithCsv | app/api/export/excel/route.ts:46-49 | The workbook row and the CSV line of a sheet carry the same roll number, name and score. |
| ExamExport.InsertPermutes | app/dashboard/exams/export-dialog.tsx:37 | Inserting adds exactly the question inserted. |
| ExamExport.InsertSorted | app/dashboard/exams/export-dialog.tsx:37 | Inserting into a sorted list keeps it sorted. |
| ExamExport.SortByNum | app/dashboard/exams/export-dialog.tsx:37 | `sort((a, b) => a.question_num - b.question_num)`: the same number of questions, in ascending number. |
| ExamExport.SortPermutes | app/dashboard/exams/export-dialog.tsx:37 | The sort rearranges the questions: none is lost or added. |
| ExamExport.SortIsStable | app/dashboard/exams/export-dialog.tsx:37 | The sort is stable: the questions with any one number keep their relative order. |
| ExamExport.SortKeepsSorted | app/dashboard/exams/export-dialog.tsx:37 | Questions already in order are left as they are. |
| ExamExport.InsertWithNum | app/dashboard/exams/export-dialog.tsx:37 | Inserting into a sorted list puts the new question after every question with its number. |
| ExamExport.HeaderLines | app/dashboard/exams/export-dialog.tsx:30-35 | Seven lines above the questions: the exam name first, a blank sixth line, then `QUESTIONS:`. |
| ExamExport.Blocks | app/dashboard/exams/export-dialog.tsx:37-39 | One block per question, in order. |
| ExamExport.HeaderReadsBack | app/dashboard/exams/export-dialog.tsx:30-35 | Without line feeds in the exam's fields, the header splits back into its seven lines. |
| ExamExport.ExportText | app/dashboard/exams/export-dialog.tsx:27-51 | The text export writes the header and question blocks under `{name}_Exam.txt`, and leaves the scheme sorted in place when there is one. |
| ExamExport.Underscored | app/dashboard/exams/export-dialog.tsx:42 | `replace(/\s+/g, "_")`: the name never gets longer. |
| ExamExport.UnderscoredHasNoSpace | app/dashboard/exams/export-dialog.tsx:42 | No whitespace is left after the replacement. |
| ExamExport.UnderscoredKeepsPlain | app/dashboard/exams/export-dialog.tsx:42 | A name without whitespace is kept as it is. |
| ExamExport.UnderscoredIdempotent | app/dashboard/exams/export-dialog.tsx:42 | Replacing twice changes nothing more. |
| ExamExport.UnderscoredRun | app/dashboard/exams/export-dialog.tsx:42 | Two words separated by any run of whitespace are joined by exactly one underscore. |
| ExamExport.UnderscoredGap | app/dashboard/exams/export-dialog.tsx:42 | A leading run of whitespace becomes one underscore. |
| ExamExport.Place | app/dashboard/exams/export-dialog.tsx:78-87 | One placement per question; every question starts between the top margin and 270; a first question below 270 moves to the top of a new page. |
| ExamExport.Layout | app/dashboard/exams/export-dialog.tsx:57-87 | The first question is placed on page 1 under the header. |
| ExamExport.PlaceSteps | app/dashboard/exams/export-dialog.tsx:79-86 | Each next question goes on a new page exactly when the one before it ends below 270, and right under it otherwise. |
| ExamExport.PagesAdvanceByOne | app/dashboard/exams/export-dialog.tsx:79-82 | Pages are used in order, at most one more from one question to the next. |
| ExamExport.Finish | app/dashboard/exams/export-dialog.tsx:44-50 | The exporting flag is cleared on success and on failure alike, and the dialog closes only on success. |
| ExamExport.Run | app/dashboard/exams/export-dialog.tsx:100-164 | An export downloads `{name}_Exam.{ext}` exactly when the document writer does not fail and, for Word, the exam has a marking scheme (spreading the missing scheme at line 138 throws); the toast names the format and the outcome; the exporting flag is cleared and the dialog closes only on a download. |
| ExamExport.NoSchemeFailsOnlyForWord | app/dashboard/exams/export-dialog.tsx:27-164 | Without a marking scheme the text and PDF exports still download, while the Word export fails with its error toast. |
| CsvExport.RowCells | app/api/export/csv/route.ts:46-56 | Nine cells, one per header: the roll number (or `N/A`) as id and roll number, the name (or `Unknown`), the student's class unless empty and then the exam's, the exam name, the score (0 when missing), the maximum (null when missing), the status and the date. |
| CsvExport.RowDefaults | app/api/export/csv/route.ts:46-56 | The `student_id` column repeats the roll number; a missing roll number is `N/A`, a missing name `Unknown`, a missing class the exam's class, a missing score 0; the exam name is the fifth cell. |
| CsvExport.RenderCell | app/api/export/csv/route.ts:61-64 | A string cell holding a comma is wrapped in double quotes; every other cell is written as its text. |
| CsvExport.RenderCells | app/api/export/csv/route.ts:61-65 | One rendered text per cell, in order. |
| CsvExport.Lines | app/api/export/csv/route.ts:59-66 | One line more than there are sheets: the header line first, then each sheet's line in order. |
| CsvExport.SheetLines | app/api/export/csv/route.ts:61-65 | The line of each sheet is its rendered row, in the sheets' order. |
| CsvExport.Export | app/api/export/csv/route.ts:6-74 | The request is refused exactly when the checks (exam id, user, exam) fail; a download carries the CSV text of that exam's sheets under the exam's file name. |
| CsvExport.HeaderPlain | app/api/export/csv/route.ts:43 | No header name holds a comma, a quote or a line feed, so the header line needs no quoting. |
| CsvExport.HeaderIsRow | app/api/export/csv/route.ts:60 | `headers.join(',')` is the header names rendered as a row of plain cells. |
| CsvExport.HeaderParses | app/api/export/csv/route.ts:60 | The header line has no line feed and reads back as the nine header names. |
| CsvExport.IntTextPlain | app/api/export/csv/route.ts:52-53 | A number cell's text has no comma, quote or line feed. |
| CsvExport.PlainCell | app/api/export/csv/route.ts:61-64 | A cell that is not quoted is written as text with neither commas nor quotes. |
| CsvExport.ParseCellEnd | app/api/export/csv/route.ts:61-64 | A quote-free cell on its own reads back as its text, whether it was quoted or not. |
| CsvExport.ParseCellThen | app/api/export/csv/route.ts:61-65 | A quote-free cell followed by a comma reads back as its text, then the rest of the line. |
| CsvExport.ParseRenderRow | app/api/export/csv/route.ts:61-65 | A line of quote-free cells reads back as the cells' texts. |
| CsvExport.RowLineFree | app/api/export/csv/route.ts:61-65 | A rendered line holds a line feed only if some cell does. |
| CsvExport.ParseLines | app/api/export/csv/route.ts:61-65 | The sheets' lines read back, line by line, as their cells' texts. |
| CsvExport.ReadsBack | app/api/export/csv/route.ts:59-66 | The header and row lines joined with `\n` split back into the same lines, and read as the header names followed by each row's texts. |
| CsvExport.CsvReadsBack | app/api/export/csv/route.ts:59-66 | When no cell holds a quote or a line feed, the body splits into exactly the header line and one line per sheet, and reads back as the header followed by each sheet's nine texts. |
| CsvExport.QuoteBreaksRecord | app/api/export/csv/route.ts:62-63 | A cell holding both a quote and a comma is written so that the line cannot be read back: quotes inside are not escaped. |
| CsvExport.RenderQuoteComma | app/api/export/csv/route.ts:62-63 | The cell `a",b` is written as `"a",b"`. |
| CsvExport.ParseQuoteComma | app/api/export/csv/route.ts:62-63 | The line `"a",b"` is not a well-formed record. |
| CsvExport.DoubleQuotes | app/api/export/csv/route.ts:62-63 | The doubling of quotes that rule 7 of section 2 of RFC 4180 asks for changes nothing in quote-free text. |
| CsvExport.AgreesWithRfc4180 | app/api/export/csv/route.ts:61-64 | A string cell without quotes or line breaks is written as section 2 of RFC 4180 writes a field. |
| CsvExport.BareQuoteDiffers | app/api/export/csv/route.ts:61-64 | A quote in a cell without a comma is written bare, where section 2 of RFC 4180 quotes the field and doubles the quote. |
| BulkImport.OrValue | app/dashboard/students/bulk-import-dialog.tsx:59 | `a \|\| b` on a cell: a truthy `a` is kept, a falsy one gives `b`. |
| BulkImport.MapRow | app/dashboard/students/bulk-import-dialog.tsx:58-63 | A row becomes a record for the signed-in teacher; each field takes the title-case column when truthy, else the lower-case one when truthy, else `""`; the roll number, class and section are then turned to text. |
| BulkImport.Spelling | app/dashboard/students/bulk-import-dialog.tsx:59-62 | `row.Name \|\| row.name \|\| ""`: the first truthy spelling, or the empty text. |
| BulkImport.MapRows | app/dashboard/students/bulk-import-dialog.tsx:58-63 | One record per row, in order. |
| BulkImport.ValidRecords | app/dashboard/students/bulk-import-dialog.tsx:58-64 | The records kept all have a name, roll number and class and belong to the teacher, and every row whose record has all three is kept. |
| BulkImport.Import | app/dashboard/students/bulk-import-dialog.tsx:33-82 | The upsert happens exactly when a file is chosen, a teacher is signed in and some row is valid, and it writes exactly the valid records; an empty sheet and a sheet without a valid row are told apart. |
| BulkImport.ZeroRollIsDropped | app/dashboard/students/bulk-import-dialog.tsx:60-64 | A roll number of 0 is falsy, becomes `""`, and its row is dropped. |
| BulkImport.MoreRowsKeepMore | app/dashboard/students/bulk-import-dialog.tsx:58-64 | The records kept from two sheets joined are those kept from each, in file order. |
| BulkImport.MapRowsAppend | app/dashboard/students/bulk-import-dialog.tsx:58-63 | Mapping two lists of rows joined is joining their mappings. |
| BulkImport.UpsertKeepsOthers | app/dashboard/students/bulk-import-dialog.tsx:72-74 | The upsert on (roll number, class) leaves every other key's row as it was, and adds no key it does not write. |
| BulkImport.UpsertLastWins | app/dashboard/students/bulk-import-dialog.tsx:72-74 | Applying the records one by one, a record that no later record shares a key with is what the table holds for that key. |
| BulkImport.UpsertStoresEach | app/dashboard/students/bulk-import-dialog.tsx:72-74 | With no key repeated in the batch, every record is stored under its key. |
| BulkImport.Upserted | app/dashboard/students/bulk-import-dialog.tsx:44-82 | A failed statement, or a batch repeating a (roll number, class) key, leaves the table unchanged and shows no toast; otherwise each record is stored under its key, other keys keep their rows, and the success toast counts the records. |
| BulkImport.RepeatedRowImportsNothing | app/dashboard/students/bulk-import-dialog.tsx:72-76 | A file holding the same valid row twice reaches the upsert, and nothing is imported. |
| GradeMerge.StripFences | app/api/gemini/grade/route.ts:112 | The global fence `replace` never makes the reply longer; what it removes is stated by the lemmas below. |
| GradeMerge.StripKeepsPlainPrefix | app/api/gemini/grade/route.ts:112 | Text before the first fence is kept as it is, in front of whatever the rest becomes. |
| GradeMerge.StripPlain | app/api/gemini/grade/route.ts:112-113 | A reply with no fence reaches `JSON.parse` unchanged. |
| GradeMerge.StripCodeBlock | app/api/gemini/grade/route.ts:112-113 | A reply wrapped in a json code block reaches `JSON.parse` as the bare body. |
| GradeMerge.StripOpenFence | app/api/gemini/grade/route.ts:112 | An opening fence at the front is removed. |
| GradeMerge.StripCloseFence | app/api/gemini/grade/route.ts:112 | A closing fence on its own is removed entirely. |
| GradeMerge.StripCloseFenceFront | app/api/gemini/grade/route.ts:112 | A closing fence at the front is removed and the rest stripped as usual. |
| GradeMerge.StripFenceAnywhere | app/api/gemini/grade/route.ts:112 | Wherever the first fence of either kind stands, the text before it is kept, the fence is dropped, and the rest is stripped in turn. |
| GradeMerge.ExtractedText | app/api/gemini/grade/route.ts:130-134 | The text of the first OCR entry with the question's number, `""` when it has none or no entry has that number. |
| GradeMerge.RowOf | app/api/gemini/grade/route.ts:131-142 | An evaluation row carries the question number, the AI score as both the AI and the final score, and the matched OCR text. |
| GradeMerge.Rows | app/api/gemini/grade/route.ts:129-143 | One row per evaluation, in the same order. |
| GradeMerge.Grade | app/api/gemini/grade/route.ts:12-164 | A missing exam, an exam without a marking scheme (read at line 32), a file URL that `new URL` rejects (lines 95 and 98) or an unparsable reply fails with 500 before any write; otherwise the sheet is first updated to `graded` with the reply's score and confidence; it succeeds exactly when the reply has evaluations and, if there are any, OCR text, and fails with only that update otherwise; a feedback record is written only on success with an analysis and a known student. |
| GradeMerge.OneRowPerEvaluation | app/api/gemini/grade/route.ts:129-145 | A successful grading inserts exactly one row per evaluation, with the AI's score as the AI and final score and the same question number. |
| GradeMerge.FeedbackIffAnalysis | app/api/gemini/grade/route.ts:148-158 | On success the feedback record is written exactly when the reply has an analysis and the sheet has a student. |
| Assistant.LastIndexOf | app/api/assistant/route.ts:122 | The position of a `c` with no `c` after it. |
| Assistant.SpanIffBraces | app/api/assistant/route.ts:122-127 | The pattern `\{[\s\S]*\}` matches exactly when some `{` comes before some `}`. |
| Assistant.SpanIsOutermost | app/api/assistant/route.ts:122 | The match runs from a `{` to a `}`, with no `{` before it and no `}` after it: the leftmost, greedy match. |
| Assistant.Parsed | app/api/assistant/route.ts:120-134 | The parsed match when there is one and it parses; otherwise the fallback object that speaks the reply back. |
| Assistant.Reply | app/api/assistant/route.ts:72-147 | 400 exactly for a missing or empty transcript; 500 with the error's message (or the default) and the apology exactly when the model call fails; otherwise `success: true` overlaid with the parsed object. |
| Assistant.ParsedKeysWin | app/api/assistant/route.ts:136-139 | Keys of the parsed object, `success` included, are answered as parsed. |
| Assistant.SuccessUnlessOverridden | app/api/assistant/route.ts:136-139 | Without its own `success`, the answer is marked successful and holds exactly the parsed keys plus `success`. |
| Assistant.PlainReplyIsSpoken | app/api/assistant/route.ts:128-133 | A reply without braces is answered with one `speak` action and a response carrying the reply as it came. |
| Guide.Initial | app/student/guide/guide-client.tsx:28-39 | The page opens with no messages or materials, the initial query typed in, the pre-selected exam chosen, and marked started exactly when there is an initial query. |
| Guide.ToggleMaterial | app/student/guide/guide-client.tsx:141-143 | Toggling a material flips its selection and leaves the exam selection alone. |
| Guide.ToggleExam | app/student/guide/guide-client.tsx:145-147 | Toggling an exam flips its selection and leaves the material selection alone. |
| Guide.Content | app/student/guide/guide-client.tsx:72 | A material contributes its first 3000 characters, or the placeholder when it has no text. |
| Guide.Chosen | app/student/guide/guide-client.tsx:70 | The materials used are exactly the offered ones that are selected. |
| Guide.FindSheet | app/student/guide/guide-client.tsx:86 | `find` by id: a sheet with that id, and none exactly when no sheet has it. |
| Guide.ExamTitle | app/student/guide/guide-client.tsx:86-87 | `Exam: {name} ({subject})`, printing `undefined` for a sheet or exam that is not there and the columns otherwise. |
| Guide.ExamBlock | app/student/guide/guide-client.tsx:80-92 | A selected sheet's part is its exam title, followed by one line per evaluation when the evaluations were read and by nothing when they were not. |
| Guide.EvalLines | app/student/guide/guide-client.tsx:88-92 | No text exactly when there are no evaluations. |
| Guide.EvalLineFields | app/student/guide/guide-client.tsx:90 | An evaluation's line opens with `Q{num}: Score {score}` and ends with `. Feedback: {reasoning}` and a newline, printing `null` for a missing score or reasoning. |
| Guide.EvalLinesSplit | app/student/guide/guide-client.tsx:89-91 | Each evaluation's line stands in place, after the lines of the earlier evaluations and before those of the later ones. |
| Guide.ExamBlocks | app/student/guide/guide-client.tsx:80-92 | No exam text exactly when no exam is selected. |
| Guide.ExamBlocksSplit | app/student/guide/guide-client.tsx:80-92 | Each selected exam's part stands in place, in selection order, between the parts of the exams before and after it. |
| Guide.Context | app/student/guide/guide-client.tsx:65-94 | The context is empty with nothing selected; with materials selected it opens with the materials heading and the blocks of exactly the selected materials; with exams selected it ends with the exams heading and the parts of the selected exams; with only exams it opens with the exams heading. |
| Guide.BlockCarriesLimitedText | app/student/guide/guide-client.tsx:72 | Each material's part names its source and carries at most 3000 characters of its text. |
| Guide.UnselectedIgnored | app/student/guide/guide-client.tsx:70 | A material that is not selected contributes nothing. |
| Guide.AllSelectedKeepsOrder | app/student/guide/guide-client.tsx:70 | With every material selected, all are used in their own order. |
| Guide.Send | app/student/guide/guide-client.tsx:54-116 | Blank input sends nothing; otherwise the question goes out with the earlier history and the context, the input is cleared, and the question is followed by the answer or the apology. |
| Guide.InitialQuerySent | app/student/guide/guide-client.tsx:42-46 | An initial query with text is sent on arrival, as the first message with no history. |
| Kanban.Column | components/student/kanban-board.tsx:71 | A column lists exactly the tasks of its status, in board order. |
| Kanban.Rank | components/student/kanban-board.tsx:17-21 | The position of a column id among the three columns. |
| Kanban.Advance | components/student/kanban-board.tsx:90-92 | The button moves a task to the next column; the last column has no button. |
| Kanban.SetStatus | components/student/kanban-board.tsx:29 | Same length; the tasks with the id get the new status, the others are unchanged. |
| Kanban.MoveTask | components/student/kanban-board.tsx:26-56 | XP (50) is requested exactly when a move to completed is accepted; a refused move rolls back, an accepted one keeps the new status unless the XP request fails. |
| Kanban.MoveTouchesOnlyTarget | components/student/kanban-board.tsx:29 | A move touches only the tasks with the moved id, and only their status. |
| Kanban.MoveBackRestores | components/student/kanban-board.tsx:29 | Moving a task back to the status it had undoes the move. |
| Kanban.ColumnCount | components/student/kanban-board.tsx:66 | The count above a column is the number of tasks of its status. |
| Kanban.ColumnsCover | components/student/kanban-board.tsx:62-71 | The three columns together show every task whose status is a column id, and no other task. |
| Kanban.AdvanceMovesOneCard | components/student/kanban-board.tsx:92 | Advancing a to-do task with a unique id moves exactly one card from To-Do to In Progress. |
| BatchUpload.Initial | components/dashboard/batch-upload-dialog.tsx:45-47 | One pending item per student, in the students' order, with no file. |
| BatchUpload.SelectFile | components/dashboard/batch-upload-dialog.tsx:51-57 | Choosing a file changes only the items of that student, which take the file and become pending; every other item is unchanged. |
| BatchUpload.CountWithFile | components/dashboard/batch-upload-dialog.tsx:173 | The items with a file, as the filter over the list counts them; 0 exactly when no item has a file. |
| BatchUpload.ReadyCount | components/dashboard/batch-upload-dialog.tsx:172-174 | In file mode the items with a file, 0 exactly when none has one; in Drive mode the number of students whose link is not blank after trimming (the size of LinkedStudents), never more than the links, 0 exactly when every link is blank. |
| BatchUpload.LinkedStudents | components/dashboard/batch-upload-dialog.tsx:174 | The students whose Drive link is not blank after trimming, and no one else. |
| BatchUpload.BlankLinkNotReady | components/dashboard/batch-upload-dialog.tsx:174 | A link of only whitespace is not counted ready, although the run (which tests only for an empty link) still tries it. |
| BatchUpload.StoragePath | components/dashboard/batch-upload-dialog.tsx:111-112 | The object name starts with `{exam}/{student}-batch-` and ends with `.` and the last `.`-piece of the file name. |
| BatchUpload.PathKeepsExtension | components/dashboard/batch-upload-dialog.tsx:111-112 | A file `stem.ext` is stored under a name ending in `.ext`. |
| BatchUpload.LastSegmentAfterSep | components/dashboard/batch-upload-dialog.tsx:111 | `split('.').pop()` of `stem.ext` is `ext` when `ext` has no dot. |
| BatchUpload.Process | components/dashboard/batch-upload-dialog.tsx:73-163 | One item ends in success or error, with an error message exactly on error: an empty or missing Drive link and a missing file fail with their fixed messages; a file goes to the storage path; success needs the sheet insert and the grading call to have gone through. |
| BatchUpload.Settle | components/dashboard/batch-upload-dialog.tsx:158-162 | Settling one student's item sets its status and error and leaves every other item unchanged. |
| BatchUpload.Attempts | components/dashboard/batch-upload-dialog.tsx:67-164 | The loop takes every item of the snapshot, in order, each with its own replies. |
| BatchUpload.RunPrefixSettles | components/dashboard/batch-upload-dialog.tsx:67-164 | After the loop has handled the first `n` items, each of them carries its own attempt's status and error and the rest are untouched, the transient `uploading` being overwritten. |
| BatchUpload.RunSettlesAll | components/dashboard/batch-upload-dialog.tsx:67-164 | After the run every item ends in success or error, as its own attempt decided. |
| BatchUpload.ReportedAsWritten | components/dashboard/batch-upload-dialog.tsx:167-168 | The success count as written reads the item list captured when the run began: when none of those items had succeeded before, it reports 0, whatever the run itself did. |
| BatchUpload.StaleCountReportsZero | components/dashboard/batch-upload-dialog.tsx:167-168 | A first run in which the one upload succeeds is reported as 0 successes, where 1 is meant. |
| BatchUpload.Reported | components/dashboard/batch-upload-dialog.tsx:167-168 | The corrected count, read from the items after the run: at most the number of items. |
| BatchUpload.ReportedCountsSuccesses | components/dashboard/batch-upload-dialog.tsx:167-168 | The corrected count equals the number of attempts that succeeded. |
| ParentClaim.ParentsOf | app/api/parent/claim/route.ts:16-20 | The parent lookup returns exactly the rows of the signed-in user, in table order: every row it returns has that user id, and every row with that user id is returned, so `.single()` sees the true count. |
| ParentClaim.StudentsMatching | app/api/parent/claim/route.ts:38-43 | The rows returned are exactly the students whose roll number equals the trimmed input ignoring case and whose date of birth is equal. |
| ParentClaim.MappingsOf | app/api/parent/claim/route.ts:52-57 | The mapping lookup returns exactly the stored mappings of this parent to this student: each returned row is that pair, every such row is returned, and none is returned exactly when the pair is not stored. |
| ParentClaim.ParentIdOf | app/api/parent/claim/route.ts:16-33 | The mapping is written for the signed-in user's own parent row when exactly one exists, and otherwise for the parent just created. |
| ParentClaim.Claim | app/api/parent/claim/route.ts:4-81 | No user gives 401 with no writes; the claim succeeds exactly when a parent is found or created, exactly one student matches and the parent does not already hold exactly one mapping to them; on success the reply names that student and the last write is the mapping with the given relation or `guardian`; a refused claim writes no mapping. |
| ParentClaim.ClaimWritesOneMapping | app/api/parent/claim/route.ts:22-71 | A successful claim writes one mapping, preceded by a parent record only when the user had none. |
| ParentClaim.SecondClaimRefused | app/api/parent/claim/route.ts:52-63 | Once a claim's mapping is stored, claiming the same student again is refused with 400. |
| ParentClaim.MappingsAppend | app/api/parent/claim/route.ts:52-57 | The mapping lookup over two tables joined is the two lookups joined. |
| ParentClaim.UnknownStudentNotFound | app/api/parent/claim/route.ts:45-49 | With a parent in hand, a roll number and date of birth matching no student gives 404. |
| ParentClaim.RollNumberTrimmed | app/api/parent/claim/route.ts:41 | A typed roll number that trims to the stored one in lower case matches that student. |
| Login.Route | app/page.tsx:25-87 | A sign-in error is shown; on the student tab a linked account, or any account whose metadata role is not `teacher`, goes to the student dashboard, while an unlinked teacher is signed out with an error; on the admin tab a `student` role is signed out with an error and everyone else goes to the teacher dashboard. |
| Login.NavigateXorError | app/page.tsx:36-80 | Whenever the sign-in answers, the page either navigates or shows an error, never both, and signs out only alongside an error. |
| Login.TabsKeepTheirSide | app/page.tsx:39-80 | The admin tab never lands on the student dashboard and the student tab never on the teacher dashboard. |
| StudentSignup.Check | app/auth/student-signup/page.tsx:33-51 | The checks pass exactly when the query found a single record whose email is absent, empty or equal ignoring case, and which is not yet linked; they then return that record; a failed or ambiguous query gives the not-found message; a record with a different email is refused with the other-email message before the linked test, and a matching but linked record gives the already-registered message. |
| StudentSignup.Register | app/auth/student-signup/page.tsx:25-90 | A failed check shows its message and never requests an account; the record is linked exactly when the checks pass and the account is created, to that record with the new user id and email; the student dashboard opens exactly when the link succeeds, and a failed link shows its fixed message. |
| StudentSignup.LinkedRecordRejected | app/auth/student-signup/page.tsx:49-51 | A record already linked to an account is never linked again and no account is requested, whatever the email. |
| StudentSignup.EmailCaseIgnored | app/auth/student-signup/page.tsx:45 | Two emails equal up to case pass or fail the checks alike. |
| StudentSignup.NoEmailAcceptsAny | app/auth/student-signup/page.tsx:45 | An unlinked record with no email accepts any email. |
| DriveFetch.Bucket | app/api/drive/fetch/route.ts:33 | Answer sheets go to the `answer-sheets` bucket exactly when the type is `answer_sheet`; everything else goes to `study_materials`. |
| DriveFetch.Extension | app/api/drive/fetch/route.ts:34 | The stored extension is never empty and contains no dot; it is the last dot-separated piece of the Drive name when that piece is non-empty, and the whole name when the name has no dot. |
| DriveFetch.TrailingDotIsBin | app/api/drive/fetch/route.ts:34 | A Drive name ending in a dot is stored with the `bin` extension. |
| DriveFetch.ObjectPath | app/api/drive/fetch/route.ts:36 | The object lies in the user's own folder and ends with `-gdrive.` and the extension. |
| DriveFetch.Fetch | app/api/drive/fetch/route.ts:7-90 | The checks run in order: no API key gives 500, no user 401, a link without a file id 400, each with no writes; the reply is 200 exactly when every step succeeds; a successful import uploads first, and adds a record only for a study material with a known student; a failed upload gives 500 "Upload failed: …" after that one write. |
| DriveFetch.Store | app/api/drive/fetch/route.ts:33-84 | After the download, the upload always comes first, into the type's bucket under the object path; a failed upload stops there with 500; otherwise the reply is 200 and a second write, the study-material record, happens exactly for a study material with a known student. |
| DriveFetch.AnswerSheetHasNoRecord | app/api/drive/fetch/route.ts:53-75 | Importing an answer sheet writes only into the answer-sheets bucket and never creates a study-material record. |
| StudyUpload.Extension | app/actions/study.ts:20 | The recorded extension is the last `.`-separated piece of the file name: a dot-free suffix that, when the name has a dot, directly follows a dot; a name without a dot is its own extension. |
| StudyUpload.ObjectPath | app/actions/study.ts:21-22 | The object lies in the student's folder and ends with a dot and the extension. |
| StudyUpload.ObjectPathExtension | app/actions/study.ts:20-22 | The stored object's name reads back the recorded extension as its last `.`-separated piece. |
| StudyUpload.UploadMaterial | app/actions/study.ts:6-59 | The three guards (no user, no student, no file) fail in that order with their messages and write nothing; past them the upload is the first write; a failed upload fails with "Upload failed: …" and inserts nothing; the record carries the file's text when it is read and the placeholder otherwise; the action succeeds exactly when every step does, and only then revalidates the page. |
| StudyUpload.UpperCaseSuffixNotRead | app/actions/study.ts:40 | The suffix test is case-sensitive: a `.TXT` file of another type is not read. |
| StudyUpload.MarkdownRead | app/actions/study.ts:40 | A `.md` file is read whatever type the browser reports. |

## Left out

- Database, storage, authentication and RPC calls (Supabase, Prisma): their answers are parameters and their writes are returned values. Whether a write actually lands is not modelled.
- The AI model calls (`generateText`, `GoogleGenerativeAI`, the chat routes) and their prompt texts: the replies are parameters. `JSON.parse` is a parameter too, as the parsed value or a failure.
- The Drive metadata and download requests in lib/google-drive.ts and app/api/drive/fetch/route.ts: network calls, modelled as their results.
- Text extraction by `pdf-parse` and reading files with `FileReader`: foreign code, modelled as the text it returns.
- Reading the workbook in the bulk import and writing the XLSX, jsPDF and docx documents: library code. Only the rows handed in and the data handed over are modelled. For the PDF export, the line count that `splitTextToSize` returns is an input.
- The Web Speech recognition and synthesis APIs, `document.cookie` I/O, `window.location`, and `setTimeout` delays and debouncing: browser services, modelled as the events and values they deliver.
- The browser's cookie jar: `Locale.CookieRoundTrip` reads back the exact string the switcher assigns. Attribute handling and other cookies in the jar are not modelled.
- The clock and `Math.random`: the current time, timestamps and random suffixes are parameters.
- Date and locale formatting (`toLocaleDateString`, `toISOString`, date splitting): dates are opaque labels or whole-number timestamps.
- IEEE-754 floating point: numbers are exact reals. `Math.round` is modelled as the floor of x + 1/2. NaN and Infinity appear only where the code visibly produces them.
- Rendering numbers as text covers whole numbers only. Fractional values that reach a string are taken as already rendered.
- `toLowerCase` is modelled for ASCII letters only. This is exact for the `.pdf` suffix test and an approximation for emails and field names with other letters.
- Characters outside the Basic Multilingual Plane: each character is one UTF-16 code unit, so surrogate pairs are not modelled.
- `FormEncoding`: the round trip is stated at the level of UTF-8 bytes. Decoding those bytes back into characters, and the parser's handling of malformed escapes, are not modelled.
- SplitView.NumberOf: `Number()` on text is read only as a whole number after trimming. Decimals, signs, hex and exponents give `None` instead of their value.
- ParentClaim.StudentsMatching: `ilike` is modelled as equality ignoring case. A `%` or `_` in the typed roll number would act as a wildcard in the database and does not here.
- Analytics.SubjectRowsSpec: rows follow the first appearance of each subject. `Object.entries` would list integer-like subject names first, in numeric order.
- Performance.SandboxStats: a missing `total_score` is taken as 0. The page passes the null itself, which the sandbox's additions and subtractions treat as 0.
- VoiceAssistant.Extend: a response is missing, null or text. A number or an object returned by the assistant route, which a template literal would also print, is not modelled.
- GradeMerge.StripFences: its own contract bounds only the length. What it removes and keeps is stated by StripKeepsPlainPrefix, StripFenceAnywhere and the other Strip lemmas.
- `cn`, styling and variant tables, charts, layouts, and the static status and header components: presentation with no decision logic.
- app/dashboard/messages/chat-interface.tsx: a realtime subscription with optimistic inserts, which is concurrency.
- Thin forwarding routes (uploads/student-sources, share-resources, student/import-data, ai-guide/rate, gamify) and the auth pages app/auth/login/page.tsx and app/auth/sign-up/page.tsx: they hold no decision logic.
- The Playwright scripts, environment dumps and connection probes: I/O only.

## Findings

| source | as written | input that shows it | evidently intended | confidence | as-written member | corrected member |
|---|---|---|---|---|---|---|
| components/dashboard/batch-upload-dialog.tsx:167-168 | The closing toast counts successes in `uploadItems` as captured when the handler started. The run's own status updates are not in that copy. | A first run over one student whose upload succeeds: the copy holds one pending item, so the toast reports 0/1 successful. | Count the items that ended the run in success, here 1/1. | not executed | BatchUpload.ReportedAsWritten, shown by BatchUpload.StaleCountReportsZero | BatchUpload.Reported, proved by BatchUpload.ReportedCountsSuccesses |
| app/student/performance/page.tsx:85 | The page renders `PredictiveGradeSandbox`, but none of the page's imports (lines 1-5) brings that component in. | Any student with an approved sheet and non-negative total marks: the maximum is positive, the component is rendered, and the undefined name fails. | Import the sandbox and show it whenever the maximum is positive. | not executed | Performance.SlotAsWritten, shown by Performance.PageFailsAsWritten | Performance.Slot, proved by Performance.SandboxShownUnlessNegativeMarks |
