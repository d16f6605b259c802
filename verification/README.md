# Todo-AI task service and analyzer, modelled in Dafny

Todo-AI is a small web service that keeps a to-do list per user. A user types free text such
as "need to buy milk, call mom in 2 hours" or "gym is done". An analyzer turns that text into
an *analysis* record. The request handler then changes the task table accordingly and answers
with the user's listing.

This project models the two parts of the service that hold real logic.

- **The analyzer** (`app/llm_processor.py`, module `Analyzer`). The language-model call is
  not modelled: its reply is an input (`OracleReply`). The model covers what happens after
  the reply arrives:
  - the defaults for a decoded record;
  - the `create` post-processing: one draft per comma-separated item, title normalisation, and
    the `<N> hr|hour|hrs|hours` duration scan, with the clock reading passed in;
  - the keyword fallback for a reply that is not JSON (`basic_cleanup` and the action
    classifier);
  - the error records.
- **The task service** (`app/main.py`, module `TodoService`). The `todos` table is a
  `TodoStore` object holding a sequence of rows in row order. Its methods are the branches of
  `process_input`:
  - create, mark complete or incomplete, the field update, rename, query, delete, error and
    invalid action;
  - the two-stage title matcher `find_matching_todo`;
  - the owner-scoped listing `get_filtered_todos` / `get_todos_response`.

  Each method is proved equal to a pure effect function (`Effect(store, response)`). The
  lemmas state what each action promises about the table and the answer.

Supporting modules:
- `Values`: `Option`, and a JSON key that is absent, null or present.
- `Text`: ASCII models of the Python `str` operations used.
- `Patterns`: the four regular expressions, as scans proved against a description of what
  they match.
- `Clock`: the `%Y-%m-%d %H:%M:%S` layout that `strptime` reads and `strftime` writes.

Behaviour reproduced as the code has it:
- **The rename branch cannot be reached.** `process_input` tests `"update"` twice, and the
  field-update branch comes first. `Rename` is modelled as its own operation. `RenameUnreachable` shows that every `update`
  goes to the field update, and `RenameUnreachableExample` shows a request the rename would
  serve ending in status 500 instead.
- **The field update is not owner-scoped.** It looks the row up by exact title across all
  users (`UpdateReachesOtherUsersRows`).
- **The field update needs a key the analyzer never writes.** It reads `todo_info`, so an
  analysis without that key ends in status 500.
- **Uncaught exceptions become status 500.** An exception raised outside the handler's `try`
  blocks is the framework's status 500, modelled as `ServerError`. Examples: `KeyError`,
  `TypeError`, and `.lower()` on a null title.
- **A null priority gets the column default.** SQLAlchemy leaves a `None` value out of the
  `INSERT`, so the row takes the column default priority 1.
- **A null title is searched as text.** `f"{None}"` is `"None"`, so `find_matching_todo`
  searches for the text `None` when the title it was given is null.

## Model

| member | source | states |
|---|---|---|
| Values.Get | app/main.py:142 | `d.get(k)` yields a value exactly when the key is present with a non-null value |
| Text.ToLower | app/main.py:82 | lower-casing a character leaves no upper-case letter and keeps it a space, word or digit character exactly when it was one |
| Text.ToUpper | app/llm_processor.py:289 | upper-casing a character leaves no lower-case letter and keeps its character class |
| Text.LowerIdempotent | app/llm_processor.py:269 | lower-casing an already lower-cased text changes nothing |
| Text.CapitalizeIdempotent | app/llm_processor.py:224 | `capitalize()` applied twice equals applied once |
| Text.DropLeading | app/llm_processor.py:289 | the result is a suffix of the input that does not start with a character of the class, and every dropped character belongs to the class |
| Text.DropTrailing | app/llm_processor.py:289 | the result is a prefix that does not end with a character of the class, and every dropped character belongs to the class |
| Text.StripIsTrimmedInfix | app/main.py:180 | `strip()` returns a contiguous piece of its input, only whitespace is cut on either side, and the piece neither starts nor ends with whitespace |
| Text.TrimmedInfix | app/main.py:180 | cutting a leading and then a trailing run of one character class leaves a contiguous piece of the input, and everything cut belongs to the class |
| Text.Words | app/llm_processor.py:224 | every piece `split()` returns is non-empty and free of whitespace |
| Text.WordsOfJoin | app/llm_processor.py:224 | splitting the single-space join of whitespace-free words gives the words back |
| Text.WordsDropLeading | app/llm_processor.py:224 | leading whitespace does not change what `split()` returns |
| Text.WordsConsChar | app/llm_processor.py:224 | a non-blank character put in front of a text is a word of its own when the text is empty or starts with whitespace, and otherwise joins the text's first word |
| Text.Split | app/llm_processor.py:211 | `split(",")` returns at least one piece |
| Text.SplitSpec | app/llm_processor.py:211 | `split(sep)` gives one piece more than there are separators, no piece holds the separator, and joining the pieces with it restores the text |
| Text.RemoveAllChanges | app/main.py:178-179 | `replace(w, "")` never lengthens the text, shortens it when `w` occurs, and leaves it unchanged exactly when `w` does not occur |
| Text.ContainsPastFirst | app/main.py:178-179 | when `w` does not occur at the start of a text, it occurs in the text exactly when it occurs after the first character |
| Text.NatToString | app/llm_processor.py:246 | `str(n)` is a non-empty string of digits |
| Text.NatToStringRoundTrip | app/llm_processor.py:246 | `int(str(n)) == n`, and `str(n)` has no leading zero unless `n` is 0 |
| Patterns.HitAtIff | app/llm_processor.py:240 | the greedy test at a position succeeds exactly when the duration expression matches there (digits, optional blanks, then hr, hour, hrs or hours), and group 1 is then the whole digit run |
| Patterns.ScanHoursSpec | app/llm_processor.py:240-243 | the scan finds nothing exactly when the expression matches nowhere; otherwise it returns `int(group(1))` of the leftmost match |
| Patterns.ScanHoursAtLeftmost | app/llm_processor.py:240-243 | given the leftmost match, the scan returns its number |
| Patterns.RemoveBoundedChanges | app/llm_processor.py:270-271 | removing `\bw\b` never lengthens the text and leaves it unchanged exactly when `w` occurs nowhere as a whole word |
| Patterns.RemoveBoundedClears | app/llm_processor.py:270-271 | for a word that starts and ends with a word character and never holds two non-word characters side by side, removing `\bw\b` leaves no whole-word occurrence of `w` anywhere in the text |
| Patterns.RemoveBoundedFromClears | app/llm_processor.py:271 | the left-to-right substitution, from any scan position, leaves no whole-word match in its output, taking the character before that position as the left neighbour |
| Patterns.ScanKeepsPrefix | app/llm_processor.py:271 | output of the substitution that begins with a text free of adjacent non-word characters and ending in a word character was copied unchanged from the source at that position |
| Patterns.CollapseSpaceSpec | app/llm_processor.py:274 | after `\s+` becomes one space, no two whitespace characters are adjacent, every whitespace character is a plain space, and emptiness and a leading blank are as in the input |
| Patterns.CollapseSpaceKeepsWords | app/llm_processor.py:274 | replacing every whitespace run by one space leaves `split()` unchanged |
| Patterns.StripKeepsBlanks | app/llm_processor.py:274 | `strip()` keeps the text free of whitespace runs and of whitespace other than spaces |
| Patterns.TrimNonWordSpec | app/llm_processor.py:275 | removing the leading and trailing runs of non-word characters returns a piece of the input that is empty or starts and ends with a word character, and cuts only non-word characters |
| Patterns.TrimKeepsBlanks | app/llm_processor.py:275 | that removal keeps the text free of whitespace runs and of whitespace other than spaces |
| Clock.DaysIn | app/main.py:150 | every month `strptime` accepts has 28 to 31 days |
| Clock.Pad | app/llm_processor.py:245 | a zero-padded field has exactly the requested width and only digits |
| Clock.PadValue | app/llm_processor.py:245 | reading a padded number back gives the number |
| Clock.ValuePad | app/main.py:150 | a digit field is the padding of its own value |
| Clock.StampAccepted | app/main.py:149-150 | `strptime` accepts what `strftime` writes exactly when the fields form a valid instant, and reads the same fields back |
| Clock.AcceptedIsStamp | app/main.py:150 | every text `strptime` accepts is what `strftime` writes for the instant read |
| Clock.FieldValue | app/main.py:150 | a field holding the zero-padded form of a number reads back as that number |
| Clock.JoinedFields | app/main.py:150 | a text with the layout's length and separators is its six fields joined by those separators |
| Analyzer.NormalizeTitleWords | app/llm_processor.py:224 | the words of a normalised title are the original's words, each capitalised, in order |
| Analyzer.NormalizeTitleIdempotent | app/llm_processor.py:224 | normalising a normalised title changes nothing |
| Analyzer.PiecesCount | app/llm_processor.py:209-213 | there is one list item per comma-separated piece, that is one more than the number of commas, and one item without a comma |
| Analyzer.BuildDrafts | app/llm_processor.py:218-250 | the loop yields the items' drafts, one per item, in item order |
| Analyzer.PostProcessCreate | app/llm_processor.py:208-254 | the create post-processing as written equals its specification `CreateResult` |
| Analyzer.CreateOneDraftPerItem | app/llm_processor.py:208-254 | a decoded `create` with a readable first draft replaces `todos` with one draft per item, each built from the first draft and its item; `ui_action` defaults to `add_item`; the other keys are kept |
| Analyzer.CreateWithoutFirstDraftFails | app/llm_processor.py:220-224 | a `create` whose first draft is missing or has a null title raises and yields the generic error record |
| Analyzer.ShapedDraftFromFirst | app/llm_processor.py:220-237 | every draft takes title, priority and category from the first draft; its own item is the title only when the first draft has none; the title is normalised |
| Analyzer.ShapedDraftWithoutDuration | app/llm_processor.py:227-241 | with no duration in the item, the draft keeps the first draft's due date (or null) and description (or the title) |
| Analyzer.ShapedDraftDueIn | app/llm_processor.py:240-246 | with a duration N at the leftmost match, the due date is `now` + N hours, overriding the oracle's, and the description is `"<Title> (Due in N hours)"` |
| Analyzer.DecodedOtherwiseUnchanged | app/llm_processor.py:204-208 | any decoded record other than a `create` is returned as it was, with a missing `todos` set to the empty list |
| Analyzer.TidyShape | app/llm_processor.py:274-275 | after the last cleanup steps the text is empty or starts and ends with a word character, with only single spaces inside |
| Analyzer.BasicCleanup | app/llm_processor.py:263-276 | the cleanup loop equals its specification and returns a text of that shape |
| Analyzer.ActionWordsShaped | app/llm_processor.py:265-267 | every action word starts and ends with a word character and holds no two non-word characters side by side |
| Analyzer.CleanupStepClears | app/llm_processor.py:270-271 | after the cleanup's step for an action word, that word occurs nowhere in the text as a whole word |
| Analyzer.Classify | app/llm_processor.py:280-286 | the classifier answers `delete`, `mark_complete` or `create` |
| Analyzer.ClassifyDeleteFirst | app/llm_processor.py:280-286 | for every input, the action is `delete` exactly when a delete keyword occurs in the lower-cased input, whatever completion keyword occurs beside it |
| Analyzer.ClassifyIncomplete | app/llm_processor.py:280-286 | for every input that holds "incomplete" and no delete keyword, the action is `mark_complete`, because "incomplete" holds "complete" and the tests are substring tests |
| Analyzer.IncompleteHoldsComplete | app/llm_processor.py:285 | a text holding "incomplete" holds "complete" |
| Analyzer.ClassifyNoKeyword | app/llm_processor.py:280-286 | for every input, the action is `create` exactly when no keyword of either list occurs in the lower-cased input |
| Analyzer.FallbackFromCleaned | app/llm_processor.py:289-307 | the capitalised cleaned name is empty exactly when the cleaned text is, and fixes the fallback record's content |
| Analyzer.FallbackOutcome | app/llm_processor.py:257-307 | a non-JSON reply with a non-empty name gives exactly one draft: that name, priority 1, null description, due date and category, the classifier's action, `ui_action` `add_item` exactly for `create`; an empty name gives the "failed to understand" error with the decoder's message |
| Analyzer.Analyze | app/llm_processor.py:200-314 | the analyzer as written equals `AnalysisOf` for every reply, and no reply makes it raise |
| Analyzer.AnalysisNeverEmpty | app/llm_processor.py:200-314 | every record handed back holds an `action` or a `todos` key |
| TodoService.NextId | app/models.py:32 | a new row's id is positive and above every existing id |
| TodoService.VisibleSpec | app/main.py:289-296 | the listing holds exactly the rows the user may see, in row order, no more rows than the table, with ids still ascending |
| TodoService.AdminSeesAll | app/main.py:291-293 | an administrator's listing is the whole table |
| TodoService.ListingShowsOwnTasks | app/main.py:283-310 | with no user the listing is empty and asks to log in; otherwise every own task appears and every entry is a task the user may see |
| TodoService.FirstLike | app/main.py:69-72 | the query stage only returns one of the user's rows |
| TodoService.FirstLikeSpec | app/main.py:69-72 | the query stage finds nothing exactly when no row of the user's contains the text, ignoring case; otherwise it returns the first such row |
| TodoService.ScanWords | app/main.py:76-84 | the word stage only returns one of the user's rows |
| TodoService.ScanWordsSpec | app/main.py:76-84 | the word stage returns the first of the user's rows whose title holds a search word; it fails exactly when all of them are passed over; it raises only at a null title reached first |
| TodoService.Matching | app/main.py:66-86 | `find_matching_todo` only ever returns one of the user's own rows |
| TodoService.MatchingPrefersWholeText | app/main.py:68-74 | when some row of the user's contains the whole text, the first such row is the match |
| TodoService.MatchingByWords | app/main.py:74-86 | otherwise the match is the first of the user's rows holding a search word; none is found exactly when every such row is passed over; a null search title raises |
| TodoService.FindMatching | app/main.py:66-86 | the matcher's query and loop as written equal `Matching` |
| TodoService.RemoveEachChanges | app/main.py:177-179 | dropping the words never lengthens the input and leaves it unchanged exactly when none occurs |
| TodoService.ResolveTitle | app/main.py:169-182 | the title lookup as written, dropping words one at a time, equals `SearchTitle` |
| TodoService.CreateBatch | app/main.py:121-136 | the batch to create, when it can be formed, is never empty |
| TodoService.FirstTitled | app/main.py:198 | the exact-title lookup returns a row with that title, or nothing exactly when no row has it |
| TodoService.AppendKeepsIds | app/main.py:139-154 | appending a batch keeps row ids positive and ascending |
| TodoService.RemoveKeepsIds | app/main.py:270-271 | removing a row keeps row ids positive and ascending |
| TodoService.RenameKeepsIds | app/main.py:233-236 | renaming keeps row ids positive and ascending |
| TodoService.ProcessKeepsIds | app/main.py:88-274 | every request keeps row ids positive and ascending |
| TodoService.CreateAllOrNothing | app/main.py:138-164 | a create failure answers the create error and leaves the table unchanged; a success keeps every row, appends one per draft, and its message counts them |
| TodoService.CreateNewRows | app/main.py:139-152 | each new row belongs to the user, is not completed, and has its draft's title, its draft's description, its draft's due date as stored (an empty text as null, a computed instant as that instant), its priority (default 1) and a fresh id |
| TodoService.CreateStoresDueIn | app/main.py:139-152 | a draft due N hours after `now` is stored due at exactly that instant, with the "(Due in N hours)" description: the create round trip for a duration item |
| TodoService.CreateRejectsUnreadableDue | app/main.py:149-150 | a draft whose due text is not in the zero-padded `%Y-%m-%d %H:%M:%S` layout makes the whole batch fail, with no row added |
| TodoService.StampedDueAccepted | app/main.py:149-150 | a due date written by `strftime` for a valid instant with a four-digit year passes the `strptime` check and is stored as written |
| TodoService.CreateFromRawInput | app/main.py:130-136 | with no drafts and no `todo_info`, the raw input becomes one task, as title and description, priority 1 |
| TodoService.MarkChangesOnlyMatch | app/main.py:166-193 | a status change answers a listing exactly when the search title resolves and `find_matching_todo` finds a row; it then sets the flag of that very row, one of the user's own, changes nothing else and answers the listing of the new table with the status message (`get_todos_response`); no match answers 404 naming the searched title; an unresolvable title or a raising matcher answers 500; failures leave the table unchanged |
| TodoService.DeleteRemovesOnlyMatch | app/main.py:245-272 | a deletion answers a listing exactly when the search title resolves and `find_matching_todo` finds a row; it then removes that very row, one of the user's own, keeps the rest in order and answers the listing of the new table with the deletion message; no match answers 404 naming the title; an unresolvable title or a raising matcher answers 500; failures leave the table unchanged |
| TodoService.PatchRules | app/main.py:195-210 | the field update rewrites only the first row, of any user, with the exact title, assigning the given values of the five modelled keys and keeping its id, owner and flag; no such row answers 404; failures change nothing |
| TodoService.RenameRules | app/main.py:212-238 | fewer than two drafts answers 400 and a draft without a title 500; with both titles, the rename succeeds exactly when `find_matching_todo` finds a row for the first title and no other row of the user holds the new one; a raising matcher answers 500, no row answers 404 naming the title, a taken title answers 400 and changes nothing; a success renames exactly the row the matcher found, one of the user's own, answers the listing of the new table, and no other row of the user then holds the new title |
| TodoService.ProcessFailuresKeepStore | app/main.py:88-274 | a request that does not answer with a listing leaves the table unchanged; a query answers the listing and changes nothing |
| TodoService.ErrorPassedOn | app/main.py:101-102 | an error record is passed on as a failure carrying its message, with the table unchanged |
| TodoService.UnknownActionRejected | app/main.py:274 | an action the dispatcher does not know, null included, answers 400 and changes nothing |
| TodoService.MissingActionCreatesInput | app/main.py:104-112 | a record without `action` or drafts creates one task titled with the raw input, priority 1 |
| TodoService.CreateKeepsOthers | app/main.py:139-154 | create leaves other users' rows as they were |
| TodoService.MarkKeepsOthers | app/main.py:185-192 | a status change leaves other users' rows as they were |
| TodoService.DeleteKeepsOthers | app/main.py:264-271 | delete leaves other users' rows as they were |
| TodoService.ReplaceKeepsOthers | app/main.py:185-192 | replacing one of a user's rows by another of theirs keeps every other user's rows |
| TodoService.RemoveKeepsOthers | app/main.py:264-271 | removing one of a user's rows keeps every other user's rows |
| TodoService.ProcessKeepsOtherUsersRows | app/main.py:88-274 | every action but `update` leaves other users' rows as they were |
| TodoService.UpdateReachesOtherUsersRows | app/main.py:195-210 | the field update changes another user's task |
| TodoService.RenameUnreachable | app/main.py:195-212 | every `update` request is served by the first `update` branch, the field update, so a request without `todo_info` ends in status 500 |
| TodoService.RenameUnreachableExample | app/main.py:195-238 | a rename request the second branch would serve (two drafts naming an existing task and a new title) ends in status 500 instead |
| TodoService.AnalysisNeverEmptyRecord | app/main.py:98-99 | the analyzer never hands over an empty record, so the "failed to process" answer never happens |
| TodoService.FallbackCreatesNamedTask | app/main.py:116-159 | a non-JSON reply whose fallback name is non-empty and whose classifier answers `create` adds one task with that name, priority 1 |
| TodoService.CreateOneDraft | app/main.py:139-158 | a `create` carrying one titled draft with priority 1 appends exactly that task with the message "Created 1 todo successfully" |
| TodoService.TodoStore.constructor | app/main.py:28-34 | the table starts empty |
| TodoService.TodoStore.Create | app/main.py:116-164 | the create branch's effect on the table and its answer equal `CreateEffect`, and row ids stay ascending |
| TodoService.TodoStore.SetCompletion | app/main.py:166-193 | the status branch equals `MarkEffect`, and row ids stay ascending |
| TodoService.TodoStore.PatchByTitle | app/main.py:195-210 | the field-update branch equals `PatchEffect`, and row ids stay ascending |
| TodoService.TodoStore.Rename | app/main.py:212-238 | the rename branch equals `RenameEffect`, and row ids stay ascending |
| TodoService.TodoStore.Delete | app/main.py:245-272 | the delete branch equals `DeleteEffect`, and row ids stay ascending |
| TodoService.TodoStore.Process | app/main.py:94-274 | `process_input` on an analysis equals `ProcessEffect` and keeps row ids ascending |
| TodoService.TodoStore.HandleRequest | app/main.py:88-114 | the endpoint, analyzer included, equals `ProcessEffect` of `AnalysisOf`, and keeps ids ascending |

## Left out

- The language-model call and the prompt (`app/llm_processor.py:19-200`) are not modelled. The reply is an input: unavailable, not JSON, JSON that is not an object, or a decoded record.
- `json.loads` is not modelled. A decoded record is typed: strings where strings are expected, an integer priority. A reply whose values have other types is not modelled.
- Only the keys the core reads are carried. `filters`, `view_options` and any other key are dropped, and so are `todo_info` keys beyond title, description, due date, priority and category.
- EmptyRecord: a record holding only keys outside the modelled ones counts as empty here, whereas Python would treat it as non-empty. The analyzer never produces one.
- The clock is a parameter. A computed due instant is kept as seconds (`At`), and the conversion from seconds to calendar fields is not modelled. The create branch accepts an `At` due date without a check; `TodoService.StampedDueAccepted` shows that the text `strftime` would write for it passes the check whenever its year has four digits.
- `datetime.now()` is read once per list item (`app/llm_processor.py:244`). The model reads one `now` for the whole request, so two items of one request cannot get different clock readings.
- The `except ValueError` around the duration (`app/llm_processor.py:247-248`) is not modelled. On an interpreter that limits integer-string conversion (CPython 3.11 and later, default 4300 digits), `int()` of a longer digit run raises `ValueError`; the source then passes over the duration and the draft keeps the oracle's due date and description. See the `ShapedDraftDueIn:` line.
- A decoded oracle record is not checked for `At` due dates. JSON can only carry a due date as text, so a decoded record never holds one; the model does not rule them out.
- CleanupStepClears: the absence of an action word is stated right after its own removal step, not for the cleaned text. The whitespace step can rebuild one: `\s+` turns "need  to" (two blanks) into "need to".
- ShapedDraftDueIn: the model reads a digit run of any length and any size. In the source, a run of more than 4300 digits (the default conversion limit of CPython 3.11 and later) makes `int()` raise `ValueError`, which is caught, so the draft keeps the oracle's due date and description where the model sets `now + N` hours and "(Due in N hours)". A shorter run whose hours reach past year 9999 raises `OverflowError` in `timedelta` or in the addition; that is not a `ValueError`, so the outer handler turns it into the generic error record, while the model still sets the due date.
- CreateRejectsUnreadableDue: `strptime` accepts more than the zero-padded layout. A space in the format matches any run of whitespace, so `2024-01-05  09:03:07` (two blanks) and `2024-01-05\t09:03:07` (a tab) are read. Unpadded fields such as `2024-1-5 9:3:7` are read too. The model rejects all of these, so for such a due text the lemma predicts a failed batch where the service would add the rows.
- PatchRules: the field update assigns every non-null key of `todo_info` that names a column (`app/main.py:203-207`). A reply carrying `id`, `user_id` or `completed` there would rewrite those too. The model carries only title, description, due date, priority and category, so it keeps the id, owner and flag.
- PatchAccepted: the model accepts only the `YYYY-MM-DD HH:MM:SS` layout as the due text of a field update. `fromisoformat` accepts other ISO layouts as well.
- Regular expressions and `lower()` are modelled on ASCII only. Non-ASCII letters, digits and whitespace are not.
- `ilike` is an ASCII case-insensitive substring test. The wildcards `%` and `_` inside a searched title are not modelled.
- FastAPI routing, templates, static files, login and token issuance are not modelled. The signed-in user is a parameter of every request.
- Deleting the database file and seeding users at start-up are not modelled; the table simply starts empty.
- The `created_at` and `updated_at` columns are not carried. Categories are left out as well: nothing in the core creates one, so every listed category is null.
- `print` logging is not modelled.
- The outer `except Exception` of `process_input` (`app/main.py:113-114`), which answers "Failed to process request: …", is not modelled. `analyze_input` catches every exception itself and the steps after it cannot raise, so that branch is never reached.
- The rendering of a listing entry is abstracted. A due date is carried as the stored value (`Written` text or `At` seconds), not as the string `due_date.isoformat()` gives (`app/main.py:305`), and no JSON encoding of the entries is modelled.
- The `except` branch of `get_filtered_todos` is not modelled. Reading rows from the model's table cannot fail.
- Rows are returned in row order. That is SQLite's order when a query has no `ORDER BY`; other databases may differ.
