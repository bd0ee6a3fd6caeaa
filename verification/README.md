# Leave-request bot: a Dafny model of its bookkeeping

The bot takes leave requests from members of a Discord server and lets administrators
review them. A member opens a form, types a reason, a number of days and two dates, and
the bot records a *pending* request. Administrators then approve it, which gives the member
a role named after the duration, or reject it with an optional reason. They can later
cancel an approved leave. They can also attach notes, search the requests, export them as
CSV, and read per-status statistics.

There are two generations of the bot, and both are modelled.

- **The current bot** (`src/`) keeps its data in SQLite. The `leaves` table holds one row
  per request. The `notes` and `status_history` tables hold notes and one row per status
  change. The `settings` table holds the lock flag, the language and the request
  counter from which ids `PL-0001`, `PL-0002`, … are made.
  - A request moves pending → approved or pending → rejected, and approved → cancelled.
  - Button and command handlers guard every write. They check permission, then that the
    request exists, then the status the action needs.
  - The submit button refuses while the system is locked, and when the member has
    already made the weekly number of requests.
- **The legacy bot** (root files) keeps an in-memory JSON object. Its `requests` array is
  mutated in place, and its statuses are Arabic words: pending, accepted and rejected.
  - A submission is refused unless the end date is strictly after the start date.
  - Administrators review a request from the buttons under its review message. That
    message is looked up by its id, and the record is then updated by request id.

## How the model is organised

- The SQL store is the class `LeaveStore.Database`. Its tables are sequences of rows in
  insertion order, and its settings are a map.
  - Every SQL statement is a method that reassigns a table, or a function that filters
    one.
  - A ghost field holds the request counter. The class invariant `Valid` says three
    things: the counter setting is the decimal text of that counter, every stored id was
    issued up to it, and ids are unique.
  - `CURRENT_TIMESTAMP` and "today" are parameters.
  - Timestamps and `YYYY-MM-DD` dates are compared as text, as SQLite compares them.
    Module `Dates` proves that for pattern dates this text order is calendar order.
- The handlers are methods on the store. Each method's contract states both cases:
  - a refused action leaves the store unchanged, and the contract names the refusal;
  - an accepted action changes exactly the rows it should.
- Pure helpers are functions, each with lemmas that tie it to a partner:
  - CSV escaping with unescaping;
  - id formatting with id parsing;
  - button-id building with button-id decoding;
  - the validation chain with a per-check statement of each check.
- The legacy store is the class `LegacyDatabase.DatabaseManager`. Its `requests` field is
  a `RequestList` object, so a caller that holds the list returned by `getAllRequests`
  sorts the store's own array, as the leave-log command does.
- Guild roles are a sequence of `(id, name)` values that the approve paths return
  extended. The id of a newly created role is a parameter.
- Text passed through `t(...)` in messages is represented by its translation key. Module
  `Lang` models `t` itself.

## Model

| member | source | states |
|---|---|---|
| LeaveStore.WithDefaults | src/database/db.js:73-88 | each of system_locked='false', language='ar' and request_counter='0' is added only when its key is absent; every existing key keeps its value; the keys gain exactly those three |
| LeaveStore.WithDefaultsIdempotent | src/database/db.js:72-88 | running the default inserts a second time changes nothing |
| LeaveStore.Database.constructor | src/database/db.js:14-89 | a new database has empty tables, exactly the three default settings, a counter of 0, and satisfies the store invariant |
| LeaveStore.Database.InitDatabase | src/database/db.js:14-89 | settings become the defaults applied to the old settings; the tables are unchanged; a valid store stays valid with the same counter |
| LeaveStore.FormatRequestId | src/database/db.js:96 | an id is "PL-" followed by at least four characters |
| LeaveStore.RequestIdRoundTrip | src/database/db.js:96 | reading the number back out of "PL-" plus the zero-padded counter gives the counter: the padding never loses or changes digits |
| LeaveStore.RequestIdInjective | src/database/db.js:92-97 | different counter values give different ids |
| LeaveStore.CounterTextRoundTrip | src/database/db.js:93-95 | the counter written with toString reads back with parseInt as the same number |
| LeaveStore.NextIdIsFresh | src/database/db.js:92-97 | when every stored id was issued up to the counter, the id made from counter+1 differs from all of them |
| LeaveStore.AppendFreshId | src/database/db.js:100-107 | appending a row with a fresh issued id keeps ids unique and issued |
| LeaveStore.Database.GenerateRequestId | src/database/db.js:92-97 | the counter goes up by exactly one and the setting is rewritten; the id is the formatted new counter and differs from every stored id; the tables are unchanged |
| LeaveStore.NewLeave | src/database/db.js:17-35 | a new row is pending, with null role, message, channel, processor, processing time and rejection reason, and carries the supplied columns with created_at = now |
| LeaveStore.Database.CreateLeaveRequest | src/database/db.js:100-108 | exactly one row is appended, and it carries a fresh id, the next counter value and the column defaults; notes and history are unchanged |
| LeaveStore.Where | src/database/db.js:220-223 | a WHERE clause keeps exactly the stored rows that satisfy it, never more rows than stored |
| LeaveStore.First | src/database/db.js:111-118 | `.get()` is empty exactly when no row satisfies the clause; otherwise it is a stored row that satisfies it |
| LeaveStore.FirstIsHeadOfWhere | src/database/db.js:111-113 | `.get()` returns the first row that `.all()` would return |
| LeaveStore.FirstByUniqueId | src/database/db.js:111-113 | with unique ids, the lookup by a row's id finds that row |
| LeaveStore.Database.GetLeaveRequest | src/database/db.js:111-113 | a row is found exactly when some stored row has the id; the found row is the first stored row with it |
| LeaveStore.Database.GetLeaveRequestByMessage | src/database/db.js:116-118 | a found row carries the message id; no row found means no stored row carries it |
| LeaveStore.Apply | src/database/db.js:121-151 | a status update sets status, processor, processing time and rejection reason and nothing of message, channel or role; the message and role updates change only their own columns; no update touches id, user, reason, duration, dates or creation time |
| LeaveStore.UpdateWhere | src/database/db.js:125-131 | an UPDATE changes every row with the id and leaves every other row as it was, keeping the row count |
| LeaveStore.UpdateKeepsIdentity | src/database/db.js:125-131 | updates never change a row's identity columns, so unique ids stay unique |
| LeaveStore.ReadAfterUpdate | src/database/db.js:121-139 | after an update the lookup by that id shows the change applied to the row found before; lookups by other ids are unaffected |
| LeaveStore.UpdateFreshRow | src/database/db.js:143-151 | an update aimed at a freshly appended row changes that row only |
| LeaveStore.Database.UpdateLeaveStatus | src/database/db.js:121-140 | makes no legality check; the matching row gets the new status, processor, time and rejection reason (null when omitted); for a stored request exactly one history row is appended with its previous status and the result is the row read back; for an unknown id the history table's foreign key refuses the row, so nothing changes and the result is the error (None) |
| LeaveStore.Database.UpdateLeaveMessage | src/database/db.js:143-146 | only message_id and channel_id of the matching row change; the other tables are unchanged |
| LeaveStore.Database.UpdateLeaveRole | src/database/db.js:149-151 | only role_id of the matching row changes; the other tables are unchanged |
| LeaveStore.Database.AddNote | src/database/db.js:229-234 | exactly one note is appended when a request with the id is stored; for an unknown id the notes table's foreign key refuses it and nothing is stored (result false); requests, history and settings are unchanged |
| LeaveStore.OverlapIsIntersection | src/database/db.js:186-197 | when both ranges have start ≤ end, the three containment tests hold exactly when existing.start ≤ end and existing.end ≥ start |
| LeaveStore.Database.CheckOverlappingLeave | src/database/db.js:186-197 | a returned row belongs to the user, is approved and passes one of the three tests; nothing is returned exactly when no stored row does all three |
| LeaveStore.Database.GetRecentRequestsCount | src/database/db.js:215-226 | the number of stored rows of the user created at or after the start of the window (`Count` of the `RecentOf` query, whose rows `Where` characterises), never more than the stored rows |
| LeaveStore.NewerOrSameIsOrder | src/database/db.js:269 | "created_at descending" is a total, transitive order |
| LeaveStore.NewestFirst | src/database/db.js:269 | the ordered list is a permutation of the rows, sorted newest created_at first |
| LeaveStore.OffsetStart | src/database/db.js:274-277 | the offset SQLite applies stays within the list; a negative offset counts as 0 |
| LeaveStore.Window | src/database/db.js:271-278 | LIMIT/OFFSET returns a contiguous slice that starts at the offset, has at most `limit` rows when the limit is not negative, and is cut only by the limit or by the end of the list |
| LeaveStore.WindowSorted | src/database/db.js:271-278 | a slice of a newest-first list is newest first |
| LeaveStore.Search | src/database/db.js:244-281 | every result is a stored row satisfying every supplied filter; with a positive limit there are at most `limit` results |
| LeaveStore.SearchNewestFirst | src/database/db.js:269 | search results are ordered newest created_at first |
| LeaveStore.SearchUnlimited | src/database/db.js:271-278 | without a limit (or with limit 0) nothing is cut: the results are exactly the matching rows, each once; an offset counts only together with a limit |
| LeaveStore.SearchLimited | src/database/db.js:269-278 | with a positive limit the result is the run of the newest-first matches that starts at the offset (negative or missing counts as 0, past the end as the end): exactly `min(limit, matches - start)` of them, the m-th result being match start + m |
| LeaveStore.SearchWithinLimit | src/database/db.js:271-278 | with a positive limit, no offset and no more matches than the limit, every matching row is listed, each once |
| LeaveStore.SearchEverything | src/database/db.js:244-281 | with no filter and no limit, the search lists every stored row once |
| LeaveStore.Database.SearchLeaves | src/database/db.js:244-281 | results are stored rows that satisfy every supplied filter; with a positive limit there are exactly `min(limit, matches - start)` of them; without a limit they are exactly the matching rows, each once |
| LeaveStore.UserLeaves | src/database/db.js:154-168 | one page holds at most `limit` of the user's rows, newest first; total is the user's row count; pages is ceil(total/limit), 0 when total is 0 |
| LeaveStore.CeilDiv | src/database/db.js:165 | the integer (t+l-1)/l is Math.ceil(t/l): 0 for t = 0, otherwise the least p with t ≤ p·l |
| LeaveStore.PagesCoverAll | src/database/db.js:154-168 | the k-th request of the user's newest-first list is entry k mod limit of page k div limit + 1, and that page is within the page count |
| LeaveStore.WindowIndex | src/database/db.js:155-159 | entry m of a page at offset (page-1)·limit is entry offset+m of the ordered list |
| LeaveStore.PageArithmetic | src/database/db.js:155 | the division facts behind the page layout: k = (k div limit)·limit + k mod limit, and page k div limit + 1 ≤ pages |
| LeaveStore.Database.GetUserLeaves | src/database/db.js:154-168 | total is the count of the user's rows, and a page holds at most `limit` stored rows, all of that user; the page is the one `UserLeaves` describes, so it is newest first, starts at offset (page - 1) * limit and carries `ceil(total / limit)` pages |
| LeaveStore.InPeriod | src/database/db.js:288-291 | the created_at range applies only when both bounds are given |
| LeaveStore.StatusCountsAddUp | src/database/db.js:293-297 | the four per-status counts add up to the number of rows |
| LeaveStore.RoundToTenth | src/database/db.js:318 | rounding to one decimal moves the value by at most 0.05 |
| LeaveStore.DistinctUsers | src/database/db.js:307 | GROUP BY user_id lists every user of the rows, each once |
| LeaveStore.GroupName | src/database/db.js:304-307 | the name shown for a group is the username of one of that user's rows |
| LeaveStore.Groups | src/database/db.js:303-310 | one group per distinct user; each group's count is the number of that user's rows and is positive; every user has a group |
| LeaveStore.MoreOrSameIsOrder | src/database/db.js:308 | "count descending" is a total, transitive order |
| LeaveStore.TopFive | src/database/db.js:303-310 | exactly five groups, or all of them when there are fewer, taken from the input, in non-increasing count; when the input lists each user once, so does the result |
| LeaveStore.TopFiveIsTop | src/database/db.js:308-309 | a group left out of the top five has no more approved leaves than any listed one |
| LeaveStore.TopFiveRanks | src/database/db.js:303-310 | the top five lists min(5, number of users with approved leaves) members, each user once, and no user left out has more approved leaves than a listed one |
| LeaveStore.ComputeStatistics | src/database/db.js:284-321 | over the chosen period: total and each status count; total is their sum; the average is 0 when nothing is approved; the top members are min(5, users with approved leaves in the period) distinct users, ordered, each with its true positive count, and nobody left out has more approved leaves than a listed one |
| LeaveStore.Database.GetStatistics | src/database/db.js:284-321 | over the stored rows of the period: total and each status count, total equals approved + rejected + pending + cancelled; the top members are min(5, users with approved leaves) distinct users, ordered, each with its true positive count of approved leaves in the period, and nobody left out has more approved leaves than a listed one |
| LeaveStore.Database.GetAllLeaves | src/database/db.js:324-335 | every request (or those of the period when both dates are given), each once, newest first |
| LeaveStore.Database.GetSetting | src/database/db.js:338-341 | the stored value when the key exists, null otherwise |
| LeaveStore.Database.SetSetting | src/database/db.js:343-345 | the key now maps to the value and reads back as it; every other key and every table is unchanged |
| LeaveStore.Database.IsSystemLocked | src/database/db.js:347-349 | true exactly when the stored value is the text 'true' |
| LeaveStore.Database.SetSystemLocked | src/database/db.js:351-353 | the lock reads back as set, stored as 'true' or 'false'; nothing else changes |
| LeaveStore.Database.GetLanguage | src/database/db.js:355-357 | the stored language when it is non-empty, otherwise 'ar' |
| LeaveStore.Database.SetLanguage | src/database/db.js:359-361 | the language setting is replaced, and a non-empty language reads back |
| Dates.ParseDate | src/handlers/modalHandler.js:45-65 | a date is read only from text matching `^\d{4}-\d{2}-\d{2}$` whose fields name a real calendar day |
| Dates.DateTextIsChronological | src/database/db.js:186-197 | for valid pattern dates, text order is day order and equal text is the same day, so the store's text comparisons compare days |
| Permissions.AdminPermissionMonotone | src/utils/permissions.js:4-21 | gaining permissions or roles never takes the right to manage leaves away |
| Permissions.NoAdminWithoutFlagOrRole | src/utils/permissions.js:4-26 | without Administrator, without ManageRoles and with no admin role configured, nobody may manage leaves |
| Permissions.HeldLimitIsMaximum | src/utils/permissions.js:36-47 | the cap is null exactly when the member holds none of the limited roles; otherwise it is the limit of a held role and at least the limit of every held role |
| Permissions.GetMaxLeaveDuration | src/utils/permissions.js:29-48 | the loop's result is null when no limits are configured, and otherwise the maximum over the held limited roles |
| Lifecycle.RunsAreShort | src/commands/cancelLeave.js:38-58 | under the guarded transitions a request passes through at most three statuses, and the only three-step life is pending, approved, cancelled |
| Lifecycle.NothingAfterFinal | src/commands/cancelLeave.js:38-42 | rejected and cancelled are final |
| Lifecycle.CheckAction | src/handlers/buttonHandler.js:114-136 | an action passes exactly when it is permitted, the request exists and has the required status; the refusal is the first failing guard in the order permission, existence, status |
| ModalHandler.ModalDispatch | src/handlers/modalHandler.js:7-27 | the first matching rule decides, each kind exactly when its rule holds and no earlier one does: the exact leave-form id, then the rejection prefix, then the note prefix, else unknown |
| ModalHandler.DayOf | src/handlers/modalHandler.js:53-65 | a day number exists exactly when the date text names a real day |
| ModalHandler.RunChecks | src/handlers/modalHandler.js:36-115 | success means every check passed and the result is the duration; a mismatch reports the computed day count; an overlap reports the other request's id and dates; a cap refusal reports the cap |
| ModalHandler.ValidateSubmission | src/handlers/modalHandler.js:29-115 | an accepted form has a parseInt duration ≥ 1 equal to the inclusive day span of two real dates, starts no earlier than today, overlaps no approved leave of the member, and respects the cap |
| ModalHandler.FirstFailingCheck | src/handlers/modalHandler.js:36-115 | the checks run in the source's order and stop at the first failure: the error names a failing check and every earlier check passed; success means all checks passed |
| ModalHandler.SameDayLeave | src/handlers/modalHandler.js:83-93 | a leave ending on its start day is accepted with duration 1, and refused with the computed 1 shown for any other positive duration |
| ModalHandler.AcceptedLeaveIsDisjoint | src/handlers/modalHandler.js:95-106 | an accepted leave shares no day with any approved leave of the same member |
| ModalHandler.OverlapNeedsTests | src/handlers/modalHandler.js:96-97 | an approved request of the member is caught by the overlap query exactly when it passes one of the containment tests |
| ModalHandler.NoOverlapMeansDisjoint | src/database/db.js:191-195 | for real date ranges, failing all three containment tests means the ranges share no day |
| ModalHandler.AcceptedFormIsWellDated | src/handlers/modalHandler.js:120-128 | a request created from an accepted form has real dates, start no later than end |
| ModalHandler.Posted | src/handlers/modalHandler.js:144-145 | attaching the review message changes only the message and channel ids |
| ModalHandler.HandleLeaveRequestSubmission | src/handlers/modalHandler.js:29-175 | a refused form changes nothing and returns the validation error; an accepted one appends exactly one pending row under a fresh id, advances the counter by one, and attaches the review message to that same row |
| ModalHandler.HandleRejectionSubmission | src/handlers/modalHandler.js:177-252 | an unknown request is refused with no change; otherwise the request becomes rejected by the actor, with the reason stored (empty as null) and one history row, whatever its previous status |
| ModalHandler.HandleNoteSubmission | src/handlers/modalHandler.js:254-291 | an unknown request is refused with no change; otherwise exactly one note is appended and the request is untouched |
| ButtonHandler.Dispatch | src/handlers/buttonHandler.js:13-45 | the first matching rule decides, each action exactly when its rule holds and no earlier one does: exact submit id, then the approve, reject and add-note prefixes, then the page markers, else nothing |
| ButtonHandler.AdminButtonsRoundTrip | src/utils/embeds.js:56-74 | the three admin buttons of a request reach approve, reject and add-note, and each gives the request id back |
| ButtonHandler.PaginationButtonsDispatch | src/handlers/buttonHandler.js:41-44 | the my-requests page buttons reach page turning |
| ButtonHandler.PaginationIdHasMarker | src/utils/embeds.js:277-282 | a page-button id contains "_prev_" or "_next_" |
| ButtonHandler.HandleSubmitLeave | src/handlers/buttonHandler.js:47-67 | the form is shown exactly when the system is unlocked and the member's recent count is below the cap; the lock is checked first; nothing is written |
| ButtonHandler.NewRequestUsesOneSlot | src/handlers/buttonHandler.js:56-63 | a new request counts once toward its own member's weekly cap, so passing the gate and submitting leaves the member at most at the cap |
| ButtonHandler.LeaveRoleNameInjective | src/handlers/buttonHandler.js:145 | different durations give different role names |
| ButtonHandler.FindRole | src/handlers/buttonHandler.js:146 | the first role with that name, or none exactly when no role has it |
| ButtonHandler.FindOrCreateRole | src/handlers/buttonHandler.js:146-154 | the found role with the roles unchanged, or a new role with that name added |
| ButtonHandler.SameDurationSameRole | src/handlers/buttonHandler.js:145-154 | two approvals with the same duration use the same role, and the second creates nothing |
| ButtonHandler.HandleApprove | src/handlers/buttonHandler.js:112-201 | permission, then existence, then pending; a refusal changes nothing; otherwise the change pending to approved is an allowed transition, the duration's role is found or created, the request becomes approved by the actor with one history row, and then its role id is recorded |
| ButtonHandler.ApprovedReadBack | src/handlers/buttonHandler.js:162-163 | after both writes the request reads approved by the actor, with no rejection reason and the role recorded |
| ButtonHandler.HandleRejectButton | src/handlers/buttonHandler.js:203-247 | the same three guards as approve; on success the rejection form for the same request is shown; nothing is written |
| ButtonHandler.HandleAddNoteButton | src/handlers/buttonHandler.js:249-286 | permission, then existence, with any status accepted; on success the note form for the same request is shown; nothing is written |
| ButtonHandler.RejectionFormRoundTrip | src/handlers/buttonHandler.js:229-232 | the rejection form's id reaches the rejection handler and names the same request |
| ButtonHandler.NoteFormRoundTrip | src/handlers/buttonHandler.js:268-271 | the note form's id reaches the note handler and names the same request |
| ButtonHandler.DecodePageTurn | src/handlers/buttonHandler.js:288-294 | the prefix is the first '_'-separated part of the id |
| ButtonHandler.PageTurnRoundTrip | src/handlers/buttonHandler.js:289-294 | decoding a page button built for page p gives p+1 for next and p-1 for previous |
| ButtonHandler.HandlePagination | src/handlers/buttonHandler.js:288-306 | only the my-requests prefix with a readable page is acted on; the view lists that page's requests in order, with page buttons only when there is more than one page |
| CancelLeave.Execute | src/commands/cancelLeave.js:19-92 | permission, then existence, then approved; a refusal changes nothing; otherwise the request becomes cancelled by the actor with one history row; its role id is kept; removal is attempted exactly when the member is found and a role is recorded; the role-removed log exactly when a role is recorded and the log channel exists |
| SearchRequest.KeepGiven | src/commands/searchRequest.js:64-68 | an option is set exactly when its input is non-empty, and then to that input |
| SearchRequest.BuildSearchOptions | src/commands/searchRequest.js:54-68 | the limit is always 10 with no offset; both date inputs bound the start date |
| SearchRequest.OptionsMeaning | src/commands/searchRequest.js:64-68 | a request matches the built options exactly when it satisfies every non-empty input |
| SearchRequest.Execute | src/commands/searchRequest.js:44-76 | permission comes before any read; min(10, matches) matching stored requests, newest first, one field each, on page 1 of 1; when there are at most ten matches, every one of them is listed |
| ExportLeaves.EscapeCsv | src/commands/exportLeaves.js:52-59 | missing gives ''; a value with a quote, comma or line break is wrapped in quotes; any other value is unchanged |
| ExportLeaves.EscapeRoundTrip | src/commands/exportLeaves.js:54-57 | stripping the outer quotes and halving doubled quotes gives the original value back |
| ExportLeaves.UndoubleQuotes | src/commands/exportLeaves.js:56 | halving doubled quotes undoes doubling every quote |
| ExportLeaves.OrEmpty | src/commands/exportLeaves.js:88-92 | a missing or empty value becomes '' |
| ExportLeaves.RowFitsHeaders | src/commands/exportLeaves.js:62-94 | a row has exactly one cell per header |
| ExportLeaves.RowCellsPlain | src/commands/exportLeaves.js:79-94 | the unescaped cells are the columns in header order; a missing role, processor or processing time is '' |
| ExportLeaves.RowCellsReadBack | src/commands/exportLeaves.js:83-93 | the reason cell and the rejection-reason cell unescape to the stored texts; a missing rejection reason is '' |
| ExportLeaves.HeaderLineIsOneLine | src/commands/exportLeaves.js:62-77 | the header line holds no line break |
| ExportLeaves.SplitLines | src/commands/exportLeaves.js:96 | lines without line breaks, joined with line breaks, split back into the same lines |
| ExportLeaves.CsvLines | src/commands/exportLeaves.js:96 | the file is the header line, then one line per request in the store's order |
| ExportLeaves.ExportRequests | src/commands/exportLeaves.js:31-110 | permission comes before any read; the CSV or JSON content covers exactly the requests of the period, newest first |
| Embeds.AdminButtons | src/utils/embeds.js:56-74 | three enabled buttons whose ids are 'approve_', 'reject_' and 'addnote_' followed by the request id |
| Embeds.PaginationButtons | src/utils/embeds.js:272-289 | previous is disabled exactly when page ≤ 1, next exactly when page ≥ totalPages; their ids carry prefix, direction and page |
| Embeds.EnabledButtonsStayInRange | src/utils/embeds.js:280-285 | from a page in range an enabled button leads to a page in range; a single page disables both |
| Embeds.PaginationIdSplits | src/utils/embeds.js:277-282 | splitting a page-button id on '_' recovers prefix, direction and page when the prefix has no '_' |
| Embeds.RejectedEmbed | src/utils/embeds.js:97-115 | request id, rejecting admin and reason, plus the admin note as a fourth field only when one is given |
| Embeds.AdminNoteShownIffGiven | src/utils/embeds.js:110-112 | the admin-note field is present exactly when a note is given |
| Embeds.MyRequestsEmbed | src/utils/embeds.js:241-269 | an empty list gives only the no-requests description; otherwise one field per request, in order, with the page footer |
| Embeds.SearchResultEmbed | src/utils/embeds.js:308-336 | an empty list gives only the no-results description; otherwise one field per request, in order, with the page footer |
| Embeds.HeadingNamesRequest | src/utils/embeds.js:258 | each listed field's heading begins with its request id |
| Embeds.StatisticsEmbed | src/utils/embeds.js:292-305 | exactly six fields: total, approved, rejected, pending, cancelled, average |
| Embeds.StatisticsCountsReadBack | src/utils/embeds.js:297-301 | the five count fields read back as the counts they show |
| Embeds.RoleRemovedLog | src/utils/embeds.js:199-210 | the role field mentions the role, or reads 'N/A' exactly when there is no role id |
| Lang.CurrentLanguage | src/utils/lang.js:22 | the explicit language, else the stored one, else 'ar' |
| Lang.LanguageTable | src/utils/lang.js:23 | the chosen language's table, else the 'ar' table |
| Lang.GetLanguageData | src/utils/lang.js:48-51 | an explicit loaded language gives its own table; no table only when 'ar' is not loaded |
| Lang.Member | src/utils/lang.js:30-31 | a segment is found in an object exactly when it is a key; a text, number, boolean or null value has no members |
| Lang.WalkAppend | src/utils/lang.js:29-35 | walking a dotted path in two parts is walking the first part, then the second from there |
| Lang.WalkStopsAtMissing | src/utils/lang.js:29-35 | once a segment is missing nothing deeper is found |
| Lang.NoPlaceholderUnchanged | src/utils/lang.js:38-42 | a text without '{' comes back unchanged whatever the replacements |
| Lang.Translation | src/utils/lang.js:37-44 | a missing key gives the key itself; a found non-text value is returned as is; with no replacements the found value is returned unchanged |
| Lang.WalkKeys | src/utils/lang.js:26-35 | the key loop ends on the value reached by walking every segment, or on nothing as soon as one is missing |
| Lang.SubstituteAll | src/utils/lang.js:38-42 | the replacement loop replaces each entry's placeholder in turn, in entry order |
| Lang.T | src/utils/lang.js:21-45 | the result is the translation of the value reached by walking the key's segments through the chosen table |
| Lang.TopLevelKey | src/utils/lang.js:26-31 | a key without dots is looked up directly in the table |
| LegacyDatabase.NewRequest | database.js:52-66 | a new record is pending, with no processing time, no role and no notes; its review-message id is set exactly when a non-empty one is given; the submitted fields are kept |
| LegacyDatabase.FirstIndex | database.js:77 | the index of the first matching record, or the length when none matches |
| LegacyDatabase.Find | database.js:76-85 | undefined exactly when no record matches; otherwise the first matching record in stored order |
| LegacyDatabase.Filter | database.js:90-92 | exactly the records the test accepts |
| LegacyDatabase.FilterConcat | database.js:91 | filtering keeps stored order: it distributes over concatenation |
| LegacyDatabase.StatusSet | database.js:105-111 | status and processing time are set; the role is replaced only when a non-empty one is given; nothing else changes |
| LegacyDatabase.NoteAdded | database.js:123-129 | one note is appended to the record's notes; nothing else changes |
| LegacyDatabase.ReadAfterReplace | database.js:104-116 | after replacing the first record with an id, that id reads the new record and other lookups are unaffected |
| LegacyDatabase.FindAfterAppend | database.js:51-78 | appending a record leaves a successful lookup unchanged, and a failed one finds the new record only if it matches |
| LegacyDatabase.DatabaseManager.constructor | database.js:9-31 | without a data file the store starts with no requests and no saved messages |
| LegacyDatabase.DatabaseManager.AddRequest | database.js:51-71 | exactly one record, the new one, is appended at the end; earlier records are unchanged |
| LegacyDatabase.DatabaseManager.GetRequest | database.js:76-78 | the first record with the id, or undefined exactly when none has it |
| LegacyDatabase.DatabaseManager.GetRequestByManagementMessage | database.js:83-85 | the first record of that review message, or undefined exactly when none has it |
| LegacyDatabase.DatabaseManager.GetUserRequests | database.js:90-92 | exactly that user's records, in stored order |
| LegacyDatabase.DatabaseManager.GetAllRequests | database.js:97-99 | the live list object itself, not a copy |
| LegacyDatabase.DatabaseManager.UpdateRequestStatus | database.js:104-116 | an unknown id returns null and changes nothing; otherwise only the first record with the id gets the status, the time and (when given) the role, and is returned |
| LegacyDatabase.DatabaseManager.AddAdminNote | database.js:121-134 | an unknown id returns null and changes nothing; otherwise exactly one note is appended to the first record with the id |
| LegacyDatabase.DatabaseManager.SaveEmbedMessage | database.js:139-142 | the channel's message id reads back as saved; other channels are unaffected |
| LegacyDatabase.DatabaseManager.GetEmbedMessage | database.js:147-149 | the saved id, or undefined exactly when none was saved |
| LegacyUtils.IsValidDateFormat | utils.js:11-17 | true exactly when the text is 10 characters matching YYYY-MM-DD and names a real day |
| LegacyUtils.CalculateDaysDifference | utils.js:25-31 | a number exactly when both dates are valid (NaN otherwise) |
| LegacyUtils.DaysDifferenceSymmetric | utils.js:25-31 | the difference does not depend on the order of the arguments |
| LegacyUtils.DaysDifferenceZero | utils.js:25-31 | for valid dates the difference is 0 exactly when the dates are equal |
| LegacyUtils.DaysDifferenceInOrder | utils.js:25-31 | for valid dates in order the difference is the later day number minus the earlier |
| LegacyUtils.TruncateText | utils.js:63-66 | text no longer than the maximum (default 100) is unchanged; longer text becomes its first maximum characters followed by '...' |
| LegacyUtils.PositiveIntegerMeaning | utils.js:126-129 | the check holds exactly when Number(value) is a whole number above zero |
| LegacyUtils.CanonicalTextIsPositiveInteger | utils.js:126-129 | every positive whole number written in plain digits passes, and Number reads it exactly |
| LegacyUtils.NotPositiveIntegers | utils.js:126-129 | '0', '-3' and '2.5' do not pass |
| LegacyUtils.StatusToEmoji | utils.js:98-105 | ⏳, ✅ and ❌ for the three statuses, '❓' for anything else |
| LegacyUtils.StatusToColor | utils.js:112-119 | orange, green and red for the three statuses, '#808080' for anything else |
| LegacyUtils.StatusTablesDistinguish | utils.js:98-119 | each table tells the three statuses apart from each other and from any other text |
| JsNumber.IntegerValue | utils.js:126-129 | a value exists exactly when Number.isInteger holds, and it is positive exactly when the number is above zero |
| JsNumber.NumberOfNatToString | utils.js:126-129 | Number reads the plain decimal text of a natural number back exactly |
| LegacyInteractions.ButtonDispatch | events/interactionCreate.js:29-59 | the three independent tests: exact submit id, accept prefix, reject prefix |
| LegacyInteractions.ReviewButtonsDispatch | events/interactionCreate.js:190-198 | the accept and reject buttons of a review message reach their own paths |
| LegacyInteractions.StoredDurationAsWritten | events/interactionCreate.js:214 | the stored duration is parseInt of the text |
| LegacyInteractions.ExponentDurationMisread | events/interactionCreate.js:143-147 | "1e2" passes the positive-integer check as 100, yet parseInt stores 1 |
| LegacyInteractions.SubmittedDuration | events/interactionCreate.js:143-147 | the duration exists exactly when the check passes, and is the positive whole number that Number reads |
| LegacyInteractions.DurationReadingsAgree | events/interactionCreate.js:210-218 | for a duration typed in plain digits both readings give the same number |
| LegacyInteractions.ValidateLegacySubmission | events/interactionCreate.js:143-161 | duration first, then both dates, then end strictly after start; success exactly when all pass, and the result is the checked duration |
| LegacyInteractions.SameDayRefused | events/interactionCreate.js:157-161 | a leave that ends on its start day is refused; an accepted form's end date is later than its start date |
| LegacyInteractions.ProcessLeaveRequest | events/interactionCreate.js:132-256 | a refused form, a missing review channel or a failed send adds nothing; otherwise exactly one pending record is appended after the review message is sent, carrying that message's id and the checked duration |
| LegacyInteractions.ReviewGuard | events/interactionCreate.js:266-280 | a review goes on exactly when the record exists and is pending; otherwise not found, or already processed with its status |
| LegacyInteractions.LegacyRoleName | events/interactionCreate.js:286 | 'يوم' for a one-day leave, 'أيام' otherwise |
| LegacyInteractions.LegacyRoleNameInjective | events/interactionCreate.js:286-296 | leaves of different durations never share a role |
| LegacyInteractions.AcceptLeaveRequest | events/interactionCreate.js:261-379 | a refused review changes nothing; otherwise the duration's role is found or created before the member is fetched; the record becomes accepted with the role name, updated by its id |
| LegacyInteractions.RoleById | events/interactionCreate.js:414 | a role with that id, or none exactly when no role has it |
| LegacyInteractions.RejectRole | events/interactionCreate.js:407-424 | the role named for rejections, else the configured role, else a new role with the rejection name appended to the roles; only that last case adds a role |
| LegacyInteractions.RejectLeaveRequest | events/interactionCreate.js:384-503 | the same guards as accept; then the record becomes rejected with the rejection role's name |
| LegacyInteractions.ReviewedOnce | events/interactionCreate.js:275-280 | once accepted or rejected, a record is refused by both review paths |
| LegacyCommands.SubmittedNewerOrSameIsOrder | commands/leave-logs.js:44 | "submitted later first" is a total, transitive order |
| LegacyCommands.NewestSubmittedFirst | commands/leave-logs.js:44 | the sorted list is a permutation of the records, newest submission first |
| LegacyCommands.CountPermutation | commands/leave-logs.js:54-56 | a count depends on which records there are, not on their order |
| LegacyCommands.CountAppend | commands/leave-logs.js:54-56 | appending a record raises exactly the count of its own status, by one |
| LegacyCommands.StatusCountsAddUp | commands/leave-logs.js:54-56 | the three counts add up to at most the number of records, and to exactly that number when every status is one of the three |
| LegacyCommands.StatusFilter | commands/leave-logs.js:29 | the filter option, or 'all' when it is not given |
| LegacyCommands.Selected | commands/leave-logs.js:29-35 | 'all' keeps every record; any other filter keeps exactly the records with that status |
| LegacyCommands.FilteredCounts | commands/leave-logs.js:33-56 | under a status filter every selected record counts under that status and none under any other |
| LegacyCommands.StatusIcon | commands/leave-logs.js:70 | ✅ accepted, ❌ rejected, ⏳ anything else |
| LegacyCommands.StatusIconAgreesWithEmoji | commands/leave-logs.js:70 | on the three statuses the icon is the status emoji; on an unknown status it is ⏳ where the emoji table gives '❓' |
| LegacyCommands.LogReason | commands/leave-logs.js:73 | the first 50 characters, followed by '...' exactly when the reason is longer |
| LegacyCommands.EntryOf | commands/leave-logs.js:68-76 | a listed entry shows the request's id, member, status, icon and truncated reason |
| LegacyCommands.Summarize | commands/leave-logs.js:46-80 | the total and the three counts of the selection; at most five entries, for the first five records in order; the number of further records exactly when there are more than five |
| LegacyCommands.LeaveLogs | commands/leave-logs.js:29-80 | an empty selection gives only the no-requests reply; otherwise the newest-first summary; with 'all' the store's own array ends up sorted |
| LegacyCommands.LogCountsOfSelection | commands/leave-logs.js:44-56 | the counts shown are those of the selected records, whatever order they are in |
| LegacyCommands.CardColor | commands/my-requests.js:37-39 | green accepted, red rejected, orange anything else |
| LegacyCommands.CardColorAgreesWithTable | commands/my-requests.js:37-39 | on the three statuses the card colour is the status colour; on an unknown status it is orange where the colour table gives grey |
| LegacyCommands.CardOf | commands/my-requests.js:36-74 | icon and colour by status; an empty reason shows 'غير محدد'; the processing-time and role fields appear exactly when set |
| LegacyCommands.MyRequests | commands/my-requests.js:17-83 | no records gives only the empty reply; otherwise the total, the cards of the ten newest in order, and the latest-ten note exactly when there are more than ten |
| LegacyCommands.CardsAreTheMembers | commands/my-requests.js:18-34 | every card is one of the member's own stored records |

## Left out

- Discord itself is not modelled. This covers sending, editing and fetching messages, DMs,
  role assignment and removal, channel lookup, command registration, and `showModal`.
  - A channel that exists, a member that was found, a sent message and its id, and a
    created role's id are parameters.
  - The legacy form's `maxLength` of 3 on the duration input is a Discord limit and is not
    enforced by the model.
- SQLite and files are not modelled. This covers better-sqlite3, the data directory,
  `saveData`/`loadData` with the delayed `setImmediate` write, `loadLanguages` and its
  file reads, and a `database.json` that already exists. Tables and the JSON data are
  in-memory values.
- The clock is an input:
  - CURRENT_TIMESTAMP, `new Date().toISOString()`, `Date.now()` ids and the `Math.floor(Date.now()/1000)` log timestamp are parameters;
  - "today" is a date;
  - the start of the 7-day window is the text `since`.
  - Local-midnight versus UTC parsing of the start date is not represented.
- `Dates.ParseDate`: JavaScript Date leniency is abstracted. A date is valid exactly when
  its fields name a real Gregorian day, so rollover such as 02-30 is treated as invalid.
- `LeaveStore.RoundToTenth`: the average duration is computed on exact reals, so the
  floating-point value of the average and of its rendering is not modelled.
- `LegacyUtils.CalculateDaysDifference`: it reads only text that matches YYYY-MM-DD.
  Other text that `new Date` accepts is treated as NaN.
- `JsNumber.NumberOf`: `Number()` is modelled on exact decimals. Double rounding is not
  modelled, so '1e400' is a finite integer here where JavaScript gives Infinity, and
  '1.0000000000000001' is not an integer here where JavaScript rounds it to 1.
- The export's JSON branch is represented by the list of requests it serialises.
  `JSON.stringify` and the export filename are not modelled.
- Ties are not specified. Requests with equal created_at or submittedAt, and top members
  with equal counts, come out in some stable order, not necessarily the database's.
- Configuration parsing in `src/config.js` is not modelled. The weekly cap, the admin role,
  the role limits and the configured reject role are parameters.
- `Lang.T`: a key or a placeholder name that collides with `Object.prototype` members, or
  contains regular-expression characters, is not modelled. Placeholders are replaced as
  literal `{name}` text.
- `LegacyUtils.StatusToEmoji` and `LegacyUtils.StatusToColor`: lookups of
  `Object.prototype` names such as 'toString' are not modelled.
- `LegacyUtils.TruncateText`: strings are sequences of Unicode code points, so lengths and
  the cut point are counted in code points. JavaScript counts UTF-16 code units: text with
  characters outside the Basic Multilingual Plane is cut at a different place there, and
  the cut may split a surrogate pair.
- `LegacyCommands.LogReason`: the 50-character limit is counted in code points, for the
  same reason as `LegacyUtils.TruncateText`, where JavaScript counts UTF-16 code units.
- `LeaveStore.Database.AddNote` and `LeaveStore.Database.UpdateLeaveStatus`: for an unknown
  request id the source raises a foreign-key error from the insert. The model stores nothing
  and returns false or None in its place; the exception's propagation to the caller is not
  represented. The modelled handlers check that the request exists before either call.
- `LeaveStore.GroupName`: SQLite takes the bare `username` column of a `GROUP BY user_id`
  group from an unspecified row of the group. The model promises only that it is one of
  the user's own usernames and picks the first stored row; a member who changed name may
  be shown under another of their names by the database.
- `ButtonHandler.HandlePagination`: a page that parses as NaN gives no update here. In the
  source, the database query would then run with a NaN page.
- Exceptions raised inside the handlers' `try` blocks are not modelled beyond the branches
  the model names. Examples are a member fetch that throws in the legacy review paths, or
  a failed message edit.
- Legacy request objects are values. A caller holding one request object while another
  caller mutates it is not represented; the list object itself is shared.
- `getPendingLeaves`, `getApprovedLeaves`, `getLeavesEndingSoon`, `getNotes` and
  `getStatusHistory` are not modelled. Apart from the clock they are one-line reads,
  and no modelled handler calls them.
- `LeaveStore.Database.GetUserLeaves`: it requires a positive limit. Every caller passes
  the default of 5; a limit of 0 would divide by zero in `Math.ceil(total / limit)`.
- `LeaveStore.Database.SetSetting`: the store invariant is kept only for keys other than
  the request counter. Writing the counter through setSetting is allowed but not
  constrained.
- The relative creation time in the my-requests list (`<t:…:R>`) is represented by the
  stored created_at text.
- The text of the legacy replies is not modelled. The leave log and the my-requests
  listing are represented by values that carry what the text shows: counts, entries,
  cards and notes.
- `LegacyInteractions.ProcessLeaveRequest` stores the duration that the positive-integer
  check accepted, not `parseInt` of the text. See Findings.
- `ModalHandler.HandleRejectionSubmission`: it does not re-check that the request is still
  pending, as in the source. A request approved between the button and the form is
  therefore rejected over its approval.
- Modal construction and the legacy `handleModal` dispatch, a single exact-id test, are
  not modelled separately.

## Findings

| source | as written | input that shows it | evidently intended | confidence | as-written member | corrected member |
|---|---|---|---|---|---|---|
| events/interactionCreate.js:143-214 | the duration is validated with `Number` (isPositiveInteger) but stored with `parseInt`, so the stored number can differ from the validated one | duration text "1e2" passes the check as 100 days and is stored as 1 (likewise "0b1" passes as 1 and is stored as 0); both fit the form's three-character limit | store the whole number the check accepted | medium, not executed | LegacyInteractions.ExponentDurationMisread | LegacyInteractions.SubmittedDuration |
