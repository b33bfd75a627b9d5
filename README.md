# Practice tracker core, modelled in Dafny

This project models the decision logic of a coding-practice tracker. The
tracker has a Flask backend (`backend/app.py`) and a Next.js front end. The
model covers these parts:

- **Study groups.** The `users`, `groups` and `group_members` tables form an
  object (`Backend.Store`). The register, create, join, leave, details and
  member-listing endpoints are its methods. Each method runs its checks in the
  source's order and refuses with the first that fails, leaving the tables
  untouched. Otherwise it makes exactly the source's inserts and deletes. All
  methods keep one invariant:
  - a user is in at most two groups;
  - no group is over its `max_members`;
  - no (group, user) pair appears twice;
  - every row refers to an existing group and user;
  - each group holds its creator as its only admin;
  - invite codes and group names are distinct.
- **Problem tracker.**
  - the points each difficulty is worth;
  - the clause and value lists `update_problem` builds;
  - the running total of `analytics_points_over_time`;
  - the null-to-zero total of `analytics_summary`.
- **Model-facing helpers.** The language model's replies are inputs here.
  - the check that accepts a candidate name from the model's reply;
  - the topic test of `suggest_problems` and its stripping of markdown fences;
  - the stage dispatch, hint tier and conversation context of `solve_problem`.
- **Front end.** `getApiUrl`, and the registration page's `handleChange` and
  submit validation. Both copies of the page are modelled: `pages/register.js`
  and `frontend/pages/register.js`.

The Python and JavaScript string built-ins these use are modelled in `Text`:
`strip`, `split`, `split('\n')`, `startswith`, `lower` and `in`.

Files:

- `wrappers.dfy`: `Option` and `Result`.
- `text.dfy`: the string built-ins.
- `api_url.dfy`: `getApiUrl`.
- `register_form.dfy`: the registration page.
- `problems.dfy`: the problem tracker.
- `assistant.dfy`: the model-facing helpers.
- `group_tables.dfy`: the tables as values, their queries and the integrity
  rules.
- `backend_store.dfy`: the endpoints as methods of `Backend.Store`.

## Model

| member | source | states |
|---|---|---|
| ApiUrl.GetApiUrl | frontend/utils/api.js:7-12 | The result always starts with "/". It ends with the given endpoint and is at most one character longer. |
| ApiUrl.EmptyEndpointIsRoot | frontend/utils/api.js:8 | A missing or empty endpoint gives "/". |
| ApiUrl.NonEmptyEndpoint | frontend/utils/api.js:11 | An endpoint starting with "/" comes back unchanged. Any other non-empty endpoint gets one "/" in front. |
| ApiUrl.Idempotent | frontend/utils/api.js:7-12 | Normalising twice equals normalising once. |
| RegisterForm.HandleChange | pages/register.js:17-22 | The named field takes the new value. Every other field keeps its value, and no field is lost. |
| RegisterForm.ValidationError | pages/register.js:29-42 | "All fields are required" is reported exactly when a field is empty. "Passwords do not match" exactly when all are filled and they differ. "Password must be at least 6 characters" exactly when they match and are under 6 UTF-16 units. No error exactly when all three checks pass. |
| RegisterForm.HandleSubmit | pages/register.js:26-51 | The error is cleared at the start. The form is untouched. A request goes out exactly when validation passes. On refusal the message is shown and loading is unchanged. On success loading turns on and the body carries name, email and password, without the confirmation. |
| RegisterForm.SubmitRootPage | pages/register.js:47-51 | The root page posts to "http://localhost:5000/api/register", and only after validation passes. |
| RegisterForm.SubmitFrontendPage | frontend/pages/register.js:26-53 | The front-end copy runs the same checks and posts to "/api/register", the `getApiUrl` result. |
| RegisterForm.JsLengthBounds | frontend/pages/register.js:41 | A password's JavaScript length lies between its character count and twice that. |
| RegisterForm.ChangeKeepsOtherMissing | frontend/pages/register.js:19-34 | Typing into one field cannot clear the "All fields are required" error caused by another empty field. |
| RegisterForm.InitialFormIncomplete | pages/register.js:8-13 | The freshly mounted form fails the first check. |
| Problems.Points | backend/app.py:240 | Every difficulty is worth 10, 25 or 50. 25 exactly for "Medium" and 50 exactly for "Hard", so anything else is 10. The same table is used at line 286. |
| Problems.BuildUpdate | backend/app.py:273-303 | Refused with "No fields to update" exactly when no selected column exists. Otherwise the clauses are those of the selected columns and the values are bound to them, followed by the problem id. |
| Problems.ClausesAlignWithBindings | backend/app.py:276-297 | Clauses and values have one entry per column, aligned position by position. A difficulty's points value is `Points` of that difficulty. |
| Problems.SixTestsSelectColumns | backend/app.py:276-297 | The six `if` tests, one after another, append exactly the selected columns in column order. |
| Problems.ClauseOrderAndPresence | backend/app.py:276-297 | Clauses appear in the order number, name, difficulty, points, topic, summary, notes. A column appears exactly when its key is in the body. The points clause appears exactly when the difficulty is in the body. |
| Problems.SelectedColumnsOrdered | backend/app.py:276-297 | Filtering a rank-ordered column list keeps exactly the selected columns, still in rank order. |
| Problems.CumulativePoints | backend/app.py:413-420 | One entry per daily row, with that row's date. Each entry is the sum of the totals so far. The first entry is the first total, each later entry is the previous one plus its day's total, and the last is the sum of all totals. |
| Problems.RunningTotalMonotone | backend/app.py:413-420 | With no negative daily total, the running total never decreases. |
| Problems.SummaryTotalPoints | backend/app.py:454 | A NULL sum is reported as 0, and any other sum as itself. |
| Problems.SummaryIsSum | backend/app.py:447-454 | The reported total is the plain sum of the user's points, and 0 when the user has no problems. |
| Problems.SummaryMatchesLastRunningTotal | backend/app.py:405-454 | When the per-day rows partition the user's problems, the summary total equals the last running total. |
| Assistant.NonBlank | backend/app.py:93 | The comprehension keeps at most as many lines as it is given. |
| Assistant.NonBlankTrimmed | backend/app.py:93 | Every line the comprehension keeps is stripped and non-empty. |
| Assistant.FirstLines | backend/app.py:92-93 | At most five lines are kept, each stripped and non-empty. |
| Assistant.CandidateName | backend/app.py:92-117 | The result is either "the candidate" or the stripped reply. The reply is used only when the resume has a non-blank line among its first five and the reply has 1 to 4 words and fewer than 50 characters. It is always used in that case. |
| Assistant.FirstLinesEmptyIffBlank | backend/app.py:92-96 | The resume yields no line to ask about exactly when its text is all whitespace. |
| Assistant.BlankReplyRejected | backend/app.py:106-113 | A blank reply is never accepted as a name. |
| Assistant.AcceptedNameIsTrimmed | backend/app.py:106-111 | An accepted name is non-empty and carries no surrounding whitespace. |
| Assistant.TopicIgnoredIffNone | backend/app.py:767 | A given topic is ignored exactly when it is empty or spells "none" in any letter case. |
| Assistant.StripFencesAsWritten | backend/app.py:805-814 | The source's stripping: the text handed to the parser is empty or trimmed, and never longer than the reply. |
| Assistant.StripFences | backend/app.py:805-814 | The corrected stripping: the text handed to the parser is empty or trimmed, and never longer than the reply. |
| Assistant.Suggest | backend/app.py:737-814 | A missing API key refuses first (500), then a missing or zero user id (400). The request succeeds exactly when both checks pass. The topic is named in the prompt exactly when the topic test passes. The text handed to the JSON parser is the reply with its fences stripped by the corrected stripping. |
| Assistant.FencedReplyRoundTrip | backend/app.py:808-814 | Take a trimmed, fence-free body, fenced as "```json" … "```", with any whitespace before the tag. Stripping gives back the body. |
| Assistant.UnfencedReplyStripped | backend/app.py:806-808 | A reply not starting with a fence is only stripped. |
| Assistant.AsWrittenTagRightAfterFence | backend/app.py:808-814 | The source's stripping also gives back the body when the tag directly follows the fence. |
| Assistant.FenceTagMisread | backend/app.py:811-813 | With a space before the tag, the source's stripping hands "n\n" + body to the parser. The corrected stripping gives the body. |
| Assistant.SolvePrompt | backend/app.py:843-932 | Checks run in order: missing API key (500), an empty problem (400), then a stage that is not one of explain, hint, feedback or solution (400). A `null` or other non-string stage is such a stage. The request succeeds exactly when all three pass. An omitted stage or "explain" gives the explanation prompt. "hint", "feedback" and "solution" give their own prompts, each exactly for its stage. A hint's tier follows the hint count. Every stage but explain carries the conversation transcript. Feedback carries the stripped student input. |
| Assistant.Transcript | backend/app.py:866-877 | The context has at most one turn per message. |
| Assistant.HintCount | backend/app.py:884-887 | The hint count never exceeds the number of messages. |
| Assistant.TierFor | backend/app.py:889-908 | No hints so far gives the first tier, one the second, two the third, and three or more the final tier. |
| Assistant.TranscriptAppend | backend/app.py:866-877 | The context of a longer conversation extends that of the shorter one, turn by turn. |
| Assistant.TranscriptStep | backend/app.py:870-875 | A user message adds a student turn and an assistant message adds a mentor turn. A message with any other role adds nothing. |
| Assistant.HintCountAppend | backend/app.py:884-887 | Hint requests over two stretches of conversation add up. |
| Assistant.HintTierProgresses | backend/app.py:884-908 | A student message mentioning "hint" raises the count by one. Any other message leaves it. So the tier never goes down. |
| Tables.Count | backend/app.py:58-61 | A count never exceeds the number of rows. |
| Tables.Drop | backend/app.py:1299-1302 | The rows kept are exactly those that do not match the deletion. |
| Tables.RoleOf | backend/app.py:1265-1269 | A role found belongs to a row of that group and user. |
| Tables.MembersOf | backend/app.py:1235-1243 | The listing has at most one entry per row, and every entry's user has a user row. |
| Tables.CountAppend | backend/app.py:58-61 | Counting over appended rows adds up. |
| Tables.CountZeroIff | backend/app.py:58-61 | A count is zero exactly when no row matches. |
| Tables.CountDrop | backend/app.py:1299-1302 | Deleting rows never raises a count. It leaves a count unchanged when no deleted row is counted. |
| Tables.RoleOfFound | backend/app.py:1263-1269 | A role is found exactly when the pair has a row, and it is that row's role. |
| Tables.RoleOfAppend | backend/app.py:1106-1109 | Inserting rows does not change a role already found. |
| Tables.RoleOfDrop | backend/app.py:1299-1302 | Deleting other pairs' rows does not change a pair's role. |
| Tables.MembersOfExact | backend/app.py:1232-1241 | The listing holds exactly the group's members that have a user row, each with that user's name and the member's role. |
| Tables.MembersOfCount | backend/app.py:1232-1241 | When every member has a user row, the listing has one entry per member. |
| Tables.MoreUsersKeepValid | backend/app.py:143-148 | Adding users keeps every integrity rule. |
| Tables.CreateKeepsValid | backend/app.py:1018-1031 | Adding a fresh group with an unused name and code, plus its creator as admin, keeps every integrity rule. The creator must exist and be in fewer than two groups. |
| Tables.JoinKeepsValid | backend/app.py:1106-1110 | Adding a member row that passed the join checks keeps every integrity rule. |
| Tables.LeaveKeepsValid | backend/app.py:1299-1302 | Deleting an ordinary member's row keeps every integrity rule. |
| Tables.DeleteGroupKeepsValid | backend/app.py:1290-1292 | Deleting a group with its member rows keeps every integrity rule. |
| Backend.TruncateCode | backend/app.py:66 | A code is at most 20 characters and a prefix of its draw, and a short draw is kept whole. |
| Backend.Present | backend/app.py:982 | A body `user_id` passes exactly when it is given and not 0. The same test is at lines 1059 and 1259. |
| Backend.FirstUnused | backend/app.py:65-70 | A code found is one of the candidates and no group uses it. |
| Backend.FirstUnusedSpec | backend/app.py:65-70 | A found code is an unused candidate and every earlier candidate was in use. No code is found exactly when every candidate is in use. |
| Backend.Store.GenerateInviteCode | backend/app.py:64-70 | The loop returns the first of at most five truncated draws that no group uses, or none. |
| Backend.Store.Register | backend/app.py:121-161 | Refused (400) exactly when name, email or password is empty. Refused (409) exactly when the email is registered. Succeeds exactly when neither holds, adding one user under the next id. The invariant, including unique emails, is kept. |
| Backend.Store.CreateGroup | backend/app.py:973-1049 | Each refusal happens exactly when the earlier checks pass and its own fails, in order: user id and name, max_members a number, positive, user exists, under two groups, name free, a non-empty invite code found. Success happens exactly when every check passes. It adds exactly one active group under the next id, with the creator as its only member and admin. The invariant is kept. |
| Backend.Store.JoinGroup | backend/app.py:1052-1127 | Each refusal happens exactly when the earlier checks pass and its own fails, in order: fields, user exists, under two groups, an active group has the code, not full, not yet a member. The capacity check comes before the duplicate check. Success happens exactly when every check passes. Any refusal leaves the rows unchanged. Success appends exactly one `member` row. The invariant is kept. |
| Backend.Store.LeaveGroup | backend/app.py:1254-1311 | Missing user id gives 400, a non-member 404. An admin with other members is refused with nothing changed. A sole admin deletes the group and its rows. An ordinary member deletes only their own row. The invariant is kept. |
| Backend.Store.GetGroupDetails | backend/app.py:1166-1211 | A missing or empty `user_id` gives 400, a non-member 403, a missing group 404. Success happens exactly when the caller is a member of an existing group. The invite code is shown exactly when the caller is admin. `user_role` is the caller's role, and the member count is the group's row count. |
| Backend.Store.ListGroupMembers | backend/app.py:1214-1251 | A missing or empty `user_id` gives 400, a non-member 403. Success happens exactly when the caller is a member. The listing is `MembersOf` the rows: the group's rows in joined order, each with its user's name and role, one entry per row. |
| Backend.ListingCountsMembers | backend/app.py:1232-1241 | In a valid store the listing has one entry per member row. |

## Left out

- Flask routing, JSON parsing, the database connection and SQL text are not modelled. Each query is read as an operation on the tables. Each request is one atomic step, so races between check and insert are not modelled, and neither are the two commits of `create_group`.
- `leave_group`'s admin path deletes only the `groups` row in the source. The model also deletes that group's `group_members` rows. This assumes the schema's foreign key cascades, because the schema is not part of this model.
- Groups are created active, which assumes the column default. No endpoint deactivates a group.
- Name and email uniqueness use exact string equality. The database's collation may compare case-insensitively.
- JSON-body `user_id` is an optional integer, and 0 counts as missing, as Python's truthiness has it. A string `user_id` in a JSON body is not modelled: the source lets any non-empty string through, "0" included, and the database then compares it with the integer column.
- The query-string `user_id` of `get_group_details` and `list_group_members` is missing, empty, or the id the database reads the text as when it compares it with `user_id`. How the database converts text that is not a plain number is not modelled.
- Backend.Store.CreateGroup: `max_members` arrives already converted by `int()`. The truncation of a float and the parsing of a numeric string are not modelled.
- Password hashing (werkzeug), `secrets.token_urlsafe`, the Gemini calls and PDF text extraction are foreign. The hash, the random draws and the model replies are parameters. The reply passed to `CandidateName` is `None` when the call raised.
- `login`, `list_my_groups`, `add_problem`, the notes endpoints, resume upload and analysis, the leaderboard and the other analytics queries are not part of this core.
- The prompt texts themselves are not modelled. A prompt is represented by its stage, tier, problem, student input and transcript, and the solved-problem list is not modelled.
- Assistant.Suggest: it hands the parser the corrected stripping, `StripFences`. The source's own stripping is `StripFencesAsWritten`; the two differ when whitespace precedes the "json" tag (see Findings), where the source's parse fails and it answers 200 with no recommendations and the raw text.
- Backend.Store.GenerateInviteCode: the draws stand for the five calls to `secrets.token_urlsafe`. Given fewer than five draws, it tries only those.
- Assistant.Suggest: a non-string `topic` makes `lower()` raise (500) in the source. The model takes the topic as an optional string.
- Assistant.SolvePrompt: an explicit `null` problem or user input makes `strip()` raise (500) in the source. The model takes them as strings.
- After the request, `handleSubmit` logs in, stores the session in `localStorage`, redirects and finally clears `loading`. These HTTP and browser effects are not modelled.
- Dates are strings already formatted by `strftime`.
- Python's `strip`, `split` and `lower` are modelled for the Unicode whitespace set and ASCII letters. Non-ASCII case mapping is not modelled.

## Findings

| source | as written | input that shows it | evidently intended | confidence | as-written member | corrected member |
|---|---|---|---|---|---|---|
| backend/app.py:811-813 | The "json" tag is tested on the stripped piece but cut from the unstripped piece, so four characters are cut from the wrong place when whitespace precedes the tag. | the reply "``` json\n[]\n```" reaches the JSON parser as "n\n[]" | cut the tag from the stripped piece, giving "[]" | medium, not executed | Assistant.FenceTagMisread | Assistant.FencedReplyRoundTrip |

In the table, `Assistant.StripFencesAsWritten` is the source's stripping and
`Assistant.StripFences` is the corrected one. `Assistant.Suggest` uses the
corrected one.
