# Restaurant reservation wizard — a Dafny model

The repository is a Streamlit page with a chat box that collects a table
reservation one answer at a time. A user utterance moves a string-keyed step
through `start → name → phone → email → guests → baby_seats → date → time`.
Each step writes one field of a seven-field draft and appends the utterance
and a reply to the chat log. The date and time answers must pass
`datetime.strptime`. A valid time saves the draft as one row of the SQLite
table `reservations`. `reset_reservation` clears the draft and the log.

This project models that wizard as pure functions over an immutable session:

- `text.dfy` (module `Text`): `str.lower()` on ASCII letters, and Python's
  substring test `p in s`.
- `strptime.dfy` (module `Strptime`): the two format checks. `ParseDate` and
  `ParseTime` return the value they read, or `None` where Python raises
  `ValueError`. Each field recogniser follows the pattern CPython's `_strptime`
  uses for its directive:
  - `%Y`: `\d\d\d\d`
  - `%m`: `1[0-2]|0[1-9]|[1-9]`
  - `%d`: `3[01]|[12]\d|0[1-9]|[1-9]| [1-9]`
  - `%H`: `2[0-3]|[0-1]\d|\d`
  - `%M`: `[0-5]\d|\d`

  Trailing text is rejected. A date must also exist in the Gregorian calendar
  with a year of at least 1, which `datetime.date` checks. The reference
  definition is the set of spellings of each value (`SpellsDate`,
  `SpellsTime`), and the parsers are proved to accept exactly those.
- `reservations.dfy` (module `Reservations`): the seven text columns
  (`Details`), column access (`Get`/`Put`), and the table as an append-only
  sequence of rows. Ids are assigned as `AUTOINCREMENT` assigns them when no
  row is ever deleted.
- `wizard.dfy` (module `Wizard`): the step enumeration, the session, one
  handler per branch of `if user_input:`, the full `Transition`, and `Reset`.
- `conversation.dfy` (module `Conversation`): sequences of utterances
  (`Run`). It proves the invariant every reachable session keeps and a full
  pass through the wizard.

The model follows the code where its behaviour is easy to misread:

- The comment on restaurant.py:178 calls the end of the time step a reset,
  but only `current_step` changes: the draft keeps all seven answers and the
  log is not cleared.
- The cue `"sure"` is looked for in the input as typed (restaurant.py:130).
  The other three cues are looked for in the lower-cased input. So "Sure" and
  "SURE" do not start a reservation, although "YES" does
  (`Wizard.SureIsCaseSensitive`).
- The "reservation" cue is not implied by the "reserve" cue, because
  "reservation" does not contain "reserve". Both are modelled.
- The name reply keeps its apostrophe as the three characters U+00E2 U+20AC
  U+2122, as the source text has them.

## Model

| member | source | states |
|---|---|---|
| Text.Lower | restaurant.py:130 | `user_input.lower()` keeps the length, lower-cases each character on its own, and leaves no ASCII capital |
| Text.Contains | restaurant.py:130 | Python's `p in s` is true exactly when `p` occurs in `s` at some index |
| Strptime.YearFieldExact | restaurant.py:164 | the `%Y` field accepts exactly the four-digit zero-padded spellings and reads them as their value |
| Strptime.MonthFieldExact | restaurant.py:164 | the `%m` field accepts exactly the one- or two-digit spellings of 1..12 |
| Strptime.DayFieldExact | restaurant.py:164 | the `%d` field accepts exactly the one- or two-digit spellings of 1..31, and also a space followed by one digit |
| Strptime.HourFieldExact | restaurant.py:174 | the `%H` field accepts exactly the one- or two-digit spellings of 0..23 |
| Strptime.MinuteFieldExact | restaurant.py:174 | the `%M` field accepts exactly the one- or two-digit spellings of 0..59 |
| Strptime.DaysInMonth | restaurant.py:164 | months have 28..31 days: 28 exactly for February of a common year, 29 exactly for February of a Gregorian leap year, 31 exactly for the seven long months, and so 30 for April, June, September and November |
| Strptime.ParseDate | restaurant.py:164 | whatever `strptime(s, '%Y-%m-%d')` accepts is a real calendar date: year 1..9999, month 1..12, day within that month |
| Strptime.ParseDateExact | restaurant.py:164 | the date check reads `s` as `d` if and only if `d` is a calendar date and `s` is an accepted spelling of `d` |
| Strptime.FormatDateRoundTrip | restaurant.py:164 | every calendar date written as `YYYY-MM-DD` passes the date check and reads back as itself |
| Strptime.AcceptedDateExamples | restaurant.py:164 | `2024-03-10` and the leap day `2024-02-29` are accepted, with their values |
| Strptime.LenientDateExamples | restaurant.py:164 | `2024-3-5` and `2024-03- 5` are accepted as 5 March 2024 |
| Strptime.RejectedDateExamples | restaurant.py:164 | `10 March`, `2023-02-29`, `0000-01-01`, `2024-04-31` and a trailing space are rejected |
| Strptime.ParseTime | restaurant.py:174 | whatever `strptime(s, '%H:%M')` accepts is a clock time with hour 0..23 and minute 0..59 |
| Strptime.ParseTimeExact | restaurant.py:174 | the time check reads `s` as `t` if and only if `t` is a clock time and `s` is an accepted spelling of `t` |
| Strptime.FormatTimeRoundTrip | restaurant.py:174 | every clock time written as `HH:MM` passes the time check and reads back as itself |
| Strptime.TimeExamples | restaurant.py:174 | `19:30` and `7:05` are accepted; `24:00`, `12:60`, `19:30:00` and `7 pm` are rejected |
| Reservations.Put | restaurant.py:137-175 | writing one column of the draft sets that column to the value and leaves the six others unchanged |
| Reservations.MaxId | restaurant.py:56 | the largest id is at least every row's id and is the id of some row, or 0 for an empty table |
| Reservations.NextId | restaurant.py:56 | an AUTOINCREMENT id is positive and larger than every id already in the table |
| Reservations.Insert | restaurant.py:70-86 | saving appends exactly one row holding the seven columns, keeps the earlier rows in place, gives it a larger id than all of them, and keeps ids increasing |
| Reservations.FirstIdIsOne | restaurant.py:56 | the first row of an empty table gets id 1 |
| Reservations.NextIdFollowsLast | restaurant.py:56 | in a table with increasing ids, the next id is the last row's id plus one |
| Wizard.Next | restaurant.py:129-178 | a successful utterance moves one place along the fixed step order, wrapping from `time` to `start` |
| Wizard.WantsToReserveExact | restaurant.py:130 | the consent test holds exactly when "reserve", "reservation" or "yes" occurs in the lower-cased input or "sure" occurs in the input as typed |
| Wizard.OnStart | restaurant.py:129-134 | the start step moves to `name` if and only if the input carries a cue, else stays at `start`; draft and table are never touched |
| Wizard.OnFreeText | restaurant.py:136-159 | at name/phone/email/guests/baby_seats the raw input becomes that step's column, no other column changes, and the step advances by one |
| Wizard.OnDate | restaurant.py:161-169 | a valid date is stored and moves to `time`; any other input keeps step and draft and asks again; the table never changes |
| Wizard.OnTime | restaurant.py:171-180 | a valid time is stored, exactly one row equal to the updated draft is appended, and only the step returns to `start`; an invalid time changes nothing but the log |
| Wizard.Transition | restaurant.py:125-180 | an empty utterance changes nothing; otherwise the log grows by the utterance and one reply, only the current step's column can change, the step holds or advances by one, and the table grows exactly on a valid time at the time step |
| Wizard.Reset | restaurant.py:90-101 | all seven columns become empty, the step becomes `start`, the log is emptied, and the table is untouched |
| Wizard.ResetIdempotent | restaurant.py:90-101 | resetting twice is the same as resetting once |
| Wizard.Initial | restaurant.py:35-48 | the first-run session has an empty log, all seven columns empty, the `start` step, and the existing table |
| Wizard.InitialIsReset | restaurant.py:35-48 | a fresh page-load session is exactly what a reset leaves behind |
| Wizard.SureIsCaseSensitive | restaurant.py:130 | "sure" starts a reservation but "Sure" does not |
| Wizard.OtherCuesIgnoreCase | restaurant.py:130 | "YES" and "Reservation" start a reservation |
| Wizard.NoThanksStaysAtStart | restaurant.py:129-134 | at the start step "no thanks" draws the introduction again and changes nothing else |
| Conversation.RunGrowth | restaurant.py:125-180 | `Run` models successive reruns of the chat handler, one per utterance: each utterance adds at most two log entries and at most one row, and neither log nor table shrinks |
| Conversation.RunIgnoresEmpty | restaurant.py:125 | empty utterances make no difference anywhere in a conversation |
| Conversation.RunLog | restaurant.py:126-180 | over a conversation, the log only grows, by two entries per non-empty utterance |
| Conversation.RunStoreAppendOnly | restaurant.py:70-86 | over a conversation, rows are only appended, earlier rows stay in place, and ids keep increasing |
| Conversation.InitialConsistent | restaurant.py:90-101 | a fresh or reset session over a table of valid rows with increasing ids is consistent, whatever the session held before |
| Conversation.TransitionKeepsConsistent | restaurant.py:161-180 | every transition keeps the invariant: date and time columns are empty or valid, `time` is reached only with a valid date, and every saved row has a valid date and time under increasing ids |
| Conversation.RunKeepsConsistent | restaurant.py:161-180 | every session reachable from a consistent one is consistent |
| Conversation.AnswersReachDate | restaurant.py:136-159 | five free-text answers given from the name step fill exactly those five columns and reach the date step |
| Conversation.DateAndTimeSave | restaurant.py:161-180 | from the date step, a valid date then a valid time save the draft with both filled as one new row and return to `start` |
| Conversation.CompleteReservation | restaurant.py:125-180 | a cue, five answers, a valid date and a valid time save exactly one row of those seven answers, keep them in the draft, return to `start`, and end sixteen log entries with the confirmation |
| Conversation.AnnReservation | restaurant.py:125-180 | "yes", "Ann", "555-1234", "ann@x.com", "2", "1", "2024-03-10", "19:30" from a fresh session saves exactly that reservation and leaves a log of sixteen entries ending with the confirmation |
| Conversation.TenMarchRejected | restaurant.py:161-169 | at the date step "10 March" is rejected: step, draft and table are unchanged and the user is asked again |

## Left out

- The Streamlit page: title, sidebar navigation, chat rendering and the
  reset button (restaurant.py:106-123, 182-187, 209-212). These are UI.
  `Reset` is the operation that the Home page and the reset button both call.
- Configuration loading and the Gemini client (restaurant.py:7-32). They are
  file I/O and a network service, and the wizard never calls them.
- SQLite connections, `CREATE TABLE`, commits, and the View Reservations
  query (restaurant.py:51-67, 71-72, 85-86, 198-207). The table is modelled as
  an appended sequence, and listing it is reading that sequence.
- `st.success("Reservation saved!")` (restaurant.py:87). It is a UI notice
  and does not enter the chat log.
- Store failures. A `sqlite3` error is not a `ValueError`, so it escapes the
  `try` of the time step and stops the script run. It is runtime plumbing.
- The static menu text (restaurant.py:189-196).
- `st.chat_input` returning `None` when nothing was sent is modelled as the
  empty utterance, which is ignored the same way.
- Text.Lower: lower-cases ASCII letters only. Python's `str.lower()` also maps
  non-ASCII capitals, some to more than one character; the model has no
  Unicode case tables.
- Strptime.ParseDate: accepts ASCII digits only. Python's `\d` also matches
  other Unicode decimal digits, and `int()` reads them.
- Strptime.ParseTime: accepts ASCII digits only, for the same reason.
- Reservations.NextId: does not model the `AUTOINCREMENT` ceiling of
  2^63 - 1, where SQLite fails with `SQLITE_FULL`. It also does not model ids
  skipped after deletions, because this program never deletes rows.
