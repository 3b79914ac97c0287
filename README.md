# TaskMasterPro in Dafny

TaskMasterPro is a task manager. Each user has tasks, each with a title, a
description, a due date, a status of pending, in-progress or completed, and a
priority of low, medium or high. Users also have colour-coded task categories.
An Express server keeps users, tasks and categories in three tables behind a
storage layer and answers a small REST API. A React client lists, filters and
sorts the tasks. It also draws a month calendar, an analytics page and a
profile page.

This project models three parts of that system in Dafny and proves what each
part promises.

- **The storage layer** (`storage.dfy`) is a class `Storage.Store`.
  - It holds the three tables as sequence fields, plus the next value of each id sequence.
  - Its methods create, update and delete rows and keep the table invariants: unique ids, unique usernames, unique category names, and due dates inside the JavaScript Date range.
  - The queries and aggregates are functions over those fields: by id, by user, by status, by priority, by day, the completion counts and the weekly activity.
- **The request handlers** (`routes.dfy`) are functions and methods.
  - Each one is the chain of early returns that picks the response status: 401, then 404, then 403, then 400.
  - After the guards comes the storage call that the request reaches.
  - They run against the value domains and validation schemas of the shared data model (`schema.dfy`).
- **The client's data shaping** is a set of pure functions over a task list, in these modules:
  - `home.dfy`: filter and sort.
  - `calendar.dfy` and `calendarcell.dfy`: the 42-cell grid and day matching.
  - `analytics.dfy`: score, bars and chart colours.
  - `profile.dfy`: statistics and fallbacks.
  - `taskitem.dfy`: toggle, badge, due-date line and edit form.
  - `newcategory.dfy`: the category form.
  - `sidebar.dfy` and `editprofile.dfy`: initials, navigation and profile form.
  - Two pieces of component state are classes with the fields their handlers set: `TaskItem.TaskCard` and `NewCategory.Dialog`.

Shared helpers:

- `wrappers.dfy`: Option and Result.
- `seqs.dfy`: filter, subsequence, and a stable insertion sort standing for `Array.prototype.sort`.
- `text.dfy`: case mapping, `includes`, `split`, number formatting and parsing, `padStart`, string order.
- `dates.dfy`: epoch milliseconds and the Gregorian calendar.
- `colours.dfy`: the `#rrggbb` rule and colour generation.
- `driver.dfy`: what a column stores for a value, that is the text node-postgres sends for it and the Postgres input function (int4, boolean) that reads that text.
- `initials.dfy`: the avatar-initials computation that the sidebar and the profile dialog share.

Values from outside are parameters:

- The current time is `now` (epoch milliseconds).
- `Date` string parsing is `parse: string -> JsTime`.
- The random integer behind a generated colour is `n` or `rand`, below 16777215.
- Whether the database fails where the source catches the error is `storeFails`.
- Whether a network request throws is `throws`.
- The e-mail check of the profile form is `isEmail`.
- Authentication is a `Session`: anonymous, or signed in with a user id.

## Model

| member | source | states |
|---|---|---|
| Schema.DomainsDistinct | shared/schema.ts:34-45 | the three statuses are different strings, and so are the three priorities |
| Schema.WithoutPassword | server/routes.ts:170 | the public user carries every column of the user except the password |
| Schema.TextColumn | shared/schema.ts:53-54 | an omitted status or priority takes the column default ("pending" or "medium"); a given one is stored as it is |
| Schema.CompletedColumn | shared/schema.ts:56 | `completed` defaults to false when omitted, is NULL when null is sent, and is the value otherwise |
| Schema.NullableColumn | shared/schema.ts:11-14 | a nullable text column holds a value exactly when one was given |
| Schema.FailedFields | shared/schema.ts:68-74 | the reported fields are exactly the schema fields that fail their check |
| Schema.TaskBodyOkFields | shared/schema.ts:68-74 | the body is valid exactly when every one of the seven schema fields passes its check |
| Schema.TextEntry | shared/schema.ts:51 | an optional nullable text property is absent exactly when omitted, null exactly when null is sent, and otherwise the string sent |
| Schema.BoolEntry | shared/schema.ts:56 | an optional nullable boolean property is absent exactly when omitted, null exactly when null is sent, and otherwise the boolean sent |
| Schema.DueEntry | shared/schema.ts:71 | the due date is absent exactly when omitted; a string stays that string and a Date that Date |
| Schema.ValidateInsertTask | shared/schema.ts:68-74 | accepted iff every field passes; a refusal lists a non-empty set of exactly the failing fields; an accepted task has a status and a priority from their domains, and a title, status, priority and userId taken from the body; its description, completed flag and due date come from the body as well, a string due date as that string and a Date as that Date |
| Schema.ValidateIgnoresUnknownKeys | shared/schema.ts:69 | id, createdAt, updatedAt and any other unknown property have no effect on task validation |
| Schema.InvalidStatusRefused | shared/schema.ts:72 | a status outside {pending, in-progress, completed} is refused, and the error names `status` |
| Schema.TitleRequired | shared/schema.ts:50 | a body without a title is refused, and the error names `title` |
| Schema.ValidateInsertUser | shared/schema.ts:23-31 | accepted iff username and password are strings and name, email, avatar and birthday are absent, null or strings; username and password come from the body, and name, email, avatar and birthday are each the body's property as sent |
| Schema.ValidateUserIgnoresUnknownKeys | shared/schema.ts:23-31 | only the six picked properties affect user validation |
| Schema.DefaultNamesDistinct | server/storage.ts:63-68 | the four default category names are pairwise different |
| Dates.TimeClip | server/storage.ts:171 | `new Date(n)` holds a time exactly when n lies within ±8.64e15 ms, and then holds n |
| Dates.DayWindow | server/storage.ts:302-306 | an instant lies between 00:00:00.000 and 23:59:59.999 of a day exactly when it falls on that day |
| Dates.StartOfDay | server/storage.ts:302-303 | `setHours(0, 0, 0, 0)` gives a multiple of a day, on the same day, at most the instant and less than a day before it |
| Dates.EndOfDay | server/storage.ts:305-306 | `setHours(23, 59, 59, 999)` gives an instant on the same day, at or after the given one, whose next millisecond is the next day |
| Dates.DaysInMonth | client/src/pages/calendar-page.tsx:40-42 | a month has 28 to 31 days; 31 exactly for months 1, 3, 5, 7, 8, 10 and 12; 29 exactly for February of a leap year |
| Dates.DaysFromCivilRoundTrip | client/src/pages/calendar-page.tsx:81-85 | converting a day number to a calendar date and back gives the same day number |
| Dates.CivilFromDaysOfCivil | client/src/pages/calendar-page.tsx:81-85 | converting a valid calendar date to a day number and back gives the same date |
| Dates.CivilFromDaysInjective | client/src/pages/calendar-page.tsx:81-85 | different day numbers have different calendar dates |
| Dates.CivilFromDaysValid | client/src/pages/calendar-page.tsx:81-85 | every day number names a valid date, with its day within the month's length |
| Dates.Weekday | client/src/pages/calendar-page.tsx:44 | `getDay` lies in 0..6 |
| Text.Lower | client/src/pages/home-page.tsx:38-39 | `toLowerCase` keeps the length and lower-cases each character |
| Text.LowerIdempotent | client/src/pages/home-page.tsx:38-39 | lower-casing twice is lower-casing once |
| Text.Contains | client/src/pages/home-page.tsx:38-39 | `includes` is true exactly when the needle occurs at some position |
| Text.Split | client/src/components/sidebar/sidebar.tsx:46 | `split(' ')` gives one more part than there are spaces, and no part contains a space |
| Text.JoinSplit | client/src/components/sidebar/sidebar.tsx:46 | joining the parts of a split with the same separator gives the string back |
| Text.Upper | client/src/components/sidebar/sidebar.tsx:49 | `toUpperCase` keeps the length and upper-cases each character |
| Text.DigitsRoundTrip | server/storage.ts:116 | the digits of a number in any radix from 2 to 16 read back as that number |
| Text.ParseIntToString | server/routes.ts:47 | `parseInt` reads back the decimal rendering of every integer, negative ones included |
| Text.IntToString | server/storage.ts:116 | the decimal rendering of an integer: digits only, reading back as the number, with a leading "-" for a negative one |
| Text.ParseDecimalDigits | server/storage.ts:468 | `parseInt(_, 10)` reads back the decimal rendering of a natural number |
| Text.TrimStart | server/routes.ts:47 | the text `parseInt` reads is a suffix of the input; everything cut off is ECMAScript white space or a line terminator, and the rest does not start with either |
| Text.ParseInt | server/routes.ts:47 | `parseInt(s)` after the leading white space: nothing for an empty rest or a first character that is neither a sign nor a digit; a number for a leading decimal digit that does not start "0x"; after "0x" or "0X" a number exactly when a hex digit follows; a non-negative number for a leading digit, a non-positive one after "-" |
| Text.ParseDecimal | server/storage.ts:468 | `parseInt(s, 10)` after the leading white space: nothing for an empty rest or a first character that is neither a sign nor a digit; a non-negative number for a leading digit, a non-positive one after "-" |
| Text.ToHex | server/routes.ts:195 | `n.toString(16)` is a non-empty string of hex digits whose value is n |
| Text.LeadingDigits | server/routes.ts:47 | `parseInt` reads the longest run of digits at the front, and stops at the first character that is not a digit |
| Text.DigitsLength | server/routes.ts:195 | a number below radix^k has at most k digits |
| Text.DigitsLengthAtLeast | server/routes.ts:195 | a number of at least radix^(k-1) has at least k digits |
| Text.PadStart | client/src/components/tasks/new-category-dialog.tsx:54 | `padStart` leaves a long enough string alone; otherwise it fills on the left up to the width and keeps the string as the suffix |
| Text.StrLeTotal | client/src/pages/home-page.tsx:62 | the string order relates any two strings |
| Text.StrLeTransitive | client/src/pages/home-page.tsx:62 | the string order is transitive |
| Text.StrLeAntisymmetric | client/src/pages/home-page.tsx:62 | two strings ordered both ways are equal |
| Colours.RandomColour | client/src/components/tasks/new-category-dialog.tsx:53-55 | for every n in [0, 16777214], `"#" + hex(n).padStart(6,'0')` satisfies the colour rule; it ends with the hex digits of n, with zeros before them |
| Colours.RandomColourAsWritten | server/routes.ts:195 | `"#" + n.toString(16)`: a "#" followed by at least one hex digit, the digits having the value n |
| Colours.RandomColourAsWrittenValid | server/routes.ts:195 | without the padding, the generated colour satisfies the colour rule exactly when n >= 0x100000 |
| Colours.RandomColourAsWrittenShort | server/routes.ts:195 | without the padding, n = 255 gives "#ff", which the colour rule refuses |
| Driver.ParamText | server/storage.ts:256-263 | the text sent for a value: a string as it is, "true" or "false" for a boolean, for an integer a decimal text that `parseInt` reads back as that integer; nothing for null, a Date, an array or an object |
| Driver.TrimCSpace | server/storage.ts:256-263 | the trimmed text holds only characters of the input and neither starts nor ends with C white space |
| Driver.Int4In | shared/schema.ts:55 | a value int4in reads lies within 32 bits; a text that is empty or all white space is refused |
| Driver.BoolIn | shared/schema.ts:56 | true exactly for a trimmed prefix of "true" or "yes", "on" or "1", false exactly for a prefix of "false" or "no", "of", "off" or "0", case ignored |
| Driver.IntColumn | shared/schema.ts:55 | an integer column stores a number exactly when it lies within 32 bits, and then that number; a string as int4in reads it; a boolean never |
| Driver.BoolColumn | shared/schema.ts:56 | a boolean column stores a boolean as it is, the numbers 1 and 0 and no other as true and false, and a string as boolin reads it |
| Driver.Int4OfDecimal | shared/schema.ts:55 | int4in reads back the decimal text of every 32-bit integer and refuses that of every other integer |
| Driver.NumberAsBool | shared/schema.ts:56 | boolin reads the decimal text of 1 as true and of 0 as false, and refuses that of every other integer |
| Driver.BoolTextIsNotInt | shared/schema.ts:55 | the texts "true" and "false" are refused by int4in |
| Driver.BoolTextIsBool | shared/schema.ts:56 | the texts "true" and "false" are read by boolin as true and false |
| Driver.IntCoercions | shared/schema.ts:55 | an integer column stores the string "5" as 5 and " -12 " as -12, and refuses "5x" and 2^31 |
| Driver.BoolCoercions | shared/schema.ts:56 | a boolean column stores the string "t" as true and "No" as false, and refuses "o" |
| Storage.NormaliseDueDate | server/storage.ts:165-185 | a missing due date stays missing; null stays null; any other value is converted to a date, and the result is null exactly when the conversion gives an Invalid Date; a kept date is the converted time, lies in the Date range, and for a string is its parse and for a Date its time |
| Storage.DateFrom | server/storage.ts:166-171 | `new Date(v)`: a string is parsed, a Date keeps its time, a number is its time when within the Date range and Invalid Date otherwise, null and false give time 0 and true gives 1, arrays and objects parse their string form |
| Storage.DueValue | server/storage.ts:165-168 | the value createTask converts is the given due date as it arrived, a Date or a string; none when none was given |
| Storage.NormaliseIdempotent | server/storage.ts:165-185 | normalising a normalised due date changes nothing |
| Storage.InvalidDueStringIsNull | server/storage.ts:167-180 | a string that does not parse is stored as no date and is never refused |
| Storage.DueColumn | server/storage.ts:187-193 | the stored due date is present exactly when normalisation kept a date, and is then that date |
| Storage.NewTaskRow | server/storage.ts:187-193 | the inserted row has the new id and the validated title, status, priority and owner; description and completed are their column values; createdAt and updatedAt are now; the due date is the normalised one: for a string its parse when valid, for a Date its time when valid, none otherwise or when none was given |
| Storage.CreateAndUpdateStoreSameDueDate | server/storage.ts:165-185 | createTask and updateTask store the same due date for the same value |
| Storage.StoredDueDateResent | server/storage.ts:233-263 | sending a created task's stored due date back in an update keeps it |
| Storage.CompletedIndependentOfStatus | shared/schema.ts:53-56 | a task created as "completed" without a flag is stored with completed = false |
| Storage.FindTask | server/storage.ts:201-212 | a found task is in the table and has the id; none is found exactly when no task has the id |
| Storage.SetText | server/storage.ts:256-263 | a text column keeps its value when the patch does not name it; it stores a string as it is, and a number or a boolean as the parameter text the driver sends (the decimal digits, "true", "false"); it refuses null and any other value |
| Storage.SetNullableText | server/storage.ts:256-263 | a nullable text column keeps its value, is emptied by null, and otherwise stores the parameter text (strings, numbers and booleans, a boolean as "true" or "false"); it refuses any other value |
| Storage.SetInt | server/storage.ts:256-263 | an int4 column keeps its value, takes a number exactly when it lies in the 32-bit range, takes a string that int4in reads, refuses booleans and null; a stored value is always within 32 bits |
| Storage.SetNullableBool | server/storage.ts:256-263 | a nullable boolean column keeps its value, is emptied by null, takes a boolean as it is, 1 and 0 as true and false and a string as boolin reads it ("t", "yes", "off" ...); it refuses any other value |
| Storage.SetNullableDate | server/storage.ts:256-263 | a timestamp column keeps its value, takes a valid Date or null, and refuses any other value |
| Storage.NormalisePatch | server/storage.ts:230-254 | the patch keeps its keys and every value except the due date, which is replaced by its normalised form |
| Storage.ApplyPatch | server/storage.ts:256-263 | the update succeeds exactly when its column accepts every present value (see the Driver rows); it keeps id and createdAt, sets updatedAt to now, and changes each column exactly as the patch says |
| Storage.UpdatedTask | server/storage.ts:227-263 | the update fails exactly when a column refuses a value, the due date aside; it keeps id and createdAt and sets updatedAt to now; each other column changes as the patch says; a due date in the patch is stored in normalised form, and without one the old due date stays |
| Storage.UpdatedTaskDueDate | server/storage.ts:233-263 | an update keeps the stored due date in the Date range |
| Storage.EmptyPatch | server/storage.ts:256-263 | an empty patch changes only updatedAt |
| Storage.UpdateStoresAnyStatus | server/storage.ts:227-263 | the update path does not validate: any string is stored as the status |
| Storage.ReplaceTask | server/storage.ts:256-263 | the table has the row with the updated id replaced and every other row unchanged |
| Storage.FindAfterReplace | server/storage.ts:256-263 | after a replacement, looking the id up finds the new row |
| Storage.UserTasks | server/storage.ts:214-225 | exactly the tasks of the user |
| Storage.TasksWithStatus | server/storage.ts:325-341 | exactly the user's tasks with that status |
| Storage.TasksWithPriority | server/storage.ts:343-359 | exactly the user's tasks with that priority |
| Storage.CompletionStats | server/storage.ts:389-425 | each count is the number of the user's tasks with that status |
| Storage.ReferenceTime | server/storage.ts:284-300 | the time of the given Date, or of the given string once parsed, when that time is valid; the current time when the date is neither a string nor a Date or does not hold a valid time |
| Storage.EndOfDayInRange | server/storage.ts:305-306 | the end of the day lies in the Date range except for the day of the last representable instant |
| Storage.TasksOnDate | server/storage.ts:281-323 | the user's tasks whose due date falls on the day of the reference time, in table order |
| Storage.CompletionStatsBound | server/storage.ts:389-429 | the three counts sum to at most the user's task count, and to exactly that count when all of the user's statuses are valid |
| Storage.DayNamesDistinct | server/storage.ts:453 | the seven weekday names are different |
| Storage.QuietDayIsZero | server/storage.ts:463-476 | a weekday that no row names reports 0 |
| Storage.RowDay | server/storage.ts:468-469 | a row names a weekday exactly when its day_of_week reads as a decimal number from 0 to 6 |
| Storage.DayEntry | server/storage.ts:463-471 | a weekday's count is 0 or the count of a row that names that day |
| Storage.GroupedDayCount | server/storage.ts:466-471 | a weekday named by exactly one row reports that row's count |
| Storage.ZeroWeek | server/storage.ts:479 | the corrected fallback: seven entries, Sunday first, all 0 |
| Storage.WeeklyFallbackAsWritten | server/storage.ts:477-479 | the as-written fallback rejects with a ReferenceError |
| Storage.WeeklyFallbackAsWrittenThrows | server/storage.ts:477-479 | the fallback as written does not give the seven zeros it means to: it throws |
| Storage.NewUserRow | server/storage.ts:99-104 | the inserted user keeps the username and the password, gets the new id, and has name, email, avatar and birthday as their nullable column values |
| Storage.FindUser | server/storage.ts:76-84 | a found user is in the table and has the id; none is found exactly when no user has the id |
| Storage.ApplyUserPatch | server/storage.ts:133-140 | the user update succeeds exactly when its column accepts every present value; it keeps id and createdAt and changes each column as the patch says |
| Storage.UpdatedUser | server/storage.ts:133-145 | no result for a missing user or a patch that sets nothing; otherwise the patched row, refused exactly when the new username belongs to another user |
| Storage.UpdatedUserKeepsPassword | server/routes.ts:162-164 | a patch without a password leaves the stored password as it was |
| Storage.ReplaceUser | server/storage.ts:133-140 | the row of the updated user is replaced and every other row is unchanged |
| Storage.DefaultsOf | server/storage.ts:107-110 | exactly the categories of the sentinel user 0 |
| Storage.SeedRows | server/storage.ts:59-69 | the old rows stay; the four defaults are appended, with the next four ids, exactly when the sentinel user has no category and none of the default names is taken; otherwise nothing changes |
| Storage.CopyName | server/storage.ts:116 | a copy's name is the default's name, a hyphen and the decimal id of the user |
| Storage.CopyNameOwner | server/storage.ts:116 | the part after the hyphen reads back as the user's id |
| Storage.CopyOne | server/storage.ts:114-123 | one copy: nothing when its name is taken, otherwise a row with the next id, the copy name, the new user and the default's colour; either way the name is taken afterwards |
| Storage.CopyCategories | server/storage.ts:113-124 | the copy loop keeps the old rows, adds at most one row per default, and advances the id by the number of rows added |
| Storage.DefaultRows | server/storage.ts:63-68 | the seed rows are Work, Personal, Learning and Health with their colours, owned by user 0 |
| Storage.SeedIdempotent | server/storage.ts:59-69 | seeding a second time adds nothing |
| Storage.SeedEmpty | server/storage.ts:59-69 | on an empty table the seed inserts exactly the four defaults |
| Storage.CopyCategoriesStep | server/storage.ts:113-124 | one turn of the copy loop inserts one copy and goes on with the rest |
| Storage.CopyCategoriesSpec | server/storage.ts:113-124 | the copy loop keeps the old rows; each new row has a fresh consecutive id, is owned by the new user, is named `<name>-<id>` after a default and has that default's colour; every copy name ends up taken, so a failed copy does not stop the later ones |
| Storage.CopyCategoriesRows | server/storage.ts:113-124 | each row the copy loop adds has the next id, belongs to the new user and is a copy of a default |
| Storage.CopyCategoriesTaken | server/storage.ts:113-124 | after the copy loop every default's copy name is taken, so a failed copy does not stop the later ones |
| Storage.CopyCategoriesUnique | shared/schema.ts:79 | the copy loop keeps category names unique |
| Storage.CategoriesAppend | shared/schema.ts:77-82 | appending a row with the next id and a free name keeps the category table valid |
| Storage.CategoriesAppendDefaults | server/storage.ts:63-68 | appending the four defaults, none of whose names is taken, keeps the table valid |
| Storage.UsersAppend | shared/schema.ts:8-9 | appending a user with the next id and a free username keeps the user table valid |
| Storage.TasksReplace | server/storage.ts:256-263 | replacing a task by a row with the same id and an in-range due date keeps the task table valid |
| Storage.UsersReplace | server/storage.ts:133-140 | replacing a user by a row with the same id and an untaken username keeps the user table valid |
| Storage.InsertCopies | server/storage.ts:113-124 | the loop computes the copy loop's result, one insert at a time, and keeps the table valid |
| Storage.Store.constructor | server/storage.ts:44-54 | the new store has empty user and task tables and the four seeded defaults |
| Storage.Store.SeedCategoriesIfNeeded | server/storage.ts:56-73 | the tables become the seed's result; nothing else changes |
| Storage.Store.GetTask | server/storage.ts:201-212 | found exactly when some task has the id, and then it is that task |
| Storage.Store.GetUserTasks | server/storage.ts:214-225 | exactly the user's tasks |
| Storage.Store.GetTasksByStatus | server/storage.ts:325-341 | exactly the user's tasks with that status |
| Storage.Store.GetTasksByPriority | server/storage.ts:343-359 | exactly the user's tasks with that priority |
| Storage.Store.GetTasksByDate | server/storage.ts:281-323 | exactly the user's tasks due within the day of the reference time |
| Storage.Store.GetTaskCategories | server/storage.ts:375-386 | exactly the user's categories |
| Storage.Store.GetTaskCompletionStats | server/storage.ts:389-429 | all three counts are 0 on failure; otherwise the counts of the user's tasks of each status; they never exceed the user's task count |
| Storage.Store.GetUser | server/storage.ts:76-84 | the user with the id, or none when there is no such user |
| Storage.Store.CreateTask | server/storage.ts:158-199 | appends the new row with the next id; its due date is the one NewTaskRow states; nothing else changes |
| Storage.Store.UpdateTask | server/storage.ts:227-269 | the result is the patched row of the task with that id, or none; the table holds the patched row; nothing changes on none |
| Storage.Store.DeleteTask | server/storage.ts:271-279 | true exactly when the store does not fail, whether or not the id existed; then every task with the id is gone and the rest kept |
| Storage.Store.CreateUser | server/storage.ts:99-131 | refused exactly when the username is taken, and nothing changes then; otherwise appends the user and copies every default category for it as the copy loop does |
| Storage.Store.UpdateUser | server/storage.ts:133-145 | the result is the patched user, stored in place of the old row, or none with the table unchanged |
| Storage.Store.CreateTaskCategory | server/storage.ts:362-373 | created exactly when the name and the colour are both given and rendered by the driver (a string, a number or a boolean) and the name text is not yet taken; the row gets the next id, that name text, that colour text and the given owner; a missing or null name is a not-null violation; nothing changes on refusal |
| Storage.Store.GetWeeklyActivity | server/storage.ts:451-481 | on success seven entries, Sunday first, each with its last grouped count or 0; on failure the as-written fallback, which throws |
| Routes.TaskLookup | server/routes.ts:47 | a found task is in the table and has the parsed id; an id that does not parse finds nothing; an id that parses finds a task exactly when the table has one with that id |
| Routes.TaskGuard | server/routes.ts:44-55 | 401 exactly without a session; then 404 exactly for a missing task; then 403 exactly for someone else's task; the request passes exactly for the owner |
| Routes.NotFoundBeforeForbidden | server/routes.ts:48-55 | a missing task is never answered 403, and a signed-in caller gets 404 for it |
| Routes.GetTasks | server/routes.ts:13-22 | 401 exactly without a session, 200 with a session (the store catches its failures and answers an empty list); the list holds exactly the caller's tasks |
| Routes.GetTaskById | server/routes.ts:43-61 | the guard's refusal when it refuses; otherwise 200 with the task the parsed id finds, which belongs to the caller |
| Routes.GetTasksForDate | server/routes.ts:106-120 | 401 without a session; 400 exactly for an unparseable date; otherwise the caller's tasks due that day |
| Routes.GetCompletion | server/routes.ts:123-132 | 401 exactly without a session, otherwise 200 with the completion counts of the caller's tasks, or zeros when the store failed |
| Routes.GetCategories | server/routes.ts:178-187 | 401 exactly without a session, otherwise 200 with exactly the caller's categories |
| Routes.GetWeekly | server/routes.ts:145-154 | 401 exactly without a session; 500 "Failed to fetch weekly activity" exactly when the store fails for a signed-in caller; otherwise 200 with seven days, Sunday first, each with its grouped count |
| Routes.CreateBody | server/routes.ts:28-31 | the validated body is the request body with userId set to the caller's id |
| Routes.CreateBodyOwner | server/routes.ts:28-31 | a created task always belongs to the caller, and no validation error is about userId |
| Routes.PostTask | server/routes.ts:24-41 | 401 without a session; 400 exactly when validation fails; otherwise 201 with the row built from the validated body and the next id, appended to the table; a due-date string that parses is stored as its time; the table is unchanged on every other answer |
| Routes.CreatedTaskFromBody | server/routes.ts:24-41 | the created row carries the body's description and completed flag (false when omitted) and its due date: a parsing string as its time, any other string as null, a Date as its time, none when omitted |
| Routes.PutTask | server/routes.ts:63-82 | a refusing guard answers without any change; past the guards the answer is 200, with the patched row, stored in place of the old one, exactly when the update succeeds, and with an empty body and no change otherwise |
| Routes.DeleteTask | server/routes.ts:84-103 | a refusing guard answers without any change; 204 with no body exactly when the guards pass, there being no other outcome; the task is then deleted unless the store failed |
| Routes.PutProfile | server/routes.ts:157-175 | 401 without a session; 404 exactly when the password-free update yields nothing; a 200 carries the updated user without its password, the user table holds the updated row in place of the old one, and the stored password is unchanged |
| Routes.PasswordOnlyProfile | server/routes.ts:162-167 | a body with nothing but a password sets nothing, so the existing user is answered 404 |
| Routes.CategoryColour | server/routes.ts:195 | the corrected colour: the body's colour when truthy, otherwise a generated colour that satisfies the colour rule |
| Routes.CategoryColourAsWritten | server/routes.ts:195 | the colour as written: the body's colour when truthy, otherwise `"#"` and the unpadded hex digits, which satisfy the colour rule exactly when the random value is at least 0x100000 |
| Routes.CategoryColourCorrection | server/routes.ts:195 | the corrected and the as-written colours agree whenever the body has a colour or the random value has six hex digits, and differ only where the as-written one breaks the colour rule |
| Routes.CategoryColourAsWrittenShort | server/routes.ts:195 | as written, a request without a colour and a generator value of 255 stores "#ff" |
| Routes.PostCategory | server/routes.ts:189-205 | 401 without a session; 201 exactly when the body's name and the as-written colour are rendered by the driver and the name is free; a 201 carries the appended category of the caller with that name and colour, and a default colour is the unpadded one, valid exactly when the random value is at least 0x100000; a missing name gives 500 |
| Seqs.Filter | client/src/pages/home-page.tsx:26-44 | `filter` keeps exactly the elements that satisfy the predicate, each as often as it occurs in the input |
| Seqs.FilterIsSubsequence | client/src/pages/home-page.tsx:26-44 | `filter` keeps the relative order of what it keeps |
| Seqs.Sort | client/src/pages/home-page.tsx:45-65 | `sort` only permutes the list |
| Seqs.SortSorted | client/src/pages/home-page.tsx:45-65 | with a consistent comparator, the sorted list is ordered by it |
| Seqs.SortAllEqual | client/src/pages/home-page.tsx:64 | with a comparator that always returns 0 or less, the order is unchanged |
| Home.FilterTasks | client/src/pages/home-page.tsx:26-44 | a task is kept exactly when its status and priority match their filters (or the filter is "all") and the query is empty or occurs, ignoring case, in the title or the description; the order is kept |
| Home.UnfilteredListsAll | client/src/pages/home-page.tsx:26-44 | with both filters at "all" and no query, every task is listed in order |
| Home.SearchIgnoresQueryCase | client/src/pages/home-page.tsx:38-39 | the search does not depend on the case of the query |
| Home.DueCompareAsWrittenInconsistent | client/src/pages/home-page.tsx:48-49 | as written, the comparator puts each of two undated tasks after the other, so it is not a consistent order |
| Home.DueCompareAsWritten | client/src/pages/home-page.tsx:47-50 | the comparator as written agrees with the corrected one whenever one of the tasks is dated; for two undated tasks it answers 1 where the corrected one answers 0 |
| Home.DueCompare | client/src/pages/home-page.tsx:47-50 | the corrected comparator: a task may precede another exactly when the other is undated, or both are dated in ascending order |
| Home.PriorityCompareAsWritten | client/src/pages/home-page.tsx:52-60 | the comparator as written: 0 when either priority is a name inherited from Object.prototype, the intended comparison otherwise |
| Home.PriorityCompareAsWrittenInconsistent | client/src/pages/home-page.tsx:52-60 | with a task whose priority is "constructor", the comparator as written ties it with a high and a low task while putting low above high, so it is not a consistent order |
| Home.PriorityCompare | client/src/pages/home-page.tsx:52-60 | the intended comparator: a task may precede another exactly when its rank is not lower, and they tie exactly on equal ranks |
| Home.PriorityRank | client/src/pages/home-page.tsx:52-60 | the intended ranks: high 3, medium 2, low 1, and any other priority 0 |
| Home.TitleCompare | client/src/pages/home-page.tsx:62 | a title may precede another exactly when it is not greater in string order |
| Home.NoCompare | client/src/pages/home-page.tsx:64 | an unknown sort key makes every pair tie |
| Home.Comparator | client/src/pages/home-page.tsx:45-65 | "dueDate", "priority" and "title" select their comparators; any other key selects the one where every pair ties |
| Home.DueConsistent | client/src/pages/home-page.tsx:47-50 | the corrected due-date comparator is a consistent order |
| Home.PriorityConsistent | client/src/pages/home-page.tsx:52-60 | the priority comparator is a consistent order |
| Home.TitleConsistent | client/src/pages/home-page.tsx:62 | the title comparator is a consistent order |
| Home.SortTasks | client/src/pages/home-page.tsx:45-65 | sorting adds and loses no task |
| Home.SortByDueDate | client/src/pages/home-page.tsx:47-50 | every dated task comes before every undated one, and dated tasks are in ascending time order |
| Home.SortByPriority | client/src/pages/home-page.tsx:52-60 | high before medium before low before any other priority |
| Home.SortByTitle | client/src/pages/home-page.tsx:61-62 | titles are in ascending string order |
| Home.OtherKeyKeepsOrder | client/src/pages/home-page.tsx:64 | an unknown sort key leaves the filtered order unchanged |
| Home.VisibleTasks | client/src/pages/home-page.tsx:24-66 | none before the tasks arrive; afterwards exactly the filtered tasks, as a permutation of the filtered list |
| Home.CountNoun | client/src/pages/home-page.tsx:110 | "task" exactly when the count is 1, "tasks" otherwise |
| Home.SortLabel | client/src/pages/home-page.tsx:113-115 | "Sorted by due date" for dueDate, "Sorted by priority" for priority, "Sorted by title" for any other key |
| Calendar.FirstWeekday | client/src/pages/calendar-page.tsx:44 | the weekday of the 1st lies in 0..6 |
| Calendar.MonthGrid | client/src/pages/calendar-page.tsx:39-54 | 42 cells: as many empty cells as the weekday of the 1st, then days 1 to daysInMonth in order, then empty cells; every non-empty cell is a day of the month |
| Calendar.DaysFromCivilWithinMonth | client/src/pages/calendar-page.tsx:42 | the days of a month have consecutive day numbers |
| Calendar.GridColumnIsWeekday | client/src/pages/calendar-page.tsx:44-47 | each day stands in the column of its weekday |
| Calendar.TasksForDay | client/src/pages/calendar-page.tsx:57-91 | none for an empty cell or before the tasks arrive; otherwise exactly the tasks with a valid due date on that day, month and year, in list order; never a task without a valid date |
| Calendar.DueOn | client/src/pages/calendar-page.tsx:81-85 | a task falls on a day only when it has a valid due date, and then exactly when the due date's calendar date is that day |
| Calendar.DueOnIsSameDay | client/src/pages/calendar-page.tsx:81-85 | matching day, month and year is matching the day number, so the time of day plays no part |
| Calendar.SelectDay | client/src/pages/calendar-page.tsx:94-98 | clicking a day selects it; clicking an empty cell keeps the selection |
| Calendar.PreviewTasks | client/src/pages/calendar-page.tsx:170-174 | the tasks of the selected day, or of today when no day is selected |
| Calendar.GridView | client/src/pages/calendar-page.tsx:154-163 | a placeholder exactly for the empty grid cells; each day cell shows its day, is marked today exactly on the current date, and accounts for every task of that day |
| CalendarCell.MoreCount | client/src/components/ui/calendar-cell.tsx:58-62 | "+N more" appears exactly above 2 tasks, with N = count − 2 |
| CalendarCell.Titles | client/src/components/ui/calendar-cell.tsx:49 | one title per task, in order |
| CalendarCell.Cell | client/src/components/ui/calendar-cell.tsx:20-62 | a missing day gives only a placeholder; the dot shows exactly when there are tasks; the first min(2, count) titles, in order; "+N more" exactly above 2, with N = count − 2; titles plus N equals the task count |
| CalendarCell.CellTitlesAndMore | client/src/components/ui/calendar-cell.tsx:49-62 | a day with at most two tasks lists every title and no "+N more"; with more, the first two titles and "+N more" for the rest |
| Analytics.Score | client/src/pages/analytics-page.tsx:52-59 | 0 without stats or tasks; otherwise the completed share times 100, rounded half up |
| Analytics.ScoreBounds | client/src/pages/analytics-page.tsx:58 | the score lies in [0, 100] and is 100 when every task is completed |
| Analytics.ScoreMonotone | client/src/pages/analytics-page.tsx:55-58 | completing more tasks, the other two counts fixed, never lowers the score |
| Analytics.ScoreLabel | client/src/pages/analytics-page.tsx:138 | "high" exactly above 70, "average" otherwise |
| Analytics.BarWidth | client/src/pages/analytics-page.tsx:166-231 | a bar's width is its share of the total times 100, or 0 without tasks |
| Analytics.BarsFill | client/src/pages/analytics-page.tsx:166-231 | with tasks, the three widths sum to 100 |
| Analytics.ScoreRoundsCompletedBar | client/src/pages/analytics-page.tsx:166-177 | the score (Math.round of the completed share) is the completed bar's width rounded to the nearest integer |
| Analytics.PieColour | client/src/pages/analytics-page.tsx:72-73 | every slice gets one of the four chart colours |
| Analytics.PieColourCycle | client/src/pages/analytics-page.tsx:328 | slice i gets colour i mod 4: the colours repeat every four slices, and four neighbouring slices differ |
| Profile.WithStatus | client/src/pages/profile-page.tsx:25-26 | exactly the tasks with that status |
| Profile.CalculateUserStats | client/src/pages/profile-page.tsx:24-33 | completed and in-progress count their statuses; the streak is min(completed, 7) |
| Profile.StatsWithinTaskCount | client/src/pages/profile-page.tsx:25-26 | completed + in-progress never exceed the number of tasks |
| Profile.StatsAgreeWithServer | client/src/pages/profile-page.tsx:25-26 | on the server's list of the user's tasks, the page's counts equal the completion statistics of the server |
| Profile.AvatarLetter | client/src/pages/profile-page.tsx:79 | one character: the name's first, else the username's, else "?" |
| Profile.ProfilePicture | client/src/pages/profile-page.tsx:70-82 | the image exactly when there is a non-empty avatar URL, otherwise the letter |
| Profile.DisplayName | client/src/pages/profile-page.tsx:85 | the name, or "Anonymous User" when it is missing or empty |
| Profile.JoinedLabel | client/src/pages/profile-page.tsx:122 | the month and year of the creation time, or "Recently" exactly when there is none |
| TaskItem.ToggledStatus | client/src/components/tasks/task-item.tsx:108-111 | completed becomes pending; any other status becomes completed |
| TaskItem.TogglePayload | client/src/components/tasks/task-item.tsx:112 | the toggle sends only `status` |
| TaskItem.ToggleTwice | client/src/components/tasks/task-item.tsx:107-113 | toggling twice restores completed and pending, but turns in-progress into pending |
| TaskItem.ToggleChangesOnlyStatus | client/src/components/tasks/task-item.tsx:107-113 | on the server, a toggle changes the status and updatedAt and nothing else |
| TaskItem.BadgeTone | client/src/components/tasks/task-item.tsx:116-126 | red, yellow or green exactly for high, medium or low; gray exactly for anything else |
| TaskItem.BorderTone | client/src/components/tasks/task-item.tsx:165-167 | red exactly for high, amber exactly for medium, green for everything else |
| TaskItem.BadgeAndBorderDisagreeOnUnknown | client/src/components/tasks/task-item.tsx:116-167 | for an unknown priority the badge is gray but the border is green |
| TaskItem.Capitalised | client/src/components/tasks/task-item.tsx:213 | the first letter upper-cased, the rest unchanged |
| TaskItem.DueLineTone | client/src/components/tasks/task-item.tsx:237-245 | no line without a due date; red exactly when overdue (due before now and not completed); gray otherwise |
| TaskItem.Overdue | client/src/components/tasks/task-item.tsx:242 | a task without a due date or a completed one is never overdue; any other task is overdue exactly when its due date has passed |
| TaskItem.DueDateLabel | client/src/components/tasks/task-item.tsx:249-267 | "Today" exactly on the current date, "Tomorrow" exactly on the next, otherwise the date itself |
| TaskItem.OverdueIsNotTomorrow | client/src/components/tasks/task-item.tsx:242-262 | an overdue task is never labelled "Tomorrow" |
| TaskItem.DayNumberMonotone | client/src/components/tasks/task-item.tsx:256-262 | a later instant never falls on an earlier day |
| TaskItem.InitialEdit | client/src/components/tasks/task-item.tsx:46-52 | the form starts with the task's title, description (or null), priority and status, and its due date as a Date when there is one |
| TaskItem.SubmitPayload | client/src/components/tasks/task-item.tsx:135-151 | the record is sent with its due date made a Date again, or without it when unset; every other property is as edited |
| TaskItem.UntouchedEditKeepsTask | client/src/components/tasks/task-item.tsx:46-151 | saving the form untouched stores the task as it was, apart from updatedAt |
| TaskItem.TaskCard.constructor | client/src/components/tasks/task-item.tsx:44-52 | the card starts with the initial record and both dialogs closed |
| TaskItem.TaskCard.HandleEditChange | client/src/components/tasks/task-item.tsx:130-132 | exactly one property of the record changes, to the new value |
| TaskItem.TaskCard.SetEditing | client/src/components/tasks/task-item.tsx:222 | sets the edit dialog flag and changes nothing else |
| TaskItem.TaskCard.SetDeleteDialog | client/src/components/tasks/task-item.tsx:228 | sets the delete dialog flag and changes nothing else |
| TaskItem.TaskCard.Submission | client/src/components/tasks/task-item.tsx:135-151 | the request holds the edited keys, without the due date when it is empty; every other property is the edited one; a due date is sent as the Date built from the edited value |
| Initials.FirstChar | client/src/components/sidebar/sidebar.tsx:51 | `charAt(0)`: at most one character, empty exactly for the empty string, and the first character otherwise |
| Initials.Heads | client/src/components/sidebar/sidebar.tsx:46-48 | at most one character per word |
| Initials.WordStarts | client/src/components/sidebar/sidebar.tsx:44-50 | the reference definition: word starts are non-space characters of the name |
| Initials.HeadsOfSplit | client/src/components/sidebar/sidebar.tsx:46-48 | the first letters of the split words are the word starts of the name |
| Initials.NameInitials | client/src/components/sidebar/sidebar.tsx:44-50 | the upper-cased word starts, never more than the number of words |
| Initials.BlankNameHasNoInitials | client/src/components/sidebar/sidebar.tsx:44-50 | a name made of spaces has no initials |
| Initials.OneWordInitial | client/src/components/sidebar/sidebar.tsx:44-50 | a one-word name gives its upper-cased first letter |
| Sidebar.Highlighted | client/src/components/sidebar/sidebar.tsx:69 | an item is highlighted exactly when the location equals its path |
| Sidebar.AtMostOneHighlighted | client/src/components/sidebar/sidebar.tsx:18-69 | the four paths are distinct, so at most one item is highlighted |
| Sidebar.GetInitials | client/src/components/sidebar/sidebar.tsx:42-52 | "?" without a user; the name's initials with a name; otherwise the username's upper-cased first letter |
| Sidebar.DisplayName | client/src/components/sidebar/sidebar.tsx:89 | the name, falling back to the username |
| NewCategory.GetRandomColor | client/src/components/tasks/new-category-dialog.tsx:53-55 | seven characters that satisfy the colour rule |
| NewCategory.GeneratedColourAccepted | client/src/components/tasks/new-category-dialog.tsx:36-55 | a non-empty name with a generated colour passes the form |
| NewCategory.ShortColourRefused | client/src/components/tasks/new-category-dialog.tsx:38 | five hex digits or a missing "#" are refused; either letter case passes |
| NewCategory.Payload | client/src/components/tasks/new-category-dialog.tsx:68-72 | the form's name and colour plus the user's id, when there is one, and nothing else |
| NewCategory.Dialog.constructor | client/src/components/tasks/new-category-dialog.tsx:50-64 | starts with an empty name, a generated colour, and not creating |
| NewCategory.Dialog.OnSubmit | client/src/components/tasks/new-category-dialog.tsx:98-112 | not creating afterwards, whether or not the request threw; the payload of the form is sent exactly when it did not throw |
| NewCategory.Dialog.OnCreated | client/src/components/tasks/new-category-dialog.tsx:78-81 | the name is reset to empty and the colour to a freshly generated valid one |
| EditProfile.OrEmpty | client/src/components/profile/edit-profile-dialog.tsx:59-63 | a missing value becomes "" |
| EditProfile.Defaults | client/src/components/profile/edit-profile-dialog.tsx:58-64 | the username is copied; null name, email, avatar and birthday become "" |
| EditProfile.MissingNameBlocksDefaults | client/src/components/profile/edit-profile-dialog.tsx:36-59 | the default "" of a missing or empty name counts as given and fails the 2-character minimum |
| EditProfile.MissingEmailBlocksDefaults | client/src/components/profile/edit-profile-dialog.tsx:38-61 | the default "" of a missing email fails the email rule |
| EditProfile.CompleteProfilePasses | client/src/components/profile/edit-profile-dialog.tsx:35-64 | a profile with a long enough name and username and a valid email passes with its defaults |
| EditProfile.GetInitials | client/src/components/profile/edit-profile-dialog.tsx:95-104 | the name's initials when it is non-empty, otherwise the username's upper-cased first letter |
| EditProfile.InitialsAgreeWithSidebar | client/src/components/profile/edit-profile-dialog.tsx:95-104 | the dialog and the sidebar show the same initials for a user |
| EditProfile.InitialPreview | client/src/components/profile/edit-profile-dialog.tsx:51-53 | the user's avatar, or none when there is none |

## Left out

- Database and session plumbing: Drizzle, Postgres, the session store and `process.env`. The tables are sequences in a class.
- getTasksByCategory and GET /api/analytics/categories: the query groups by a `category` column that the tasks table does not have.
- The SQL of getWeeklyActivity (`EXTRACT(DOW …)`): the operation starts from the grouped rows it returns, as parameters.
- Result order of the SQL queries: the model returns rows in table order, while the database promises no order.
- Storage.Store.constructor: the seed completes before the first request, though the source starts it without waiting for it.
- Driver.ParamText: Date, array and object parameters are refused. node-postgres would send a Date as timestamp text, an array as an array literal and an object as JSON.
- Driver.ParamText: integers of 1e21 and above are rendered in plain decimal, although JavaScript prints them in exponent notation.
- Driver.Int4In: only the decimal form is read. The hexadecimal, octal and binary literals and the underscores that Postgres 16 accepts are left out.
- Storage.Store.CreateTaskCategory: a Date, array or object name or colour is refused, because Driver.ParamText does not render those values.
- Due dates the database refuses: the `timestamp` column is sent `toISOString` text, and Postgres refuses year 0 and the signed forms of years before 1 that JavaScript writes. The model stores such a date. On that input POST /api/tasks would answer 500, because createTask rethrows. PUT /api/tasks/:id would answer 200 with an empty body, because updateTask catches and gives undefined.
- Id and createdAt in an update patch: the model ignores both. The database would write an id. A createdAt taken from JSON is a string, and the timestamp encoder fails on it, so updateTask and updateUser give undefined. PUT /api/tasks/:id would then answer 200 with an empty body, and PUT /api/user/profile 404.
- Failed inserts: they leave the id sequences where they were, while Postgres serial ids advance even on a failed insert.
- Other store failures: every storage method catches a database failure. getUser, getUserByUsername, getTask and updateTask then give undefined; updateUser does the same. deleteUser and deleteTask give false, the list queries an empty list, and the completion stats zeros. createUser, createTask and createTaskCategory rethrow. The model takes the failure as `storeFails` only in deleteTask, the completion stats and the weekly activity. Everywhere else the store does not fail, apart from the unique and not-null constraints and the column types that are modelled (see the Driver rows). The failures below are not modelled.
- Route 500 answers: they are modelled where a modelled store failure reaches the route (GET /api/analytics/weekly, and POST /api/categories when the insert is refused). The other `catch` blocks are left out.
- Non-integer numbers: `Num` holds integers, so fractional timestamps and NaN from arithmetic are not represented. `Other` stands for an array or a plain object, carried with its `String(v)` text. That text is what `new Date(v)` parses, so `new Date(["2025-01-01"])` is a valid date.
- Time zones: local time is UTC, so `setHours`, `getDate`, `getMonth` and `getFullYear` work on UTC days.
- Date libraries: `new Date(string)` and `parseISO` are the parameter `parse`; date-fns `format`, `isToday` and `isSameMonth` are modelled by their results.
- Calendar.GridView: `isCurrentMonth` is true for every day cell, since the grid only holds days of the selected month.
- Home.TitleCompare: `localeCompare` is modelled as lexicographic order on characters; locale collation is left out.
- Text.Lower: `toLowerCase` maps only the letters A to Z; other letters are kept as they are.
- Text.Upper: `toUpperCase` maps only the letters a to z; other letters, such as "ß", are kept as they are.
- Strings: a Dafny character is a Unicode scalar value, while JavaScript's `length`, `charAt`, `n[0]` and string order work on UTF-16 code units. The two agree on text in the Basic Multilingual Plane; outside it, a character counts as two units in JavaScript.
- Seqs.Sort: the engine's sort is modelled as a stable insertion sort. The source's due-date comparator is not consistent, and neither is its priority comparator. With such a comparator the engine's order is unspecified, so only the corrected comparators are sorted.
- Home.SortByPriority: it holds for the corrected comparator. As written, a task whose priority is a name inherited from Object.prototype leaves the order unspecified; see Findings.
- Dates in JSON: the client receives due dates as ISO strings. The model gives the client epoch milliseconds and leaves the wire encoding out.
- Floating point: the score and the bar widths are computed exactly, with integers and rationals. Math.round is half-up rounding on the exact share.
- Randomness: `Math.random` is replaced by its integer result, taken as a parameter in [0, 16777214].
- The email check of the profile form (zod `.email()`) is the parameter `isEmail`. The FileReader avatar upload is left out.
- React Query fetching and caching, the toasts, and rendering are left out. The result of a network request is a parameter.
- CalendarCell.Cell: the falsy `!day` test is modelled for day 0 as well as for no day.
- The new-task dialog is only form defaults and wiring, and is not part of this model.
- Authentication is the `Session` parameter; `setupAuth` and login are left out.

## Findings

| source | as written | input that shows it | evidently intended | confidence | as-written member | corrected member |
|---|---|---|---|---|---|---|
| server/routes.ts:195 | the default category colour is `"#"` plus the unpadded hex digits of the random integer | a random value of 255 gives "#ff", which the category form's `#rrggbb` rule refuses | pad the hex digits to six with zeros, as new-category-dialog.tsx:54 does | not executed | Routes.CategoryColourAsWrittenShort | Routes.CategoryColour |
| client/src/pages/home-page.tsx:48-49 | the due-date comparator returns 1 whenever the first task has no due date, so for two undated tasks it returns 1 in both orders | two tasks with no due date: compare(a, b) = 1 and compare(b, a) = 1 | a consistent order: undated tasks equal among themselves, after every dated task | not executed | Home.DueCompareAsWrittenInconsistent | Home.DueConsistent |
| client/src/pages/home-page.tsx:52-60 | the priority table is an object literal, so a priority such as "constructor" or "toString" finds a member inherited from Object.prototype; `\|\| 0` keeps it and the subtraction gives NaN, which the sort reads as 0 | tasks with priorities "high", "constructor" and "low"; the priority is not checked on PUT /api/tasks/:id | an unknown priority ranks 0, after "low" | not executed | Home.PriorityCompareAsWrittenInconsistent | Home.PriorityConsistent |
| server/storage.ts:479 | the `catch` block of getWeeklyActivity maps over `days`, which is declared inside the `try` block at line 453 | any database failure in getWeeklyActivity throws a ReferenceError instead of returning | seven entries, Sunday first, each with count 0 | not executed | Storage.WeeklyFallbackAsWrittenThrows | Storage.ZeroWeek |
