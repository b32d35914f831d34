# Task manager core, modelled in Dafny

This project models the logic of a small Next.js task manager. It has two pages and two API routes:

- **The task/memo store of `pages/index.tsx`.** The page keeps an ordered list of tasks and one of memos. Each list is mirrored to its local-storage slot, and each has a backup slot. The handlers add, delete, toggle and restore. The page shows a derived view: the work (`業務`) tasks, incomplete first, then by ascending deadline.
- **The newer page `app/page.tsx`.** It keeps the same store. It also sends every new non-work task of a signed-in user to the calendar save route, with a start string it resolves from the form. It has an edit action that takes a task off the list and puts its title and deadline back in the form.
- **The calendar save route `app/api/calendar/save/route.ts`.** It checks the caller and the request in a fixed order. It turns the start text, the `H:MM` duration and the all-day span into the two ends of a calendar event, coloured by category. It writes those ends as bare dates or as local date-times.
- **The save-task endpoint `pages/api/save-task.ts`.** It holds a list in server memory. POST appends to it, GET lists it, and every other method gets 405.

Modules, one file each:

- `Wrappers`: `Option`.
- `Digits`: decimal digits, `toString`, `padStart`.
- `CivilTime`: proleptic Gregorian dates and day numbers; adding days and seconds; the two text forms the route writes and the forms a JavaScript `Date` reads.
- `Records`: tasks, memos, the form, backup slots, toasts, and the task the form builds.
- `Board`: the pure list transforms of the pages.
- `HomePage`: class `Home`, the store of `pages/index.tsx`.
- `AppPage`: class `App`, the store of `app/page.tsx`, its calendar request, and the round trip through the route.
- `CalendarSave`: the route.
- `SaveTask`: class `Endpoint` and the pure request handler.

Both pages are classes whose fields are the React state and the storage slots. Each handler is a method whose postcondition gives the whole new state, through the pure functions of `Board` and `Records`. The properties are proved about those functions. The route is pure: a JavaScript `Date` is `Moment`, which is either a valid local date-time to the second or the Invalid Date.

Inputs the code gets from outside are parameters:

- `Date.now()` ids;
- the session;
- the route's access token;
- whether Google Calendar accepts the event;
- the contents of the storage slots.

Toasts are a log of notices.

## Model

| member | source | states |
|---|---|---|
| Records.NewTask | pages/index.tsx:78-90 | id, title, category and deadline are carried over and `completed` is false. A work task has no time, duration, all-day flag or span. An all-day task has a span equal to the form's and no time. A timed task has the form's time and duration and no span. Every non-memo task is well shaped. |
| Records.ClearedForm | pages/index.tsx:96-101 | After a task is added, every input is reset to its initial value except the category: empty title, deadline, time and duration, not all-day, and a one-day span. |
| HomePage.Home.constructor | pages/index.tsx:28-42 | Each list starts as its storage slot, or empty when the slot holds nothing. The form starts in its initial state. |
| HomePage.Home.Fill | pages/index.tsx:44-50 | The form holds what was typed, and storage still mirrors the lists. |
| HomePage.Home.AddTask | pages/index.tsx:61-103 | An empty title changes nothing. A memo is appended to the end of the memos, the memo backup becomes the new list, only the title is cleared, and tasks are untouched. An empty deadline changes nothing. Otherwise the new task is appended, the task backup becomes the new list, and the form is cleared except for its category. |
| HomePage.Home.DeleteTask | pages/index.tsx:105-108 | The task list becomes the tasks whose id differs, memos are untouched, and a success toast follows. |
| HomePage.Home.DeleteMemo | pages/index.tsx:110-113 | The memo list becomes the memos whose id differs, tasks are untouched, and a success toast follows. |
| HomePage.Home.RestoreBackup | pages/index.tsx:115-138 | Each list independently takes its backup when the backup parses as an array and is otherwise unchanged. Each corrupt backup adds its error toast, and the success toast always comes last. |
| HomePage.Home.ToggleComplete | pages/index.tsx:140-146 | The task list becomes the toggled list. |
| HomePage.Home.Visible | pages/index.tsx:148-153 | A task is in the view exactly when it is a work task in the list. |
| Board.DeleteTaskSpec | pages/index.tsx:105-108 | A task survives deletion exactly when it was listed with another id. Deletion distributes over concatenation, so order is kept. Deleting an absent id changes nothing. |
| Board.WithoutTask | pages/index.tsx:106 | The filtered list is no longer than the list, and no task in it has the id. `DeleteTaskSpec` gives the rest. |
| Board.WithoutMemo | pages/index.tsx:111 | The filtered list is no longer than the list, and no memo in it has the id. `DeleteMemoSpec` gives the rest. |
| Board.DeleteMemoSpec | pages/index.tsx:110-113 | The same for memos. |
| Board.RemoveListedTask | pages/index.tsx:105-108 | With unique ids, deleting a listed task's id shortens the list by exactly one. |
| Board.Toggled | pages/index.tsx:140-146 | The length is kept. `completed` flips exactly on the tasks with the id. Every other field of every task is kept. |
| Board.ToggleTwice | pages/index.tsx:140-146 | Toggling the same id twice gives back the original list. |
| Board.TextLeTotal | pages/index.tsx:152 | Any two deadlines are comparable. |
| Board.TextLeTransitive | pages/index.tsx:152 | Deadline order is transitive. |
| Board.PrecedesTotal | pages/index.tsx:150-153 | The view's comparator orders any two tasks. |
| Board.Precedes | pages/index.tsx:150-152 | An incomplete task comes before a completed one, and never the reverse. Among tasks with the same completion, an empty deadline comes first. `PrecedesTotal` and `PrecedesTransitive` make it an order. |
| Board.PrecedesTransitive | pages/index.tsx:150-153 | The view's comparator is transitive. |
| Board.Insert | pages/index.tsx:150-153 | Inserting into a sorted list gives a sorted list with the same tasks plus the new one. |
| Board.SortTasks | pages/index.tsx:150-153 | The result is sorted by the comparator and is a permutation of the input. |
| Board.VisibleTasksSpec | pages/index.tsx:148-153 | The view is a permutation of the work tasks. Every incomplete task comes before every completed one, and deadlines ascend within each group. |
| Board.VisibleTasks | pages/index.tsx:148-153 | The view is no longer than the list, and every task in it is a work task of the list. `VisibleTasksSpec` gives the permutation and the order. |
| Board.Restored | pages/index.tsx:119-135 | The list is the backup's array when the slot parses as an array, and the current list otherwise. |
| Board.RestoreNotices | pages/index.tsx:115-138 | There is one error per corrupt backup, named by list, and the success toast always comes last. |
| AppPage.App.constructor | app/page.tsx:28-42 | The lists start from their storage slots, the form is initial, and no request has been sent or is awaited. |
| AppPage.App.Fill | app/page.tsx:44-50 | The form holds what was typed. |
| AppPage.App.DeleteMemo | app/page.tsx:60-63 | Only memos with another id stay, and a success toast follows. |
| AppPage.App.RestoreBackup | app/page.tsx:65-88 | Each half is restored independently, with the same toasts as the other page. |
| AppPage.App.AddTask | app/page.tsx:90-155 | It has the same checks and task shape as the other page. The task and its backup are stored first. A request is sent, and left awaiting its answer with the form untouched, exactly when the user is signed in and the category is not work. Without a request the form is cleared at once. A second submit while waiting adds the task again and sends a second request. |
| AppPage.App.Settle | app/page.tsx:140-154 | The answer to an awaited request arrives, carrying the body built at submit time. It leaves the awaited list, adds the toast for the route's answer, and clears the form as it stands then, keeping its current category. An unreadable answer adds no toast and skips the reset. Stored tasks are never touched. |
| AppPage.App.Edit | app/page.tsx:179-186 | The form takes the task's title and deadline with the work category. Every task with that id leaves the list, and the edit toast is shown. |
| AppPage.EditResubmit | app/page.tsx:179-186 | Submitting an edited task again adds a work task with the same title and deadline, with no clock time and no calendar request. |
| AppPage.ResolvedStart | app/page.tsx:123-125 | An all-day task sends its deadline. Otherwise it sends the deadline, `T`, and then exactly the clock time or `00:00`, which is never empty. The start is never empty when the deadline is not. |
| AppPage.ShouldSync | app/page.tsx:122 | A task is sent only for a signed-in user. A sent task that is not a memo always has its own calendar colour. A signed-in user's task that is not sent is a work task, which has the default colour. |
| AppPage.ClockOrMidnight | app/page.tsx:125 | An empty time input becomes `00:00`, and any other time is kept unchanged. |
| AppPage.Request | app/page.tsx:127-137 | The posted body carries the title, the resolved start, the duration, the category's label, the all-day flag and the span. |
| AppPage.ReplyNotice | app/page.tsx:140-145 | A 2xx answer gives the success toast `登録完了しました`. Other answers give the route's error text, or the fixed message when there is none. An answer that is not JSON gives no toast. |
| AppPage.StartAsChosen | app/page.tsx:123-125 | The route reads the start the page meant: midnight of the deadline for all-day tasks or an empty time, and the chosen time otherwise. |
| AppPage.CategoryColour | app/api/calendar/save/route.ts:7-14 | Every page category has a non-empty label. Only work and memo get the default colour `1`. |
| AppPage.EventBuilt | app/api/calendar/save/route.ts:45-67 | The route fails to build an event for the page's request exactly when the task is all-day and its deadline is not a date. |
| AppPage.SyncOutcome | app/page.tsx:127-145 | For a task with a title and a deadline, the route never answers 400. Without a token the toast is the route's 401 error. An all-day task whose deadline is not a date gets no toast. Otherwise the toast is success exactly when the calendar accepts, and the route's failure message otherwise. |
| CalendarSave.ColorId | app/api/calendar/save/route.ts:60 | A mapped category gets its code. The result is `1` exactly when the category is not one of the six mapped ones. |
| CalendarSave.NumberOf | app/api/calendar/save/route.ts:81 | A part is a number exactly when it is all digits, and its number is the value of those digits, so the empty part reads as 0. |
| CalendarSave.ParseDuration | app/api/calendar/save/route.ts:79-83 | A missing text, or one without `:`, gives one hour. A duration is never negative. |
| CalendarSave.FieldsDuration | app/api/calendar/save/route.ts:81-82 | The duration of two fields is never negative. |
| CalendarSave.DurationOfDigits | app/api/calendar/save/route.ts:81-82 | For digit fields, `H:M`, with or without further fields, lasts `(H*60+M)*60000` ms. Only the first two fields count. |
| CalendarSave.FirstTwoFields | app/api/calendar/save/route.ts:81 | The duration is read from the digits before the first colon and the field after it. |
| CalendarSave.DurationWholeMinutes | app/api/calendar/save/route.ts:82 | Every parsed duration is a whole number of minutes. |
| CalendarSave.SpanDays | app/api/calendar/save/route.ts:50 | The span is never 0. It is `days` when that is given and non-zero, and 1 otherwise. |
| CalendarSave.End | app/api/calendar/save/route.ts:49-51 | An all-day end is exactly the span in days after the start, at the same clock time. A timed end is exactly the duration after the start. An invalid start or NaN duration gives an invalid end. |
| CalendarSave.Start | app/api/calendar/save/route.ts:45-47 | A start that reads is a valid local time. An all-day start is midnight of the start date exactly when that date reads, and the Invalid Date otherwise. |
| CalendarSave.BuildEvent | app/api/calendar/save/route.ts:58-67 | There is no event exactly when the request is all-day with an invalid start. The summary and colour come from the task and category. All-day ends are bare dates. Timed ends carry the Tokyo zone. |
| CalendarSave.MomentText | app/api/calendar/save/route.ts:63-66 | The Invalid Date prints as `NaN-NaN-NaNTNaN:NaN:00`, which reads as no time at all. A valid time with a four-digit year prints as text that reads back as the same time, with the seconds set to 0. |
| CalendarSave.Post | app/api/calendar/save/route.ts:16-76 | 401 exactly without a token. Then 400 for unparsable JSON. Then 400 for a missing task, start or category. None of these reaches the calendar. A request that passes the checks hands the calendar exactly the event `BuildEvent` makes. 200 exactly when an event was built and the calendar accepted it. For a request that passes the checks, the answer is exactly the framework's unhandled 500 when no event can be built, 200 `Googleカレンダーに登録しました` when the calendar takes it, and 500 `カレンダー登録失敗` when it does not. |
| CalendarSave.AllDayEvent | app/api/calendar/save/route.ts:45-50 | An all-day request with a date start makes a date-only event from that date to the date `SpanDays` days later. |
| CalendarSave.TimedEvent | app/api/calendar/save/route.ts:51 | A timed request with a valid start and duration makes a Tokyo-time event that ends exactly the duration later, never before it starts. |
| CalendarSave.SplitAtFirst | app/api/calendar/save/route.ts:81 | Splitting on the first separator gives back the text before and after it. |
| CivilTime.DaysInMonth | app/api/calendar/save/route.ts:50 | Months have 28 to 31 days, and 29 exactly for February of a leap year. |
| CivilTime.YearLength | app/api/calendar/save/route.ts:50 | Consecutive March-based years are 366 days apart exactly when the second holds a leap day. |
| CivilTime.NextDayNumber | app/api/calendar/save/route.ts:50 | The next calendar day is valid and has the next day number. |
| CivilTime.PrevDayNumber | app/api/calendar/save/route.ts:50 | The previous calendar day is valid and has the previous day number. |
| CivilTime.AddDays | app/api/calendar/save/route.ts:50 | `setDate(getDate() + n)` gives a valid date exactly `n` day numbers on, with month and year rollover. |
| CivilTime.AddSeconds | app/api/calendar/save/route.ts:51 | Adding `k` seconds gives a valid local time exactly `k` seconds later. |
| CivilTime.SplitSeconds | app/api/calendar/save/route.ts:51 | A count of seconds is whole days plus an hour, minute and second in range. |
| CivilTime.ParseDate | app/api/calendar/save/route.ts:46 | A date that reads is a valid calendar date with a year from 0 to 9999. |
| CivilTime.ParseLocal | app/api/calendar/save/route.ts:47 | A local date-time that reads is valid. |
| CivilTime.MidnightOfDate | app/api/calendar/save/route.ts:46 | `startDate + 'T00:00:00'` reads as midnight of the date when the date reads, and as the Invalid Date otherwise. |
| CivilTime.ParseLocalJoin | app/api/calendar/save/route.ts:47 | A date, `T` and a clock time read as that date at that time. |
| CivilTime.IsoYear | app/api/calendar/save/route.ts:87 | The year `toISOString` writes: for 0 to 9999, exactly four digits that read back as the year. Later years are `+` followed by at least six digits worth the year, and negative years are `-` followed by at least six digits worth its magnitude. |
| CivilTime.FormatDate | app/api/calendar/save/route.ts:86-88 | For years 0 to 9999 the text is ten characters: the `IsoYear` digits, then `-` at positions 4 and 7 around the padded month and day. `FormatDateRoundTrip` reads it back. |
| CivilTime.FormatLocalDateTime | app/api/calendar/save/route.ts:90-94 | The text always ends in `:00`, because the seconds are never written. For four-digit years it is exactly 19 characters. `FormatLocalDateTimeRoundTrip` reads it back. |
| CivilTime.FormatDateRoundTrip | app/api/calendar/save/route.ts:86-88 | `formatDate` loses nothing: its text reads back as the same date for years 0 to 9999. |
| CivilTime.FormatLocalDateTimeRoundTrip | app/api/calendar/save/route.ts:90-94 | `formatLocalDateTime` writes `YYYY-MM-DDTHH:MM:00` with every field padded. For four-digit years the text reads back as the same time with the seconds set to 0. |
| Digits.Decimal | app/api/calendar/save/route.ts:92 | `toString` of a natural is a non-empty digit string whose value is the number, one digit long exactly below 10, with no leading zero. |
| Digits.PadStart | app/api/calendar/save/route.ts:92 | The result is at least as wide as asked, ends with the text, and is padded with zeros. |
| Digits.PadStartValue | app/api/calendar/save/route.ts:92 | Zero padding keeps a digit string's value. |
| Digits.Pad2Value | app/api/calendar/save/route.ts:92 | `pad` of a number below 100 is two digits worth that number. |
| Digits.DigitsValueBound | app/api/calendar/save/route.ts:92 | `k` digits are worth less than `10^k`. |
| SaveTask.Handle | pages/api/save-task.ts:3-15 | POST appends the body to the end and answers 200. GET answers 200 with the list and keeps it. Any other method keeps the list and answers 405 with its message. |
| SaveTask.RunAppendsPosted | pages/api/save-task.ts:1-8 | After any run of requests the list is the old list followed by every POST body, in arrival order. |
| SaveTask.ListingAfterRun | pages/api/save-task.ts:10-12 | A GET after any run on a fresh server lists exactly the posted bodies, in order. |
| SaveTask.Endpoint.constructor | pages/api/save-task.ts:1 | The module starts with an empty list. |
| SaveTask.Endpoint.Handler | pages/api/save-task.ts:3-15 | Serving a request changes the list and answers exactly as `Handle` says. |

## Left out

- Rendering, the show/hide state of the form, and the look of toasts. A toast is a notice appended to a log.
- `Date.now()` ids, the session, the route's access token, the outcome of the Google Calendar call, and the storage slots' contents are parameters. The OAuth client, `lib/google.ts` and `lib/firestore.ts` are not part of this model.
- `pages/index-a.tsx`, `app/layout.tsx`, `next.config.js`, `types/next-auth.d.ts` and the auth route hold markup, configuration or plain fetches, and are not modelled.
- `visibleTasks`, `handleToggleComplete` and `handleDeleteTask` are referenced in `app/page.tsx` but not defined there. `AppPage.App` therefore has no toggle, delete-task or view. Those behaviours are modelled from `pages/index.tsx` in `HomePage.Home`.
- A network failure of `fetch` is not modelled. The only unreadable reply modelled is the route's unhandled throw.
- AppPage.App.Settle: the two `await`s of the handler, on `fetch` and on `res.json()`, are one step. Other actions that run between them run before `Settle` in the model instead. The effect is the same, because the handler changes nothing between the two.
- HomePage.Home.constructor: a storage slot `tasks` or `memos` that holds text which does not parse makes the page throw on load. The model takes each slot as already read: a list, or nothing.
- CivilTime.FormatDateRoundTrip: `formatDate` goes through `toISOString`, which writes the UTC date. The model writes the local date. On a host east of UTC, local midnight falls on the previous UTC day, and the model does not show that shift. Time zones are not modelled at all: every time is local, and the route's `Asia/Tokyo` is only a label.
- CivilTime.ParseLocal: `new Date(text)` accepts many more forms than `YYYY-MM-DD` and `YYYY-MM-DDTHH:MM[:SS]`, and some engines roll an out-of-range day over to the next month. The model reads only those two forms with in-range fields, and gives the Invalid Date for everything else. Date-only text such as `2024-05-02` reads in JavaScript as UTC midnight. The model reads it as the Invalid Date when it is the start of a timed request, so a timed request with a bare date gets NaN times in the model. The page never sends such a request: it joins the deadline with `T` and a time whenever the task is not all-day.
- CivilTime.AddSeconds: times have one-second resolution. Milliseconds of a duration below a second are dropped, which never happens for the whole-minute durations `parseDuration` returns.
- CivilTime.FormatLocalDateTimeRoundTrip: proved for four-digit years only. The formatter itself is modelled for every year.
- CalendarSave.End: JavaScript keeps a `Date` only within 8.64e15 ms of the epoch, about 100,000,000 days either way. Beyond that, `setDate` and `new Date(ms)` give the Invalid Date. The model's dates are unbounded. So an all-day span such as `days` 100000000, or a duration such as `2400000000:00`, gives a valid far date in the model, where the source gives the Invalid Date.
- CalendarSave.BuildEvent: because the model has no `Date` range, an all-day event whose end falls outside it is built in the model. In the source, `formatDate` on that Invalid Date throws, and the route answers with an unhandled 500. A timed event whose end falls outside the range carries `NaN` fields in the source, where the model writes a far date.
- CalendarSave.AllDayEvent: holds for any span in the model. In the source, a span that carries the end past the `Date` range makes the route throw instead.
- CalendarSave.TimedEvent: holds for any duration in the model. In the source, a duration that carries the end past the `Date` range gives `NaN` end fields instead.
- CalendarSave.Post: the 500 for an all-day end past the `Date` range is not modelled; the model answers as for any built event.
- CalendarSave.TimedEvent: a signed duration such as `-1:30` is read by `Number()` in the source as -60 + 30 minutes, so the source gives an event that ends 30 minutes before it starts. The model reads the signed part as NaN and prints the NaN end text. "Never before it starts" holds for the model only.
- CalendarSave.ParseDuration: "never negative" holds for the model only. In the source, `parseDuration("-1:30")` is -1,800,000 ms.
- CalendarSave.FieldsDuration: "never negative" holds for the model only, for the same reason as `ParseDuration`.
- CalendarSave.NumberOf: `Number()` also reads signs, spaces, decimals and exponents. Those parts are NaN in the model, as are all non-digit parts.
- CalendarSave.SpanDays: a `days` value that is not an integer, or not a number at all, is outside the model. `days` is an optional integer, and `Number(undefined) || 1` is taken as 1.
- CalendarSave.Post: a JSON body of `null`, which makes the destructuring throw, is not modelled. A body that is a number, string, boolean or array has no fields, and corresponds to a `Json` body with empty fields, which the model answers with 400 `パラメータ不足` as the route does. Colour-map lookups of inherited object keys such as `constructor` are not modelled.
- Board.TextLeTotal: `localeCompare` is modelled as code-point order. This matches the page's digit-and-dash `YYYY-MM-DD` deadlines, but not general locale collation.
- Board.SortTasks: `Array.prototype.sort` is stable. The model's insertion sort is stable too, but stability is not stated as a property.
