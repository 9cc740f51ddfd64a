# Cocinalo: a verified model of the recipe calendar and its sign-up path

Cocinalo is a recipe site with an Express/MySQL backend and a React client.
Signed-in users schedule recipes on a month calendar, follow them with an
ingredient checklist and a cooking timer, and mark them done. This project
models the logic at its core in Dafny and proves what that logic promises:

- **Backend calendar.** The `calendar_events` table is a class over a row
  sequence with an auto-increment counter (`CalendarEventModel`). In front of
  it sit the HTTP handlers with their presence and integer checks and their
  status selection (`CalendarController`), and the router that binds them
  to paths (`CalendarRoutes`).
- **Backend accounts.** The `users` table keeps lower-cased e-mails, unique
  when requests are handled one at a time (`UserStore`). The validation middleware (`AuthValidation`) runs in front
  of the register and login handlers (`AuthController`).
- **Client calendar.**
  - the month grid: time display, the day's events in start-time order, and
    the 42 cells (`CalendarGrid`);
  - the page state and how each server reply changes the event list
    (`CalendarClient`);
  - the event form (`EventForm`) and scheduling from a recipe page
    (`MealDetails`);
  - the ingredient and instruction parsing of the event view (`EventView`);
  - the detail view's checklist and minutes:seconds timer (`EventDetailView`);
  - the `useTimer` hook and its `HH:MM:SS` display (`UseTimer`).
- **Client forms and state.**
  - the registration form's ordered checks and the data it sends
    (`RegisterForm`);
  - the meal store's reducer (`MealReducer`);
  - the API error-message mapping (`ErrorHandler`);
  - the alert record the pages share (`AlertState`).
- **Helpers.** `Text` covers the JavaScript string operations the code uses:
  `trim`, `split`/`join`, `padStart`, decimal text and `toLowerCase`. `Js`
  covers dynamic values, truthiness, `||`, `String()` and `parseInt`.
  `Sorting` is a sort by a total preorder, standing for `ORDER BY` and for
  `Array.prototype.sort` with a comparator.

Request bodies are maps from field names to JavaScript values. A missing key
reads as `undefined`. Each database call, HTTP request and library call
(`bcrypt`, `jsonwebtoken`, `Date`) is replaced by a parameter that gives its
outcome. The parameters are:

- `dbFails`, `storeFails`;
- `Threw` / `Replied` replies;
- the `hashed` password and the `matches` comparison;
- a `CalendarDate` for a `Date` object, and `today` for the date text used
  when a `Date` is invalid.

The token is represented by the user id it is generated for.

Where a contract is about a whole method (a handler that changes component
state or a table), the method is proved against a specification function.
The properties of that function are proved as lemmas.

## Model

| member | source | states |
|---|---|---|
| CalendarEventModel.OwnedBy | backend/models/CalendarEvent.js:7-11 | every row returned belongs to the user and every row of the user is returned |
| CalendarEventModel.TimeLeIsTotalPreorder | backend/models/CalendarEvent.js:8 | ordering rows by `time_from` text alone is total and transitive, so the listing's order is well defined up to ties |
| CalendarEventModel.SelectIsOwnedAndSorted | backend/models/CalendarEvent.js:7-11 | the `SELECT ... WHERE user_id = ? ORDER BY time_from` result is a permutation of the user's rows, sorted by `time_from`, and holds exactly the rows with that `user_id` |
| CalendarEventModel.Select | backend/models/CalendarEvent.js:7-11 | the listing is sorted by `time_from` and is a permutation of the user's rows |
| CalendarEventModel.OwnedByAppend | backend/models/CalendarEvent.js:23-28 | inserting a row extends only its owner's listing, by that row |
| CalendarEventModel.CreateVisibleOnlyToOwner | backend/models/CalendarEvent.js:23-39 | after `create(u, e)` the new row is in `u`'s listing, not in any other user's, and every other user's listing is unchanged |
| CalendarEventModel.Without | backend/models/CalendarEvent.js:49-52 | the delete removes exactly the rows with that id and that owner, and keeps every other row |
| CalendarEventModel.WithoutAbsent | backend/models/CalendarEvent.js:49-53 | deleting an id the user does not own (missing, or another user's) leaves the table unchanged |
| CalendarEventModel.WithoutPresent | backend/models/CalendarEvent.js:49-53 | with unique ids, deleting an existing `(id, user_id)` row removes exactly one row |
| CalendarEventModel.WithoutKeepsUnique | backend/models/CalendarEvent.js:49-52 | deletion keeps ids unique and never introduces a row |
| CalendarEventModel.EventTable.constructor | backend/models/CalendarEvent.js:3 | the table starts empty with the id counter at 1 |
| CalendarEventModel.EventTable.GetByUserId | backend/models/CalendarEvent.js:4-16 | returns a permutation of exactly the caller's rows, sorted by `time_from` |
| CalendarEventModel.EventTable.Create | backend/models/CalendarEvent.js:18-44 | inserts one row with a fresh id, the caller as owner and only the six event fields; echoes that row; keeps ids unique |
| CalendarEventModel.EventTable.Delete | backend/models/CalendarEvent.js:46-58 | returns true exactly when a row with that id and owner existed; removes only that row, and changes nothing otherwise |
| CalendarController.Missing | backend/controllers/calendarController.js:39 | the names reported are exactly the listed names whose value is falsy, and never more of them than the list holds |
| CalendarController.MissingAppend | backend/controllers/calendarController.js:39 | the filter keeps the order of the list: the names missing from a concatenation are those missing from the first part, then those missing from the second |
| CalendarController.MissingOne | backend/controllers/calendarController.js:39 | a single name is reported exactly when its value is falsy |
| CalendarController.MissingFields | backend/controllers/calendarController.js:38-39 | nothing is reported missing exactly when all six required fields are truthy |
| CalendarController.MissingInOrder | backend/controllers/calendarController.js:38-46 | with `day`, `timeFrom` and `timeTo` falsy and the rest given, the 400 message is 'Faltan campos requeridos: day, timeFrom, timeTo', in the order of the required list |
| CalendarController.CheckCreate | backend/controllers/calendarController.js:37-56 | accepts exactly when all six fields are truthy and day, month and year are integers; a missing field is reported first, with the missing names joined by ', ' |
| CalendarController.CheckCreateIgnoresOtherFields | backend/controllers/calendarController.js:38-58 | a field other than the six required ones (ingredients, recipeId, a body `user_id`) never changes the outcome |
| CalendarController.MissingOnlyDay | backend/controllers/calendarController.js:38-39 | with the other fields present, `day` alone decides the missing list |
| CalendarController.MissingNone | backend/controllers/calendarController.js:39 | nothing is missing when every named field is truthy |
| CalendarController.DayZeroIsMissing | backend/controllers/calendarController.js:39-46 | day 0 is falsy and is reported as a missing field, not as a bad number |
| CalendarController.TextDayIsRejected | backend/controllers/calendarController.js:49-56 | a day sent as text such as "8" passes presence and fails the integer check |
| CalendarController.GetRecipes | backend/controllers/calendarController.js:4-23 | on success, 200 with a permutation of the caller's rows in `time_from` order; on a failed query, 500 with `success: false` |
| CalendarController.CreateEvent | backend/controllers/calendarController.js:26-80 | a failed check gives 400 with its message and leaves the table untouched; otherwise the row is inserted for the authenticated caller (never a body field) and echoed with 201; a failed insert gives 500 |
| CalendarController.DeleteRecipe | backend/controllers/calendarController.js:82-108 | 404 and no change when the caller owns no row with that id; 200 and only that row removed when it does; 500 on a failed query |
| CalendarRoutes.ControllerHandler | backend/controllers/calendarController.js:3-111 | a handler exists exactly for `getRecipes`, `createEvent` and `deleteRecipe` |
| CalendarRoutes.Register | backend/routes/calendarRoutes.js:20-24 | the router loads exactly when every route names a defined handler, binding each route to it in order; otherwise the load fails at the first undefined one |
| CalendarRoutes.AsWrittenRoutesFailToLoad | backend/routes/calendarRoutes.js:20-24 | as written, the load fails at `getEventById` |
| CalendarRoutes.CorrectedRoutesLoad | backend/routes/calendarRoutes.js:20-24 | the three routes with defined handlers load, each bound to its handler |
| CalendarGrid.FormatTimeDisplayNoColon | src/components/Calendar/CalendarGrid.js:5-8 | a time without ':' is shown as it is |
| CalendarGrid.FormatTimeDisplay | src/components/Calendar/CalendarGrid.js:5-8 | the display is empty exactly when the time is empty |
| CalendarGrid.FormatTimeDisplayAtColon | src/components/Calendar/CalendarGrid.js:5-8 | with a first ':' the display is the text before it and the text after it up to the next ':' |
| CalendarGrid.FormatTimeDisplayKeepsTwoFields | src/components/Calendar/CalendarGrid.js:5-8 | the display is a prefix of the time with at most one ':', and is the whole time when the time has at most one ':' |
| CalendarGrid.NoSecondColon | src/components/Calendar/CalendarGrid.js:7 | a time with at most one ':' has none after its first |
| CalendarGrid.StartText | src/components/Calendar/CalendarGrid.js:24-25 | an event without `timeFrom` is ordered as '00:00'; otherwise its own time is used |
| CalendarGrid.StartsNoLaterIsTotalPreorder | src/components/Calendar/CalendarGrid.js:17-31 | the comparator `aMinutes - bMinutes` induces a total preorder |
| CalendarGrid.OnDateEvents | src/components/Calendar/CalendarGrid.js:11-15 | the filter keeps exactly the events whose day, month and year equal the cell's date and the shown month and year, and never more events than the list holds |
| CalendarGrid.OnDateCount | src/components/Calendar/CalendarGrid.js:11-15 | every copy of an event on the date is kept and no copy of any other: nothing is added or dropped |
| CalendarGrid.OnDateAppend | src/components/Calendar/CalendarGrid.js:11-15 | the filter keeps the order of the list: filtering a concatenation filters each part and concatenates the results |
| CalendarGrid.EventsForDate | src/components/Calendar/CalendarGrid.js:10-32 | the day's list is sorted by the comparator's start-time key and is a permutation of the filtered events |
| CalendarGrid.EventsForDateExact | src/components/Calendar/CalendarGrid.js:10-32 | the day's list holds exactly that day's events, is a permutation of the filtered events, and events with numeric start times come in non-decreasing `hours * 60 + minutes` |
| CalendarGrid.GetMinutesOfNumbers | src/components/Calendar/CalendarGrid.js:18-22 | when the two ':'-fields of a time are the numbers h and m, `getMinutes` is `h * 60 + m` |
| CalendarGrid.GetMinutes | src/components/Calendar/CalendarGrid.js:18-22 | an empty time counts as 0 minutes, and a non-empty time without ':' gives NaN |
| CalendarGrid.GetMinutesOfTwoFields | src/components/Calendar/CalendarGrid.js:20-21 | a time of two ':'-fields gives `hours * 60 + minutes` of their numbers |
| CalendarGrid.NumberOfDigits | src/components/Calendar/CalendarGrid.js:20 | `Number` of a digit string is its decimal value |
| CalendarGrid.SortKeyOfClock | src/components/Calendar/CalendarGrid.js:24-28 | an `HH:MM` start time sorts by its minutes since midnight |
| CalendarGrid.ClockMinutesSamples | src/components/Calendar/CalendarGrid.js:18-22 | '09:00' is 540 minutes and '14:00' is 840 |
| CalendarGrid.EarlierEventFirst | src/components/Calendar/CalendarGrid.js:10-32 | two events on 8/12/2024 given as 14:00 then 09:00 are listed 09:00 first |
| CalendarGrid.OnDateKeepsBoth | src/components/Calendar/CalendarGrid.js:11-15 | two events on the date are both kept, in their order |
| CalendarGrid.MonthCells | src/components/Calendar/CalendarGrid.js:49-55 | the grid has 42 cells |
| CalendarGrid.MonthCellsHoldEachDayOnce | src/components/Calendar/CalendarGrid.js:49-55 | with the 1st on weekday 0..6 and at most 31 days, each day appears exactly once, at cell `day + firstDay - 1`, in increasing cell order, and no other value appears |
| CalendarClient.ErrorText | src/components/Calendar/Calendar.js:218 | the server's message, as text, when it is truthy; the error's own message otherwise |
| CalendarClient.Normalize | src/components/Calendar/Calendar.js:32-36 | a fetched row keeps its columns and gets `timeFrom`/`timeTo` as the first five characters of `time_from`/`time_to` |
| CalendarClient.NormalizeAll | src/components/Calendar/Calendar.js:32-36 | the list is normalised element by element, same length |
| CalendarClient.NormalizedTimeIsClock | src/components/Calendar/Calendar.js:34 | a stored `HH:MM:SS` time becomes `HH:MM`: the grid's display of it, and text the event form keeps as it is |
| CalendarClient.NewEvent | src/components/Calendar/Calendar.js:64-72 | the added event has the server's id and the submitted title and times |
| CalendarClient.NewEventKeepsDate | src/components/Calendar/Calendar.js:67-69 | `parseInt` gives back the form's integer (or NaN) day, month and year |
| CalendarClient.RemoveId | src/components/Calendar/Calendar.js:107-109 | the filter keeps exactly the events with another id |
| CalendarClient.RemoveIdExact | src/components/Calendar/Calendar.js:107-109 | exactly the events with that id go, an absent id changes nothing, and removing twice is removing once |
| CalendarClient.MarkCompleted | src/components/Calendar/Calendar.js:229-235 | the list keeps its length |
| CalendarClient.MarkCompletedExact | src/components/Calendar/Calendar.js:229-235 | only events with that id change, and only in `isCompleted`, which becomes true; marking twice is marking once |
| CalendarClient.Find | src/components/Calendar/Calendar.js:94 | finds an event with that id exactly when the list has one, and then the first such event |
| CalendarClient.DeleteName | src/components/Calendar/Calendar.js:94-98 | the dialog names the first event with that id by its title; 'esta receta' when there is no such event or its title is empty |
| CalendarClient.CalendarView.constructor | src/components/Calendar/Calendar.js:12-25 | the page starts with no events, no form, a hidden alert and a closed dialog |
| CalendarClient.CalendarView.FetchRecipes | src/components/Calendar/Calendar.js:28-47 | a reply with data replaces the list by its normalised rows; a failure keeps the list and shows 'Error al cargar las recetas' |
| CalendarClient.CalendarView.HandleDateClick | src/components/Calendar/Calendar.js:128-131 | selects the date and opens the form |
| CalendarClient.CalendarView.HandleRecipeAdd | src/components/Calendar/Calendar.js:52-91 | a reply with data appends exactly one event, keeps the others, closes the form and shows the success message; a failure keeps the list and shows the error |
| CalendarClient.CalendarView.Append | src/components/Calendar/Calendar.js:74-81 | appends one event, closes the form and sets the success alert |
| CalendarClient.CalendarView.HandleRecipeDelete | src/components/Calendar/Calendar.js:93-100 | only opens the confirmation with the id and the event's name; the list is unchanged |
| CalendarClient.CalendarView.CancelDelete | src/components/Calendar/Calendar.js:325 | closes the dialog and changes nothing else |
| CalendarClient.CalendarView.ConfirmDelete | src/components/Calendar/Calendar.js:102-126 | on success removes every event with the dialog's id and nothing else; on failure keeps the list and shows the error; the dialog is closed either way |
| CalendarClient.CalendarView.HandleEventComplete | src/components/Calendar/Calendar.js:224-245 | marks events with that id completed only when the server reports success; a failure keeps the list and shows the error |
| CalendarClient.CalendarView.HandleEventDelete | src/components/Calendar/Calendar.js:247-269 | removes events with that id only when `response.data.success`; a failure keeps the list and shows the error |
| CalendarClient.CalendarView.HandleEventUpdate | src/components/Calendar/Calendar.js:186-222 | after a successful update the list is the re-fetched normalised list and the form, selection and edit mode are cleared; a failure keeps everything and shows the error text |
| CalendarClient.CalendarView.CloseForm | src/components/Calendar/Calendar.js:303-307 | closes the form, clears the selection and the edit mode |
| EventForm.FormatDateForInput | src/components/Calendar/EventForm.js:46-70 | an invalid date gives today's ISO date |
| EventForm.ParseIsoDate | src/components/Calendar/EventForm.js:108 | reading the date field gives a valid calendar date with a year of at most four digits, or an invalid date |
| EventForm.DateFieldRoundTrip | src/components/Calendar/EventForm.js:58-65 | `year-MM-DD` with padded month and day reads back as the same date for four-digit years |
| EventForm.ParseNatBound | src/components/Calendar/EventForm.js:108 | four digits are at most 9999 |
| EventForm.FormatTime | src/components/Calendar/EventForm.js:80-85 | '' gives ''; text without ':' throws; otherwise the two fields are padded |
| EventForm.FormatTimeShape | src/components/Calendar/EventForm.js:83-84 | a formatted time has exactly one ':' with at least two characters on each side |
| EventForm.FormatTimeKeepsClock | src/components/Calendar/EventForm.js:83-84 | `HH:MM` text is unchanged |
| EventForm.FormatTimePadsExample | src/components/Calendar/EventForm.js:83-84 | '9:5' becomes '09:05' |
| EventForm.FormatTimeIdempotent | src/components/Calendar/EventForm.js:80-85 | formatting a formatted time changes nothing |
| EventForm.InitialFormData | src/components/Calendar/EventForm.js:16-42 | editing copies the title and times and defaults ingredients and instructions to ''; otherwise the title is the recipe name or '' and the times and texts are empty; the date is the formatted date |
| EventForm.DateParts | src/components/Calendar/EventForm.js:108-114 | day, month and year of a valid date field, NaN for each otherwise |
| EventForm.Submit | src/components/Calendar/EventForm.js:95-129 | an empty time stops the submit; a time without ':' ends in the error branch; otherwise exactly the trimmed title, the date parts and the two formatted times are submitted |
| EventForm.SubmitCarriesFormDate | src/components/Calendar/EventForm.js:16-42 | a form opened on a date with `HH:MM` times submits exactly that day, month, year and those times |
| EventForm.SubmitWellFormed | src/components/Calendar/EventForm.js:107-117 | times that format to themselves are submitted unchanged with the parts of the date field |
| EventForm.WithFieldReadsBack | src/components/Calendar/EventForm.js:87-93 | a change sets the named field and leaves every other field as it was |
| EventForm.EventFormView.constructor | src/components/Calendar/EventForm.js:16-44 | the form starts with the initial form data and a hidden alert |
| EventForm.EventFormView.HandleChange | src/components/Calendar/EventForm.js:87-93 | sets the named field only |
| EventForm.EventFormView.HandleDateChange | src/components/Calendar/EventForm.js:72-78 | sets the date only |
| EventForm.EventFormView.HandleSubmit | src/components/Calendar/EventForm.js:95-129 | hands `onSubmit` exactly the submitted data, or sets the missing-time or processing error and submits nothing |
| MealDetails.MealFormatTime | src/pages/MealDetailsPage/MealDetailsPage.js:33-36 | null exactly for an empty time |
| MealDetails.HasRequired | src/pages/MealDetailsPage/MealDetailsPage.js:29 | data that passes the page's check posts neither time as null |
| MealDetails.FormatTimeDisplayNonEmpty | src/pages/MealDetailsPage/MealDetailsPage.js:35 | a non-empty time keeps a non-empty display |
| MealDetails.RecipeIdOf | src/pages/MealDetailsPage/MealDetailsPage.js:45 | the recipe id is the parsed integer, or null when it is NaN or 0 |
| MealDetails.BuildEventData | src/pages/MealDetailsPage/MealDetailsPage.js:38-46 | the event carries the meal's name (not the form's title), the form's date, the formatted times and the parsed recipe id |
| MealDetails.PostedEventIsAccepted | src/pages/MealDetailsPage/MealDetailsPage.js:29-50 | data that passes the page's check, for a named meal and an integer date, passes both checks of the server's `createEvent` |
| MealDetails.PostBodyFields | src/pages/MealDetailsPage/MealDetailsPage.js:38-46 | the posted body carries each field under its own name |
| MealDetails.Accepted | backend/controllers/calendarController.js:38-56 | a body with six truthy fields and integer date fields is accepted |
| MealDetails.ShownError | src/pages/MealDetailsPage/MealDetailsPage.js:71 | the alert text is never empty |
| MealDetails.MealDetailsView.constructor | src/pages/MealDetailsPage/MealDetailsPage.js:15-16 | the form is hidden and the alert too |
| MealDetails.MealDetailsView.HandleScheduleMeal | src/pages/MealDetailsPage/MealDetailsPage.js:23-25 | opens the form |
| MealDetails.MealDetailsView.HandleEventSubmit | src/pages/MealDetailsPage/MealDetailsPage.js:27-75 | a falsy field raises 'Todos los campos son requeridos' and posts nothing; otherwise the built event is posted, success hides the form, and failures show the thrown message |
| EventView.ParseIngredients | src/components/Calendar/EventView.js:37-38 | one item per ','-piece, each trimmed |
| EventView.IngredientCount | src/components/Calendar/EventView.js:37-38 | the item count is the number of commas plus one, empty pieces included |
| EventView.IngredientsRoundTrip | src/components/Calendar/EventView.js:37-38 | trimmed comma-free ingredients written as `a, b, c` parse back to the same list |
| EventView.JoinSpaced | src/components/Calendar/EventView.js:37 | joining with ', ' is joining with ',' the items each behind a space |
| EventView.TrimLeadingSpace | src/components/Calendar/EventView.js:38 | a trimmed item behind a space trims back to itself |
| EventView.Steps | src/components/Calendar/EventView.js:48-49 | the kept steps are non-empty and trimmed |
| EventView.StepsWithout | src/components/Calendar/EventView.js:48-49 | a character no piece holds is in no step |
| EventView.StepsAppend | src/components/Calendar/EventView.js:48-49 | the filter and map distribute over concatenation |
| EventView.StepsAllKept | src/components/Calendar/EventView.js:48-49 | pieces that all trim to something non-empty are all kept, trimmed |
| EventView.ParseInstructions | src/components/Calendar/EventView.js:48-49 | at most one step per '.'-piece; no step is empty, untrimmed or holds a '.' |
| EventView.InstructionsRoundTrip | src/components/Calendar/EventView.js:48-49 | steps written as sentences `a. b. c.` parse back to the same steps |
| EventView.IngredientsSection | src/components/Calendar/EventView.js:33-42 | a falsy value hides the section, a string shows its parsed items |
| EventView.InstructionsSection | src/components/Calendar/EventView.js:44-53 | a falsy value hides the section, a string shows its parsed steps |
| EventView.EmptyTextHidesSection | src/components/Calendar/EventView.js:33-53 | an empty or absent text hides its section |
| EventView.CompletionState.constructor | src/components/Calendar/EventView.js:6 | `isCompleted` starts as `event.completed` |
| EventView.CompletionState.StatusLabel | src/components/Calendar/EventView.js:22-23 | the badge reads 'Completada' exactly when the complete button (line 66) is hidden, and 'Pendiente' otherwise |
| EventView.CompletionState.HandleComplete | src/components/Calendar/EventView.js:9-16 | completed only after `onComplete` resolves, and then the button is hidden and the badge reads 'Completada'; a rejection keeps state and badge |
| EventDetailView.Toggle | src/components/Calendar/EventDetailView.js:21-26 | flips that ingredient's checkbox, an absent key counting as unchecked, and keeps every other key |
| EventDetailView.ToggleTwice | src/components/Calendar/EventDetailView.js:21-26 | toggling twice restores what every checkbox shows |
| EventDetailView.ToggleOnlyThat | src/components/Calendar/EventDetailView.js:21-26 | toggling leaves every other checkbox as it was |
| EventDetailView.TickAsWritten | src/components/Calendar/EventDetailView.js:32-39 | the callback as written keeps seconds below 60 but counts only the old seconds plus one |
| EventDetailView.Tick | src/components/Calendar/EventDetailView.js:32-39 | the corrected tick keeps seconds below 60 and counts one more second in total |
| EventDetailView.TicksAgreeInFirstMinute | src/components/Calendar/EventDetailView.js:33-37 | both ticks agree before the first full minute |
| EventDetailView.TicksCount | src/components/Calendar/EventDetailView.js:32-39 | after n corrected ticks from zero, n seconds are counted |
| EventDetailView.TicksAsWrittenCycle | src/components/Calendar/EventDetailView.js:33-37 | the written timer's seconds are n mod 60 and its minutes are 1 only on a multiple of 60 ticks |
| EventDetailView.AsWrittenRestartsInSecondMinute | src/components/Calendar/EventDetailView.js:33-37 | between 61 and 119 ticks the written timer shows 00:s where 01:s is due |
| EventDetailView.DisplayReadsBack | src/components/Calendar/EventDetailView.js:143-144 | below 100 minutes the display is `MM:SS` and reads back as the clock |
| EventDetailView.Display | src/components/Calendar/EventDetailView.js:143-144 | every character but the ':' is a digit, and below 100 minutes and seconds the display has five characters with ':' in the middle |
| EventDetailView.DisplaySamples | src/components/Calendar/EventDetailView.js:143-144 | one second from zero shows '00:01' and a reset shows '00:00' |
| EventDetailView.DisplayOneDigit | src/components/Calendar/EventDetailView.js:143-144 | single-digit fields are shown behind a '0' |
| EventDetailView.DetailView.constructor | src/components/Calendar/EventDetailView.js:8-18 | an empty checklist, a stopped timer at zero, and `isCompleted` as `event.isCompleted || false` |
| EventDetailView.DetailView.HandleIngredientCheck | src/components/Calendar/EventDetailView.js:21-26 | toggles that ingredient and nothing else |
| EventDetailView.DetailView.StartTimer | src/components/Calendar/EventDetailView.js:29-44 | no effect when already running; otherwise running with the new interval id |
| EventDetailView.DetailView.TimerTick | src/components/Calendar/EventDetailView.js:31-41 | the clock becomes the callback's `TickAsWritten` of the old one: seconds below 60, the elapsed count is the old seconds plus one, still running |
| EventDetailView.DetailView.CorrectedTimerTick | src/components/Calendar/EventDetailView.js:33-37 | the corrected firing: the clock becomes `Tick` of the old one, one more second in total |
| EventDetailView.DetailView.StopTimer | src/components/Calendar/EventDetailView.js:46-51 | acts only when an interval id is held; leaves the timer stopped without an id and the count as it was |
| EventDetailView.DetailView.ResetTimer | src/components/Calendar/EventDetailView.js:53-56 | zero minutes and seconds, not running, no interval id |
| EventDetailView.DetailView.HandleComplete | src/components/Calendar/EventDetailView.js:59-72 | completed and alerted only after `onComplete` resolves |
| UseTimer.FormatClock | src/hooks/useTimer.js:18-27 | below 100 hours the display is 8 characters with ':' at positions 2 and 5 |
| UseTimer.FormatClockReadsBack | src/hooks/useTimer.js:19-26 | below 100 hours the three fields read back as the count |
| UseTimer.ClockParts | src/hooks/useTimer.js:19-21 | hours, minutes and seconds are in range and recompose the count |
| UseTimer.FormatClockZero | src/hooks/useTimer.js:4 | a zero count shows '00:00:00' |
| UseTimer.Timer.constructor | src/hooks/useTimer.js:4-6 | zero seconds, not running, '00:00:00' |
| UseTimer.Timer.Start | src/hooks/useTimer.js:29 | running, count kept |
| UseTimer.Timer.Pause | src/hooks/useTimer.js:30 | not running, count kept |
| UseTimer.Timer.Reset | src/hooks/useTimer.js:31-34 | not running, count 0, display '00:00:00' |
| UseTimer.Timer.Tick | src/hooks/useTimer.js:8-16 | only while running, the count grows by one and the display follows it |
| MealReducer.InitialIsIdle | src/reducers/mealReducer.js:3-24 | nothing loading, no error and no search at the start |
| MealReducer.WithSlot | src/reducers/mealReducer.js:29-86 | replaces one resource's slot and keeps the others and the search |
| MealReducer.Reduce | src/reducers/mealReducer.js:26-110 | no action changes `searchLoading`, and a resource's loading flag changes only under a `*_BEGIN`, `*_SUCCESS` or `*_ERROR` action for that resource |
| MealReducer.ReduceBegin | src/reducers/mealReducer.js:29-74 | `*_BEGIN` sets its loading flag and clears its error, and changes nothing else |
| MealReducer.ReduceSucceeded | src/reducers/mealReducer.js:35-80 | `*_SUCCESS` stores the payload and stops loading, keeps its error, and changes nothing else |
| MealReducer.ReduceFailed | src/reducers/mealReducer.js:41-86 | `*_ERROR` stores the error and stops loading, keeps its data, and changes nothing else |
| MealReducer.ReduceSetSearchResults | src/reducers/mealReducer.js:89-94 | stores the results and sets `hasSearched`, nothing else |
| MealReducer.ReduceClearMeals | src/reducers/mealReducer.js:95-105 | resets the category meals, meal and search and their errors, and keeps categories and loading flags |
| MealReducer.ReduceOther | src/reducers/mealReducer.js:107-108 | an unknown action type, such as 'CLEAR_CATEGORY_MEALS', returns the state itself |
| MealReducer.BeginThenSucceed | src/reducers/mealReducer.js:29-40 | begin then success leaves the resource loaded, idle and error-free |
| MealReducer.BeginThenFail | src/reducers/mealReducer.js:29-46 | begin then failure keeps the old data and records the error |
| MealReducer.ReduceIdempotent | src/reducers/mealReducer.js:26-110 | dispatching the same action twice is dispatching it once |
| AuthValidation.OptionalTrim | backend/middleware/authValidation.js:5 | `v?.trim()` is blank for a missing or all-space value, filled for other text, and a TypeError for a non-string |
| AuthValidation.CheckPresence | backend/middleware/authValidation.js:5 | all present exactly when every field is filled; otherwise the first unfilled field decides between blank and TypeError |
| AuthValidation.ShiftPresence | backend/middleware/authValidation.js:5 | behind a filled first field, the presence check of the rest is that of the whole |
| AuthValidation.TextFieldsNeverTypeError | backend/middleware/authValidation.js:5 | text fields never raise the TypeError |
| AuthValidation.EmailValidIffPattern | backend/middleware/authValidation.js:13-14 | the direct check (no white space, one '@' with text before it, a '.' after it with text on both sides) accepts exactly what `/^[^\s@]+@[^\s@]+\.[^\s@]+$/` matches |
| AuthValidation.ValidMatches | backend/middleware/authValidation.js:13 | a valid address matches the pattern |
| AuthValidation.MatchIsValid | backend/middleware/authValidation.js:13 | a match of the pattern is a valid address |
| AuthValidation.EmailValidIsTrimmed | backend/middleware/authValidation.js:13-14 | a valid address has nothing to trim |
| AuthValidation.EmailValidLower | src/components/Auth/RegisterForm.js:62 | lower-casing keeps an address valid |
| AuthValidation.RegistrationFields | backend/middleware/authValidation.js:3 | four fields are read |
| AuthValidation.LoginFields | backend/middleware/authValidation.js:34 | two fields are read |
| AuthValidation.ValidateRegistration | backend/middleware/authValidation.js:2-30 | `next()` runs exactly when all four fields are filled, the untrimmed address is valid and the untrimmed password has 6 or more characters; presence is checked first, then the address |
| AuthValidation.ValidateLogin | backend/middleware/authValidation.js:33-53 | `next()` runs exactly when both fields are filled and the address is valid; there is no length check |
| AuthValidation.RegistrationPassesLogin | backend/middleware/authValidation.js:2-53 | a body that passes registration passes login |
| AuthValidation.ShortPasswordOnlyBlocksRegistration | backend/middleware/authValidation.js:22-27 | a password under 6 characters passes login but registration refuses it with the length message |
| AuthValidation.BlankNameReportedFirst | backend/middleware/authValidation.js:5-10 | a blank first name is reported as missing whatever the address |
| RegisterForm.ValidateForm | src/components/Auth/RegisterForm.js:25-47 | passes exactly when names are non-blank, the untrimmed address is valid, the password has 6 or more characters and matches its confirmation; otherwise the first failing check's message, in that order |
| RegisterForm.EmptyFormNeedsNames | src/components/Auth/RegisterForm.js:26-29 | an untouched form is refused for its names |
| RegisterForm.BuildUserData | src/components/Auth/RegisterForm.js:59-64 | the names trimmed, the address trimmed and lower-cased, the password as typed, no confirmation |
| RegisterForm.RequestBody | src/components/Auth/RegisterForm.js:59-67 | exactly the four keys, each holding its field |
| RegisterForm.SentAllPresent | backend/middleware/authValidation.js:5 | four non-blank text fields pass the server's presence check |
| RegisterForm.SentSomeBlank | backend/middleware/authValidation.js:5-10 | a blank text field is reported blank, never as a TypeError |
| RegisterForm.SentFieldsFilled | src/components/Auth/RegisterForm.js:59-64 | the names sent are non-blank and the address sent is valid and non-blank |
| RegisterForm.AcceptedFormPassesServer | src/components/Auth/RegisterForm.js:25-67 | data the form accepts, with a password that is not all white space, passes the server's registration middleware |
| RegisterForm.SpacePasswordRefusedByServer | src/components/Auth/RegisterForm.js:36-39 | a password of six or more spaces passes the form but the server answers 400 'Todos los campos son requeridos' |
| RegisterForm.FailureMessage | src/components/Auth/RegisterForm.js:73 | the server's message when truthy, 'Error al registrar usuario' otherwise |
| RegisterForm.RegisterFormView.constructor | src/components/Auth/RegisterForm.js:7-14 | five empty inputs, no error, no navigation |
| RegisterForm.RegisterFormView.HandleChange | src/components/Auth/RegisterForm.js:18-23 | sets the named input only |
| RegisterForm.RegisterFormView.HandleSubmit | src/components/Auth/RegisterForm.js:49-79 | clears the error; calls `register` only when the checks pass, with the built data; navigates to '/' on success, shows the server's or the default message on failure and the processing message on a throw |
| UserStore.FindIn | backend/models/User.js:7-11 | finds a row exactly when one holds the address |
| UserStore.FindInAppended | backend/models/User.js:30-38 | an address not stored yet is found in the appended row |
| UserStore.UserTable.constructor | backend/models/User.js:4 | an empty table with the id counter at 1 |
| UserStore.UserTable.FindByEmail | backend/models/User.js:5-16 | compares stored addresses with the lower-cased argument |
| UserStore.UserTable.Create | backend/models/User.js:18-50 | a registered address is refused and nothing is inserted; otherwise one row with the lower-cased address and the hash is added and the user is returned without a password; addresses stay lower-case and distinct |
| AuthController.NewUserOf | backend/controllers/authController.js:20-25 | names and address trimmed, the password untrimmed |
| AuthController.RegisterUser | backend/controllers/authController.js:6-57 | a blank field gives 400 and no user; a duplicate address gives 400 'El correo ya está registrado'; a non-string field or a failing store gives 500 'Error al registrar usuario'; success gives 201 with the new public user and inserts exactly one row |
| AuthController.LoginUser | backend/controllers/authController.js:59-109 | blank fields give 400; an unknown address and a wrong password give the same 401; success gives 200 with the public user and a token, exactly when the stored hash matches |
| AuthController.RegisterThenLogin | backend/controllers/authController.js:6-109 | a registration that succeeds, followed by a login with the same address and password, succeeds and returns the user just created |
| AuthController.LoginFieldsPresent | backend/controllers/authController.js:12-63 | a body with all registration fields filled has both login fields filled |
| ErrorHandler.StatusMessage | src/utils/errorHandler.js:4-14 | a fixed non-empty message exactly for 400, 401, 403, 404 and 500 |
| ErrorHandler.DataMessage | src/utils/errorHandler.js:16 | the body's `message`, or undefined for a body that is not an object |
| ErrorHandler.HandleApiError | src/utils/errorHandler.js:1-27 | always a non-empty message: a reply's fixed status message, else its server message or 'Error desconocido.'; without a reply, the connection or the application message |
| ErrorHandler.ResponseTakesPrecedence | src/utils/errorHandler.js:2-20 | a reply decides the message whether or not a request is recorded |
| ErrorHandler.NamedStatusIgnoresBody | src/utils/errorHandler.js:4-14 | for the five named statuses the body is ignored |
| ErrorHandler.StatusMessagesDistinct | src/utils/errorHandler.js:4-14 | the five messages tell their statuses apart |
| ErrorHandler.OtherStatusShowsServerMessage | src/utils/errorHandler.js:15-16 | any other status shows the truthy server message, else 'Error desconocido.' |
| Sorting.Insert | src/components/Calendar/CalendarGrid.js:17 | inserting into a sorted list keeps it sorted and adds exactly that element |
| Sorting.SortBy | src/components/Calendar/CalendarGrid.js:17-31 | the result is sorted by the comparator and a permutation of the input |
| Sorting.SortTwoSwaps | src/components/Calendar/CalendarGrid.js:17-31 | two elements out of order are swapped |
| Js.Or | src/components/Calendar/Calendar.js:98 | `a \|\| b` is `a` when truthy and `b` otherwise |
| Js.ParseIntOfInt | src/components/Calendar/Calendar.js:67-69 | `parseInt` of an integer is that integer |
| Js.ParseIntValueOfNumber | src/components/Calendar/Calendar.js:67-69 | `parseInt` gives back an integer or NaN unchanged |
| Text.TrimEmptyIffAllSpace | backend/middleware/authValidation.js:5 | `trim()` is empty exactly for all-space text |
| Text.TrimIdempotent | src/components/Auth/RegisterForm.js:60-62 | trimming twice is trimming once |
| Text.JoinSplit | src/components/Calendar/CalendarGrid.js:7 | joining the split pieces gives the text back |
| Text.SplitJoin | src/components/Calendar/EventView.js:37 | splitting joined separator-free pieces gives the pieces back |
| Text.SplitCount | src/components/Calendar/EventView.js:37 | a split has one more piece than separators |
| Text.PadStart2Twice | src/components/Calendar/EventForm.js:84 | padding twice is padding once |
| Text.ParseNatToString | src/hooks/useTimer.js:23-25 | decimal text of a number reads back as the number |
| Text.Pad2Value | src/hooks/useTimer.js:23-25 | padded decimal text reads back as the number |
| Text.ToLowerIsLower | backend/models/User.js:35 | lower-cased text is lower-case and lower-casing again changes nothing |

## Left out

- Date library: the weekday of the 1st, the month length, `isToday`, the
  month buttons, the timezone-offset shift in `formatDateForInput` and
  `new Date(text + 'T00:00:00')` are not modelled. They become parameters
  (`firstDay`, `daysInMonth`, a `CalendarDate`, `today`). The date field is
  read by a strict `YYYY-MM-DD` parser, so dates that JavaScript would roll
  over (such as February 30) count as invalid here.
- Numbers: JavaScript values are modelled as integers and NaN.
  - Fractions, `Infinity` and `-0` are not represented.
  - `parseInt` and `Number` read optional white space, a minus sign (for
    `parseInt`) and decimal digits only.
  - Hexadecimal and exponent forms are not modelled.
- CalendarGrid.SortKey: an event whose start time is not a number (NaN
  minutes) is ranked as 0. `Array.prototype.sort` counts a NaN comparison
  as "equal", which is no consistent order. The ordering property of
  `EventsForDateExact` is stated only for numeric start times.
- CalendarEventModel.Select: MySQL returns rows with equal `time_from` in an
  unspecified order, and the model fixes one order. The contracts state only
  the sort order and the permutation. The ordering is by code point, not by
  the column's collation.
- UserStore.UserTable.FindByEmail: the comparison is exact on the
  lower-cased text. MySQL's default collation would also ignore trailing
  spaces and accents.
- Text.ToLower: lower-cases ASCII and Latin-1 letters only, not the whole
  of Unicode. String lengths count code points, not UTF-16 units.
- CalendarController.DeleteRecipe: the route parameter is modelled as an
  integer id. The source passes the path text to MySQL, which converts it.
- The calendar routes also name `getEventById` and `updateEvent`, which the
  controller does not define (see "Findings"). Those handlers do not exist
  and are not modelled. `handleEventView` and `handleEventEdit` on the
  client call them and are left out too. The authentication and logging
  middleware of the router are not modelled.
- The event form, opened for editing, calls `handleEventUpdate(finalData)`
  with a single argument. The model's `HandleEventUpdate` takes the outcome
  of the request as parameters, so the wrong URL that call produces is not
  represented.
- Timers: `setInterval` and `setTimeout` are not modelled. One firing of an
  interval is one `TimerTick` step (`CorrectedTimerTick` for the corrected
  timer). The detail view's delayed
  `onClose` is left out.
- Rendering: JSX, CSS classes and `console` logging are not modelled. The
  exception is the text a test reads: the timer display and the status
  badge.
- bcrypt and jsonwebtoken are not modelled. The hash is the `hashed`
  parameter, `bcrypt.compare` is the `matches` parameter, and the token is
  the user id it is generated for.
- UserStore.UserTable.Create: requests are modelled one at a time. In the
  source, the look-up and the INSERT are separate awaited calls, and the
  table shows no UNIQUE constraint on `correo`. Two concurrent
  registrations of one address can therefore both be inserted. The
  distinct-address invariant `Valid` holds only under this sequential model.
- AuthController.RegisterUser: a failing store is modelled as failing before
  anything is inserted. A failure after the insert is not modelled.
- Network, storage and context modules are not modelled: `axios`,
  `AuthContext`, `localStorage`, router navigation and the meal actions.
  Their outcomes are the reply parameters of the methods, and navigation is
  the `navigatedTo` field.
- `handleDelete` and `onClose` of the detail view, and the action-type
  constants file, are not modelled.
- MealReducer: the reducer's logic is fully modelled. The string constants
  of `actions.js` are not; each action kind is a constructor.

## Findings

| source | as written | input that shows it | evidently intended | confidence | as-written member | corrected member |
|---|---|---|---|---|---|---|
| src/components/Calendar/EventDetailView.js:33-37 | the tick sets `minutes` to `(prev.seconds + 1) div 60`, dropping the minutes already counted | 61 ticks from 00:00 show 00:01 instead of 01:01; the display never goes past 01:00 | one more second per tick: 61 ticks show 01:01 | high (not executed) | EventDetailView.AsWrittenRestartsInSecondMinute | EventDetailView.TicksCount |
| backend/routes/calendarRoutes.js:21-23 | the routes pass `calendarController.getEventById` and `calendarController.updateEvent`, which the controller does not define, so Express is given `undefined` handlers | loading the router: Express's `Route.get` throws a TypeError for the `undefined` handler, so `server.js` stops at line 16 and the server never starts | only routes whose handlers exist, so the router loads with each route bound to its handler | medium (not executed) | CalendarRoutes.AsWrittenRoutesFailToLoad | CalendarRoutes.CorrectedRoutesLoad |
