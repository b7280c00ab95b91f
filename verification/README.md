# Picker samples: a Dafny model

This project models the logic behind two .NET MAUI sample apps for the
Syncfusion pickers: `PickerDecisionGuideSample` and `PickersSample`. Most of
the code is vendor controls and layout. The model keeps the part with
behaviour:

- the flight-search form, with its country-to-city cascade, the
  return-after-departure rule and the search gate;
- the alarm list, with its 12-hour time converter, the "Alarm in ..."
  countdown, the "Set Alarm" popup, the "Edit Alarm" picker and the on/off
  switch;
- the to-do list, with its "Due today" text, the due-date colour, the
  "Add a task" popup and the due-date picker;
- the reminder page, with its `dd-MM-yyyy h:mm tt` text field, the picker
  that edits it, and the save message.

The vendor pickers are plain records. Their `SelectedIndex`,
`SelectedDate`, `SelectedTime`, `MinimumDate` and `IsOpen` are fields. A
user's action on a control is a function or an `Event`. Clock readings are
parameters: `now` is a time of day or a date-time, and `today` is a date.
The app theme and the random flight count are parameters too.

The two apps share most of their code. Each shared handler is modelled once,
and its row below cites one of the two copies. The other copy differs only
in namespaces and `using` directives, doc comments, `DisplayAlert` against
`DisplayAlertAsync`, and whether the view-model classes sit in the page file
or in `ViewModels/`. The shared code is at these places:

| code | PickerDecisionGuideSample | PickersSample |
|---|---|---|
| reminder page | Pages/DateTimePickersPage.xaml.cs:15-81 | Pages/DateTimePickersPage.xaml.cs:8-52 |
| alarm page handlers | Pages/TimePickerPage.xaml.cs:42-154 | Pages/TimePickerPage.xaml.cs:46-148 |
| `AlarmPopup` | ViewModels/TimePickerViewModel.cs:214-330 | Pages/TimePickerPage.xaml.cs:151-233 |
| `AlarmTimer` | ViewModels/TimePickerViewModel.cs:68-105 | Pages/TimePickerPage.xaml.cs:237-263 |
| `AlarmDetails` | ViewModels/TimePickerViewModel.cs:111-209 | Pages/TimePickerPage.xaml.cs:265-344 |
| alarm seed | ViewModels/TimePickerViewModel.cs:45-53 | Pages/TimePickerPage.xaml.cs:371-379 |
| `TimeSpanConverter` | ViewModels/TimePickerViewModel.cs:335-387 | Pages/TimePickerPage.xaml.cs:387-427 |

The one real difference is the alarm switch.
In `PickersSample` it chooses colours by theme. In
`PickerDecisionGuideSample` it always uses the light-theme colours. The two
are `Alarms.OnSwitchToggledThemed` and `Alarms.OnSwitchToggledLight`.

Representation:

- A `TimeSpan` is a count of 100 ns ticks.
  - Its `Hours`, `Minutes` and `Seconds` use C#'s truncating division and
    remainder (`Clock.Quot`, `Clock.Rem`).
- A `DateTime` is a calendar `Date` plus a time of day in ticks.
  - Years run from 1 to 9999, with Gregorian leap years.
  - `AddDays` has no result past 31 December 9999, where .NET throws.
- Colours are named inks plus a half-opacity flag, with no float alpha.
- The invariant-culture patterns `dd-MM-yyyy` and `dd-MM-yyyy h:mm tt` each
  have a formatter and a strict parser (`DatePatterns`).

The converter's full form is written as `{h}:{mm} {suffix}`, and the suffix
is `" AM"` or `" PM"`. The rendered text therefore has two spaces before
`AM`/`PM`. The model keeps this as written (`TwelveHourClock.FullRendering`).

Modules:

| file | module | what it holds |
|---|---|---|
| wrappers.dfy | Wrappers | `Option` |
| text.dfy | Text | decimal digits, zero padding, `D2` |
| clock.dfy | Clock | `TimeSpan` ticks and components |
| calendar.dfy | Calendar | dates, `AddDays`, date parts |
| date_patterns.dfy | DatePatterns | the two fixed date patterns, both ways |
| converters.dfy | Converters | converter inputs and `ConvertBack` |
| twelve_hour_clock.dfy | TwelveHourClock | `TimeSpanConverter` |
| alarm_countdown.dfy | AlarmCountdown | `AlarmTimer` |
| colours.dfy | Colours | theme and colour names |
| alarms.dfy | Alarms | alarm list, popup, editor, switch |
| todos.dfy | ToDos | to-do list, popup, picker, colour converter |
| reminders.dfy | Reminders | reminder page |
| flight_search.dfy | FlightSearch | flight-search form |

## Model

| member | source | states |
|---|---|---|
| TwelveHourClock.Convert | PickerDecisionGuideSample/ViewModels/TimePickerViewModel.cs:345-377 | A non-`TimeSpan` value gives "". Parameter `true` gives only `h:mm`, and `false` gives only the suffix. Any other parameter gives `h:mm`, a space, then the suffix. |
| TwelveHourClock.DisplayHourMapping | PickerDecisionGuideSample/ViewModels/TimePickerViewModel.cs:349-357 | The printed hour is 12 for hour 0, h−12 for hours 13–23 and h for 1–12. It always lies in 1..12. |
| TwelveHourClock.TwelveHourInverse | PickerDecisionGuideSample/ViewModels/TimePickerViewModel.cs:367-372 | The suffix is " AM" exactly when the hour is below 12. The printed hour and the suffix together give back the 24-hour hour, so nothing is lost. |
| TwelveHourClock.MinutesTwoDigits | PickersSample/Pages/TimePickerPage.xaml.cs:407 | Minutes print as exactly two digits that read back as the minute. |
| TwelveHourClock.FullRendering | PickersSample/Pages/TimePickerPage.xaml.cs:393-417 | The full form of a time of day is the hour, ':', two minute digits, two spaces, then AM/PM. Its length is the hour's digit count plus 7. |
| Converters.ConvertBack | PickersSample/Pages/TimePickerPage.xaml.cs:259-262 | `ConvertBack` always gives the empty string. The same holds at TimePickerViewModel.cs:383-386 and at PickersSample/Pages/TimePickerPage.xaml.cs:423-426. |
| AlarmCountdown.CountdownBounds | PickerDecisionGuideSample/ViewModels/TimePickerViewModel.cs:82-84 | For times of day, the countdown is positive and under 25 hours. It passes a day only when both times share an hour and the alarm is later within it. It is the wait until the alarm's next occurrence, or that plus a day. |
| AlarmCountdown.CountdownShowsWait | PickersSample/Pages/TimePickerPage.xaml.cs:243-245 | The countdown's hour, minute and second components equal those of the true wait until the next occurrence. The extra day only reaches the day component, which the text does not use. |
| AlarmCountdown.CountdownText | PickerDecisionGuideSample/ViewModels/TimePickerViewModel.cs:85-92 | The message ends in " seconds" exactly when the hour and minute components are both 0. Otherwise it ends in " minutes". |
| AlarmCountdown.CountdownTextShowsWait | PickersSample/Pages/TimePickerPage.xaml.cs:243-255 | The text is built from the true wait until the alarm next rings. Under a minute it is "Alarm in {s} seconds" with the seconds left. Otherwise it is "Alarm in {h} hours {m} minutes" with the whole hours and the minutes past them. |
| AlarmCountdown.SecondsMessageIffUnderAMinute | PickersSample/Pages/TimePickerPage.xaml.cs:246-253 | The seconds message appears exactly when the alarm is less than a minute away. |
| AlarmCountdown.Convert | PickersSample/Pages/TimePickerPage.xaml.cs:239-257 | A non-`TimeSpan` value gives "". A `TimeSpan` gives one of the two messages. |
| Alarms.SeedTimesOfDay | PickerDecisionGuideSample/ViewModels/TimePickerViewModel.cs:45-53 | The seeded page holds only times of day: every alarm time, and the popup's selection of now. |
| Alarms.EditKeepsTimesOfDay | PickersSample/Pages/TimePickerPage.xaml.cs:46-124 | Tapping, picking, saving, cancelling and switching keep every alarm time and both pickers' selections within a day, given an editor that offers only such times. |
| Alarms.CreateKeepsTimesOfDay | PickersSample/Pages/TimePickerPage.xaml.cs:129-147 | Opening the popup and creating an alarm keep every alarm time within a day. |
| Alarms.AlarmRowShowsWait | PickersSample/Pages/TimePickerPage.xaml.cs:239-255 | On such a page, every alarm row's text names the true wait until that alarm next rings. |
| Alarms.SeedAlarms | PickerDecisionGuideSample/ViewModels/TimePickerViewModel.cs:47-52 | There are three sample alarms, all times of day. The first two are on and the third is off. Each has the colours the switch would give its state under the theme. |
| Alarms.NewAlarm | PickerDecisionGuideSample/ViewModels/TimePickerViewModel.cs:314 | A created alarm is enabled and has the picked time. Its message is the entry, or "No Alarm Message" if the entry is empty, so it is never empty. Its colours are the `AlarmDetails` defaults. |
| Alarms.PopupOk | PickerDecisionGuideSample/ViewModels/TimePickerViewModel.cs:310-319 | Exactly one alarm is emitted when a time is selected, and none otherwise. The popup closes and is reset to now with an empty entry. |
| Alarms.PopupCancel | PickersSample/Pages/TimePickerPage.xaml.cs:212-216 | Nothing is emitted. The popup is reset and closes. |
| Alarms.ResetPopup | PickerDecisionGuideSample/ViewModels/TimePickerViewModel.cs:324-329 | The picker shows the current time and the entry is empty. |
| Alarms.OnAlarmTapped | PickerDecisionGuideSample/Pages/TimePickerPage.xaml.cs:42-65 | An enabled alarm becomes the edit target with its own time preselected, and the editor opens. A disabled alarm, or no alarm, leaves the page exactly as it was. |
| Alarms.OnEditSaved | PickerDecisionGuideSample/Pages/TimePickerPage.xaml.cs:72-89 | Only the target's time changes, and only when there is a selection. Every other alarm, and the target's other fields, are unchanged. The target is cleared and the editor closes. |
| Alarms.OnEditCancelled | PickerDecisionGuideSample/Pages/TimePickerPage.xaml.cs:96-103 | Only the editor closes. No alarm changes, and neither does the target. |
| Alarms.TapThenSaveKeepsAlarms | PickersSample/Pages/TimePickerPage.xaml.cs:46-91 | Opening an enabled alarm and saving without moving the picker changes no alarm. |
| Alarms.EditChangesOnlyTime | PickersSample/Pages/TimePickerPage.xaml.cs:74-91 | Tap, pick and save sets that alarm's time. The rest of the list is unchanged. |
| Alarms.DisabledAlarmNotEditable | PickerDecisionGuideSample/Pages/TimePickerPage.xaml.cs:47-52 | Tapping a disabled alarm and then saving changes no alarm. |
| Alarms.Recolour | PickersSample/Pages/TimePickerPage.xaml.cs:112-121 | The alarm gets the switch-state colours: opaque when on, half opacity when off, with inks chosen by theme. Time, message and flag are unchanged. |
| Alarms.OnSwitchToggledThemed | PickersSample/Pages/TimePickerPage.xaml.cs:108-124 | Only the switch's own alarm is recoloured, and only when the new value is known. Its time and message stay. |
| Alarms.OnSwitchToggledLight | PickerDecisionGuideSample/Pages/TimePickerPage.xaml.cs:110-126 | It behaves as the theme-aware handler does on the light theme: black and #49454F, opaque when on, half opacity when off. |
| Alarms.SwitchOffOnRestores | PickerDecisionGuideSample/Pages/TimePickerPage.xaml.cs:114-123 | Switching an alarm off and on again restores the page exactly. |
| Alarms.OnAddAlarmTapped | PickersSample/Pages/TimePickerPage.xaml.cs:129-136 | The popup opens. Alarms and the edit target are unchanged. |
| Alarms.OnCreated | PickerDecisionGuideSample/Pages/TimePickerPage.xaml.cs:147-153 | The created alarm is appended at the end. Existing alarms are unchanged. |
| Alarms.OnPopupOk | PickersSample/Pages/TimePickerPage.xaml.cs:141-147 | The list grows by one exactly when the popup had a time. The old alarms are a prefix of the new list. |
| Alarms.CreatedAlarmIsEditable | PickersSample/Pages/TimePickerPage.xaml.cs:218-227 | A popup OK appends one enabled alarm with the picked time and a non-empty message. Tapping it opens the editor on that time. |
| ToDos.WithDate | PickerDecisionGuideSample/ViewModels/DatePickerViewModel.cs:93-105 | The display string is "Due today" exactly when the day is today. Otherwise it is text that parses back to that day as `dd-MM-yyyy`. |
| ToDos.DueTextFacts | PickerDecisionGuideSample/ViewModels/DatePickerViewModel.cs:102 | The due text is "Due today" exactly for today. Any other day's text reads back as that day. |
| ToDos.FreshToDo | PickerDecisionGuideSample/ViewModels/DatePickerViewModel.cs:88-107 | A fresh item is due today at midnight, says "Due today", and agrees with the setter's rule. |
| ToDos.MakeToDo | PickerDecisionGuideSample/ViewModels/DatePickerViewModel.cs:51-54 | An item built with a subject and a date keeps both. Its display string agrees with the setter's rule. |
| ToDos.SeedList | PickerDecisionGuideSample/ViewModels/DatePickerViewModel.cs:49-55 | There are four items, dated today, +2 days, today and +8 days. Each display string agrees with its date. |
| ToDos.SeedToDos | PickerDecisionGuideSample/ViewModels/DatePickerViewModel.cs:47-56 | The seed exists exactly when today+8 is a real day. |
| ToDos.SeedOrder | PickerDecisionGuideSample/ViewModels/DatePickerViewModel.cs:51-54 | The days are today, today+2, today and today+8, by day number. The items due today say "Due today" and the others show their date. |
| ToDos.AddDaysPrefix | PickerDecisionGuideSample/ViewModels/DatePickerViewModel.cs:52-54 | If +8 days exists, +2 days does too. |
| ToDos.AddDaysSplit | PickerDecisionGuideSample/ViewModels/DatePickerViewModel.cs:52-54 | Adding n days and then k more is the same as adding n+k. |
| Calendar.AddDaysIsLater | PickerDecisionGuideSample/ViewModels/DatePickerViewModel.cs:52-54 | Adding a positive number of days gives a later day. |
| Calendar.NextDay | PickerDecisionGuideSample/ViewModels/DatePickerViewModel.cs:52 | There is no next day only for 31 December 9999. Otherwise the next day is a valid, later day whose day number is one more. |
| Calendar.NextDayImmediate | PickerDecisionGuideSample/ViewModels/DatePickerViewModel.cs:52 | No valid day lies strictly between a day and the next one, so no day is skipped. |
| Calendar.AddDays | PickerDecisionGuideSample/ViewModels/DatePickerViewModel.cs:52-54 | A result is a valid day exactly n day numbers on. No result means the target would lie past 31 December 9999. |
| Calendar.DayNumberOrder | PickerDecisionGuideSample/ViewModels/DatePickerViewModel.cs:52-54 | For valid days, one is earlier than another exactly when its day number is smaller. Days share a number only when they are equal. |
| Calendar.AddDaysInRange | PickerDecisionGuideSample/ViewModels/DatePickerViewModel.cs:52-54 | Adding n days has a result exactly when the day n numbers on is at most 31 December 9999, and it is that day. |
| ToDos.Classify | PickerDecisionGuideSample/ViewModels/DatePickerViewModel.cs:274-283 | Every day is exactly one of past, today or future. |
| ToDos.DueColour | PickerDecisionGuideSample/ViewModels/DatePickerViewModel.cs:270-287 | Today gives the opaque due-today red. Past gives the secondary grey at half opacity. Future, or any non-`DateTime` value, gives the opaque secondary grey, with inks chosen by theme. |
| ToDos.DueColourDistinguishes | PickerDecisionGuideSample/ViewModels/DatePickerViewModel.cs:272-286 | Each colour identifies its case exactly. A non-date looks like a future date. |
| ToDos.ResetTaskPopup | PickerDecisionGuideSample/ViewModels/DatePickerViewModel.cs:233-244 | The picker shows today at midnight and the entry is empty. |
| ToDos.TaskPopupOk | PickerDecisionGuideSample/ViewModels/DatePickerViewModel.cs:221-228 | One item is created exactly when a date is selected. It has that date and the entry as subject, or "No Title" if the entry is empty. Its display string is consistent. The popup closes without resetting. |
| ToDos.TaskPopupCancel | PickerDecisionGuideSample/ViewModels/DatePickerViewModel.cs:210-214 | Nothing is created. The popup is reset and closes. |
| ToDos.OnAddTaskTapped | PickerDecisionGuideSample/Pages/DatePickerPage.xaml.cs:40-49 | The popup is always reset to today and an empty subject, then opens. Items are unchanged. |
| ToDos.OnItemTapped | PickerDecisionGuideSample/Pages/DatePickerPage.xaml.cs:56-75 | A tapped item becomes the target with its date preselected. The picker opens in every case. |
| ToDos.OnEditOk | PickerDecisionGuideSample/Pages/DatePickerPage.xaml.cs:82-99 | With a target and a selection, the target takes the selection's date part (unless it already equals the selection) and the target is cleared. Otherwise no item or target changes. No other item changes, and the picker closes. |
| ToDos.OnEditorClosed | PickerDecisionGuideSample/Pages/DatePickerPage.xaml.cs:106-109 | The target is cleared. Items are unchanged. |
| ToDos.OnEditCancelled | PickerDecisionGuideSample/Pages/DatePickerPage.xaml.cs:116-123 | The target is cleared and the picker closes. Items are unchanged. |
| ToDos.OnItemCreated | PickerDecisionGuideSample/Pages/DatePickerPage.xaml.cs:130-136 | The new item is appended to the list. |
| ToDos.OnPopupOk | PickerDecisionGuideSample/Pages/DatePickerPage.xaml.cs:130-136 | The list grows by one exactly when the popup had a date. The old items are a prefix of the new list. |
| ToDos.EditKeepsDueTextConsistent | PickerDecisionGuideSample/Pages/DatePickerPage.xaml.cs:86-91 | Moving an item to another day keeps its subject and leaves its display string consistent. Other items are unchanged. |
| ToDos.AddTaskAppendsOne | PickerDecisionGuideSample/Pages/DatePickerPage.xaml.cs:40-49 | "Add a task" followed by OK appends exactly one item. It is due today, says "Due today", and has the typed subject or "No Title". |
| DatePatterns.FormatDate | PickerDecisionGuideSample/ViewModels/DatePickerViewModel.cs:102 | A formatted day is ten characters: two digits, '-', two digits, '-', four digits. That is the shape `ParseDate` accepts, and `DatePatterns.DateRoundTrip` reads it back as the day. |
| DatePatterns.ParseDate | PickerDecisionGuideSample/Pages/DateTimePickersPage.xaml.cs:37 | Accepted `dd-MM-yyyy` text is ten characters with '-' at positions 2 and 5, and it names a real day. |
| DatePatterns.DateRoundTrip | PickerDecisionGuideSample/ViewModels/DatePickerViewModel.cs:102 | Formatting a day as `dd-MM-yyyy` and parsing the text gives back the day. |
| DatePatterns.FormatDateLayout | PickerDecisionGuideSample/ViewModels/DatePickerViewModel.cs:102 | Day, month and year sit at fixed positions in the 10-character text. |
| DatePatterns.ParseClock | PickerDecisionGuideSample/Pages/DateTimePickersPage.xaml.cs:37 | An accepted `h:mm tt` is a time of day on a whole minute. |
| DatePatterns.ParseReminder | PickersSample/Pages/DateTimePickersPage.xaml.cs:25 | An accepted `dd-MM-yyyy h:mm tt` is a valid date and time on a whole minute. |
| DatePatterns.FormatClockLayout | PickerDecisionGuideSample/Pages/DateTimePickersPage.xaml.cs:52 | The `h:mm tt` text is a 1–2 digit hour, ':', two minute digits, a space and AM/PM. |
| DatePatterns.ClockRoundTrip | PickerDecisionGuideSample/Pages/DateTimePickersPage.xaml.cs:37-52 | `h:mm tt` parses back to the hour and minute. Seconds are dropped. |
| DatePatterns.FormatReminder | PickerDecisionGuideSample/Pages/DateTimePickersPage.xaml.cs:19 | The reminder text is 18 or 19 characters. Its first ten read back as the day, a space follows, and it ends in "AM" exactly for times before noon. |
| DatePatterns.ReminderRoundTrip | PickersSample/Pages/DateTimePickersPage.xaml.cs:25-35 | Format then parse gives back the value truncated to the minute. |
| Reminders.Initial | PickerDecisionGuideSample/Pages/DateTimePickersPage.xaml.cs:19 | At start-up the field holds the current time in the page's pattern. It parses back to now truncated to the minute. |
| Reminders.OnFieldTapped | PickerDecisionGuideSample/Pages/DateTimePickersPage.xaml.cs:35-41 | The picker preselects the parsed text. If parsing fails it preselects now. The picker opens and the text is unchanged. |
| Reminders.OnPickerOk | PickersSample/Pages/DateTimePickersPage.xaml.cs:31-38 | A selection is written in the pattern and parses back to itself truncated to the minute. With no selection the text is unchanged. The picker closes. |
| Reminders.OnPickerCancelled | PickersSample/Pages/DateTimePickersPage.xaml.cs:40-46 | The picker closes. The text and selection are unchanged. |
| Reminders.SaveMessage | PickerDecisionGuideSample/Pages/DateTimePickersPage.xaml.cs:75-80 | The message is "Title: ", the title, a line break and "DateTime: ", then the field text, each at its position. |
| Reminders.FormatIgnoresSeconds | PickersSample/Pages/DateTimePickersPage.xaml.cs:35 | A time and the same time cut to its minute format to the same text. |
| Reminders.OkThenTapPreselects | PickerDecisionGuideSample/Pages/DateTimePickersPage.xaml.cs:37-52 | OK on a value, then a tap, preselects that value truncated to the minute. |
| Reminders.TapOkIsStable | PickersSample/Pages/DateTimePickersPage.xaml.cs:25-37 | Once a value has been through OK, a tap then OK leaves the text unchanged. |
| FlightSearch.CityList | PickerDecisionGuideSample/Pages/PickerPage.xaml.cs:549-560 | Each of the five countries gets six cities. Any other name gets an empty list. |
| FlightSearch.CityListMatchesTable | PickerDecisionGuideSample/Pages/PickerPage.xaml.cs:36-61 | The i-th country gets the i-th city list of the table. A list is non-empty exactly for a listed country. |
| FlightSearch.SelectionChanged | PickerDecisionGuideSample/Pages/PickerPage.xaml.cs:362-397 | A city-column change is ignored. A country change puts that country's six cities in the city column, and a cleared country puts none. No city is selected either way. |
| FlightSearch.ScrollColumn | PickerDecisionGuideSample/Pages/PickerPage.xaml.cs:405-440 | After any row change, the city column still lists the selected country's cities. A country change leaves no city selected. |
| FlightSearch.PlaceOk | PickerDecisionGuideSample/Pages/PickerPage.xaml.cs:475-505 | With both columns selected, the place becomes exactly `[country, city]` and the label "city, country". Otherwise the place and label stay. The picker closes. |
| FlightSearch.PlaceCancel | PickerDecisionGuideSample/Pages/PickerPage.xaml.cs:447-468 | Only the picker closes. |
| FlightSearch.Initial | PickerDecisionGuideSample/Pages/PickerPage.xaml.cs:88-104 | There are no dates and no places, and every label is its placeholder. No rows are selected, and the departure minimum is today. |
| FlightSearch.OpenDeparture | PickerDecisionGuideSample/Pages/PickerPage.xaml.cs:208-217 | The departure picker opens with minimum today. Nothing else changes. |
| FlightSearch.OpenReturn | PickerDecisionGuideSample/Pages/PickerPage.xaml.cs:224-233 | The return picker opens. Its minimum is the departure, or today if there is none. |
| FlightSearch.DepartureOk | PickerDecisionGuideSample/Pages/PickerPage.xaml.cs:240-272 | A selection becomes the departure (its date part) and its label. A return now earlier is cleared to the placeholder, and a later return is kept. Without a selection no date changes. The picker closes. |
| FlightSearch.ReturnOk | PickerDecisionGuideSample/Pages/PickerPage.xaml.cs:279-298 | A selection becomes the return (its date part) and its label. The departure and both places are unchanged. |
| FlightSearch.DateCancel | PickerDecisionGuideSample/Pages/PickerPage.xaml.cs:305-326 | Only the picker closes. |
| FlightSearch.Search | PickerDecisionGuideSample/Pages/PickerPage.xaml.cs:658-682 | The search is blocked exactly when a place list does not have two entries or a date is missing. Otherwise it reports the drawn count and the origin's label. |
| FlightSearch.SearchMessage | PickerDecisionGuideSample/Pages/PickerPage.xaml.cs:666-679 | A blocked search shows the fixed request. A successful one is the count's digits, then " flights available for the selected route and dates. From: ", then the origin's label. |
| FlightSearch.Enabled | PickerDecisionGuideSample/Pages/PickerPage.xaml.cs:208-540 | The pickers are modal. An action that opens a picker is possible exactly when none is showing. Every other action is addressed to the picker that is showing. |
| FlightSearch.Step | PickerDecisionGuideSample/Pages/PickerPage.xaml.cs:208-540 | Each action goes to its handler. A place action leaves both dates and the other place alone, and a date action leaves both places alone. Opening leaves exactly that picker showing, and OK or Cancel closes it. |
| FlightSearch.StepInv | PickerDecisionGuideSample/Pages/PickerPage.xaml.cs:224-298 | Every handler, under the pickers' guarantees, keeps the invariant. The invariant covers the cascade, the labels, one picker at a time, the return minimum and return ≥ departure. |
| FlightSearch.DepartureOkInv | PickerDecisionGuideSample/Pages/PickerPage.xaml.cs:258-270 | The departure commit keeps return ≥ departure by clearing an earlier return. |
| FlightSearch.ReturnOkInv | PickerDecisionGuideSample/Pages/PickerPage.xaml.cs:228-231 | A return picked no earlier than the picker's minimum keeps return ≥ departure. |
| FlightSearch.RunInv | PickerDecisionGuideSample/Pages/PickerPage.xaml.cs:224-298 | Any run of enabled user actions keeps the invariant. |
| FlightSearch.InitialInv | PickerDecisionGuideSample/Pages/PickerPage.xaml.cs:88-91 | The fresh page satisfies the invariant. |
| FlightSearch.ReturnNeverBeforeDeparture | PickerDecisionGuideSample/Pages/PickerPage.xaml.cs:224-272 | Whatever the user does from a fresh page, a chosen return is never before a chosen departure. Committed places are table entries labelled "city, country", and each city column matches its country. |
| FlightSearch.SearchNamesOrigin | PickerDecisionGuideSample/Pages/PickerPage.xaml.cs:677-679 | On a reachable page, a successful search message ends with the committed origin as "city, country". |

## Left out

- Layout, templates, styles, header and footer heights, the popups' sizes,
  and the `#if ANDROID || IOS` duplicates. These are presentation only; one
  branch is modelled.
- The vendor controls' internals: rendering, scrolling, and how
  `MinimumDate` is enforced.
  - The flight-search run takes two guarantees as enabling conditions.
    First, the pickers are modal, so one opens only when none is showing.
    Second, the return picker never reports a date before its minimum.
  - The pickers' initial selections and the return picker's initial
    minimum are parameters.
- `INotifyPropertyChanged`, `RaisePropertyChanged` and the view models'
  collection setters. These are notification plumbing and carry no logic.
- The XAML bindings, whose files are not part of this model.
  - This covers the switch's two-way binding of `IsAlarmEnabled`, so
    `Alarms.Recolour` leaves the flag as it is.
  - It also covers which row a tap or switch is bound to. That becomes an
    index parameter.
- `DisplayAlert`/`DisplayAlertAsync` and `popup.Show()`. These are
  asynchronous UI; the model keeps only the message text.
- `DateTime.Now`, `DateTime.Today`, the app theme and `Random.Next(0, 50)`.
  These are parameters.
- The current-culture `dd MMM yyyy` date labels of the flight form. They
  depend on culture, so a label is modelled as the date it shows
  (`FlightSearch.DateLabel`).
- General .NET date parsing. Only the two fixed invariant-culture patterns
  are modelled, and strictly.
  - `DatePatterns.ParseReminder`: accepts `AM`/`PM` only in upper case,
    with no extra white space.
  - .NET's parser is case-insensitive about the designator. That leniency
    is not modelled, because the text the page writes is always upper case.
- `Entry.Text` being `null`. The popups always reset the entry to the empty
  string before it can be read.
- The `popup == null` guard of the search handler. The popup is built by
  the page's XAML and is never null once the page exists.
- 64-bit tick overflow of `TimeSpan`. All values involved are within a day
  or two.
- `ViewModels/MainViewModel.cs`, `MainPage.xaml.cs` and `MauiProgram.cs`.
  These are navigation and start-up, with no logic.
- The `AlarmPopup` and `CustomPopUp` constructors, and the
  `Placeholder = "Enter Alarm Message"` line of `Reset`. These are layout
  and prompt text.
