/** The reminder page: a text field holding a date and time as
    `dd-MM-yyyy h:mm tt`, a date-time picker that edits it, and the Save
    button's confirmation text. `DateTime.Now` is the parameter `now`. */
module Reminders {
  import opened Wrappers
  import opened Clock
  import opened Calendar
  import opened DatePatterns

  datatype ReminderPage = ReminderPage(
    text: string,                 // dateTimeText.Text
    selected: Option<DateTime>,   // the picker's SelectedDate
    open: bool)                   // the picker's IsOpen

  /** Every date the page holds is a real date and time. */
  predicate Valid(p: ReminderPage) {
    p.selected.Some? ==> ValidDateTime(p.selected.value)
  }

  /** The constructor: the field shows the current time; the picker keeps
      whatever selection it starts with. */
  function Initial(now: DateTime, picker: Option<DateTime>): (r: ReminderPage)
    requires ValidDateTime(now)
    ensures ParseReminder(r.text) == Some(TruncateToMinute(now))
    ensures r.selected == picker && !r.open
  {
    ReminderRoundTrip(now);
    ReminderPage(FormatReminder(now), picker, false)
  }

  /** `OnDateTimeFieldTapped`: the picker preselects what the field says
      when the field reads back in the same pattern, the current time
      otherwise, and opens. */
  function OnFieldTapped(p: ReminderPage, now: DateTime): (r: ReminderPage)
    requires Valid(p) && ValidDateTime(now)
    ensures Valid(r) && r.open && r.text == p.text
    ensures ParseReminder(p.text).Some? ==> r.selected == ParseReminder(p.text)
    ensures ParseReminder(p.text).None? ==> r.selected == Some(now)
  {
    p.(selected := Some(ParseReminder(p.text).GetOr(now)), open := true)
  }

  /** `OnDateTimePickerOkButtonClicked`: a selection is written to the field
      in the page's pattern; the picker closes either way. */
  function OnPickerOk(p: ReminderPage): (r: ReminderPage)
    requires Valid(p)
    ensures Valid(r) && !r.open && r.selected == p.selected
    ensures p.selected.Some? ==> ParseReminder(r.text) == Some(TruncateToMinute(p.selected.value))
    ensures p.selected.None? ==> r.text == p.text
  {
    match p.selected
    case Some(t) =>
      ReminderRoundTrip(t);
      p.(text := FormatReminder(t), open := false)
    case None => p.(open := false)
  }

  /** `OnDateTimePickerCancelButtonClicked`: only the picker closes. */
  function OnPickerCancelled(p: ReminderPage): (r: ReminderPage)
    ensures !r.open && r.text == p.text && r.selected == p.selected
  {
    p.(open := false)
  }

  /** `OnSaveClicked`: the confirmation shows the title and the field's
      text, on two lines. */
  function SaveMessage(title: string, text: string): (r: string)
    ensures |r| == 18 + |title| + |text|
    ensures r[..7] == "Title: " && r[7..7 + |title|] == title
    ensures r[7 + |title|..18 + |title|] == "\nDateTime: " && r[18 + |title|..] == text
  {
    "Title: " + title + "\nDateTime: " + text
  }

  /** Formatting only ever drops the seconds and below: the text of a time
      and the text of that time cut to its minute are the same. */
  lemma FormatIgnoresSeconds(t: DateTime)
    requires ValidDateTime(t)
    ensures FormatReminder(TruncateToMinute(t)) == FormatReminder(t)
  {
    var tod := t.timeOfDay;
    var q := tod / TicksPerMinute;
    var cut := q * TicksPerMinute;
    assert cut / TicksPerMinute == q;
    assert cut / TicksPerHour == tod / TicksPerHour by {
      assert tod / TicksPerHour == q / 60;
      assert cut / TicksPerHour == q / 60;
    }
  }

  /** Confirming a time and reopening the picker preselects that time cut
      to the minute: the field is a faithful, minute-resolution store. */
  lemma OkThenTapPreselects(p: ReminderPage, t: DateTime, now: DateTime)
    requires Valid(p) && ValidDateTime(t) && ValidDateTime(now)
    ensures OnFieldTapped(OnPickerOk(p.(selected := Some(t))), now).selected == Some(TruncateToMinute(t))
  {
  }

  /** Confirming the preselection a second time changes nothing: once the
      field has been through the picker, tap then OK is the identity on the
      text. */
  lemma TapOkIsStable(p: ReminderPage, t: DateTime, now: DateTime)
    requires Valid(p) && ValidDateTime(t) && ValidDateTime(now)
    ensures var once := OnPickerOk(p.(selected := Some(t)));
            OnPickerOk(OnFieldTapped(once, now)).text == once.text
  {
    FormatIgnoresSeconds(t);
  }
}
