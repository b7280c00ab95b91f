/** The alarm page: the list of alarms (`AlarmDetails`), the "Set Alarm"
    popup that creates one (`AlarmPopup`), the "Edit Alarm" time picker that
    changes an enabled alarm's time, and the on/off switch that recolours an
    alarm. Both sample apps carry the same code; they differ only in the
    switch handler, whose colours are theme-aware in one and always the
    light-theme colours in the other. The clock reading `DateTime.Now.TimeOfDay`
    is the parameter `now`. */
module Alarms {
  import opened Wrappers
  import opened Clock
  import opened Colours
  import AlarmCountdown

  datatype Alarm = Alarm(
    time: int,                // AlarmTime, a TimeSpan in ticks
    message: string,          // AlarmMessage
    enabled: bool,            // IsAlarmEnabled
    textColour: Colour,       // AlarmTextColor
    secondaryColour: Colour)  // AlarmSecondaryTextColor

  const DefaultMessage: string := "No Alarm Message"

  /** `new AlarmDetails()`: no time, an empty message, enabled, and the
      field initialisers' opaque black and #49454F whatever the theme. */
  const BlankAlarm: Alarm := Alarm(0, "", true, Opaque(Black), Opaque(SlateGrey))

  /** The colours the switch handler gives an alarm switched on or off. */
  predicate ShowsState(a: Alarm, on: bool, theme: Theme) {
    && a.textColour == Colour(PrimaryInk(theme), !on)
    && a.secondaryColour == Colour(SecondaryInk(theme), !on)
  }

  /** The view model's three sample alarms: 4:00 "Wake Up" and 5:00 "Morning
      Workout" switched on, 13:00 with the default message switched off. */
  function SeedAlarms(theme: Theme): (r: seq<Alarm>)
    ensures |r| == 3
    ensures forall i :: 0 <= i < |r| ==> IsTimeOfDay(r[i].time) && ShowsState(r[i], r[i].enabled, theme)
    ensures r[0].enabled && r[1].enabled && !r[2].enabled
  {
    var primary := PrimaryInk(theme);
    var secondary := SecondaryInk(theme);
    [ Alarm(HoursMinutes(4, 0), "Wake Up", true, Opaque(primary), Opaque(secondary)),
      Alarm(HoursMinutes(5, 0), "Morning Workout", true, Opaque(primary), Opaque(secondary)),
      Alarm(HoursMinutes(13, 0), DefaultMessage, false, Dimmed(primary), Dimmed(secondary)) ]
  }

  // ---------------------------------------------------------------------
  // The "Set Alarm" popup

  datatype AlarmPopup = AlarmPopup(
    selectedTime: Option<int>,  // the embedded time picker's SelectedTime
    entry: string,              // the message Entry's text
    open: bool)

  /** `AlarmPopup.Reset`: the picker shows the current time and the message
      entry is emptied. */
  function ResetPopup(p: AlarmPopup, now: int): (r: AlarmPopup)
    requires IsTimeOfDay(now)
    ensures r.selectedTime == Some(now) && r.entry == "" && r.open == p.open
  {
    p.(selectedTime := Some(now), entry := "")
  }

  /** The alarm the popup creates from a picked time and the typed message. */
  function NewAlarm(time: int, entry: string): (a: Alarm)
    ensures a.time == time && a.enabled
    ensures a.message == (if entry == "" then DefaultMessage else entry)
    ensures a.message != ""
    ensures a.textColour == BlankAlarm.textColour && a.secondaryColour == BlankAlarm.secondaryColour
  {
    BlankAlarm.(time := time, message := if entry == "" then DefaultMessage else entry, enabled := true)
  }

  datatype PopupOutcome = PopupOutcome(created: Option<Alarm>, popup: AlarmPopup)

  /** OK on the popup's time picker: one new enabled alarm when a time is
      selected, none otherwise; the popup closes and is reset either way. */
  function PopupOk(p: AlarmPopup, now: int): (r: PopupOutcome)
    requires IsTimeOfDay(now)
    ensures r.created.Some? <==> p.selectedTime.Some?
    ensures r.created.Some? ==> r.created.value == NewAlarm(p.selectedTime.value, p.entry)
    ensures !r.popup.open && r.popup.entry == "" && r.popup.selectedTime == Some(now)
  {
    var created := match p.selectedTime
      case Some(t) => Some(NewAlarm(t, p.entry))
      case None => None;
    PopupOutcome(created, ResetPopup(p.(open := false), now))
  }

  /** Cancel on the popup's time picker: nothing is created; the popup is
      reset and closes. */
  function PopupCancel(p: AlarmPopup, now: int): (r: AlarmPopup)
    requires IsTimeOfDay(now)
    ensures !r.open && r.entry == "" && r.selectedTime == Some(now)
  {
    ResetPopup(p, now).(open := false)
  }

  // ---------------------------------------------------------------------
  // The page

  datatype TimeEditor = TimeEditor(selected: Option<int>, open: bool)

  datatype AlarmPage = AlarmPage(
    alarms: seq<Alarm>,       // the view model's AlarmCollection
    editing: Option<nat>,     // the page's alarmDetails, as a position in the list
    editor: TimeEditor,       // the "Edit Alarm" picker
    popup: AlarmPopup)        // the "Set Alarm" popup

  /** The alarm being edited is one of the page's alarms. */
  predicate Valid(page: AlarmPage) {
    page.editing.Some? ==> page.editing.value < |page.alarms|
  }

  /** Every time the page holds is a time of day: the alarms', and the
      selections of the editor and of the popup, which the time pickers
      only ever offer within a day. */
  predicate TimesOfDay(page: AlarmPage) {
    && (forall i :: 0 <= i < |page.alarms| ==> IsTimeOfDay(page.alarms[i].time))
    && (page.editor.selected.Some? ==> IsTimeOfDay(page.editor.selected.value))
    && (page.popup.selectedTime.Some? ==> IsTimeOfDay(page.popup.selectedTime.value))
  }

  /** `OnAlarmTapped`: `tapped` is the alarm the tapped row is bound to, if
      any. Only an enabled alarm opens the editor, with its own time
      preselected; anything else leaves the page as it was. */
  function OnAlarmTapped(page: AlarmPage, tapped: Option<nat>): (r: AlarmPage)
    requires tapped.Some? ==> tapped.value < |page.alarms|
    ensures r.alarms == page.alarms && r.popup == page.popup
    ensures tapped.Some? && page.alarms[tapped.value].enabled ==>
              && r.editing == tapped
              && r.editor == TimeEditor(Some(page.alarms[tapped.value].time), true)
    ensures !(tapped.Some? && page.alarms[tapped.value].enabled) ==> r == page
  {
    match tapped
    case Some(i) =>
      if page.alarms[i].enabled then
        page.(editing := Some(i), editor := TimeEditor(Some(page.alarms[i].time), true))
      else page
    case None => page
  }

  /** The user scrolls the open editor to another time (the picker's own
      behaviour, not a handler of the page). */
  function PickEditorTime(page: AlarmPage, t: int): (r: AlarmPage)
    ensures r.editor.selected == Some(t) && r.alarms == page.alarms && r.editing == page.editing
  {
    page.(editor := page.editor.(selected := Some(t)))
  }

  /** `AlarmEditPicker_OkButtonClicked` ("Save"): the edited alarm takes the
      selected time and nothing else about it or any other alarm changes;
      the edit target is cleared and the editor closes. */
  function OnEditSaved(page: AlarmPage): (r: AlarmPage)
    requires Valid(page)
    ensures Valid(r) && r.editing.None? && !r.editor.open
    ensures |r.alarms| == |page.alarms| && r.popup == page.popup
    ensures forall j :: 0 <= j < |page.alarms| && Some(j) != page.editing ==> r.alarms[j] == page.alarms[j]
    ensures page.editing.Some? ==>
              var i := page.editing.value;
              r.alarms[i] == (match page.editor.selected
                              case Some(t) => page.alarms[i].(time := t)
                              case None => page.alarms[i])
  {
    var alarms := match (page.editing, page.editor.selected)
      case (Some(i), Some(t)) =>
        // AlarmEditPicker_OkButtonClicked assigns only when the time
        // differs; assigning an equal time would leave the alarm as it is
        if page.alarms[i].time != t then page.alarms[i := page.alarms[i].(time := t)] else page.alarms
      case _ => page.alarms;
    page.(alarms := alarms, editing := None, editor := page.editor.(open := false))
  }

  /** `alarmEditPicker_CancelButtonClicked`: the editor closes; no alarm and
      not even the edit target changes. */
  function OnEditCancelled(page: AlarmPage): (r: AlarmPage)
    ensures r.alarms == page.alarms && r.editing == page.editing && !r.editor.open
    ensures r.editor.selected == page.editor.selected && r.popup == page.popup
  {
    page.(editor := page.editor.(open := false))
  }

  /** The colours for an alarm switched to `on` under `theme`; the message,
      time and on/off flag are not touched (the flag itself follows the
      switch through its binding, which is not part of this model). */
  function Recolour(a: Alarm, on: bool, theme: Theme): (r: Alarm)
    ensures ShowsState(r, on, theme)
    ensures r.time == a.time && r.message == a.message && r.enabled == a.enabled
  {
    a.(textColour := Colour(PrimaryInk(theme), !on), secondaryColour := Colour(SecondaryInk(theme), !on))
  }

  /** `alarmSwitch_Toggled` in the theme-aware version: only the switch's
      own alarm is recoloured, and only when the new state is known. */
  function OnSwitchToggledThemed(page: AlarmPage, i: nat, newValue: Option<bool>, theme: Theme): (r: AlarmPage)
    requires i < |page.alarms|
    ensures |r.alarms| == |page.alarms| && r.editing == page.editing && r.editor == page.editor
    ensures forall j :: 0 <= j < |page.alarms| && j != i ==> r.alarms[j] == page.alarms[j]
    ensures newValue.Some? ==> ShowsState(r.alarms[i], newValue.value, theme)
    ensures newValue.None? ==> r == page
    ensures r.alarms[i].time == page.alarms[i].time && r.alarms[i].message == page.alarms[i].message
  {
    match newValue
    case Some(on) => page.(alarms := page.alarms[i := Recolour(page.alarms[i], on, theme)])
    case None => page
  }

  /** `alarmSwitch_Toggled` in the version with fixed colours: black and
      #49454F, opaque when on and at half opacity when off. */
  function OnSwitchToggledLight(page: AlarmPage, i: nat, newValue: Option<bool>): (r: AlarmPage)
    requires i < |page.alarms|
    ensures r == OnSwitchToggledThemed(page, i, newValue, Light)
    ensures newValue == Some(true) ==>
              r.alarms[i].textColour == Opaque(Black) && r.alarms[i].secondaryColour == Opaque(SlateGrey)
    ensures newValue == Some(false) ==>
              r.alarms[i].textColour == Dimmed(Black) && r.alarms[i].secondaryColour == Dimmed(SlateGrey)
  {
    match newValue
    case Some(on) =>
      page.(alarms := page.alarms[i := page.alarms[i].(textColour := Colour(Black, !on),
                                                        secondaryColour := Colour(SlateGrey, !on))])
    case None => page
  }

  /** `OnAddAlarmTapped`: opens the "Set Alarm" popup. */
  function OnAddAlarmTapped(page: AlarmPage): (r: AlarmPage)
    ensures r.popup.open && r.alarms == page.alarms && r.editing == page.editing
  {
    page.(popup := page.popup.(open := true))
  }

  /** `alarmPopup_OnCreated`: the new alarm goes at the end of the list. */
  function OnCreated(page: AlarmPage, a: Alarm): (r: AlarmPage)
    requires Valid(page)
    ensures Valid(r)
    ensures |r.alarms| == |page.alarms| + 1 && r.alarms[..|page.alarms|] == page.alarms
    ensures r.alarms[|page.alarms|] == a
  {
    page.(alarms := page.alarms + [a])
  }

  /** OK in the "Set Alarm" popup as the page sees it: the popup's handler,
      then the page's creation handler for whatever it emitted. */
  function OnPopupOk(page: AlarmPage, now: int): (r: AlarmPage)
    requires Valid(page) && IsTimeOfDay(now)
    ensures Valid(r) && r.editing == page.editing && !r.popup.open
    ensures |r.alarms| == |page.alarms| + (if page.popup.selectedTime.Some? then 1 else 0)
    ensures r.alarms[..|page.alarms|] == page.alarms
  {
    var out := PopupOk(page.popup, now);
    var page' := page.(popup := out.popup);
    match out.created
    case Some(a) => OnCreated(page', a)
    case None => page'
  }

  /** Opening an alarm and saving without moving the picker changes no alarm. */
  lemma TapThenSaveKeepsAlarms(page: AlarmPage, i: nat)
    requires Valid(page) && i < |page.alarms| && page.alarms[i].enabled
    ensures OnEditSaved(OnAlarmTapped(page, Some(i))).alarms == page.alarms
  {
  }

  /** A complete edit: tapping an enabled alarm, picking a time and saving
      changes that alarm's time and nothing else in the list. */
  lemma EditChangesOnlyTime(page: AlarmPage, i: nat, t: int)
    requires Valid(page) && i < |page.alarms| && page.alarms[i].enabled
    ensures var r := OnEditSaved(PickEditorTime(OnAlarmTapped(page, Some(i)), t));
            r.alarms == page.alarms[i := page.alarms[i].(time := t)]
  {
    var r := OnEditSaved(PickEditorTime(OnAlarmTapped(page, Some(i)), t));
    assert |r.alarms| == |page.alarms|;
  }

  /** A disabled alarm can never be edited: tapping it, then saving, leaves
      every alarm as it was. */
  lemma DisabledAlarmNotEditable(page: AlarmPage, i: nat)
    requires Valid(page) && page.editing.None? && i < |page.alarms| && !page.alarms[i].enabled
    ensures OnEditSaved(OnAlarmTapped(page, Some(i))).alarms == page.alarms
  {
  }

  /** An alarm created through the popup is appended, enabled, carries the
      picked time and a non-empty message, and can be opened for editing at
      once. */
  lemma CreatedAlarmIsEditable(page: AlarmPage, now: int)
    requires Valid(page) && IsTimeOfDay(now) && page.popup.selectedTime.Some?
    ensures var r := OnPopupOk(page, now);
            var n := |page.alarms|;
            && |r.alarms| == n + 1 && r.alarms[..n] == page.alarms
            && r.alarms[n].enabled && r.alarms[n].time == page.popup.selectedTime.value
            && r.alarms[n].message != ""
            && OnAlarmTapped(r, Some(n)).editor == TimeEditor(Some(page.popup.selectedTime.value), true)
  {
  }

  /** Switching an alarm off and back on gives it the colours of a
      switched-on alarm again, whatever it had before. */
  lemma SwitchOffOnRestores(page: AlarmPage, i: nat, theme: Theme)
    requires i < |page.alarms| && ShowsState(page.alarms[i], true, theme)
    ensures OnSwitchToggledThemed(OnSwitchToggledThemed(page, i, Some(false), theme), i, Some(true), theme) == page
  {
  }

  /** The seeded page holds only times of day. */
  lemma SeedTimesOfDay(theme: Theme, now: int)
    requires IsTimeOfDay(now)
    ensures TimesOfDay(AlarmPage(SeedAlarms(theme), None, TimeEditor(None, false), AlarmPopup(Some(now), "", false)))
  {
  }

  /** Editing keeps every time a time of day when the editor offers one:
      tapping, picking, saving, cancelling and switching. */
  lemma EditKeepsTimesOfDay(page: AlarmPage, i: nat, t: int, on: Option<bool>, theme: Theme)
    requires Valid(page) && TimesOfDay(page) && i < |page.alarms| && IsTimeOfDay(t)
    ensures TimesOfDay(OnAlarmTapped(page, Some(i)))
    ensures TimesOfDay(PickEditorTime(page, t))
    ensures TimesOfDay(OnEditSaved(page))
    ensures TimesOfDay(OnEditCancelled(page))
    ensures TimesOfDay(OnSwitchToggledThemed(page, i, on, theme))
  {
    var saved := OnEditSaved(page);
    forall j | 0 <= j < |saved.alarms|
      ensures IsTimeOfDay(saved.alarms[j].time)
    {
      if Some(j) != page.editing {
        assert saved.alarms[j] == page.alarms[j];
      }
    }
  }

  /** Creating an alarm keeps every time a time of day. */
  lemma CreateKeepsTimesOfDay(page: AlarmPage, now: int)
    requires Valid(page) && TimesOfDay(page) && IsTimeOfDay(now)
    ensures TimesOfDay(OnAddAlarmTapped(page))
    ensures TimesOfDay(OnPopupOk(page, now))
  {
    var created := OnPopupOk(page, now);
    forall j | 0 <= j < |created.alarms|
      ensures IsTimeOfDay(created.alarms[j].time)
    {
      if j < |page.alarms| {
        assert created.alarms[j] == created.alarms[..|page.alarms|][j];
      }
    }
  }

  /** On such a page each alarm row's countdown names the true wait until
      that alarm next rings. */
  lemma AlarmRowShowsWait(page: AlarmPage, i: nat, now: int)
    requires TimesOfDay(page) && i < |page.alarms| && IsTimeOfDay(now)
    ensures var w := AlarmCountdown.WaitUntil(page.alarms[i].time, now);
            AlarmCountdown.CountdownText(page.alarms[i].time, now)
              == if w < TicksPerMinute then AlarmCountdown.SecondsMessage(w / TicksPerSecond)
                 else AlarmCountdown.HoursMinutesMessage(w / TicksPerHour, (w / TicksPerMinute) % 60)
  {
    AlarmCountdown.CountdownTextShowsWait(page.alarms[i].time, now);
  }
}
