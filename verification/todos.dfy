/** The to-do page: the list of tasks (`ToDoDetails`) with their due-date
    text, the "Add a task" popup (`CustomPopUp`), the date picker that moves
    a task's due date, and the converter that colours a due date. The clock
    reading `DateTime.Now.Date` is the parameter `today`. */
module ToDos {
  import opened Wrappers
  import opened Calendar
  import opened DatePatterns
  import opened Colours
  import opened Converters

  datatype ToDo = ToDo(
    subject: string,     // Subject
    date: DateTime,      // Date
    dateString: string)  // DateString, maintained by the Date setter

  const DueToday: string := "Due today"
  const DefaultSubject: string := "No Title"

  /** The text the `Date` setter derives for a due date, given today. */
  function DueText(date: DateTime, today: Date): string
    requires ValidDate(date.date)
  {
    if date.date == today then DueToday else FormatDate(date.date)
  }

  /** `DateString` agrees with `Date` as the setter would write it today. */
  predicate ShowsDue(item: ToDo, today: Date) {
    ValidDate(item.date.date) && item.dateString == DueText(item.date, today)
  }

  /** The `Date` setter: stores the value and rewrites `DateString`, which is
      "Due today" exactly when the day is today and the `dd-MM-yyyy` text of
      the day otherwise. */
  function WithDate(item: ToDo, value: DateTime, today: Date): (r: ToDo)
    requires ValidDate(value.date)
    ensures r.date == value && r.subject == item.subject
    ensures r.dateString == DueToday <==> value.date == today
    ensures value.date != today ==> ParseDate(r.dateString) == Some(value.date)
  {
    DueTextFacts(value, today);
    item.(date := value, dateString := DueText(value, today))
  }

  /** A date's text is ten characters and reads back as the date, so it is
      never "Due today". */
  lemma DueTextFacts(value: DateTime, today: Date)
    requires ValidDate(value.date)
    ensures DueText(value, today) == DueToday <==> value.date == today
    ensures value.date != today ==> ParseDate(DueText(value, today)) == Some(value.date)
  {
    if value.date != today {
      DateRoundTrip(value.date);
      FormatDateLayout(value.date);
      assert |FormatDate(value.date)| == 10 && |DueToday| == 9;
    }
  }

  /** `new ToDoDetails()`: empty subject, due today at midnight, "Due today". */
  function FreshToDo(today: Date): (r: ToDo)
    requires ValidDate(today)
    ensures ShowsDue(r, today) && r.dateString == DueToday && r.date == Midnight(today)
  {
    ToDo("", Midnight(today), DueToday)
  }

  /** `new ToDoDetails() { Subject = s, Date = d }`. */
  function MakeToDo(subject: string, date: DateTime, today: Date): (r: ToDo)
    requires ValidDate(today) && ValidDate(date.date)
    ensures r.subject == subject && r.date == date && ShowsDue(r, today)
  {
    WithDate(FreshToDo(today).(subject := subject), date, today)
  }

  /** The four sample tasks, given the days two and eight days on. */
  function SeedList(today: Date, d2: Date, d8: Date): (r: seq<ToDo>)
    requires ValidDate(today) && ValidDate(d2) && ValidDate(d8)
    ensures |r| == 4 && forall i :: 0 <= i < 4 ==> ShowsDue(r[i], today)
    ensures r[0].date == Midnight(today) && r[1].date == Midnight(d2)
    ensures r[2].date == Midnight(today) && r[3].date == Midnight(d8)
  {
    [ MakeToDo("Get quote from travel agent", Midnight(today), today),
      MakeToDo("Book flight ticket", Midnight(d2), today),
      MakeToDo("Buy travel guide book", Midnight(today), today),
      MakeToDo("Register for sky diving", Midnight(d8), today) ]
  }

  /** The view model's four sample tasks, due today, in two days, today and
      in eight days; none when those days do not exist (where .NET throws). */
  function SeedToDos(today: Date): (r: Option<seq<ToDo>>)
    requires ValidDate(today)
    ensures r.Some? <==> AddDays(today, 8).Some?
  {
    match AddDays(today, 8)
    case None => None
    case Some(d8) =>
      AddDaysPrefix(today, 2, 6);
      Some(SeedList(today, AddDays(today, 2).value, d8))
  }

  /** Reaching a day means every earlier one was reached on the way. */
  lemma {:induction false} AddDaysPrefix(d: Date, n: nat, k: nat)
    requires ValidDate(d) && AddDays(d, n + k).Some?
    ensures AddDays(d, n).Some?
    decreases n
  {
    if n > 0 {
      AddDaysPrefix(NextDay(d).value, n - 1, k);
    }
  }

  /** Moving n days then k more is moving n + k. */
  lemma AddDaysSplit(d: Date, n: nat, k: nat)
    requires ValidDate(d) && AddDays(d, n).Some?
    ensures AddDays(d, n + k) == AddDays(AddDays(d, n).value, k)
  {
    var e := AddDays(d, n).value;
    AddDaysInRange(d, n);
    AddDaysInRange(d, n + k);
    AddDaysInRange(e, k);
    if AddDays(d, n + k).Some? {
      DayNumberOrder(AddDays(d, n + k).value, AddDays(e, k).value);
    }
  }

  /** The seed list, in order: today, two days on, today, eight days on;
      the items due today say so and the others show their date. */
  lemma SeedOrder(today: Date)
    requires ValidDate(today) && AddDays(today, 8).Some?
    ensures var items := SeedToDos(today).value;
            && |items| == 4
            && items[0].date == Midnight(today) && items[2].date == Midnight(today)
            && Before(today, items[1].date.date) && Before(items[1].date.date, items[3].date.date)
            && DayNumber(items[1].date.date) == DayNumber(today) + 2
            && DayNumber(items[3].date.date) == DayNumber(today) + 8
            && items[0].dateString == DueToday && items[2].dateString == DueToday
            && items[1].dateString == FormatDate(items[1].date.date)
            && items[3].dateString == FormatDate(items[3].date.date)
  {
    AddDaysPrefix(today, 2, 6);
    var d2 := AddDays(today, 2).value;
    var d8 := AddDays(today, 8).value;
    AddDaysIsLater(today, 2);
    AddDaysSplit(today, 2, 6);
    AddDaysIsLater(d2, 6);
    BeforeTransitive(today, d2, d8);
    var items := SeedList(today, d2, d8);
    assert SeedToDos(today) == Some(items);
    assert d2 != today && d8 != today by {
      Trichotomy(today, d2);
      Trichotomy(today, d8);
    }
    assert ShowsDue(items[1], today) && ShowsDue(items[3], today);
  }

  // ---------------------------------------------------------------------
  // The due-date colour

  /** How a due date stands against today. */
  datatype Due = Past | Today | Future

  function Classify(d: Date, today: Date): (r: Due)
    ensures r == Today <==> d == today
    ensures r == Past <==> Before(d, today)
    ensures r == Future <==> Before(today, d)
  {
    Trichotomy(d, today);
    if d == today then Today else if Before(d, today) then Past else Future
  }

  /** `DateTimeToColorConverter.Convert`: the due-today red for a date
      today, the secondary grey at half opacity for a past date, and the
      opaque secondary grey for a future date or anything not a date. */
  function DueColour(value: Boxed, today: Date, theme: Theme): (r: Colour)
    ensures value.BoxedDateTime? && value.when.date == today ==> r == Opaque(DueTodayInk(theme))
    ensures value.BoxedDateTime? && Before(value.when.date, today) ==> r == Dimmed(SecondaryInk(theme))
    ensures value.BoxedDateTime? && Before(today, value.when.date) ==> r == Opaque(SecondaryInk(theme))
    ensures !value.BoxedDateTime? ==> r == Opaque(SecondaryInk(theme))
  {
    match value
    case BoxedDateTime(when) =>
      if when.date == today then Opaque(DueTodayInk(theme))
      else if Before(when.date, today) then Dimmed(SecondaryInk(theme))
      else Opaque(SecondaryInk(theme))
    case _ => Opaque(SecondaryInk(theme))
  }

  /** The three cases give three different colours, so the colour tells
      exactly which case a date is in; a value that is not a date looks like
      a future date. */
  lemma DueColourDistinguishes(when: DateTime, other: Boxed, today: Date, theme: Theme)
    requires !other.BoxedDateTime?
    ensures var c := DueColour(BoxedDateTime(when), today, theme);
            && (c == Opaque(DueTodayInk(theme)) <==> Classify(when.date, today) == Today)
            && (c == Dimmed(SecondaryInk(theme)) <==> Classify(when.date, today) == Past)
            && (c == Opaque(SecondaryInk(theme)) <==> Classify(when.date, today) == Future)
    ensures DueColour(other, today, theme) == Opaque(SecondaryInk(theme))
  {
    Trichotomy(when.date, today);
  }

  // ---------------------------------------------------------------------
  // The "Add a task" popup

  datatype TaskPopup = TaskPopup(
    selectedDate: Option<DateTime>,  // the embedded date picker's SelectedDate
    entry: string,                   // the subject Entry's text
    open: bool)

  /** `CustomPopUp.Reset`: the picker shows today and the entry is emptied. */
  function ResetTaskPopup(p: TaskPopup, today: Date): (r: TaskPopup)
    ensures r.selectedDate == Some(Midnight(today)) && r.entry == "" && r.open == p.open
  {
    p.(selectedDate := Some(Midnight(today)), entry := "")
  }

  datatype TaskOutcome = TaskOutcome(created: Option<ToDo>, popup: TaskPopup)

  /** OK on the popup's date picker: one new task with the picked date and
      the typed subject, or "No Title" for an empty one; nothing without a
      selection. The popup closes but keeps its inputs. */
  function TaskPopupOk(p: TaskPopup, today: Date): (r: TaskOutcome)
    requires ValidDate(today)
    requires p.selectedDate.Some? ==> ValidDate(p.selectedDate.value.date)
    ensures r.created.Some? <==> p.selectedDate.Some?
    ensures r.created.Some? ==>
              && r.created.value.date == p.selectedDate.value
              && r.created.value.subject == (if p.entry == "" then DefaultSubject else p.entry)
              && ShowsDue(r.created.value, today)
    ensures r.popup == p.(open := false)
  {
    var created := match p.selectedDate
      case Some(d) => Some(MakeToDo(if p.entry == "" then DefaultSubject else p.entry, d, today))
      case None => None;
    TaskOutcome(created, p.(open := false))
  }

  /** Cancel on the popup's date picker: nothing is created; the popup is
      reset and closes. */
  function TaskPopupCancel(p: TaskPopup, today: Date): (r: TaskPopup)
    ensures !r.open && r.entry == "" && r.selectedDate == Some(Midnight(today))
  {
    ResetTaskPopup(p, today).(open := false)
  }

  // ---------------------------------------------------------------------
  // The page

  datatype DateEditor = DateEditor(selected: Option<DateTime>, open: bool)

  datatype ToDoPage = ToDoPage(
    items: seq<ToDo>,       // the view model's DataSource
    editing: Option<nat>,   // the page's toDoDetails, as a position in the list
    editor: DateEditor,     // the page's date picker
    popup: TaskPopup)       // the "Add a task" popup

  /** The to-do being edited is one of the page's to-dos, and every date the
      page holds is a real day. */
  predicate Valid(page: ToDoPage) {
    && (page.editing.Some? ==> page.editing.value < |page.items|)
    && (forall i :: 0 <= i < |page.items| ==> ValidDate(page.items[i].date.date))
    && (page.editor.selected.Some? ==> ValidDate(page.editor.selected.value.date))
    && (page.popup.selectedDate.Some? ==> ValidDate(page.popup.selectedDate.value.date))
  }

  /** `OnTapGestureTapped`: the popup is always reset to today and an empty
      subject before it opens. */
  function OnAddTaskTapped(page: ToDoPage, today: Date): (r: ToDoPage)
    requires Valid(page) && ValidDate(today)
    ensures Valid(r)
    ensures r.popup == TaskPopup(Some(Midnight(today)), "", true)
    ensures r.items == page.items && r.editing == page.editing && r.editor == page.editor
  {
    page.(popup := ResetTaskPopup(page.popup, today).(open := true))
  }

  /** `OnItemTapGestureTapped`: `tapped` is the to-do the row is bound to, if
      any; that task becomes the edit target with its date preselected. The
      picker opens in every case. */
  function OnItemTapped(page: ToDoPage, tapped: Option<nat>): (r: ToDoPage)
    requires Valid(page)
    requires tapped.Some? ==> tapped.value < |page.items|
    ensures Valid(r) && r.editor.open && r.items == page.items && r.popup == page.popup
    ensures tapped.Some? ==>
              r.editing == tapped && r.editor.selected == Some(page.items[tapped.value].date)
    ensures tapped.None? ==> r.editing == page.editing && r.editor.selected == page.editor.selected
  {
    match tapped
    case Some(i) => page.(editing := Some(i), editor := DateEditor(Some(page.items[i].date), true))
    case None => page.(editor := page.editor.(open := true))
  }

  /** `OnDatePickerOkButtonClicked`: with a target and a selection, the
      target's `Date` becomes the selected day (at midnight) unless it
      already equals the selection, and the target is cleared; without
      either, no task changes and the target stays. The picker closes. */
  function OnEditOk(page: ToDoPage, today: Date): (r: ToDoPage)
    requires Valid(page)
    ensures Valid(r) && !r.editor.open && r.popup == page.popup
    ensures |r.items| == |page.items|
    ensures forall j :: 0 <= j < |page.items| && Some(j) != page.editing ==> r.items[j] == page.items[j]
    ensures page.editing.Some? && page.editor.selected.Some? ==>
              && r.editing.None?
              && var i := page.editing.value;
                 var d := page.editor.selected.value;
                 r.items[i] == (if page.items[i].date == d then page.items[i]
                                else WithDate(page.items[i], DatePart(d), today))
    ensures !(page.editing.Some? && page.editor.selected.Some?) ==>
              r.items == page.items && r.editing == page.editing
  {
    var closed := page.(editor := page.editor.(open := false));
    match (page.editing, page.editor.selected)
    case (Some(i), Some(d)) =>
      if page.items[i].date != d then
        closed.(items := page.items[i := WithDate(page.items[i], DatePart(d), today)], editing := None)
      else closed.(editing := None)
    case _ => closed
  }

  /** `OnDatePickerClosed`: the target is forgotten; nothing else changes. */
  function OnEditorClosed(page: ToDoPage): (r: ToDoPage)
    ensures r.editing.None? && r.items == page.items && r.editor == page.editor && r.popup == page.popup
  {
    page.(editing := None)
  }

  /** `OnDatePickerCancelButtonClicked`: the target is forgotten and the
      picker closes; no task changes. */
  function OnEditCancelled(page: ToDoPage): (r: ToDoPage)
    ensures r.editing.None? && !r.editor.open && r.items == page.items && r.popup == page.popup
  {
    page.(editing := None, editor := page.editor.(open := false))
  }

  /** `OnPopupItemCreated`: the new task goes at the end of the list. */
  function OnItemCreated(page: ToDoPage, item: ToDo): (r: ToDoPage)
    requires Valid(page) && ValidDate(item.date.date)
    ensures Valid(r)
    ensures r.items == page.items + [item] && r.editing == page.editing
  {
    page.(items := page.items + [item])
  }

  /** OK in the "Add a task" popup as the page sees it. */
  function OnPopupOk(page: ToDoPage, today: Date): (r: ToDoPage)
    requires Valid(page) && ValidDate(today)
    ensures Valid(r) && r.editing == page.editing && !r.popup.open
    ensures |r.items| == |page.items| + (if page.popup.selectedDate.Some? then 1 else 0)
    ensures r.items[..|page.items|] == page.items
  {
    var out := TaskPopupOk(page.popup, today);
    var page' := page.(popup := out.popup);
    match out.created
    case Some(item) => OnItemCreated(page', item)
    case None => page'
  }

  /** Moving a task to another day through the picker leaves its due text
      consistent with that day, and its subject and every other task as they
      were. */
  lemma EditKeepsDueTextConsistent(page: ToDoPage, i: nat, d: DateTime, today: Date)
    requires Valid(page) && i < |page.items| && ValidDate(d.date) && page.items[i].date != d
    ensures var r := OnEditOk(page.(editing := Some(i), editor := DateEditor(Some(d), true)), today);
            && r.items[i].date == DatePart(d)
            && r.items[i].subject == page.items[i].subject
            && ShowsDue(r.items[i], today)
            && (forall j :: 0 <= j < |page.items| && j != i ==> r.items[j] == page.items[j])
  {
  }

  /** Adding a task: the page resets the popup, and OK then appends exactly
      one task, due today, titled with the typed subject or "No Title". */
  lemma AddTaskAppendsOne(page: ToDoPage, today: Date, subject: string)
    requires Valid(page) && ValidDate(today)
    ensures var shown := OnAddTaskTapped(page, today);
            var r := OnPopupOk(shown.(popup := shown.popup.(entry := subject)), today);
            && r.items[..|page.items|] == page.items
            && |r.items| == |page.items| + 1
            && r.items[|page.items|].date == Midnight(today)
            && r.items[|page.items|].dateString == DueToday
            && r.items[|page.items|].subject == (if subject == "" then DefaultSubject else subject)
  {
    var shown := OnAddTaskTapped(page, today);
    var r := OnPopupOk(shown.(popup := shown.popup.(entry := subject)), today);
    assert r.items == page.items + [r.items[|page.items|]];
  }
}
