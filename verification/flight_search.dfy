/** The flight-search form (`PickerPage`): two place pickers, each a
    country column cascading into a city column, two date pickers for the
    departure and the return, and a Search button. The vendor pickers are
    plain records here: their selected indices, selected date, minimum date
    and open flag are fields, and what a user does with them is an `Event`.
    `DateTime.Today` is the parameter `today`; the random flight count is
    the parameter `flights`. */
module FlightSearch {
  import opened Wrappers
  import opened Text
  import opened Calendar

  // ---------------------------------------------------------------------
  // The lookup table

  const Countries: seq<string> := ["UK", "USA", "India", "UAE", "Germany"]

  /** The six cities of each country, in the order of `Countries`. */
  const CityTable: seq<seq<string>> := [
    ["London", "Manchester", "Cambridge", "Edinburgh", "Glasgow", "Birmingham"],
    ["New York", "Seattle", "Washington", "Chicago", "Boston", "Los Angles"],
    ["Mumbai", "Bengaluru", "Chennai", "Pune", "Jaipur", "Delhi"],
    ["Dubai", "Abu Dhabi", "Fujairah", "Sharjah", "Ajman", "AL Ain"],
    ["Berlin", "Munich", "Frankfurt", "Hamburg", "Cologne", "Bonn"]
  ]

  const PlacePlaceholder: string := "Select place"

  /** `GetCityList`: a switch on the country's name. */
  function CityList(country: string): (r: seq<string>)
    ensures country in Countries ==> |r| == 6
    ensures country !in Countries ==> r == []
  {
    if country == "UK" then CityTable[0]
    else if country == "USA" then CityTable[1]
    else if country == "India" then CityTable[2]
    else if country == "UAE" then CityTable[3]
    else if country == "Germany" then CityTable[4]
    else []
  }

  /** The switch agrees with the table position by position: the i-th
      country gets the i-th row, and a name not in the table gets nothing. */
  lemma CityListMatchesTable(country: string)
    ensures forall i :: 0 <= i < |Countries| && Countries[i] == country ==> CityList(country) == CityTable[i]
    ensures |CityList(country)| > 0 <==> country in Countries
  {
  }

  // ---------------------------------------------------------------------
  // A place picker and the place it commits

  /** An `SfPicker` with a country column and a city column; an index of
      -1 is "no row selected". The country column always lists `Countries`. */
  datatype PlacePicker = PlacePicker(
    countryIndex: int,
    cities: seq<string>,   // the city column's ItemsSource
    cityIndex: int,
    open: bool)

  /** The city column lists the selected country's cities (none without a
      country), and both indices are -1 or a row of their column. */
  predicate CascadeConsistent(p: PlacePicker) {
    && -1 <= p.countryIndex < |Countries|
    && p.cities == (if p.countryIndex < 0 then [] else CityList(Countries[p.countryIndex]))
    && -1 <= p.cityIndex < |p.cities|
  }

  /** The indices the OK handler reads are rows of the lists it reads them
      from (it indexes `countries` and the city list directly). */
  predicate IndicesInRange(p: PlacePicker) {
    && p.countryIndex < |Countries|
    && (p.countryIndex >= 0 ==> p.cityIndex < |CityList(Countries[p.countryIndex])|)
  }

  function EmptyPlacePicker(): (r: PlacePicker)
    ensures CascadeConsistent(r) && r.countryIndex == -1 && r.cityIndex == -1 && !r.open
  {
    PlacePicker(-1, [], -1, false)
  }

  /** `FromPicker_SelectionChanged` / `ToPicker_SelectionChanged`, run after
      the picker has recorded `newValue` in column `column`: a city change is
      ignored; a country change rebuilds the city column with that country's
      cities, or with none when the country was cleared, and never selects a
      city. */
  function SelectionChanged(p: PlacePicker, column: int, newValue: int): (r: PlacePicker)
    requires column != 1 && newValue >= 0 ==> newValue < |Countries|
    ensures column == 1 ==> r == p
    ensures column != 1 ==>
              && r.cityIndex == -1
              && r.countryIndex == p.countryIndex && r.open == p.open
              && (newValue < 0 ==> r.cities == [])
              && (newValue >= 0 ==> r.cities == CityTable[newValue] && |r.cities| == 6)
  {
    if column == 1 then p
    else if newValue < 0 then p.(cities := [], cityIndex := -1)
    else
      CityListMatchesTable(Countries[newValue]);
      p.(cities := CityList(Countries[newValue]), cityIndex := -1)
  }

  /** What the user does to one column of an open place picker: the picker
      records the row, then raises its selection-changed event. */
  function ScrollColumn(p: PlacePicker, column: int, row: int): (r: PlacePicker)
    requires CascadeConsistent(p) && (column == 0 || column == 1)
    requires column == 0 ==> -1 <= row < |Countries|
    requires column == 1 ==> -1 <= row < |p.cities|
    ensures CascadeConsistent(r) && r.open == p.open
    ensures column == 0 ==> r.countryIndex == row && r.cityIndex == -1
    ensures column == 1 ==> r.countryIndex == p.countryIndex && r.cityIndex == row
  {
    if column == 0 then SelectionChanged(p.(countryIndex := row), 0, row)
    else SelectionChanged(p.(cityIndex := row), 1, row)
  }

  /** One side of the route: `fromList`/`toList`, its label, its picker. */
  datatype PlaceField = PlaceField(place: seq<string>, caption: string, picker: PlacePicker)

  /** The label shows the placeholder while no place is committed and
      "city, country" for a committed `[country, city]`. */
  predicate PlaceShown(f: PlaceField) {
    || (f.place == [] && f.caption == PlacePlaceholder)
    || (&& |f.place| == 2 && f.place[0] in Countries && f.place[1] in CityList(f.place[0])
        && f.caption == f.place[1] + ", " + f.place[0])
  }

  /** `FromPicker_OkButtonClicked` / `ToPicker_OkButtonClicked`: with a row
      selected in both columns the place becomes exactly `[country, city]`
      and the label "city, country"; otherwise nothing is committed. The
      picker closes in both cases. */
  function PlaceOk(f: PlaceField): (r: PlaceField)
    requires IndicesInRange(f.picker)
    ensures r.picker == f.picker.(open := false)
    ensures f.picker.countryIndex < 0 || f.picker.cityIndex < 0 ==> r.place == f.place && r.caption == f.caption
    ensures f.picker.countryIndex >= 0 && f.picker.cityIndex >= 0 ==>
              && r.place == [Countries[f.picker.countryIndex], CityTable[f.picker.countryIndex][f.picker.cityIndex]]
              && PlaceShown(r)
  {
    var p := f.picker;
    if p.countryIndex < 0 || p.cityIndex < 0 then f.(picker := p.(open := false))
    else
      var country := Countries[p.countryIndex];
      CityListMatchesTable(country);
      var city := CityList(country)[p.cityIndex];
      PlaceField([country, city], city + ", " + country, p.(open := false))
  }

  /** `FromPicker_CancelButtonClicked` / `ToPicker_CancelButtonClicked`. */
  function PlaceCancel(f: PlaceField): (r: PlaceField)
    ensures r.place == f.place && r.caption == f.caption && r.picker == f.picker.(open := false)
  {
    f.(picker := f.picker.(open := false))
  }

  // ---------------------------------------------------------------------
  // A date picker and the date it commits

  /** An `SfDatePicker`: its selection, its minimum date, its open flag. */
  datatype DatePicker = DatePicker(selected: Option<DateTime>, minimum: DateTime, open: bool)

  /** A date label: the placeholder "Select date", or the date as the
      current culture writes it (`dd MMM yyyy`), which is not modelled
      beyond the date it shows. */
  datatype DateLabel = DatePlaceholder | Showing(day: Date)

  function LabelFor(date: Option<DateTime>): DateLabel {
    match date
    case None => DatePlaceholder
    case Some(d) => Showing(d.date)
  }

  /** One leg of the trip: `from`/`to`, its label, its picker. */
  datatype DateField = DateField(date: Option<DateTime>, caption: DateLabel, picker: DatePicker)

  /** `a` is on or after `b`, by calendar day. */
  predicate NotBefore(a: DateTime, b: DateTime) {
    !Before(a.date, b.date)
  }

  /** `DatePicker_CancelButtonClicked`, either leg. */
  function DateCancel(f: DateField): (r: DateField)
    ensures r.date == f.date && r.caption == f.caption && r.picker == f.picker.(open := false)
  {
    f.(picker := f.picker.(open := false))
  }

  // ---------------------------------------------------------------------
  // The form

  datatype FlightForm = FlightForm(
    origin: PlaceField,        // fromList
    destination: PlaceField,   // toList
    departure: DateField,      // from
    returning: DateField)      // to

  /** The constructor: nothing selected and every label a placeholder. The
      departure picker's minimum is today; the return picker's minimum and
      both pickers' initial selections are the controls' own defaults. */
  function Initial(today: Date, departureSelected: Option<DateTime>, returnSelected: Option<DateTime>,
                   returnMinimum: DateTime): (r: FlightForm)
    ensures r.departure.date.None? && r.returning.date.None?
    ensures r.origin.place == [] && r.destination.place == []
    ensures r.origin.caption == PlacePlaceholder && r.destination.caption == PlacePlaceholder
    ensures r.departure.caption == DatePlaceholder && r.returning.caption == DatePlaceholder
    ensures r.departure.picker.minimum == Midnight(today)
    ensures r.origin.picker.countryIndex == -1 && r.origin.picker.cityIndex == -1
    ensures r.destination.picker.countryIndex == -1 && r.destination.picker.cityIndex == -1
  {
    FlightForm(
      PlaceField([], PlacePlaceholder, EmptyPlacePicker()),
      PlaceField([], PlacePlaceholder, EmptyPlacePicker()),
      DateField(None, DatePlaceholder, DatePicker(departureSelected, Midnight(today), false)),
      DateField(None, DatePlaceholder, DatePicker(returnSelected, returnMinimum, false)))
  }

  /** `DepartureDatePicker_OnPopUpOpened`: open, and no earlier than today. */
  function OpenDeparture(form: FlightForm, today: Date): (r: FlightForm)
    ensures r.departure.picker.open && r.departure.picker.minimum == Midnight(today)
    ensures r.departure.picker.selected == form.departure.picker.selected
    ensures r.departure.date == form.departure.date && r.departure.caption == form.departure.caption
    ensures r.returning == form.returning && r.origin == form.origin && r.destination == form.destination
  {
    form.(departure := form.departure.(picker := form.departure.picker.(open := true, minimum := Midnight(today))))
  }

  /** `ReturnDatePicker_OnPopUpOpened`: open, and no earlier than the
      departure, or than today while there is no departure. */
  function OpenReturn(form: FlightForm, today: Date): (r: FlightForm)
    ensures r.returning.picker.open
    ensures form.departure.date.Some? ==> r.returning.picker.minimum == form.departure.date.value
    ensures form.departure.date.None? ==> r.returning.picker.minimum == Midnight(today)
    ensures r.returning.picker.selected == form.returning.picker.selected
    ensures r.returning.date == form.returning.date && r.returning.caption == form.returning.caption
    ensures r.departure == form.departure && r.origin == form.origin && r.destination == form.destination
  {
    var minimum := form.departure.date.GetOr(Midnight(today));
    form.(returning := form.returning.(picker := form.returning.picker.(open := true, minimum := minimum)))
  }

  /** `DepartureDatePicker_OkButtonClicked`: a selection becomes the
      departure (its date part) and its label; a return date that is now
      earlier is cleared back to the placeholder. Without a selection no
      date changes. The picker closes in both cases. */
  function DepartureOk(form: FlightForm): (r: FlightForm)
    ensures !r.departure.picker.open
    ensures r.departure.picker == form.departure.picker.(open := false)
    ensures r.origin == form.origin && r.destination == form.destination
    ensures r.returning.picker == form.returning.picker
    ensures form.departure.picker.selected.None? ==>
              r.departure.date == form.departure.date && r.departure.caption == form.departure.caption
              && r.returning == form.returning
    ensures form.departure.picker.selected.Some? ==>
              var d := DatePart(form.departure.picker.selected.value);
              && r.departure.date == Some(d) && r.departure.caption == Showing(d.date)
              && var cleared := form.returning.date.Some? && Before(form.returning.date.value.date, d.date);
                 && (cleared ==> r.returning.date.None? && r.returning.caption == DatePlaceholder)
                 && (!cleared ==> r.returning == form.returning)
  {
    var closed := form.(departure := form.departure.(picker := form.departure.picker.(open := false)));
    match form.departure.picker.selected
    case None => closed
    case Some(sel) =>
      var d := DatePart(sel);
      var withDeparture := closed.(departure := closed.departure.(date := Some(d), caption := Showing(d.date)));
      if form.returning.date.Some? && Before(form.returning.date.value.date, d.date) then
        withDeparture.(returning := form.returning.(date := None, caption := DatePlaceholder))
      else withDeparture
  }

  /** `ReturnDatePicker_OkButtonClicked`: a selection becomes the return
      (its date part) and its label; nothing else changes. The picker
      closes. */
  function ReturnOk(form: FlightForm): (r: FlightForm)
    ensures r.returning.picker == form.returning.picker.(open := false)
    ensures r.departure == form.departure && r.origin == form.origin && r.destination == form.destination
    ensures form.returning.picker.selected.None? ==>
              r.returning.date == form.returning.date && r.returning.caption == form.returning.caption
    ensures form.returning.picker.selected.Some? ==>
              var d := DatePart(form.returning.picker.selected.value);
              r.returning.date == Some(d) && r.returning.caption == Showing(d.date)
  {
    var picker := form.returning.picker.(open := false);
    match form.returning.picker.selected
    case None => form.(returning := form.returning.(picker := picker))
    case Some(sel) =>
      var d := DatePart(sel);
      form.(returning := DateField(Some(d), Showing(d.date), picker))
  }

  // ---------------------------------------------------------------------
  // Search

  const SearchBlocked: string := "Please select From, To, Departure, and Return before searching."

  /** Both places committed and both dates chosen. */
  predicate ReadyToSearch(form: FlightForm) {
    && |form.origin.place| == 2 && |form.destination.place| == 2
    && form.departure.date.Some? && form.returning.date.Some?
  }

  /** What the Search button decides: blocked, or a number of flights from
      the origin the page shows. */
  datatype SearchResult = Blocked | Found(flights: int, from: string)

  /** `SearchButton_Clicked`: it goes ahead only with both places and both
      dates; `flights` is the random draw from 0 to 49. */
  function Search(form: FlightForm, flights: int): (r: SearchResult)
    requires 0 <= flights < 50
    ensures r.Blocked? <==> !ReadyToSearch(form)
    ensures r.Found? ==> r.flights == flights && r.from == form.origin.caption
  {
    if !ReadyToSearch(form) then Blocked else Found(flights, form.origin.caption)
  }

  /** The popup's message for a search result: the fixed request to fill
      the form in, or the count followed by the origin's label. */
  function SearchMessage(result: SearchResult): (r: string)
    ensures result.Blocked? ==> r == SearchBlocked
    ensures result.Found? && result.flights >= 0 ==>
              && |r| > |NatToDigits(result.flights)| + |result.from|
              && r[..|NatToDigits(result.flights)|] == NatToDigits(result.flights)
              && r[|r| - |result.from|..] == result.from
              && r[|NatToDigits(result.flights)|..|r| - |result.from|]
                   == " flights available for the selected route and dates. From: "
  {
    match result
    case Blocked => SearchBlocked
    case Found(flights, from) =>
      var r := IntToString(flights) + " flights available for the selected route and dates. From: " + from;
      assert flights >= 0 ==> r[..|IntToString(flights)|] == IntToString(flights);
      r
  }

  // ---------------------------------------------------------------------
  // Runs of user actions

  datatype Side = Origin | Destination
  datatype Leg = Outbound | Inbound

  /** What a user can do on the page. */
  datatype Event =
    | TapPlace(side: Side)                               // TapGestureRecognizer_Tapped(_1)
    | ScrollPlace(side: Side, column: int, row: int)     // moving a column of a place picker
    | ConfirmPlace(side: Side)                           // OK on a place picker
    | CancelPlace(side: Side)                            // Cancel on a place picker
    | OpenDate(leg: Leg)                                 // a date picker opens
    | PickDate(leg: Leg, when: DateTime)                 // moving a date picker
    | ConfirmDate(leg: Leg)                              // OK on a date picker
    | CancelDate(leg: Leg)                               // Cancel on a date picker

  function PlaceOf(form: FlightForm, side: Side): PlaceField {
    if side == Origin then form.origin else form.destination
  }

  function WithPlace(form: FlightForm, side: Side, f: PlaceField): FlightForm {
    if side == Origin then form.(origin := f) else form.(destination := f)
  }

  function DateOf(form: FlightForm, leg: Leg): DateField {
    if leg == Outbound then form.departure else form.returning
  }

  function WithDate(form: FlightForm, leg: Leg, f: DateField): FlightForm {
    if leg == Outbound then form.(departure := f) else form.(returning := f)
  }

  function Flag(b: bool): nat {
    if b then 1 else 0
  }

  /** How many of the four pickers are showing. */
  function OpenCount(form: FlightForm): nat {
    Flag(form.origin.picker.open) + Flag(form.destination.picker.open)
    + Flag(form.departure.picker.open) + Flag(form.returning.picker.open)
  }

  /** When an action can happen. The pickers are modal, so a picker opens
      only while none is showing and only the showing one takes input; a
      picker offers only rows of its columns; the return picker's
      selection is never before its minimum date, which the control
      enforces. */
  predicate Enabled(form: FlightForm, e: Event): (r: bool)
    ensures r ==> ((e.TapPlace? || e.OpenDate?) <==> OpenCount(form) == 0)
    ensures r && (e.ScrollPlace? || e.ConfirmPlace? || e.CancelPlace?) ==> PlaceOf(form, e.side).picker.open
    ensures r && (e.PickDate? || e.ConfirmDate? || e.CancelDate?) ==> DateOf(form, e.leg).picker.open
  {
    match e
    case TapPlace(_) => OpenCount(form) == 0
    case ScrollPlace(side, column, row) =>
      var p := PlaceOf(form, side).picker;
      && p.open && CascadeConsistent(p)
      && (column == 0 || column == 1)
      && (column == 0 ==> -1 <= row < |Countries|)
      && (column == 1 ==> -1 <= row < |p.cities|)
    case ConfirmPlace(side) => PlaceOf(form, side).picker.open && IndicesInRange(PlaceOf(form, side).picker)
    case CancelPlace(side) => PlaceOf(form, side).picker.open
    case OpenDate(_) => OpenCount(form) == 0
    case PickDate(leg, when) => DateOf(form, leg).picker.open && ValidDateTime(when)
    case ConfirmDate(leg) =>
      var p := DateOf(form, leg).picker;
      p.open && (leg == Inbound && p.selected.Some? ==> NotBefore(p.selected.value, p.minimum))
    case CancelDate(leg) => DateOf(form, leg).picker.open
  }

  function OtherSide(side: Side): Side {
    if side == Origin then Destination else Origin
  }

  /** One action on the page, dispatched to its handler. A place action
      touches only its own side, a date action neither place; the action
      that opens a picker leaves it showing and OK or Cancel leaves it
      closed. */
  function Step(form: FlightForm, e: Event, today: Date): (r: FlightForm)
    requires Enabled(form, e)
    ensures e.TapPlace? || e.ScrollPlace? || e.ConfirmPlace? || e.CancelPlace? ==>
              && r.departure == form.departure && r.returning == form.returning
              && PlaceOf(r, OtherSide(e.side)) == PlaceOf(form, OtherSide(e.side))
    ensures e.OpenDate? || e.PickDate? || e.ConfirmDate? || e.CancelDate? ==>
              r.origin == form.origin && r.destination == form.destination
    ensures e.TapPlace? ==> PlaceOf(r, e.side).picker.open && OpenCount(r) == 1
    ensures e.OpenDate? ==> DateOf(r, e.leg).picker.open && OpenCount(r) == 1
    ensures e.ConfirmPlace? || e.CancelPlace? ==> !PlaceOf(r, e.side).picker.open
    ensures e.ConfirmDate? || e.CancelDate? ==> !DateOf(r, e.leg).picker.open
  {
    match e
    case TapPlace(side) =>
      var f := PlaceOf(form, side);
      WithPlace(form, side, f.(picker := f.picker.(open := true)))
    case ScrollPlace(side, column, row) =>
      var f := PlaceOf(form, side);
      WithPlace(form, side, f.(picker := ScrollColumn(f.picker, column, row)))
    case ConfirmPlace(side) => WithPlace(form, side, PlaceOk(PlaceOf(form, side)))
    case CancelPlace(side) => WithPlace(form, side, PlaceCancel(PlaceOf(form, side)))
    case OpenDate(leg) => if leg == Outbound then OpenDeparture(form, today) else OpenReturn(form, today)
    case PickDate(leg, when) =>
      var f := DateOf(form, leg);
      WithDate(form, leg, f.(picker := f.picker.(selected := Some(when))))
    case ConfirmDate(leg) => if leg == Outbound then DepartureOk(form) else ReturnOk(form)
    case CancelDate(leg) => WithDate(form, leg, DateCancel(DateOf(form, leg)))
  }

  predicate Runnable(form: FlightForm, events: seq<Event>, today: Date)
    decreases |events|
  {
    |events| == 0 || (Enabled(form, events[0]) && Runnable(Step(form, events[0], today), events[1..], today))
  }

  function Run(form: FlightForm, events: seq<Event>, today: Date): FlightForm
    requires Runnable(form, events, today)
    decreases |events|
  {
    if |events| == 0 then form else Run(Step(form, events[0], today), events[1..], today)
  }

  /** What the handlers keep true between events. */
  predicate Inv(form: FlightForm) {
    && CascadeConsistent(form.origin.picker) && PlaceShown(form.origin)
    && CascadeConsistent(form.destination.picker) && PlaceShown(form.destination)
    && form.departure.caption == LabelFor(form.departure.date)
    && form.returning.caption == LabelFor(form.returning.date)
    && OpenCount(form) <= 1
    && (form.returning.picker.open && form.departure.date.Some? ==>
          form.returning.picker.minimum == form.departure.date.value)
    && (form.departure.date.Some? && form.returning.date.Some? ==>
          NotBefore(form.returning.date.value, form.departure.date.value))
  }

  lemma InitialInv(today: Date, departureSelected: Option<DateTime>, returnSelected: Option<DateTime>,
                   returnMinimum: DateTime)
    ensures Inv(Initial(today, departureSelected, returnSelected, returnMinimum))
  {
  }

  /** Each handler keeps the invariant. */
  lemma StepInv(form: FlightForm, e: Event, today: Date)
    requires Inv(form) && Enabled(form, e)
    ensures Inv(Step(form, e, today))
  {
    match e
    case ConfirmDate(leg) =>
      if leg == Outbound {
        DepartureOkInv(form);
      } else {
        ReturnOkInv(form);
      }
    case _ =>
  }

  lemma DepartureOkInv(form: FlightForm)
    requires Inv(form) && form.departure.picker.open
    ensures Inv(DepartureOk(form))
  {
    var r := DepartureOk(form);
    if r.departure.date.Some? && r.returning.date.Some? && form.departure.picker.selected.Some? {
      Trichotomy(r.returning.date.value.date, r.departure.date.value.date);
    }
  }

  lemma ReturnOkInv(form: FlightForm)
    requires Inv(form) && form.returning.picker.open
    requires form.returning.picker.selected.Some? ==>
               NotBefore(form.returning.picker.selected.value, form.returning.picker.minimum)
    ensures Inv(ReturnOk(form))
  {
  }

  /** Any run of enabled actions keeps the invariant. */
  lemma {:induction false} RunInv(form: FlightForm, events: seq<Event>, today: Date)
    requires Inv(form) && Runnable(form, events, today)
    ensures Inv(Run(form, events, today))
    decreases |events|
  {
    if |events| > 0 {
      StepInv(form, events[0], today);
      RunInv(Step(form, events[0], today), events[1..], today);
    }
  }

  /** Whatever the user does from a fresh page, a chosen return is never
      before a chosen departure, a committed place is a `[country, city]`
      of the table shown as "city, country", and each city column lists the
      cities of its selected country. */
  lemma ReturnNeverBeforeDeparture(today: Date, departureSelected: Option<DateTime>,
                                   returnSelected: Option<DateTime>, returnMinimum: DateTime,
                                   events: seq<Event>)
    requires Runnable(Initial(today, departureSelected, returnSelected, returnMinimum), events, today)
    ensures var r := Run(Initial(today, departureSelected, returnSelected, returnMinimum), events, today);
            && (r.departure.date.Some? && r.returning.date.Some? ==>
                  !Before(r.returning.date.value.date, r.departure.date.value.date))
            && PlaceShown(r.origin) && PlaceShown(r.destination)
            && CascadeConsistent(r.origin.picker) && CascadeConsistent(r.destination.picker)
  {
    InitialInv(today, departureSelected, returnSelected, returnMinimum);
    RunInv(Initial(today, departureSelected, returnSelected, returnMinimum), events, today);
  }

  /** A search from a reachable state that goes ahead reports the origin
      the user committed, written "city, country". */
  lemma SearchNamesOrigin(form: FlightForm, flights: int)
    requires Inv(form) && ReadyToSearch(form) && 0 <= flights < 50
    ensures var r := SearchMessage(Search(form, flights));
            var shown := form.origin.place[1] + ", " + form.origin.place[0];
            |r| > |shown| && r[|r| - |shown|..] == shown
  {
  }
}
