/** The appointment scheduler component
    (src/components/AppointmentScheduler.jsx) as a state machine: the
    displayed month, the selected date and slot, the booking step, the
    contact form and the ledger of booked slots are fields that the event
    handlers update. */
module Scheduler {
  import opened Wrappers
  import opened CivilDate
  import opened CalendarGrid
  import opened SlotCatalog
  import opened BookingLedger
  import TimezoneLabel
  import TimeParse
  import CalendarLink

  /** The three screens of the component: picking a date and time, entering
      contact details, and the confirmation. */
  datatype Step = SelectSlot | EnterDetails | Confirmed

  /** One change made in the contact form. */
  datatype Edit = FullName(text: string) | Email(text: string) | Phone(text: string)
                | Message(text: string) | Consent(checked: bool)

  /** The form's `setDetails((prev) => ({...prev, field: value}))`. */
  function ApplyEdit(d: Details, e: Edit): (r: Details)
    ensures r.fullName == (if e.FullName? then e.text else d.fullName)
    ensures r.email == (if e.Email? then e.text else d.email)
    ensures r.phone == (if e.Phone? then e.text else d.phone)
    ensures r.message == (if e.Message? then e.text else d.message)
    ensures r.consent == (if e.Consent? then e.checked else d.consent)
  {
    match e
    case FullName(t) => d.(fullName := t)
    case Email(t) => d.(email := t)
    case Phone(t) => d.(phone := t)
    case Message(t) => d.(message := t)
    case Consent(c) => d.(consent := c)
  }

  /** Every slot of the catalog holds a time of day, so a link can always be
      built for a selected slot. */
  lemma CatalogSlotHasTime(i: nat)
    requires i < 17
    ensures TimeParse.ParseTime(SlotAt(i)).Some?
  {
    TimeParse.SlotStartMinute(i);
  }

  /** Whatever the form holds, the calendar link of a valid date and a
      catalog slot always exists. */
  lemma CatalogSlotHasLink(org: CalendarLink.Organizer, details: Details, date: Date, i: nat, timezoneLabel: string,
                           longDate: string, hostOffset: int)
    requires Valid(date) && i < 17
    ensures CalendarLink.CalendarLink(org, details, date, SlotAt(i), timezoneLabel, longDate, hostOffset).Some?
  {
    CatalogSlotHasTime(i);
    CalendarLink.LinkNoneIffNoTime(org, details, date, SlotAt(i), timezoneLabel, longDate, hostOffset);
  }

  /** One of the labels the slot list shows. */
  ghost predicate IsCatalogSlot(slot: string)
  {
    exists k :: 0 <= k < 17 && slot == SlotAt(k)
  }

  class AppointmentScheduler {
    /** The first selectable day: the current date moved off a weekend. */
    const today: Date
    const timezoneLabel: string
    /** The organizer's contact details written into calendar links. */
    const organizer: CalendarLink.Organizer
    var currentMonth: int
    var currentYear: int
    var selectedDate: Date
    var selectedTime: string
    var step: Step
    var details: Details
    var bookedSlots: seq<string>

    /** What every handler keeps: the displayed month is a month, the
        selected date is a valid date the grid lets one pick, and the
        selected time is one of the catalog's slots. */
    ghost predicate Consistent()
      reads this
    {
      && Valid(today) && !IsWeekend(today)
      && 0 <= currentMonth < 12
      && Valid(selectedDate) && !IsDisabled(selectedDate, today)
      && IsCatalogSlot(selectedTime)
    }

    /** The grid of the displayed month. */
    function VisibleDays(): seq<Option<Date>>
      reads this
      requires 0 <= currentMonth < 12
    {
      MonthGrid(currentYear, currentMonth)
    }

    /** Mounting the component: `now` is the current date, `offsetMs` the
        Toronto offset the locale APIs report (`None` when they throw), and
        `stored` the ledger saved by an earlier visit (`None` when there is
        none or it cannot be read). */
    constructor (now: Date, offsetMs: Option<int>, stored: Option<seq<string>>)
      requires Valid(now)
      ensures Consistent()
      ensures today == InitialDate(now) && timezoneLabel == TimezoneLabel.ZoneLabel(offsetMs)
      ensures organizer == CalendarLink.SiteOrganizer
      ensures currentMonth == today.month && currentYear == today.year
      ensures selectedDate == today && selectedTime == "9:00 AM" && IsCatalogSlot(selectedTime)
      ensures step == SelectSlot && details == EmptyDetails
      ensures bookedSlots == (if stored.Some? then stored.value else [])
    {
      var first := InitialDate(now);
      InitialDateIsFirstWeekday(now);
      InitialDateSelectable(now);
      today := first;
      timezoneLabel := TimezoneLabel.ZoneLabel(offsetMs);
      organizer := CalendarLink.SiteOrganizer;
      currentMonth := first.month;
      currentYear := first.year;
      selectedDate := first;
      selectedTime := "9:00 AM";
      step := SelectSlot;
      details := EmptyDetails;
      bookedSlots := if stored.Some? then stored.value else [];
      SlotsAt9();
    }

    /** The previous/next month arrows (`direction` -1 or +1). */
    method ChangeMonth(direction: int)
      requires Consistent() && (direction == -1 || direction == 1)
      modifies this
      ensures Consistent()
      ensures (currentMonth, currentYear) == NavigateMonth(old(currentMonth), old(currentYear), direction)
      ensures currentYear * 12 + currentMonth == old(currentYear * 12 + currentMonth) + direction
      ensures selectedDate == old(selectedDate) && selectedTime == old(selectedTime)
      ensures step == old(step) && details == old(details) && bookedSlots == old(bookedSlots)
    {
      var next := NavigateMonth(currentMonth, currentYear, direction);
      currentMonth := next.0;
      currentYear := next.1;
    }

    /** A click on cell `i` of the grid: blanks and disabled days do nothing,
        any other day becomes the selected date. */
    method ClickDay(i: nat)
      requires Consistent() && step == SelectSlot
      modifies this
      ensures Consistent()
      ensures var grid := MonthGrid(currentYear, currentMonth);
              selectedDate == if i < |grid| && grid[i].Some? && !IsDisabled(grid[i].value, today)
                              then grid[i].value else old(selectedDate)
      ensures currentMonth == old(currentMonth) && currentYear == old(currentYear)
      ensures selectedTime == old(selectedTime) && step == old(step)
      ensures details == old(details) && bookedSlots == old(bookedSlots)
    {
      var grid := BuildMonthGrid(currentYear, currentMonth);
      MonthGridShape(currentYear, currentMonth);
      if i < |grid| && grid[i].Some? && !IsDisabled(grid[i].value, today) {
        selectedDate := grid[i].value;
      }
    }

    /** A click on the `i`-th slot button: a slot already booked for the
        selected date is disabled, any other becomes the selected time. */
    method ClickSlot(i: nat)
      requires Consistent() && step == SelectSlot && i < 17
      modifies this
      ensures Consistent()
      ensures selectedTime == if IsSlotBooked(old(bookedSlots), selectedDate, SlotAt(i))
                              then old(selectedTime) else SlotAt(i)
      ensures selectedDate == old(selectedDate) && currentMonth == old(currentMonth)
      ensures currentYear == old(currentYear) && step == old(step)
      ensures details == old(details) && bookedSlots == old(bookedSlots)
    {
      var slot := SlotAt(i);
      assert IsCatalogSlot(slot) by { assert slot == SlotAt(i); }
      if !IsSlotBooked(bookedSlots, selectedDate, slot) {
        selectedTime := slot;
      }
    }

    /** The Continue button of the first screen. */
    method Continue()
      requires Consistent() && step == SelectSlot
      modifies this
      ensures Consistent() && step == EnterDetails
      ensures selectedDate == old(selectedDate) && selectedTime == old(selectedTime)
      ensures currentMonth == old(currentMonth) && currentYear == old(currentYear)
      ensures details == old(details) && bookedSlots == old(bookedSlots)
    {
      step := EnterDetails;
    }

    /** The Back link of the details screen. */
    method Back()
      requires Consistent() && step == EnterDetails
      modifies this
      ensures Consistent() && step == SelectSlot
      ensures selectedDate == old(selectedDate) && selectedTime == old(selectedTime)
      ensures currentMonth == old(currentMonth) && currentYear == old(currentYear)
      ensures details == old(details) && bookedSlots == old(bookedSlots)
    {
      step := SelectSlot;
    }

    /** Typing into a field of the contact form, or ticking the consent box. */
    method EditDetails(e: Edit)
      requires Consistent() && step == EnterDetails
      modifies this
      ensures Consistent() && details == ApplyEdit(old(details), e)
      ensures step == old(step) && selectedDate == old(selectedDate) && selectedTime == old(selectedTime)
      ensures currentMonth == old(currentMonth) && currentYear == old(currentYear)
      ensures bookedSlots == old(bookedSlots)
    {
      details := ApplyEdit(details, e);
    }

    /** `handleConfirmAppointment`: refuse when a required field is empty or
        the slot is taken, otherwise append the slot's key to the ledger and
        move to the confirmation screen. */
    method ConfirmAppointment() returns (outcome: ConfirmOutcome)
      requires Consistent() && step == EnterDetails
      modifies this
      ensures Consistent()
      ensures outcome == CheckConfirm(details, old(bookedSlots), selectedDate, selectedTime)
      ensures bookedSlots == LedgerAfter(old(bookedSlots), outcome)
      ensures step == if outcome.Booked? then Confirmed else EnterDetails
      ensures outcome.Booked? ==> IsSlotBooked(bookedSlots, selectedDate, selectedTime)
                                  && !IsSlotBooked(old(bookedSlots), selectedDate, selectedTime)
      ensures NoDuplicates(old(bookedSlots)) ==> NoDuplicates(bookedSlots)
      ensures details == old(details) && selectedDate == old(selectedDate)
      ensures selectedTime == old(selectedTime)
      ensures currentMonth == old(currentMonth) && currentYear == old(currentYear)
    {
      outcome := CheckConfirm(details, bookedSlots, selectedDate, selectedTime);
      if NoDuplicates(bookedSlots) {
        ConfirmKeepsLedgerDistinct(details, bookedSlots, selectedDate, selectedTime);
      }
      if outcome.Booked? {
        bookedSlots := bookedSlots + [outcome.key];
        step := Confirmed;
      }
    }

    /** Back to the first screen with an empty contact form. */
    method StartOver()
      requires Consistent()
      modifies this`step, this`details
      ensures Consistent() && step == SelectSlot && details == EmptyDetails
    {
      step := SelectSlot;
      details := EmptyDetails;
    }

    /** The "Add to Google Calendar" button: build the link for the selected
        date and time (`hostOffset` is the browser's UTC offset in minutes,
        `longDate` the date as the browser's locale writes it); when there is
        one, open it and start over. Only the step and the form change. The
        selected time is a catalog slot, so there always is a link
        (`CatalogSlotHasLink`). */
    method AddToGoogleCalendar(hostOffset: int, longDate: string) returns (link: Option<string>)
      requires Consistent() && step == Confirmed
      modifies this`step, this`details
      ensures Consistent()
      ensures step == (if link.Some? then SelectSlot else Confirmed)
      ensures details == (if link.Some? then EmptyDetails else old(details))
      ensures link == CalendarLink.CalendarLink(organizer, old(details), old(selectedDate), old(selectedTime),
                                                timezoneLabel, longDate, hostOffset)
      ensures link.Some?
    {
      var k :| 0 <= k < 17 && selectedTime == SlotAt(k);
      CatalogSlotHasLink(organizer, details, selectedDate, k, timezoneLabel, longDate, hostOffset);
      link := CalendarLink.CalendarLink(organizer, details, selectedDate, selectedTime, timezoneLabel, longDate, hostOffset);
      if link.Some? {
        StartOver();
      }
    }
  }
}
