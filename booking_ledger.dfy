/** The booking ledger of the appointment scheduler
    (src/components/AppointmentScheduler.jsx): the composite key of a
    booked (date, slot) pair, membership, the append done when a booking is
    saved, and the guard of the confirm step. The ledger itself is the list
    of keys the component keeps in its state. */
module BookingLedger {
  import opened Wrappers
  import opened Text
  import opened CivilDate

  /** The year `en-US` prints with `year: "numeric"`: the year of the era,
      with no sign and no era name, so 0 prints as 1 (1 BC) and -1 as 2. */
  function EraYear(y: int): (e: nat)
    ensures e >= 1
    ensures y >= 1 ==> e == y
    ensures y <= 0 ==> e + y == 1
  {
    if y >= 1 then y else 1 - y
  }

  /** `date.toLocaleDateString("en-US", {year: "numeric", month: "2-digit",
      day: "2-digit"})`: "MM/DD/YYYY". */
  function DateKey(d: Date): string
    requires 0 <= d.month < 12 && d.day >= 0
  {
    Pad2(d.month + 1) + "/" + Pad2(d.day) + "/" + NatToString(EraYear(d.year))
  }

  /** `getSlotKey`: the date key, a dash, then the slot label. */
  function SlotKey(d: Date, time: string): string
    requires 0 <= d.month < 12 && d.day >= 0
  {
    DateKey(d) + "-" + time
  }

  /** Reads "<year>-<label>" back: the year's digits, a dash, then the label. */
  function ParseYearAndLabel(rest: string): Option<(nat, string)>
  {
    var n := LeadingDigits(rest);
    if n == 0 || n == |rest| || rest[n] != '-' then None
    else Some((DigitsValue(rest[..n]), rest[n + 1..]))
  }

  lemma DigitsAndLabel(digits: string, time: string)
    requires 1 <= |digits| && AllDigits(digits)
    ensures var body := digits + "-" + time;
            LeadingDigits(body) == |digits| && body[..|digits|] == digits && body[|digits| + 1..] == time
  {
    assert ("-" + time)[0] == '-';
    LeadingDigitsOfConcat(digits, "-" + time);
    var body := digits + "-" + time;
    assert body == digits + ("-" + time);
    assert body[..|digits|] == digits;
    assert body[|digits| + 1..] == time;
  }

  lemma YearAndLabelRoundTrip(y: nat, time: string)
    ensures ParseYearAndLabel(NatToString(y) + "-" + time) == Some((y, time))
  {
    DigitsAndLabel(NatToString(y), time);
  }

  /** Reads a key back into its date and slot label. */
  function ParseSlotKey(k: string): Option<(Date, string)>
  {
    if |k| < 6 || !AllDigits(k[0..2]) || k[2] != '/' || !AllDigits(k[3..5]) || k[5] != '/' then None
    else
      match ParseYearAndLabel(k[6..])
      case None => None
      case Some(yt) => Some((Date(yt.0, DigitsValue(k[0..2]) - 1, DigitsValue(k[3..5])), yt.1))
  }

  /** The key of a valid date of the common era and any label reads back as
      that date and label. */
  lemma SlotKeyRoundTrip(d: Date, time: string)
    requires Valid(d) && d.year >= 1
    ensures ParseSlotKey(SlotKey(d, time)) == Some((d, time))
  {
    var mm, dd := Pad2(d.month + 1), Pad2(d.day);
    var k := SlotKey(d, time);
    assert k == mm + "/" + dd + "/" + (NatToString(d.year) + "-" + time);
    assert k[0..2] == mm && k[2] == '/' && k[3..5] == dd && k[5] == '/';
    assert k[6..] == NatToString(d.year) + "-" + time;
    YearAndLabelRoundTrip(d.year, time);
  }

  /** Distinct (date, slot) pairs of the common era never share a key, so
      the ledger detects a conflict exactly for the same date and slot. */
  lemma SlotKeyInjective(d1: Date, t1: string, d2: Date, t2: string)
    requires Valid(d1) && Valid(d2) && d1.year >= 1 && d2.year >= 1
    ensures SlotKey(d1, t1) == SlotKey(d2, t2) <==> d1 == d2 && t1 == t2
  {
    if SlotKey(d1, t1) == SlotKey(d2, t2) {
      SlotKeyRoundTrip(d1, t1);
      SlotKeyRoundTrip(d2, t2);
    }
  }

  /** Before the common era the key loses the era: year `y <= 0` prints as
      `1 - y`, so its dates share their keys with dates of the year `1 - y`. */
  lemma EraYearsShareKeys(d: Date, time: string)
    requires 0 <= d.month < 12 && d.day >= 0 && d.year <= 0
    ensures var twin := Date(1 - d.year, d.month, d.day);
            twin != d && twin.year >= 1 && SlotKey(twin, time) == SlotKey(d, time)
  {
  }

  /** `isSlotBooked`: the key of the pair is in the ledger. */
  predicate IsSlotBooked(ledger: seq<string>, d: Date, time: string)
    requires 0 <= d.month < 12 && d.day >= 0
  {
    SlotKey(d, time) in ledger
  }

  /** The ledger part of `saveBookedSlot`: `[...bookedSlots, slotKey]`. */
  function SaveBookedSlot(ledger: seq<string>, d: Date, time: string): (r: seq<string>)
    requires 0 <= d.month < 12 && d.day >= 0
  {
    ledger + [SlotKey(d, time)]
  }

  /** Saving adds exactly the one key at the end, keeps every earlier entry,
      and afterwards the pair is booked; a pair that was booked stays booked. */
  lemma SaveBookedSlotEffect(ledger: seq<string>, d: Date, time: string, d': Date, time': string)
    requires 0 <= d.month < 12 && d.day >= 0 && 0 <= d'.month < 12 && d'.day >= 0
    ensures var r := SaveBookedSlot(ledger, d, time);
            && |r| == |ledger| + 1 && r[..|ledger|] == ledger && r[|ledger|] == SlotKey(d, time)
            && IsSlotBooked(r, d, time)
            && (IsSlotBooked(ledger, d', time') ==> IsSlotBooked(r, d', time'))
  {
  }

  predicate NoDuplicates(ledger: seq<string>)
  {
    forall i, j :: 0 <= i < j < |ledger| ==> ledger[i] != ledger[j]
  }

  /** The contact fields of the booking draft. */
  datatype Details = Details(fullName: string, email: string, phone: string, message: string, consent: bool)

  const EmptyDetails := Details("", "", "", "", false)

  /** What the confirm step decides: a validation error, a conflict, or a
      booking of the given key. */
  datatype ConfirmOutcome = MissingFields | SlotTaken | Booked(key: string)

  /** The guard of `handleConfirmAppointment`: full name, email and message
      must be non-empty, then the slot must be free. */
  function CheckConfirm(details: Details, ledger: seq<string>, d: Date, time: string): (r: ConfirmOutcome)
    requires 0 <= d.month < 12 && d.day >= 0
    ensures r.MissingFields? <==> details.fullName == "" || details.email == "" || details.message == ""
    ensures r.SlotTaken? ==> IsSlotBooked(ledger, d, time)
    ensures r.Booked? <==>
              details.fullName != "" && details.email != "" && details.message != ""
              && !IsSlotBooked(ledger, d, time)
    ensures r.Booked? ==> r.key == SlotKey(d, time)
  {
    if details.fullName == "" || details.email == "" || details.message == "" then MissingFields
    else if IsSlotBooked(ledger, d, time) then SlotTaken
    else Booked(SlotKey(d, time))
  }

  /** The ledger after the confirm step: one key longer on a booking, unchanged otherwise. */
  function LedgerAfter(ledger: seq<string>, outcome: ConfirmOutcome): seq<string>
  {
    if outcome.Booked? then ledger + [outcome.key] else ledger
  }

  /** Confirming never puts a duplicate key into a duplicate-free ledger. */
  lemma ConfirmKeepsLedgerDistinct(details: Details, ledger: seq<string>, d: Date, time: string)
    requires 0 <= d.month < 12 && d.day >= 0
    requires NoDuplicates(ledger)
    ensures NoDuplicates(LedgerAfter(ledger, CheckConfirm(details, ledger, d, time)))
  {
  }

  /** Booking the same date and slot twice: the second confirm is refused as
      a conflict and leaves the ledger as the first one left it. */
  lemma SecondConfirmConflicts(details: Details, details': Details, ledger: seq<string>, d: Date, time: string)
    requires 0 <= d.month < 12 && d.day >= 0
    requires CheckConfirm(details, ledger, d, time).Booked?
    requires details'.fullName != "" && details'.email != "" && details'.message != ""
    ensures var ledger' := LedgerAfter(ledger, CheckConfirm(details, ledger, d, time));
            CheckConfirm(details', ledger', d, time) == SlotTaken
            && LedgerAfter(ledger', CheckConfirm(details', ledger', d, time)) == ledger'
  {
    var ledger' := LedgerAfter(ledger, CheckConfirm(details, ledger, d, time));
    assert ledger'[|ledger|] == SlotKey(d, time);
  }
}
