/** The Google Calendar link of the appointment scheduler
    (src/components/AppointmentScheduler.jsx, generateGoogleCalendarLink):
    the selected slot label read as a time of day, a 30-minute window from
    that time on the selected date, both ends written as UTC stamps
    "YYYYMMDDTHHMMSSZ", and the query string with the percent-encoded
    title, description and location and one or two attendee parameters.

    The host's time zone enters as `hostOffset`, the minutes local time is
    ahead of UTC (negative west of Greenwich), one value for the whole
    window. The long human-readable date of the description is locale
    output and enters as the string `longDate`. */
module CalendarLink {
  import opened Wrappers
  import opened Text
  import opened CivilDate
  import opened PercentEncoding
  import opened TimeParse
  import BookingLedger

  const MinutesPerDay: int := 1440
  /** The fixed contact details the link carries: the organizer's name and
      address, and where the meeting takes place. */
  datatype Organizer = Organizer(name: string, email: string, meetingLocation: string)

  /** The values the component hard-codes. */
  const SiteOrganizer: Organizer := Organizer("Joshua Charles", "joshua80.charles@gmail.com", "Toronto, ON, Canada")
  const BaseUrl: string := "https://calendar.google.com/calendar/render?"

  /** `formatGoogleDate`: the `getUTC*` fields of an instant given in whole
      minutes since the epoch; seconds are always zero after `setHours(h, m, 0, 0)`. */
  function Stamp(utcMinutes: int): string
  {
    var minuteOfDay := utcMinutes % MinutesPerDay;
    var d := CivilFromDays(utcMinutes / MinutesPerDay);
    IntToString(d.year) + Pad2(d.month + 1) + Pad2(d.day) + "T"
      + Pad2(minuteOfDay / 60) + Pad2(minuteOfDay % 60) + Pad2(0) + "Z"
  }

  /** The UTC year of an instant, as `getUTCFullYear()` gives it. */
  function UtcYear(utcMinutes: int): int
  {
    CivilFromDays(utcMinutes / MinutesPerDay).year
  }

  /** The number a run of decimal digits spells, `None` when some
      character is not a digit. */
  function DigitRun(s: string): Option<nat>
    decreases |s|
  {
    if s == [] then Some(0)
    else match DigitRun(s[..|s| - 1])
      case None => None
      case Some(v) => if IsDigit(s[|s| - 1]) then Some(v * 10 + DigitValue(s[|s| - 1])) else None
  }

  /** The digit run is exactly the decimal value of an all-digit string. */
  lemma {:induction false} DigitRunReadsDigits(s: string)
    ensures DigitRun(s) == if AllDigits(s) then Some(DigitsValue(s)) else None
    decreases |s|
  {
    if s != [] {
      var init := s[..|s| - 1];
      DigitRunReadsDigits(init);
      assert AllDigits(s) <==> AllDigits(init) && IsDigit(s[|s| - 1]) by {
        assert forall k :: 0 <= k < |init| ==> init[k] == s[k];
      }
    }
  }

  /** Reads a 16-character stamp back into minutes since the epoch: four
      digits of year, two each of month and day, `T`, two each of hour,
      minute and second (which must be zero), `Z`. */
  function ParseStamp(s: string): Option<int>
  {
    if |s| != 16 || s[8] != 'T' || s[15] != 'Z' then None
    else
      match (DigitRun(s[..4]), DigitRun(s[4..6]), DigitRun(s[6..8]),
             DigitRun(s[9..11]), DigitRun(s[11..13]), DigitRun(s[13..15]))
      case (Some(year), Some(month), Some(day), Some(hour), Some(minute), Some(second)) =>
        if month < 1 || 12 < month || second != 0 then None
        else Some(DayNumber(Date(year, month - 1, day)) * MinutesPerDay + hour * 60 + minute)
      case _ => None
  }

  /** The six fixed-width fields of a stamp, as `formatGoogleDate` pads them. */
  datatype StampFields = StampFields(year: string, month: string, day: string, hour: string, minute: string, second: string)

  /** The fields `formatGoogleDate` writes for an instant. */
  function FieldsOf(t: int): StampFields
  {
    var date := CivilFromDays(t / MinutesPerDay);
    var m := t % MinutesPerDay;
    StampFields(IntToString(date.year), Pad2(date.month + 1), Pad2(date.day), Pad2(m / 60), Pad2(m % 60), Pad2(0))
  }

  lemma StampPieces(t: int)
    requires 1000 <= UtcYear(t) <= 9999
    ensures var f := FieldsOf(t);
            Stamp(t) == f.year + f.month + f.day + "T" + f.hour + f.minute + f.second + "Z"
    ensures var f := FieldsOf(t);
            && |f.year| == 4 && |f.month| == 2 && |f.day| == 2 && |f.hour| == 2 && |f.minute| == 2 && |f.second| == 2
            && AllDigits(f.year) && AllDigits(f.month) && AllDigits(f.day)
            && AllDigits(f.hour) && AllDigits(f.minute) && AllDigits(f.second)
    ensures var f := FieldsOf(t);
            var date := CivilFromDays(t / MinutesPerDay);
            && DigitsValue(f.year) == date.year && DigitsValue(f.month) == date.month + 1
            && DigitsValue(f.day) == date.day && DigitsValue(f.hour) < 24 && DigitsValue(f.minute) < 60
            && DigitsValue(f.hour) * 60 + DigitsValue(f.minute) == t % MinutesPerDay && DigitsValue(f.second) == 0
  {
    var date := CivilFromDays(t / MinutesPerDay);
    var m := t % MinutesPerDay;
    assert date.day <= 31;
    HoursAndMinutes(m);
    YearField(date.year, IntToString(date.year));
    PadField(date.month + 1, Pad2(date.month + 1));
    PadField(date.day, Pad2(date.day));
    PadField(m / 60, Pad2(m / 60));
    PadField(m % 60, Pad2(m % 60));
    PadField(0, Pad2(0));
  }

  lemma HoursAndMinutes(m: int)
    requires 0 <= m < MinutesPerDay
    ensures m / 60 < 24 && (m / 60) * 60 + m % 60 == m
  {
  }

  lemma YearField(year: int, y: string)
    requires 1000 <= year <= 9999 && y == IntToString(year)
    ensures |y| == 4 && AllDigits(y) && DigitsValue(y) == year
  {
  }

  lemma PadField(n: nat, s: string)
    requires n < 100 && s == Pad2(n)
    ensures |s| == 2 && AllDigits(s) && DigitsValue(s) == n
  {
  }

  lemma StampLayout(s: string, y: string, mo: string, d: string, hh: string, mi: string, ss: string)
    requires s == y + mo + d + "T" + hh + mi + ss + "Z"
    requires |y| == 4 && |mo| == 2 && |d| == 2 && |hh| == 2 && |mi| == 2 && |ss| == 2
    ensures |s| == 16 && s[8] == 'T' && s[15] == 'Z'
    ensures s[..4] == y && s[4..6] == mo && s[6..8] == d
    ensures s[9..11] == hh && s[11..13] == mi && s[13..15] == ss
  {
  }

  /** For instants whose UTC year has four digits, the stamp is 16
      characters: four digits of year, two each of month and day, `T`, two
      each of hour, minute and second, `Z`; month, day, hour and minute are
      in range and the seconds are zero. */
  lemma StampShape(t: int)
    requires 1000 <= UtcYear(t) <= 9999
    ensures var s := Stamp(t);
            && |s| == 16 && s[8] == 'T' && s[15] == 'Z'
            && AllDigits(s[..4]) && AllDigits(s[4..6]) && AllDigits(s[6..8])
            && AllDigits(s[9..11]) && AllDigits(s[11..13]) && AllDigits(s[13..15])
            && 1 <= DigitsValue(s[4..6]) <= 12 && 1 <= DigitsValue(s[6..8]) <= 31
            && DigitsValue(s[9..11]) < 24 && DigitsValue(s[11..13]) < 60 && DigitsValue(s[13..15]) == 0
  {
    StampFieldsOf(t);
  }

  /** Where the six fields sit in the stamp, and what they hold. */
  lemma StampFieldsOf(t: int)
    requires 1000 <= UtcYear(t) <= 9999
    ensures var s, f := Stamp(t), FieldsOf(t);
            && |s| == 16 && s[8] == 'T' && s[15] == 'Z'
            && s[..4] == f.year && s[4..6] == f.month && s[6..8] == f.day
            && s[9..11] == f.hour && s[11..13] == f.minute && s[13..15] == f.second
    ensures var f := FieldsOf(t);
            && AllDigits(f.year) && AllDigits(f.month) && AllDigits(f.day)
            && AllDigits(f.hour) && AllDigits(f.minute) && AllDigits(f.second)
    ensures var f := FieldsOf(t);
            var date := CivilFromDays(t / MinutesPerDay);
            && DigitsValue(f.year) == date.year && DigitsValue(f.month) == date.month + 1
            && DigitsValue(f.day) == date.day && DigitsValue(f.hour) < 24 && DigitsValue(f.minute) < 60
            && DigitsValue(f.hour) * 60 + DigitsValue(f.minute) == t % MinutesPerDay && DigitsValue(f.second) == 0
  {
    var f := FieldsOf(t);
    StampPieces(t);
    StampLayout(Stamp(t), f.year, f.month, f.day, f.hour, f.minute, f.second);
  }

  /** The stamp of an instant with a four-digit UTC year reads back as that instant. */
  lemma StampRoundTrip(t: int)
    requires 1000 <= UtcYear(t) <= 9999
    ensures ParseStamp(Stamp(t)) == Some(t)
  {
    StampFieldsOf(t);
    var f := FieldsOf(t);
    var y, mo, d, hh, mi, ss := f.year, f.month, f.day, f.hour, f.minute, f.second;
    DigitRunReadsDigits(y);
    DigitRunReadsDigits(mo);
    DigitRunReadsDigits(d);
    DigitRunReadsDigits(hh);
    DigitRunReadsDigits(mi);
    DigitRunReadsDigits(ss);
    ParseStampOfFields(Stamp(t), DigitsValue(y), DigitsValue(mo), DigitsValue(d), DigitsValue(hh), DigitsValue(mi),
                       DigitsValue(ss));
    var date := CivilFromDays(t / MinutesPerDay);
    assert Date(DigitsValue(y), DigitsValue(mo) - 1, DigitsValue(d)) == date;
    DayAndMinute(t, DayNumber(date), DigitsValue(hh) * 60 + DigitsValue(mi));
  }

  /** What the parser reads off a stamp whose six fields read as numbers. */
  lemma ParseStampOfFields(s: string, year: nat, month: nat, day: nat, hour: nat, minute: nat, second: nat)
    requires |s| == 16 && s[8] == 'T' && s[15] == 'Z'
    requires DigitRun(s[..4]) == Some(year) && DigitRun(s[4..6]) == Some(month) && DigitRun(s[6..8]) == Some(day)
    requires DigitRun(s[9..11]) == Some(hour) && DigitRun(s[11..13]) == Some(minute)
    requires DigitRun(s[13..15]) == Some(second)
    requires 1 <= month <= 12 && second == 0
    ensures ParseStamp(s) == Some(DayNumber(Date(year, month - 1, day)) * MinutesPerDay + hour * 60 + minute)
  {
  }

  lemma DayAndMinute(t: int, day: int, minute: int)
    requires day == t / MinutesPerDay && minute == t % MinutesPerDay
    ensures day * MinutesPerDay + minute == t
  {
  }

  /** The instant `setHours(hours, minutes, 0, 0)` gives on the local date
      `date`, in minutes since the epoch (UTC). Hours past 23 carry into
      the following days, as `setHours` does. */
  function StartInstant(date: Date, hours: nat, minutes: nat, hostOffset: int): int
    requires Valid(date)
  {
    DayNumber(date) * MinutesPerDay + hours * 60 + minutes - hostOffset
  }

  /** `details.fullName || "Client"`. */
  function ClientName(details: BookingLedger.Details): string
  {
    if details.fullName == "" then "Client" else details.fullName
  }

  function EventTitle(details: BookingLedger.Details): string
  {
    "Appointment: " + ClientName(details) + " with Joshua Charles"
  }

  /** The separator line: 40 heavy horizontal box-drawing characters (U+2501). */
  const Rule: string :=
    "\U{2501}\U{2501}\U{2501}\U{2501}\U{2501}\U{2501}\U{2501}\U{2501}\U{2501}\U{2501}\U{2501}\U{2501}\U{2501}\U{2501}\U{2501}\U{2501}\U{2501}\U{2501}\U{2501}\U{2501}\U{2501}\U{2501}\U{2501}\U{2501}\U{2501}\U{2501}\U{2501}\U{2501}\U{2501}\U{2501}\U{2501}\U{2501}\U{2501}\U{2501}\U{2501}\U{2501}\U{2501}\U{2501}\U{2501}\U{2501}\n"

  /** The event description, section by section. */
  function EventDetails(org: Organizer, details: BookingLedger.Details, longDate: string, time: string,
                        timezoneLabel: string): string
  {
    "30-minute strategy & architecture review session.\n\n"
    + Rule
    + "ORGANIZER:\n" + org.name + "\n" + "Email: " + org.email + "\n\n"
    + Rule
    + "CLIENT DETAILS:\n" + "Name: " + details.fullName + "\n" + "Email: " + details.email + "\n"
    + "Phone: " + (if details.phone == "" then "N/A" else details.phone) + "\n\n"
    + Rule
    + "APPOINTMENT DETAILS:\n" + "Date: " + longDate + "\n" + "Time: " + time + "\n"
    + "Duration: 30 minutes\n" + "Timezone: " + timezoneLabel + "\n"
    + "Location: " + org.meetingLocation + "\n\n"
    + Rule
    + "CLIENT MESSAGE:\n" + (if details.message == "" then "No message provided" else details.message)
  }

  /** The attendee parameters: the organizer always, the client only when
      the email field is filled in. */
  function AddParam(organizer: string, email: string): string
  {
    var clientEmail := if email != "" then EncodeURIComponent(email) else "";
    var organizerParam := "&add=" + EncodeURIComponent(organizer);
    var clientParam := if clientEmail != "" then "&add=" + clientEmail else "";
    organizerParam + clientParam
  }

  /** `generateGoogleCalendarLink`: `None` when the slot label holds no
      `H:MM AM|PM`, otherwise the link. */
  function CalendarLink(org: Organizer, details: BookingLedger.Details, date: Date, time: string, timezoneLabel: string,
                        longDate: string, hostOffset: int): Option<string>
    requires Valid(date)
  {
    match ParseTime(time)
    case None => None
    case Some(t) => Some(LinkAt(org, details, date, t, time, timezoneLabel, longDate, hostOffset))
  }

  /** The link for a slot label that reads as the clock time `t`: the
      meeting window starts at that local time and ends 30 minutes later. */
  function LinkAt(org: Organizer, details: BookingLedger.Details, date: Date, t: ClockTime, time: string, timezoneLabel: string,
                  longDate: string, hostOffset: int): string
    requires Valid(date)
  {
    var start := StartInstant(date, To24(t), t.minutes, hostOffset);
    var end := start + 30;
    BaseUrl + LinkQuery(EventTitle(details), Stamp(start), Stamp(end),
                        EventDetails(org, details, longDate, time, timezoneLabel),
                        org.meetingLocation, org.email, details.email)
  }

  /** The query part of the link's template: the encoded title, the two
      stamps, the encoded description and location, then the attendees. */
  function LinkQuery(title: string, startStamp: string, endStamp: string, description: string,
                     location: string, organizer: string, email: string): string
  {
    "action=TEMPLATE&text=" + EncodeURIComponent(title) + "&dates=" + startStamp + "/" + endStamp
    + "&details=" + EncodeURIComponent(description) + "&location=" + EncodeURIComponent(location)
    + AddParam(organizer, email)
  }

  /** The query parameters of a link, one `name=value` string each, from
      the encoded title, the two stamps, the encoded description, location
      and organizer, and the encoded client email (empty when none). */
  function Params(title: string, startStamp: string, endStamp: string, description: string,
                  location: string, organizer: string, client: string): seq<string>
  {
    ["action=TEMPLATE", "text=" + title, "dates=" + startStamp + "/" + endStamp,
     "details=" + description, "location=" + location, "add=" + organizer]
    + (if client != "" then ["add=" + client] else [])
  }

  /** The parameters of a link, from the raw title, stamps, description
      and client email. */
  function QueryParams(title: string, startStamp: string, endStamp: string, description: string,
                       location: string, organizer: string, email: string): seq<string>
  {
    Params(EncodeURIComponent(title), startStamp, endStamp, EncodeURIComponent(description),
           EncodeURIComponent(location), EncodeURIComponent(organizer),
           if email != "" then EncodeURIComponent(email) else "")
  }

  /** Parameters joined with `&`, in order. */
  function Join(ps: seq<string>): string
    requires |ps| >= 1
  {
    if |ps| == 1 then ps[0] else Join(ps[..|ps| - 1]) + "&" + ps[|ps| - 1]
  }

  lemma JoinSnoc(ps: seq<string>, p: string)
    requires |ps| >= 1
    ensures Join(ps + [p]) == Join(ps) + "&" + p
  {
    assert (ps + [p])[..|ps|] == ps;
  }

  function LastAmp(s: string): (i: nat)
    requires '&' in s
    ensures i < |s| && s[i] == '&' && '&' !in s[i + 1..]
  {
    if s[|s| - 1] == '&' then |s| - 1
    else
      assert '&' in s[..|s| - 1] by {
        var k :| 0 <= k < |s| && s[k] == '&';
        assert s[..|s| - 1][k] == '&';
      }
      var i := LastAmp(s[..|s| - 1]);
      assert s[i + 1..] == s[..|s| - 1][i + 1..] + [s[|s| - 1]];
      i
  }

  /** The receiving side's view: the query cut at every `&`. */
  function SplitOnAmp(s: string): (ps: seq<string>)
    ensures |ps| >= 1
    decreases |s|
  {
    if '&' !in s then [s]
    else
      var i := LastAmp(s);
      SplitOnAmp(s[..i]) + [s[i + 1..]]
  }

  lemma SplitLast(x: string, p: string)
    requires '&' !in p
    ensures SplitOnAmp(x + "&" + p) == SplitOnAmp(x) + [p]
  {
    var s := x + "&" + p;
    assert s[|x|] == '&' && s[|x| + 1..] == p;
    var i := LastAmp(s);
    assert i == |x|;
    assert s[..i] == x;
  }

  /** Joining parameters that hold no `&` and cutting at `&` again gives
      back exactly the parameters. */
  lemma {:induction false} SplitJoin(ps: seq<string>)
    requires |ps| >= 1 && forall k :: 0 <= k < |ps| ==> '&' !in ps[k]
    ensures SplitOnAmp(Join(ps)) == ps
    decreases |ps|
  {
    if |ps| > 1 {
      var init := ps[..|ps| - 1];
      SplitJoin(init);
      SplitLast(Join(init), ps[|ps| - 1]);
      assert init + [ps[|ps| - 1]] == ps;
    }
  }

  lemma NoAmpInDigits(s: string)
    requires AllDigits(s)
    ensures '&' !in s && '/' !in s
  {
    forall k | 0 <= k < |s| ensures s[k] != '&' && s[k] != '/' {
      assert IsDigit(s[k]);
    }
  }

  /** A stamp holds no `&` and no `/` at all, whatever the year. */
  lemma StampHasNoDelimiters(t: int)
    ensures '&' !in Stamp(t) && '/' !in Stamp(t)
  {
    var date := CivilFromDays(t / MinutesPerDay);
    var m := t % MinutesPerDay;
    var y := date.year;
    NoAmpInDigits(NatToString(if y < 0 then -y else y));
    NoAmpInDigits(Pad2(date.month + 1));
    NoAmpInDigits(Pad2(date.day));
    NoAmpInDigits(Pad2(m / 60));
    NoAmpInDigits(Pad2(m % 60));
    NoAmpInDigits(Pad2(0));
  }

  lemma NamesHaveNoAmp()
    ensures '&' !in "action=TEMPLATE" && '&' !in "text=" && '&' !in "dates=" && '&' !in "/"
    ensures '&' !in "details=" && '&' !in "location=" && '&' !in "add="
  {
  }

  lemma ParamsHaveNoAmp(title: string, startStamp: string, endStamp: string, description: string,
                        location: string, organizer: string, client: string)
    requires '&' !in title && '&' !in startStamp && '&' !in endStamp && '&' !in description
    requires '&' !in location && '&' !in organizer && '&' !in client
    ensures var ps := Params(title, startStamp, endStamp, description, location, organizer, client);
            forall k :: 0 <= k < |ps| ==> '&' !in ps[k]
  {
    NamesHaveNoAmp();
  }

  /** Six parameters joined with `&`, written out. */
  lemma JoinSix(p0: string, p1: string, p2: string, p3: string, p4: string, p5: string)
    ensures Join([p0, p1, p2, p3, p4, p5]) == p0 + "&" + p1 + "&" + p2 + "&" + p3 + "&" + p4 + "&" + p5
  {
    var q1 := [p0];
    var q2 := q1 + [p1];
    var q3 := q2 + [p2];
    var q4 := q3 + [p3];
    var q5 := q4 + [p4];
    var q6 := q5 + [p5];
    JoinSnoc(q1, p1);
    JoinSnoc(q2, p2);
    JoinSnoc(q3, p3);
    JoinSnoc(q4, p4);
    JoinSnoc(q5, p5);
    assert q6 == [p0, p1, p2, p3, p4, p5];
  }

  /** The template literal of the source, cut into its parameters. */
  lemma TemplateIsJoin(t: string, st: string, en: string, d: string, l: string, o: string, c: string)
    ensures "action=TEMPLATE&text=" + t + "&dates=" + st + "/" + en + "&details=" + d + "&location=" + l
            + ("&add=" + o + (if c != "" then "&add=" + c else "")) == Join(Params(t, st, en, d, l, o, c))
  {
    var p0, p1, p2 := "action=TEMPLATE", "text=" + t, "dates=" + st + "/" + en;
    var p3, p4, p5 := "details=" + d, "location=" + l, "add=" + o;
    var six := [p0, p1, p2, p3, p4, p5];
    JoinSix(p0, p1, p2, p3, p4, p5);
    TemplateHead(t, st, en, d, l, o);
    if c != "" {
      JoinSnoc(six, "add=" + c);
      assert Params(t, st, en, d, l, o, c) == six + ["add=" + c];
    } else {
      assert Params(t, st, en, d, l, o, c) == six;
    }
  }

  lemma TemplateHead(t: string, st: string, en: string, d: string, l: string, o: string)
    ensures "action=TEMPLATE&text=" + t + "&dates=" + st + "/" + en + "&details=" + d + "&location=" + l
            + ("&add=" + o)
         == "action=TEMPLATE" + "&" + ("text=" + t) + "&" + ("dates=" + st + "/" + en) + "&" + ("details=" + d)
            + "&" + ("location=" + l) + "&" + ("add=" + o)
  {
    var a := "action=TEMPLATE&text=" + t;
    assert a == "action=TEMPLATE" + "&" + ("text=" + t);
    var b := a + "&dates=" + st + "/" + en;
    assert b == a + "&" + ("dates=" + st + "/" + en);
    var c := b + "&details=" + d;
    assert c == b + "&" + ("details=" + d);
    var e := c + "&location=" + l;
    assert e == c + "&" + ("location=" + l);
    assert e + ("&add=" + o) == e + "&" + ("add=" + o);
  }

  lemma EncodedEmpty(s: string)
    ensures EncodeURIComponent(s) == "" <==> s == ""
  {
  }

  lemma AddParamExpansion(organizer: string, email: string)
    ensures var client := if email != "" then EncodeURIComponent(email) else "";
            AddParam(organizer, email) == "&add=" + EncodeURIComponent(organizer) + (if client != "" then "&add=" + client else "")
  {
    EncodedEmpty(email);
  }

  /** The link is `None` exactly when the slot label has no time in it. */
  lemma LinkNoneIffNoTime(org: Organizer, details: BookingLedger.Details, date: Date, time: string, timezoneLabel: string,
                          longDate: string, hostOffset: int)
    requires Valid(date)
    ensures CalendarLink(org, details, date, time, timezoneLabel, longDate, hostOffset).None? <==> ParseTime(time).None?
  {
  }

  /** The query part is the `&`-join of the parameters. */
  lemma QueryIsJoin(title: string, startStamp: string, endStamp: string, description: string,
                    location: string, organizer: string, email: string)
    ensures LinkQuery(title, startStamp, endStamp, description, location, organizer, email)
            == Join(QueryParams(title, startStamp, endStamp, description, location, organizer, email))
  {
    AddParamExpansion(organizer, email);
    TemplateIsJoin(EncodeURIComponent(title), startStamp, endStamp, EncodeURIComponent(description),
                   EncodeURIComponent(location), EncodeURIComponent(organizer),
                   if email != "" then EncodeURIComponent(email) else "");
  }

  /** The receiver's reading of one parameter: the percent-decoded text
      after its `name=` key, `None` when the key is not there or the value
      does not decode. */
  function ParamValue(p: string, key: string): Option<string>
  {
    if key <= p then DecodeURIComponent(p[|key|..]) else None
  }

  /** A key followed by an encoded value reads back as that value. */
  lemma ParamReadsBack(key: string, value: string)
    ensures ParamValue(key + EncodeURIComponent(value), key) == Some(value)
  {
    var p := key + EncodeURIComponent(value);
    assert p[..|key|] == key;
    assert p[|key|..] == EncodeURIComponent(value);
    EncodeRoundTrip(value);
  }

  /** What the parameters hold: the receiver cuts the joined query back
      into exactly these parameters (no user text can add or split one);
      the organizer is always an attendee and the client is one exactly
      when an email was entered; the title, description, location and
      attendees read back as their text. */
  lemma QueryParamsFacts(title: string, startStamp: string, endStamp: string, description: string,
                         location: string, organizer: string, email: string)
    requires '&' !in startStamp && '&' !in endStamp
    ensures var ps := QueryParams(title, startStamp, endStamp, description, location, organizer, email);
            && SplitOnAmp(Join(ps)) == ps
            && |ps| >= 6 && (|ps| == 7 <==> email != "")
            && ps[0] == "action=TEMPLATE"
            && ps[2] == "dates=" + startStamp + "/" + endStamp
            && ParamValue(ps[1], "text=") == Some(title)
            && ParamValue(ps[3], "details=") == Some(description)
            && ParamValue(ps[4], "location=") == Some(location)
            && ParamValue(ps[5], "add=") == Some(organizer)
            && (email != "" ==> ParamValue(ps[6], "add=") == Some(email))
  {
    var client := if email != "" then EncodeURIComponent(email) else "";
    EncodedEmpty(email);
    NoAmpInEncodings(title, description, location, organizer, email);
    ParamsSplit(EncodeURIComponent(title), startStamp, endStamp, EncodeURIComponent(description),
                EncodeURIComponent(location), EncodeURIComponent(organizer), client);
    ParamsShape(EncodeURIComponent(title), startStamp, endStamp, EncodeURIComponent(description),
                EncodeURIComponent(location), EncodeURIComponent(organizer), client);
    ParamReadsBack("text=", title);
    ParamReadsBack("details=", description);
    ParamReadsBack("location=", location);
    ParamReadsBack("add=", organizer);
    ParamReadsBack("add=", email);
  }

  lemma NoAmpInEncodings(title: string, description: string, location: string, organizer: string, email: string)
    ensures '&' !in EncodeURIComponent(title) && '&' !in EncodeURIComponent(description)
    ensures '&' !in EncodeURIComponent(location) && '&' !in EncodeURIComponent(organizer)
    ensures '&' !in EncodeURIComponent(email)
  {
    EncodedHasNoDelimiters(title);
    EncodedHasNoDelimiters(description);
    EncodedHasNoDelimiters(location);
    EncodedHasNoDelimiters(organizer);
    EncodedHasNoDelimiters(email);
  }

  /** A link, when there is one, is the base URL followed by the `&`-join
      of the parameters built from the client's details, the two stamps of
      the meeting window, the event description, the meeting location and
      the organizer's address; the receiver cuts it back into exactly those
      parameters. */
  lemma LinkContents(org: Organizer, details: BookingLedger.Details, date: Date, time: string, timezoneLabel: string,
                     longDate: string, hostOffset: int)
    requires Valid(date) && ParseTime(time).Some?
    ensures var t := ParseTime(time).value;
            var start := StartInstant(date, To24(t), t.minutes, hostOffset);
            var description := EventDetails(org, details, longDate, time, timezoneLabel);
            var ps := QueryParams(EventTitle(details), Stamp(start), Stamp(start + 30), description,
                                  org.meetingLocation, org.email, details.email);
            && CalendarLink(org, details, date, time, timezoneLabel, longDate, hostOffset) == Some(BaseUrl + Join(ps))
            && SplitOnAmp(Join(ps)) == ps
  {
    var t := ParseTime(time).value;
    var start := StartInstant(date, To24(t), t.minutes, hostOffset);
    var description := EventDetails(org, details, longDate, time, timezoneLabel);
    LinkUnfolds(org, details, date, time, timezoneLabel, longDate, hostOffset, t);
    LinkAtUnfolds(org, details, date, t, time, timezoneLabel, longDate, hostOffset, start);
    QueryIsJoin(EventTitle(details), Stamp(start), Stamp(start + 30), description,
                org.meetingLocation, org.email, details.email);
    StampHasNoDelimiters(start);
    StampHasNoDelimiters(start + 30);
    QueryParamsFacts(EventTitle(details), Stamp(start), Stamp(start + 30), description,
                     org.meetingLocation, org.email, details.email);
  }

  lemma LinkUnfolds(org: Organizer, details: BookingLedger.Details, date: Date, time: string, timezoneLabel: string,
                    longDate: string, hostOffset: int, t: ClockTime)
    requires Valid(date) && ParseTime(time) == Some(t)
    ensures CalendarLink(org, details, date, time, timezoneLabel, longDate, hostOffset)
            == Some(LinkAt(org, details, date, t, time, timezoneLabel, longDate, hostOffset))
  {
  }

  lemma LinkAtUnfolds(org: Organizer, details: BookingLedger.Details, date: Date, t: ClockTime, time: string, timezoneLabel: string,
                      longDate: string, hostOffset: int, start: int)
    requires Valid(date)
    requires start == StartInstant(date, To24(t), t.minutes, hostOffset)
    ensures LinkAt(org, details, date, t, time, timezoneLabel, longDate, hostOffset)
            == BaseUrl + LinkQuery(EventTitle(details), Stamp(start), Stamp(start + 30),
                                   EventDetails(org, details, longDate, time, timezoneLabel),
                                   org.meetingLocation, org.email, details.email)
  {
  }

  /** The fields of the parameter list, position by position. */
  lemma ParamsShape(title: string, startStamp: string, endStamp: string, description: string,
                    location: string, organizer: string, client: string)
    ensures var ps := Params(title, startStamp, endStamp, description, location, organizer, client);
            && (|ps| == 7 <==> client != "") && |ps| >= 6
            && ps[0] == "action=TEMPLATE" && ps[1] == "text=" + title
            && ps[2] == "dates=" + startStamp + "/" + endStamp
            && ps[3] == "details=" + description && ps[4] == "location=" + location
            && ps[5] == "add=" + organizer
            && (client != "" ==> ps[6] == "add=" + client)
  {
  }

  /** The parameter list survives the round trip through the query string
      when every value is free of `&`. */
  lemma ParamsSplit(title: string, startStamp: string, endStamp: string, description: string,
                    location: string, organizer: string, client: string)
    requires '&' !in title && '&' !in startStamp && '&' !in endStamp && '&' !in description
    requires '&' !in location && '&' !in organizer && '&' !in client
    ensures var ps := Params(title, startStamp, endStamp, description, location, organizer, client);
            SplitOnAmp(Join(ps)) == ps
  {
    ParamsHaveNoAmp(title, startStamp, endStamp, description, location, organizer, client);
    SplitJoin(Params(title, startStamp, endStamp, description, location, organizer, client));
  }

  /** The end stamp reads back as exactly 30 minutes after the start stamp
      (for four-digit years at both ends). */
  lemma WindowIsThirtyMinutes(start: int)
    requires 1000 <= UtcYear(start) <= 9999 && 1000 <= UtcYear(start + 30) <= 9999
    ensures ParseStamp(Stamp(start)).Some? && ParseStamp(Stamp(start + 30)).Some?
    ensures ParseStamp(Stamp(start + 30)).value == ParseStamp(Stamp(start)).value + 30
  {
    StampRoundTrip(start);
    StampRoundTrip(start + 30);
  }
}
