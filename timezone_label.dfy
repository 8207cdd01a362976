/** The time-zone label of the appointment scheduler
    (src/components/AppointmentScheduler.jsx, timezoneLabel): the
    difference between Toronto and UTC wall-clock time, rounded to minutes
    and written "GMT+HH:MM America/Toronto". Finding that difference needs
    the host's locale data, so it comes in as a parameter. */
module TimezoneLabel {
  import opened Wrappers
  import opened Text

  const Location: string := "America/Toronto"

  /** What the label falls back to when the locale APIs throw. */
  const FallbackLabel: string := "GMT-05:00 America/Toronto"

  /** `Math.round(offsetMs / (1000 * 60))`: the nearest whole minute, halves
      rounded up. */
  function RoundToMinutes(offsetMs: int): (m: int)
    ensures m * 60000 - 30000 <= offsetMs < m * 60000 + 30000
  {
    (offsetMs + 30000) / 60000
  }

  function Abs(x: int): nat
  {
    if x < 0 then -x else x
  }

  /** "GMT", the sign, `Math.floor(|m| / 60)` and `|m| % 60` padded to two
      digits, then the location. */
  function OffsetLabel(offsetMinutes: int): string
  {
    var a := Abs(offsetMinutes);
    "GMT" + (if offsetMinutes >= 0 then "+" else "-") + Pad2(a / 60) + ":" + Pad2(a % 60)
      + (" " + Location)
  }

  /** The label: the fallback when the offset cannot be found (`None`),
      otherwise the rounded offset formatted. */
  function ZoneLabel(offsetMs: Option<int>): string
  {
    match offsetMs
    case None => FallbackLabel
    case Some(ms) => OffsetLabel(RoundToMinutes(ms))
  }

  /** Reads a label "GMT±HH:MM America/Toronto" back into its offset in
      minutes; anything of another shape is `None`. */
  function ParseOffsetLabel(s: string): Option<int>
  {
    if |s| != 25 || s[..3] != "GMT" || (s[3] != '+' && s[3] != '-') || !AllDigits(s[4..6])
       || s[6] != ':' || !AllDigits(s[7..9]) || s[9..] != " " + Location then None
    else
      var magnitude := DigitsValue(s[4..6]) * 60 + DigitsValue(s[7..9]);
      Some(if s[3] == '-' then -magnitude else magnitude)
  }

  /** The label has the fixed shape "GMT±HH:MM America/Toronto" for every
      offset under 100 hours, minutes field below 60, and the two fields
      hold the offset's hours and minutes. */
  lemma OffsetLabelShape(offsetMinutes: int)
    requires Abs(offsetMinutes) < 6000
    ensures var s := OffsetLabel(offsetMinutes);
            |s| == 25 && s[..3] == "GMT" && (s[3] == '-' <==> offsetMinutes < 0) && (s[3] == '+' || s[3] == '-')
            && AllDigits(s[4..6]) && s[6] == ':' && AllDigits(s[7..9])
            && DigitsValue(s[4..6]) * 60 + DigitsValue(s[7..9]) == Abs(offsetMinutes)
            && DigitsValue(s[7..9]) < 60 && s[9..] == " " + Location
  {
    var a := Abs(offsetMinutes);
    var hh, mm := Pad2(a / 60), Pad2(a % 60);
    var sign := if offsetMinutes >= 0 then '+' else '-';
    var tail := " " + Location;
    var s := OffsetLabel(offsetMinutes);
    assert s == "GMT" + [sign] + hh + ":" + mm + tail;
    LabelOfFields(sign, hh, mm, tail, s);
  }

  /** Where the fields of a label with two-digit hours and minutes sit. */
  lemma LabelOfFields(sign: char, hh: string, mm: string, tail: string, s: string)
    requires |hh| == 2 && |mm| == 2
    requires s == "GMT" + [sign] + hh + ":" + mm + tail
    ensures |s| == 9 + |tail| && s[..3] == "GMT" && s[3] == sign && s[4..6] == hh
            && s[6] == ':' && s[7..9] == mm && s[9..] == tail
  {
  }

  /** Every offset under 100 hours reads back from its label, so different
      offsets have different labels. */
  lemma OffsetLabelRoundTrip(offsetMinutes: int)
    requires Abs(offsetMinutes) < 6000
    ensures ParseOffsetLabel(OffsetLabel(offsetMinutes)) == Some(offsetMinutes)
  {
    OffsetLabelShape(offsetMinutes);
  }

  /** The fallback is the label of UTC-5 hours. */
  lemma FallbackIsEasternStandard()
    ensures ZoneLabel(None) == OffsetLabel(-300)
  {
    PadFiveAndZero();
    FallbackFields(Pad2(5), Pad2(0));
  }

  lemma PadFiveAndZero()
    ensures Pad2(5) == "05" && Pad2(0) == "00"
  {
    assert NatToString(5) == "5";
    assert NatToString(0) == "0";
  }

  lemma FallbackFields(hh: string, mm: string)
    requires hh == "05" && mm == "00"
    ensures "GMT" + "-" + hh + ":" + mm + (" " + Location) == FallbackLabel
  {
  }
}
