/** Reading a slot label back into a time of day, as the calendar-link
    builder of the appointment scheduler does: the first match of the
    unanchored, case-insensitive pattern `(\d+):(\d+)\s*(AM|PM)`, then the
    12-hour to 24-hour conversion. */
module TimeParse {
  import opened Wrappers
  import opened Text
  import SlotCatalog

  /** The groups of one match: hours, minutes, and whether the period is PM. */
  datatype ClockTime = ClockTime(hours: nat, minutes: nat, pm: bool)

  /** `AM` or `PM` in any letter case at position `p`. */
  predicate PeriodAt(s: string, p: nat)
  {
    p + 2 <= |s| && (FoldEq(s[p], 'A') || FoldEq(s[p], 'P')) && FoldEq(s[p + 1], 'M')
  }

  /** The match starting exactly at `i`. The quantifiers are greedy, and
      giving back a digit or a blank never helps (the next character would
      be a digit or a blank, never `:`, `A` or `P`), so the match at `i`, if
      any, is the one with maximal runs. */
  function MatchAt(s: string, i: nat): Option<ClockTime>
    requires i <= |s|
  {
    MatchFront(s[i..])
  }

  /** The match at the very front of `t`. */
  function MatchFront(t: string): Option<ClockTime>
  {
    var h := LeadingDigits(t);
    if h == 0 || h == |t| || t[h] != ':' then None
    else
      var rest := t[h + 1..];
      var m := LeadingDigits(rest);
      if m == 0 then None
      else
        var p := m + LeadingSpaces(rest[m..]);
        if !PeriodAt(rest, p) then None
        else Some(ClockTime(DigitsValue(t[..h]), DigitsValue(rest[..m]), FoldEq(rest[p], 'P')))
  }

  /** `s.match(/(\d+):(\d+)\s*(AM|PM)/i)` searching from position `i`: the
      leftmost match, or `None` (the `null` of the source). */
  function FindTime(s: string, i: nat): Option<ClockTime>
    requires i <= |s|
    decreases |s| - i
  {
    match MatchAt(s, i)
    case Some(t) => Some(t)
    case None => if i == |s| then None else FindTime(s, i + 1)
  }

  /** The search finds a match exactly when there is one at or after `i`,
      and what it finds is the leftmost one. */
  lemma FindTimeLeftmost(s: string, i: nat)
    requires i <= |s|
    ensures FindTime(s, i).Some? <==> exists k :: i <= k <= |s| && MatchAt(s, k).Some?
    ensures FindTime(s, i).Some? ==> exists k :: i <= k <= |s| && MatchAt(s, k) == FindTime(s, i)
                                         && forall k' :: i <= k' < k ==> MatchAt(s, k').None?
  {
    if FindTime(s, i).Some? {
      FindTimeFound(s, i);
    } else {
      FindTimeMissed(s, i);
    }
  }

  lemma {:induction false} FindTimeFound(s: string, i: nat)
    requires i <= |s| && FindTime(s, i).Some?
    ensures exists k :: i <= k <= |s| && MatchAt(s, k) == FindTime(s, i)
                        && forall k' :: i <= k' < k ==> MatchAt(s, k').None?
    decreases |s| - i
  {
    if MatchAt(s, i).Some? {
      assert MatchAt(s, i) == FindTime(s, i);
    } else {
      FindTimeFound(s, i + 1);
      var k :| i + 1 <= k <= |s| && MatchAt(s, k) == FindTime(s, i + 1)
               && forall k' :: i + 1 <= k' < k ==> MatchAt(s, k').None?;
      assert MatchAt(s, k) == FindTime(s, i);
    }
  }

  lemma {:induction false} FindTimeMissed(s: string, i: nat)
    requires i <= |s| && FindTime(s, i).None?
    ensures forall k :: i <= k <= |s| ==> MatchAt(s, k).None?
    decreases |s| - i
  {
    if i < |s| {
      FindTimeMissed(s, i + 1);
    }
  }

  function ParseTime(s: string): Option<ClockTime>
  {
    FindTime(s, 0)
  }

  /** The 12-hour to 24-hour rule: PM adds 12 except at 12, and 12 AM is 0. */
  function To24(t: ClockTime): (h: nat)
    ensures t.hours <= 12 ==> h <= 23
    ensures t.pm && t.hours < 12 ==> h == t.hours + 12
    ensures !t.pm && t.hours < 12 ==> h == t.hours
    ensures t.hours == 12 ==> h == if t.pm then 12 else 0
  {
    if t.pm && t.hours != 12 then t.hours + 12
    else if !t.pm && t.hours == 12 then 0
    else t.hours
  }

  /** Reading back a 24-hour hour from its 12-hour rendering gives the hour
      again, for every hour of the day. */
  lemma To24OfClockHour(hour: nat)
    requires hour < 24
    ensures To24(ClockTime(SlotCatalog.ClockHour(hour), 0, SlotCatalog.Meridiem(hour) == "PM")) == hour
  {
  }

  /** What the matcher reads once the runs are located. */
  lemma MatchFrontOfFields(t: string, h: nat, m: nat, w: nat)
    requires h == LeadingDigits(t) && 0 < h < |t| && t[h] == ':'
    requires m == LeadingDigits(t[h + 1..]) && 0 < m
    requires w == LeadingSpaces(t[h + 1..][m..]) && PeriodAt(t[h + 1..], m + w)
    ensures MatchFront(t) == Some(ClockTime(DigitsValue(t[..h]), DigitsValue(t[h + 1..][..m]),
                                            FoldEq(t[h + 1..][m + w], 'P')))
  {
  }

  /** The groups read off "<hh>:<mm><blanks><AM|PM>". */
  lemma MatchFrontOfLabel(t: string, hh: string, mm: string, gap: string, period: string)
    requires 1 <= |hh| && AllDigits(hh) && 1 <= |mm| && AllDigits(mm)
    requires forall k :: 0 <= k < |gap| ==> IsJsSpace(gap[k])
    requires period == "AM" || period == "PM"
    requires t == hh + (":" + (mm + (gap + period)))
    ensures MatchFront(t) == Some(ClockTime(DigitsValue(hh), DigitsValue(mm), period == "PM"))
  {
    var rest := mm + (gap + period);
    HoursField(t, hh, rest);
    MinutesField(rest, mm, gap, period);
    MatchFrontOfFields(t, |hh|, |mm|, |gap|);
  }

  lemma HoursField(t: string, hh: string, rest: string)
    requires 1 <= |hh| && AllDigits(hh) && t == hh + (":" + rest)
    ensures LeadingDigits(t) == |hh| && |hh| < |t| && t[|hh|] == ':'
    ensures t[..|hh|] == hh && t[|hh| + 1..] == rest
  {
    assert (":" + rest)[0] == ':';
    LeadingDigitsOfConcat(hh, ":" + rest);
  }

  lemma MinutesField(rest: string, mm: string, gap: string, period: string)
    requires 1 <= |mm| && AllDigits(mm)
    requires forall k :: 0 <= k < |gap| ==> IsJsSpace(gap[k])
    requires period == "AM" || period == "PM"
    requires rest == mm + (gap + period)
    ensures LeadingDigits(rest) == |mm| && rest[..|mm|] == mm
    ensures LeadingSpaces(rest[|mm|..]) == |gap|
    ensures PeriodAt(rest, |mm| + |gap|) && (FoldEq(rest[|mm| + |gap|], 'P') <==> period == "PM")
  {
    assert !IsDigit((gap + period)[0]);
    LeadingDigitsOfConcat(mm, gap + period);
    assert rest[|mm|..] == gap + period;
    SpacesOfConcat(gap, period);
    var p := |mm| + |gap|;
    assert rest[p] == period[0] && rest[p + 1] == period[1];
  }

  lemma {:induction false} SpacesOfConcat(gap: string, rest: string)
    requires forall k :: 0 <= k < |gap| ==> IsJsSpace(gap[k])
    requires rest == [] || !IsJsSpace(rest[0])
    ensures LeadingSpaces(gap + rest) == |gap|
    decreases |gap|
  {
    if gap != [] {
      assert (gap + rest)[1..] == gap[1..] + rest;
      SpacesOfConcat(gap[1..], rest);
    }
  }

  /** Every slot label of the catalog reads back as its own clock time. */
  lemma SlotLabelParses(hour: nat, minutes: string)
    requires |minutes| == 2 && AllDigits(minutes)
    ensures ParseTime(SlotCatalog.SlotLabel(hour, minutes))
            == Some(ClockTime(SlotCatalog.ClockHour(hour), DigitsValue(minutes), hour >= 12))
  {
    LabelParses(hour, minutes, SlotCatalog.SlotLabel(hour, minutes));
  }

  lemma LabelParses(hour: nat, minutes: string, s: string)
    requires |minutes| == 2 && AllDigits(minutes)
    requires s == SlotCatalog.SlotLabel(hour, minutes)
    ensures ParseTime(s) == Some(ClockTime(SlotCatalog.ClockHour(hour), DigitsValue(minutes), hour >= 12))
  {
    var hh := NatToString(SlotCatalog.ClockHour(hour));
    var period := SlotCatalog.Meridiem(hour);
    assert s == hh + (":" + (minutes + (" " + period)));
    assert s[0..] == s;
    MatchFrontOfLabel(s, hh, minutes, " ", period);
  }

  lemma HalfHourTexts()
    ensures DigitsValue("00") == 0 && DigitsValue("30") == 30
  {
    assert "00"[..1] == "0" && "30"[..1] == "3";
    assert DigitsValue("0") == 0 && DigitsValue("3") == 3;
  }

  /** The i-th catalog slot starts 30 * i minutes after 9:00: the parsed
      label, converted to 24 hours, gives minute 540 + 30 * i of the day. */
  lemma SlotStartMinute(i: nat)
    requires i < 17
    ensures var t := ParseTime(SlotCatalog.SlotAt(i));
            t.Some? && To24(t.value) * 60 + t.value.minutes == 540 + 30 * i
  {
    var hour := SlotCatalog.StartHour + i / 2;
    var minutes := if i % 2 == 0 then "00" else "30";
    HalfHourTexts();
    LabelParses(hour, minutes, SlotCatalog.SlotAt(i));
    To24OfClockHour(hour);
  }

  /** A label without a colon (the empty string among them) has no time:
      the link builder then returns `null`. */
  lemma NoColonNoTime(s: string)
    requires ':' !in s
    ensures ParseTime(s) == None
  {
    FindTimeLeftmost(s, 0);
    forall k | 0 <= k <= |s|
      ensures MatchAt(s, k).None?
    {
      var t := s[k..];
      var h := LeadingDigits(t);
      if 0 < h < |t| {
        assert t[h] == s[k + h];
      }
    }
  }
}
