/** The slot catalog of the appointment scheduler: the fixed list of
    half-hour labels of the working day, from 9 AM to 5 PM, written on the
    12-hour clock (src/components/AppointmentScheduler.jsx, generateTimeSlots). */
module SlotCatalog {
  import opened Text

  const StartHour: nat := 9
  const EndHour: nat := 17

  /** The 12-hour-clock number the source prints: `hour === 12 ? 12 : hour % 12`. */
  function ClockHour(hour: nat): nat
  {
    if hour == 12 then 12 else hour % 12
  }

  /** `hour >= 12 ? 'PM' : 'AM'`. */
  function Meridiem(hour: nat): string
  {
    if hour >= 12 then "PM" else "AM"
  }

  /** The label `${ClockHour(hour)}:${minutes} ${Meridiem(hour)}`. */
  function SlotLabel(hour: nat, minutes: string): string
  {
    NatToString(ClockHour(hour)) + ":" + minutes + " " + Meridiem(hour)
  }

  /** The i-th slot of a catalog whose labels `write` produces: it starts
      30 * i minutes after 9:00. */
  function SlotOf(write: (nat, string) -> string, i: nat): string
  {
    write(StartHour + i / 2, if i % 2 == 0 then "00" else "30")
  }

  /** The catalog as a reference definition. */
  function SlotAt(i: nat): string
  {
    SlotOf(SlotLabel, i)
  }

  function TimeSlots(): (slots: seq<string>)
  {
    seq(17, i requires 0 <= i < 17 => SlotAt(i))
  }

  /** The loop of the source, for any way `write` of writing an hour and
      its minutes: for each hour from 9 to 17, the on-the-hour label and,
      except at 17, the half-hour label. */
  method CollectSlots(write: (nat, string) -> string) returns (slots: seq<string>)
    ensures |slots| == 17 && forall i :: 0 <= i < 17 ==> slots[i] == SlotOf(write, i)
  {
    slots := [];
    var hour: nat := StartHour;
    while hour <= EndHour
      invariant StartHour <= hour <= EndHour + 1
      invariant |slots| == if hour <= EndHour then 2 * (hour - StartHour) else 17
      invariant forall i :: 0 <= i < |slots| ==> slots[i] == SlotOf(write, i)
    {
      slots := slots + [write(hour, "00")];
      if hour < EndHour {
        slots := slots + [write(hour, "30")];
      }
      hour := hour + 1;
    }
  }

  /** `generateTimeSlots`: the loop writing the labels of the source. */
  method GenerateTimeSlots() returns (slots: seq<string>)
    ensures slots == TimeSlots()
  {
    slots := CollectSlots(SlotLabel);
  }

  /** The whole catalog, written out: 17 labels from "9:00 AM" to "5:00 PM",
      on-the-hour and half-hour labels alternating, hour 12 printed as
      "12 PM" and no half-hour slot after 5 PM. */
  lemma TimeSlotsListed()
    ensures TimeSlots() == [
      "9:00 AM", "9:30 AM", "10:00 AM", "10:30 AM", "11:00 AM", "11:30 AM",
      "12:00 PM", "12:30 PM", "1:00 PM", "1:30 PM", "2:00 PM", "2:30 PM",
      "3:00 PM", "3:30 PM", "4:00 PM", "4:30 PM", "5:00 PM"]
  {
    SlotsAt9();
    SlotsAt10();
    SlotsAt11();
    SlotsAt12();
    SlotsAt13();
    SlotsAt14();
    SlotsAt15();
    SlotsAt16();
    SlotsAt17();
  }

  lemma SlotsAt9()
    ensures SlotAt(0) == "9:00 AM" && SlotAt(1) == "9:30 AM"
  {
    assert NatToString(9) == [DigitChar(9)];
  }

  lemma SlotsAt10()
    ensures SlotAt(2) == "10:00 AM" && SlotAt(3) == "10:30 AM"
  {
    assert NatToString(1) == [DigitChar(1)];
    assert NatToString(10) == NatToString(1) + [DigitChar(0)];
  }

  lemma SlotsAt11()
    ensures SlotAt(4) == "11:00 AM" && SlotAt(5) == "11:30 AM"
  {
    assert NatToString(1) == [DigitChar(1)];
    assert NatToString(11) == NatToString(1) + [DigitChar(1)];
  }

  lemma SlotsAt12()
    ensures SlotAt(6) == "12:00 PM" && SlotAt(7) == "12:30 PM"
  {
    assert NatToString(1) == [DigitChar(1)];
    assert NatToString(12) == NatToString(1) + [DigitChar(2)];
  }

  lemma SlotsAt13()
    ensures SlotAt(8) == "1:00 PM" && SlotAt(9) == "1:30 PM"
  {
    assert NatToString(1) == [DigitChar(1)];
  }

  lemma SlotsAt14()
    ensures SlotAt(10) == "2:00 PM" && SlotAt(11) == "2:30 PM"
  {
    assert NatToString(2) == [DigitChar(2)];
  }

  lemma SlotsAt15()
    ensures SlotAt(12) == "3:00 PM" && SlotAt(13) == "3:30 PM"
  {
    assert NatToString(3) == [DigitChar(3)];
  }

  lemma SlotsAt16()
    ensures SlotAt(14) == "4:00 PM" && SlotAt(15) == "4:30 PM"
  {
    assert NatToString(4) == [DigitChar(4)];
  }

  lemma SlotsAt17()
    ensures SlotAt(16) == "5:00 PM"
  {
    assert NatToString(5) == [DigitChar(5)];
  }
}
