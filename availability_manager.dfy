/** The weekly-availability editor of
    app/components/Profile/AvailabilityManager.tsx. The component holds
    exactly seven entries, the one at position i for day i (0 = Sunday), and
    every edit replaces the whole list and posts all seven entries to the
    server. */
module ProfileAvailability {
  import opened Wrappers
  import opened Seqs
  import opened Clock

  datatype Availability = Availability(id: string, dayOfWeek: int, startTime: string, endTime: string)

  const DaysInWeek: int := 7
  const DefaultStartTime: string := "09:00"
  const DefaultEndTime: string := "17:00"

  /** Seven entries, position i holding day i. */
  predicate IsWeek(xs: seq<Availability>) {
    |xs| == DaysInWeek && forall i :: 0 <= i < |xs| ==> xs[i].dayOfWeek == i
  }

  /** The id `temp-<day>` of an entry not yet stored. */
  function TempId(day: int): string
    requires 0 <= day < 10
  {
    "temp-" + [DigitChar(day)]
  }

  function DefaultEntry(day: int): Availability
    requires 0 <= day < 10
  {
    Availability(TempId(day), day, DefaultStartTime, DefaultEndTime)
  }

  /** `xs.find(a => a.dayOfWeek === day)`. */
  function FindDay(xs: seq<Availability>, day: int): Option<Availability> {
    FindFirst((a: Availability) => a.dayOfWeek == day, xs)
  }

  /** The initial state: for each day the first supplied record for that
      day, or a 09:00-17:00 placeholder. */
  function InitialAvailabilities(initial: seq<Availability>): (r: seq<Availability>)
    ensures IsWeek(r)
    ensures forall i :: 0 <= i < DaysInWeek && (exists j :: 0 <= j < |initial| && initial[j].dayOfWeek == i) ==>
      exists j :: 0 <= j < |initial| && r[i] == initial[j] && forall k :: 0 <= k < j ==> initial[k].dayOfWeek != i
    ensures forall i :: 0 <= i < DaysInWeek && (forall j :: 0 <= j < |initial| ==> initial[j].dayOfWeek != i) ==>
      r[i] == DefaultEntry(i)
  {
    seq(DaysInWeek, i requires 0 <= i < DaysInWeek => FindDay(initial, i).GetOr(DefaultEntry(i)))
  }

  /** An empty time input falls back to the given default. */
  function InputOr(input: string, default: string): string {
    if input != "" then input else default
  }

  /** The list `handleSave(day)` builds from the two inputs. */
  function SaveDay(xs: seq<Availability>, day: int, startInput: string, endInput: string): seq<Availability> {
    var startTime := InputOr(startInput, DefaultStartTime);
    var endTime := InputOr(endInput, DefaultEndTime);
    MapWhere((a: Availability) => a.dayOfWeek == day,
             (a: Availability) => a.(startTime := startTime, endTime := endTime), xs)
  }

  /** The list `copyAllAvailability(fromDay)` builds. */
  function CopyAll(xs: seq<Availability>, fromDay: int): seq<Availability>
    requires 0 <= fromDay < |xs|
  {
    var from := xs[fromDay];
    MapWhere((a: Availability) => a.dayOfWeek != fromDay,
             (a: Availability) => a.(startTime := from.startTime, endTime := from.endTime), xs)
  }

  /** The list built from a server response: the server's entry for a day if
      it has one, else the current entry. */
  function MergeServer(server: seq<Availability>, current: seq<Availability>): seq<Availability>
    requires |current| == DaysInWeek
  {
    seq(DaysInWeek, i requires 0 <= i < DaysInWeek => FindDay(server, i).GetOr(current[i]))
  }

  /** Saving day `day` changes start and end of that day's entry only; ids
      and days stay where they were. */
  lemma SaveDayChangesOnlyThatDay(xs: seq<Availability>, day: int, startInput: string, endInput: string)
    requires IsWeek(xs)
    ensures var r := SaveDay(xs, day, startInput, endInput);
      && IsWeek(r)
      && (forall i :: 0 <= i < DaysInWeek ==> r[i].id == xs[i].id)
      && (forall i :: 0 <= i < DaysInWeek && i != day ==> r[i] == xs[i])
      && (0 <= day < DaysInWeek ==>
            && r[day].startTime == (if startInput == "" then "09:00" else startInput)
            && r[day].endTime == (if endInput == "" then "17:00" else endInput))
  {
  }

  /** After "copy to all" every entry has the source day's window, the
      source entry itself is untouched, and ids and days stay put. */
  lemma CopyAllCopiesWindow(xs: seq<Availability>, fromDay: int)
    requires IsWeek(xs) && 0 <= fromDay < DaysInWeek
    ensures var r := CopyAll(xs, fromDay);
      && IsWeek(r)
      && r[fromDay] == xs[fromDay]
      && (forall i :: 0 <= i < DaysInWeek ==>
            && r[i].id == xs[i].id
            && r[i].startTime == xs[fromDay].startTime
            && r[i].endTime == xs[fromDay].endTime)
  {
  }

  lemma CopyAllIdempotent(xs: seq<Availability>, fromDay: int)
    requires 0 <= fromDay < |xs|
    ensures CopyAll(CopyAll(xs, fromDay), fromDay) == CopyAll(xs, fromDay)
  {
    var once := CopyAll(xs, fromDay);
    assert once[fromDay].startTime == xs[fromDay].startTime;
    assert once[fromDay].endTime == xs[fromDay].endTime;
  }

  /** The merge keeps the week's shape and takes the server's first entry
      for a day whenever the server sent one. */
  lemma MergeServerKeepsWeek(server: seq<Availability>, current: seq<Availability>)
    requires IsWeek(current)
    ensures var r := MergeServer(server, current);
      && IsWeek(r)
      && (forall i :: 0 <= i < DaysInWeek && (exists j :: 0 <= j < |server| && server[j].dayOfWeek == i) ==>
            exists j :: 0 <= j < |server| && r[i] == server[j] && forall k :: 0 <= k < j ==> server[k].dayOfWeek != i)
      && (forall i :: 0 <= i < DaysInWeek && (forall j :: 0 <= j < |server| ==> server[j].dayOfWeek != i) ==>
            r[i] == current[i])
  {
    var r := MergeServer(server, current);
    forall i | 0 <= i < DaysInWeek && (exists j :: 0 <= j < |server| && server[j].dayOfWeek == i)
      ensures exists j :: 0 <= j < |server| && r[i] == server[j] && forall k :: 0 <= k < j ==> server[k].dayOfWeek != i
    {
      assert FindDay(server, i).Some? && r[i] == FindDay(server, i).value;
    }
  }

  // ---- formatTime: 'HH:mm' to 'h:mm a' ----

  /** The hour of the 12-hour clock (12, 1, ..., 11) without leading zero. */
  function HourText(h12: int): (s: string)
    requires 1 <= h12 <= 12
    ensures 1 <= |s| <= 2 && forall k :: 0 <= k < |s| ==> IsDigit(s[k])
  {
    if h12 < 10 then [DigitChar(h12)] else TwoDigits(h12)
  }

  function TwelveHour(minutes: int): (s: string)
    requires 0 <= minutes < MinutesPerDay
  {
    var h := minutes / 60;
    var h12 := if h % 12 == 0 then 12 else h % 12;
    HourText(h12) + ":" + TwoDigits(minutes % 60) + " " + (if h < 12 then "AM" else "PM")
  }

  /** A field of one or two decimal digits, the way date-fns reads a
      two-letter numeric token such as 'HH' or 'mm'. */
  predicate ShortNumber(s: string) {
    1 <= |s| <= 2 && forall k :: 0 <= k < |s| ==> IsDigit(s[k])
  }

  function ShortNumberValue(s: string): (v: int)
    requires ShortNumber(s)
    ensures 0 <= v < 100
  {
    if |s| == 1 then DigitValue(s[0]) else 10 * DigitValue(s[0]) + DigitValue(s[1])
  }

  /** date-fns `parse(time, 'HH:mm', ...)`: one or two hour digits, taken
      greedily, then ':', then one or two minute digits and nothing more,
      with the hour below 24 and the minute below 60. */
  function ParseClockTime(s: string): (r: Option<int>)
    ensures r.Some? ==> 0 <= r.value < MinutesPerDay
  {
    var c := if |s| > 1 && s[1] == ':' then 1 else 2;
    if c < |s| && s[c] == ':' && ShortNumber(s[..c]) && ShortNumber(s[c + 1..]) then
      var h := ShortNumberValue(s[..c]);
      var m := ShortNumberValue(s[c + 1..]);
      if h < 24 && m < 60 then Some(60 * h + m) else None
    else None
  }

  /** A strict 'HH:mm' text is read the same way by the lenient parser. */
  lemma StrictTimeReadAlike(s: string)
    requires ParseHHmm(s).Some?
    ensures ParseClockTime(s) == ParseHHmm(s)
  {
    assert s[..2] == [s[0], s[1]];
    assert s[3..] == [s[3], s[4]];
  }

  /** A one-digit hour is read as that hour. */
  lemma OneDigitHourRead(h: int, m: int)
    requires 0 <= h < 10 && 0 <= m < 60
    ensures ParseClockTime([DigitChar(h)] + ":" + TwoDigits(m)) == Some(60 * h + m)
  {
    var s := [DigitChar(h)] + ":" + TwoDigits(m);
    assert s[1] == ':';
    assert s[..1] == [DigitChar(h)];
    assert s[2..] == TwoDigits(m);
  }

  /** `formatTime`; `None` where date-fns throws on an invalid time. */
  function FormatTime(time: string): Option<string> {
    match ParseClockTime(time)
    case None => None
    case Some(m) => Some(TwelveHour(m))
  }

  /** Reads 'h:mm a' (one or two hour digits) back to minutes since midnight. */
  function ParseTwelveHour(s: string): (r: Option<int>)
    ensures r.Some? ==> 0 <= r.value < MinutesPerDay
  {
    var n := |s|;
    if n != 7 && n != 8 then None
    else
      var hourDigits := s[..n - 6];
      if !(forall k :: 0 <= k < |hourDigits| ==> IsDigit(hourDigits[k])) then None
      else if s[n - 6] != ':' || !IsDigit(s[n - 5]) || !IsDigit(s[n - 4]) || s[n - 3] != ' ' then None
      else if s[n - 2..] != "AM" && s[n - 2..] != "PM" then None
      else
        var h12 := if n == 7 then DigitValue(hourDigits[0])
                   else 10 * DigitValue(hourDigits[0]) + DigitValue(hourDigits[1]);
        var m := 10 * DigitValue(s[n - 5]) + DigitValue(s[n - 4]);
        if h12 < 1 || h12 > 12 || m >= 60 then None
        else
          var h := (h12 % 12) + (if s[n - 2..] == "PM" then 12 else 0);
          Some(60 * h + m)
  }

  lemma {:induction false} TwelveHourRoundTrip(minutes: int)
    requires 0 <= minutes < MinutesPerDay
    ensures ParseTwelveHour(TwelveHour(minutes)) == Some(minutes)
  {
    var h := minutes / 60;
    var h12 := if h % 12 == 0 then 12 else h % 12;
    var suffix := if h < 12 then "AM" else "PM";
    assert 0 <= h < 24 && 60 * h + minutes % 60 == minutes;
    assert (h12 % 12) + (if suffix == "PM" then 12 else 0) == h by {
      if h < 12 {
        assert h12 % 12 == h;
      } else {
        assert h12 % 12 == h - 12;
      }
    }
    ReadTwelveHour(h12, minutes % 60, suffix);
  }

  /** Reading back the pieces `TwelveHour` writes. */
  lemma ReadTwelveHour(h12: int, m: int, suffix: string)
    requires 1 <= h12 <= 12 && 0 <= m < 60 && (suffix == "AM" || suffix == "PM")
    ensures ParseTwelveHour(HourText(h12) + ":" + TwoDigits(m) + " " + suffix)
         == Some(60 * ((h12 % 12) + (if suffix == "PM" then 12 else 0)) + m)
  {
    var hour := HourText(h12);
    var mm := TwoDigits(m);
    var s := hour + ":" + mm + " " + suffix;
    var n := |s|;
    assert n == |hour| + 6;
    assert s[..n - 6] == hour;
    assert s[n - 6] == ':' && s[n - 3] == ' ';
    assert s[n - 5] == mm[0] && s[n - 4] == mm[1];
    assert s[n - 2..] == suffix;
    if n == 7 {
      assert DigitValue(hour[0]) == h12;
    } else {
      assert 10 * DigitValue(hour[0]) + DigitValue(hour[1]) == h12;
    }
  }

  /** `formatTime` succeeds exactly on the times date-fns reads and loses
      nothing: the 12-hour text reads back to the same time of day. */
  lemma FormatTimeRoundTrip(time: string)
    ensures FormatTime(time).Some? <==> ParseClockTime(time).Some?
    ensures FormatTime(time).Some? ==> ParseTwelveHour(FormatTime(time).value) == ParseClockTime(time)
  {
    if ParseClockTime(time).Some? {
      TwelveHourRoundTrip(ParseClockTime(time).value);
    }
  }

  lemma FormatTimeExamples()
    ensures FormatTime("00:05") == Some("12:05 AM")
    ensures FormatTime("13:30") == Some("1:30 PM")
    ensures FormatTime("12:00") == Some("12:00 PM")
    ensures FormatTime("9:00") == Some("9:00 AM")
    ensures FormatTime("24:00") == None
  {
    FormatsFivePastMidnight();
    FormatsHalfPastOne();
    FormatsNoon();
    FormatsNineOClock();
  }

  lemma FormatsNineOClock()
    ensures FormatTime("9:00") == Some("9:00 AM")
  {
    assert DigitChar(0) == '0' && DigitChar(9) == '9';
    assert TwoDigits(0) == "00";
    assert "9:00" == [DigitChar(9)] + ":" + TwoDigits(0);
    OneDigitHourRead(9, 0);
    assert HourText(9) == "9";
    assert TwelveHour(540) == "9" + ":" + "00" + " " + "AM";
    assert "9" + ":" + "00" + " " + "AM" == "9:00 AM";
  }

  lemma FormatsFivePastMidnight()
    ensures FormatTime("00:05") == Some("12:05 AM")
  {
    StrictTimeReadAlike("00:05");
    assert ParseHHmm("00:05") == Some(5);
    assert DigitChar(0) == '0' && DigitChar(1) == '1' && DigitChar(2) == '2' && DigitChar(5) == '5';
    assert HourText(12) == "12" && TwoDigits(5) == "05";
    assert TwelveHour(5) == "12" + ":" + "05" + " " + "AM";
    assert "12" + ":" + "05" + " " + "AM" == "12:05 AM";
  }

  lemma FormatsHalfPastOne()
    ensures FormatTime("13:30") == Some("1:30 PM")
  {
    StrictTimeReadAlike("13:30");
    assert ParseHHmm("13:30") == Some(810);
    assert DigitChar(0) == '0' && DigitChar(1) == '1' && DigitChar(3) == '3';
    assert HourText(1) == "1" && TwoDigits(30) == "30";
    assert TwelveHour(810) == "1" + ":" + "30" + " " + "PM";
    assert "1" + ":" + "30" + " " + "PM" == "1:30 PM";
  }

  lemma FormatsNoon()
    ensures FormatTime("12:00") == Some("12:00 PM")
  {
    StrictTimeReadAlike("12:00");
    assert ParseHHmm("12:00") == Some(720);
    assert DigitChar(0) == '0' && DigitChar(1) == '1' && DigitChar(2) == '2';
    assert HourText(12) == "12" && TwoDigits(0) == "00";
    assert TwelveHour(720) == "12" + ":" + "00" + " " + "PM";
    assert "12" + ":" + "00" + " " + "PM" == "12:00 PM";
  }

  /** The component's state. `submissions` records every list posted to the
      availability endpoint, oldest first. */
  class AvailabilityManager {
    var availabilities: seq<Availability>
    var editingDay: Option<int>
    var submissions: seq<seq<Availability>>

    ghost predicate Valid()
      reads this
    {
      IsWeek(availabilities) && forall k :: 0 <= k < |submissions| ==> IsWeek(submissions[k])
    }

    constructor (initialAvailabilities: seq<Availability>)
      ensures Valid()
      ensures availabilities == InitialAvailabilities(initialAvailabilities)
      ensures editingDay == None && submissions == []
    {
      availabilities := InitialAvailabilities(initialAvailabilities);
      editingDay := None;
      submissions := [];
    }

    method HandleEdit(dayOfWeek: int)
      requires Valid()
      modifies this
      ensures Valid()
      ensures editingDay == Some(dayOfWeek)
      ensures availabilities == old(availabilities) && submissions == old(submissions)
    {
      editingDay := Some(dayOfWeek);
    }

    /** `handleSave`, given the two inputs' values (`""` for an empty or
        absent input). */
    method HandleSave(dayOfWeek: int, startInput: string, endInput: string)
      requires Valid()
      modifies this
      ensures Valid()
      ensures availabilities == SaveDay(old(availabilities), dayOfWeek, startInput, endInput)
      ensures editingDay == None
      ensures submissions == old(submissions) + [availabilities]
    {
      SaveDayChangesOnlyThatDay(availabilities, dayOfWeek, startInput, endInput);
      var updated := SaveDay(availabilities, dayOfWeek, startInput, endInput);
      availabilities := updated;
      editingDay := None;
      submissions := submissions + [updated];
    }

    method CopyAllAvailability(fromDay: int)
      requires Valid() && 0 <= fromDay < DaysInWeek
      modifies this
      ensures Valid()
      ensures availabilities == CopyAll(old(availabilities), fromDay)
      ensures editingDay == old(editingDay)
      ensures submissions == old(submissions) + [availabilities]
    {
      CopyAllCopiesWindow(availabilities, fromDay);
      var updated := CopyAll(availabilities, fromDay);
      availabilities := updated;
      submissions := submissions + [updated];
    }

    /** The effect run when the fetcher's data changes; `data` is the
        response's `availabilities` field, if any. */
    method OnFetcherData(data: Option<seq<Availability>>)
      requires Valid()
      modifies this
      ensures Valid()
      ensures availabilities == if data.Some? then MergeServer(data.value, old(availabilities)) else old(availabilities)
      ensures editingDay == old(editingDay) && submissions == old(submissions)
    {
      if data.Some? {
        MergeServerKeepsWeek(data.value, availabilities);
        availabilities := MergeServer(data.value, availabilities);
      }
    }
  }
}
