/**
 * The prayer-times list of `src/components/SalathTimes.tsx`: the time label `convertTime`, the
 * display-name switch `toArabic`, and the list render that turns each entry of the prayer-times
 * object into one row.
 */
module SalathTimes {
  import opened Wrappers
  import opened Text

  /** The six keys of the prayer-times object, in the order the object is built. */
  const PrayerKeys: seq<string> := ["Fajr", "Sunrise", "Dhuhr", "Asr", "Maghrib", "Isha"]

  /** The display label of each key, position for position. */
  const PrayerLabels: seq<string> := [
    "END OF NIGHT SALATH", "Sunrise", "MIDDLE OF DAY SALATH",
    "EVENING OF DAY SALATH", "END OF DAY SALATH", "START OF NIGHT SALATH"
  ]

  /** The prayer-times object: one "HH:MM" string per prayer (and sunrise). */
  datatype PrayerTimes = PrayerTimes(
    fajr: string, sunrise: string, dhuhr: string, asr: string, maghrib: string, isha: string)

  /** One rendered list item: the converted time and the display label (absent for an unknown key). */
  datatype Row = Row(time: string, name: Option<string>)

  /** A time as the timings service writes it: two digits, a colon, two digits. */
  predicate IsTimeText(t: string) {
    |t| == 5 && IsDigit(t[0]) && IsDigit(t[1]) && t[2] == ':' && IsDigit(t[3]) && IsDigit(t[4])
  }

  /** The hour as `Number` reads the text before the colon. */
  function Hour(t: string): (h: nat)
    requires IsTimeText(t)
    ensures h == DigitValue(t[0]) * 10 + DigitValue(t[1])
  {
    DigitsValueTwo(t[..2]);
    DigitsValue(t[..2])
  }

  /** The text after the colon. */
  function Minutes(t: string): (m: string)
    requires IsTimeText(t)
    ensures |m| == 2
  {
    t[3..]
  }

  /** `time.split(':')` on a time text gives exactly the hour text and the minute text. */
  lemma SplitTimeText(t: string)
    requires IsTimeText(t)
    ensures Split(t, ':') == [t[..2], t[3..]]
  {
    var parts := [t[..2], t[3..]];
    assert Join(parts, ':') == t[..2] + [':'] + Join(parts[1..], ':');
    assert t == t[..2] + [':'] + t[3..];
    SplitJoin(parts, ':');
  }

  /**
   * `convertTime`: an hour below 12 keeps the text and gains " AM"; otherwise " PM" is appended,
   * after "0" and the hour minus 12 when that exceeds 10, and after the hour itself (not reduced)
   * when it does not.
   */
  function ConvertTime(time: string): (r: string)
    requires IsTimeText(time)
    ensures |r| >= 6
    ensures r[|r| - 3..] == " AM" || r[|r| - 3..] == " PM"
    ensures r[|r| - 3..] == " AM" <==> Hour(time) < 12
    ensures r[|r| - 6..|r| - 3] == ":" + Minutes(time)
  {
    SplitTimeText(time);
    var split := Split(time, ':');
    var hours := DigitsValue(split[0]);
    var minutes := split[1];
    if hours < 12 then time + " AM"
    else if hours - 12 > 10 then "0" + NatToString(hours - 12) + ":" + minutes + " PM"
    else NatToString(hours) + ":" + minutes + " PM"
  }

  /**
   * Up to hour 22 the label is the input text itself with the suffix appended: the hour is never
   * reduced to a 12-hour value, so "13:00" reads "13:00 PM".
   */
  lemma {:induction false} ConvertTimeKeepsText(t: string)
    requires IsTimeText(t) && Hour(t) <= 22
    ensures Hour(t) < 12 ==> ConvertTime(t) == t + " AM"
    ensures Hour(t) >= 12 ==> ConvertTime(t) == t + " PM"
  {
    SplitTimeText(t);
    if Hour(t) >= 12 {
      DigitsValueTwo(t[..2]);
      assert t[..2][0] != '0';
      NatToStringOfDigitsValue(t[..2]);
      assert t == t[..2] + ":" + t[3..];
    }
  }

  /**
   * From hour 23 on the label has a three-digit hour field: a zero, then the hour minus 12
   * (so "23:30" reads "011:30 PM").
   */
  lemma {:induction false} ConvertTimePadsLateHours(t: string)
    requires IsTimeText(t) && Hour(t) >= 23
    ensures var r := ConvertTime(t);
      |r| == 9 && r[0] == '0' && IsDigits(r[..3]) && DigitsValue(r[..3]) == Hour(t) - 12
      && r[3..] == ":" + Minutes(t) + " PM"
  {
    SplitTimeText(t);
    var h: nat := Hour(t) - 12;
    var r := ConvertTime(t);
    assert r == "0" + NatToString(h) + ":" + Minutes(t) + " PM";
    assert r[..3] == "0" + NatToString(h);
    DigitsValueOfNatToString(h);
    DigitsValueLeadingZero(NatToString(h));
  }

  /** For a clock time (hour 0..23) the hour field is padded, and the label nine characters long, exactly at hour 23. */
  lemma PaddedOnlyAtHour23(t: string)
    requires IsTimeText(t) && Hour(t) <= 23
    ensures |ConvertTime(t)| == 9 <==> Hour(t) == 23
    ensures Hour(t) < 23 ==> |ConvertTime(t)| == 8
  {
    if Hour(t) == 23 {
      ConvertTimePadsLateHours(t);
    } else {
      ConvertTimeKeepsText(t);
    }
  }

  /** A time text is fixed by its hour value and its minute text. */
  lemma SameHourAndMinutes(a: string, b: string)
    requires IsTimeText(a) && IsTimeText(b) && Hour(a) == Hour(b) && Minutes(a) == Minutes(b)
    ensures a == b
  {
    TwoDigitsInjective(a[..2], b[..2]);
    assert a == a[..2] + ":" + Minutes(a) && b == b[..2] + ":" + Minutes(b);
  }

  /** Two late times (hour 23 or more) with the same label are the same time. */
  lemma LateLabelsInjective(a: string, b: string)
    requires IsTimeText(a) && IsTimeText(b) && Hour(a) >= 23 && Hour(b) >= 23
    ensures ConvertTime(a) == ConvertTime(b) ==> a == b
  {
    if ConvertTime(a) != ConvertTime(b) {
      return;
    }
    ConvertTimePadsLateHours(a);
    ConvertTimePadsLateHours(b);
    var r := ConvertTime(a);
    assert Hour(a) - 12 == DigitsValue(r[..3]) == Hour(b) - 12;
    assert (":" + Minutes(a) + " PM")[1..3] == Minutes(a);
    assert (":" + Minutes(b) + " PM")[1..3] == Minutes(b);
    SameHourAndMinutes(a, b);
  }

  /** Distinct times give distinct labels: no two rows can show the same time text for different times. */
  lemma ConvertTimeInjective(a: string, b: string)
    requires IsTimeText(a) && IsTimeText(b)
    requires ConvertTime(a) == ConvertTime(b)
    ensures a == b
  {
    if Hour(a) <= 22 && Hour(b) <= 22 {
      ConvertTimeKeepsText(a);
      ConvertTimeKeepsText(b);
      assert a == ConvertTime(a)[..5] == b;
    } else if Hour(a) >= 23 && Hour(b) >= 23 {
      LateLabelsInjective(a, b);
    } else if Hour(a) <= 22 {
      ConvertTimeKeepsText(a);
      ConvertTimePadsLateHours(b);
    } else {
      ConvertTimePadsLateHours(a);
      ConvertTimeKeepsText(b);
    }
  }

  /** Morning labels: midnight stays "00", and 11:59 is the last " AM". */
  lemma ConvertTimeMorningExamples()
    ensures ConvertTime("00:05") == "00:05 AM"
    ensures ConvertTime("11:59") == "11:59 AM"
  {
    assert Hour("00:05") == 0;
    ConvertTimeKeepsText("00:05");
    assert Hour("11:59") == 11;
    ConvertTimeKeepsText("11:59");
  }

  /** Noon keeps its 24-hour text: "12:00" reads "12:00 PM". */
  lemma ConvertTimeNoonExample()
    ensures ConvertTime("12:00") == "12:00 PM"
  {
    assert Hour("12:00") == 12;
    ConvertTimeKeepsText("12:00");
  }

  /** One in the afternoon is not reduced to 1: "13:00" reads "13:00 PM". */
  lemma ConvertTimeOnePmExample()
    ensures ConvertTime("13:00") == "13:00 PM"
  {
    assert Hour("13:00") == 13;
    ConvertTimeKeepsText("13:00");
  }

  /** The one padded clock hour: "23:30" reads "011:30 PM". */
  lemma ConvertTimeLateExample()
    ensures ConvertTime("23:30") == "011:30 PM"
  {
    assert Hour("23:30") == 23;
    ConvertTimePadsLateHours("23:30");
    var r := ConvertTime("23:30");
    assert r[..3] == "011" by {
      DigitsValueTwo(r[1..3]);
    }
  }

  /** `toArabic`: the fixed display label of each of the six keys; any other key falls through the switch. */
  function ToArabic(salathName: string): (r: Option<string>)
    ensures r.Some? <==> salathName in PrayerKeys
  {
    match salathName
    case "Fajr" => Some("END OF NIGHT SALATH")
    case "Sunrise" => Some("Sunrise")
    case "Dhuhr" => Some("MIDDLE OF DAY SALATH")
    case "Asr" => Some("EVENING OF DAY SALATH")
    case "Maghrib" => Some("END OF DAY SALATH")
    case "Isha" => Some("START OF NIGHT SALATH")
    case _ => None
  }

  /** Each of the six keys maps to its own label, position for position. */
  lemma ToArabicTable()
    ensures forall i :: 0 <= i < |PrayerKeys| ==> ToArabic(PrayerKeys[i]) == Some(PrayerLabels[i])
  {
  }

  /** The six labels are pairwise distinct and non-empty, so `toArabic` is one-to-one on its keys. */
  lemma ToArabicInjective(a: string, b: string)
    requires ToArabic(a).Some? && ToArabic(a) == ToArabic(b)
    ensures a == b && ToArabic(a).value != ""
  {
  }

  /** The list render: one row per entry, in entry order, the converted time beside the key's label. */
  function Rows(entries: seq<(string, string)>): (r: seq<Row>)
    requires forall i :: 0 <= i < |entries| ==> IsTimeText(entries[i].1)
    ensures |r| == |entries|
    ensures forall i :: 0 <= i < |r| ==> r[i] == Row(ConvertTime(entries[i].1), ToArabic(entries[i].0))
  {
    if entries == [] then []
    else [Row(ConvertTime(entries[0].1), ToArabic(entries[0].0))] + Rows(entries[1..])
  }

  predicate AllTimeTexts(p: PrayerTimes) {
    IsTimeText(p.fajr) && IsTimeText(p.sunrise) && IsTimeText(p.dhuhr)
    && IsTimeText(p.asr) && IsTimeText(p.maghrib) && IsTimeText(p.isha)
  }

  /** `Object.entries` of the prayer-times object: its six key/value pairs in insertion order. */
  function Entries(p: PrayerTimes): (r: seq<(string, string)>)
    ensures |r| == |PrayerKeys|
    ensures forall i :: 0 <= i < |r| ==> r[i].0 == PrayerKeys[i]
    ensures AllTimeTexts(p) ==> forall i :: 0 <= i < |r| ==> IsTimeText(r[i].1)
  {
    [("Fajr", p.fajr), ("Sunrise", p.sunrise), ("Dhuhr", p.dhuhr),
     ("Asr", p.asr), ("Maghrib", p.maghrib), ("Isha", p.isha)]
  }

  /** Row `i` of the rendered list holds entry `i`'s converted time and label `i`. */
  lemma RowsOfEntries(p: PrayerTimes)
    requires AllTimeTexts(p)
    ensures var e := Entries(p); var rows := Rows(e);
      |rows| == 6
      && forall i :: 0 <= i < 6 ==> rows[i] == Row(ConvertTime(e[i].1), Some(PrayerLabels[i]))
  {
    var e := Entries(p);
    var rows := Rows(e);
    ToArabicTable();
    forall i | 0 <= i < 6
      ensures rows[i] == Row(ConvertTime(e[i].1), Some(PrayerLabels[i]))
    {
      assert rows[i] == Row(ConvertTime(e[i].1), ToArabic(e[i].0));
      assert e[i].0 == PrayerKeys[i];
    }
  }

  /**
   * The rendered list of a prayer-times object has six rows, in the fixed key order, every one
   * labelled, each pairing its own prayer's converted time with that prayer's label.
   */
  lemma RenderedPrayerRows(p: PrayerTimes)
    requires AllTimeTexts(p)
    ensures var rows := Rows(Entries(p));
      |rows| == 6
      && rows[0] == Row(ConvertTime(p.fajr), Some("END OF NIGHT SALATH"))
      && rows[1] == Row(ConvertTime(p.sunrise), Some("Sunrise"))
      && rows[2] == Row(ConvertTime(p.dhuhr), Some("MIDDLE OF DAY SALATH"))
      && rows[3] == Row(ConvertTime(p.asr), Some("EVENING OF DAY SALATH"))
      && rows[4] == Row(ConvertTime(p.maghrib), Some("END OF DAY SALATH"))
      && rows[5] == Row(ConvertTime(p.isha), Some("START OF NIGHT SALATH"))
  {
    RowsOfEntries(p);
    var e := Entries(p);
    assert e[0].1 == p.fajr && e[1].1 == p.sunrise && e[2].1 == p.dhuhr;
    assert e[3].1 == p.asr && e[4].1 == p.maghrib && e[5].1 == p.isha;
    assert PrayerLabels[0] == "END OF NIGHT SALATH" && PrayerLabels[5] == "START OF NIGHT SALATH";
  }
}
