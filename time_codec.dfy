/** The time codec of App.jsx: timeToSeconds turns the three number fields of a
    form into total seconds, formatTime splits a (possibly fractional) number of
    seconds into hours, minutes and rounded seconds and writes "H:MM:SS" or "M:SS". */
module TimeCodec {
  import opened JsMath
  import opened Text

  /** Hours, minutes and seconds: both a time as a form holds it (parsed whole
      numbers, not range-checked) and the three numbers formatTime displays. */
  datatype Time = Time(hours: int, minutes: int, seconds: int)

  /** timeToSeconds. Inputs are not range-checked: 90 minutes is 5400 seconds. */
  function TimeToSeconds(t: Time): (total: int)
    ensures t.hours >= 0 && t.minutes >= 0 && t.seconds >= 0 ==> total >= 0
    ensures t.minutes >= 0 && t.seconds >= 0 ==> total >= t.hours * 3600
  {
    t.hours * 3600 + t.minutes * 60 + t.seconds
  }

  /** The hours, minutes and seconds formatTime computes from totalSeconds >= 0. */
  function Components(t: real): (c: Time)
    requires t >= 0.0
    ensures c.hours >= 0
    ensures 0 <= c.minutes <= 59
    ensures 0 <= c.seconds <= 60
    ensures (c.hours * 3600 + c.minutes * 60) as real <= t < (c.hours * 3600 + c.minutes * 60 + 60) as real
  {
    var a := Mod(t, 3600.0);
    assert t == 3600.0 * (t / 3600.0).Floor as real + a;
    assert t / 60.0 == (60 * (t / 3600.0).Floor) as real + a / 60.0;
    var hours := (t / 3600.0).Floor;
    var minutes := (Mod(t, 3600.0) / 60.0).Floor;
    var seconds := Round(Mod(t, 60.0));
    Time(hours, minutes, seconds)
  }

  /** Components in the ranges formatTime produces. */
  predicate InRange(c: Time) {
    c.hours >= 0 && 0 <= c.minutes <= 59 && 0 <= c.seconds <= 60
  }

  /** The text formatTime writes for its components: "H:MM:SS" when there is at least
      an hour, "M:SS" otherwise. */
  function Display(c: Time): (s: string)
    requires InRange(c)
    ensures |s| >= 4 && s[|s| - 3] == ':' && AllDigits(s[|s| - 2..])
    ensures ':' in s[..|s| - 3] <==> c.hours > 0
  {
    if c.hours > 0 then
      var lead := Show(c.hours) + ":" + Pad2(c.minutes);
      assert lead[|Show(c.hours)|] == ':';
      JoinShape(lead, Pad2(c.seconds));
      lead + ":" + Pad2(c.seconds)
    else
      DigitsHaveNo(Show(c.minutes), ':');
      JoinShape(Show(c.minutes), Pad2(c.seconds));
      Show(c.minutes) + ":" + Pad2(c.seconds)
  }

  /** The last three characters of lead + ":" + tail, for a two-digit tail. */
  lemma JoinShape(lead: string, tail: string)
    requires |lead| >= 1 && |tail| == 2
    ensures var s := lead + ":" + tail;
            |s| >= 4 && s[|s| - 3] == ':' && s[|s| - 2..] == tail && s[..|s| - 3] == lead
  {
  }

  /** formatTime. */
  function FormatTime(t: real): (s: string)
    requires t >= 0.0
    ensures |s| >= 4 && s[|s| - 3] == ':' && AllDigits(s[|s| - 2..])
  {
    Display(Components(t))
  }

  /** The displayed reading is t rounded to the nearest second: the components
      never lose or gain more than half a second between them. */
  lemma ComponentsTotal(t: real)
    requires t >= 0.0
    ensures TimeToSeconds(Components(t)) == Round(t)
  {
    var c := Components(t);
    var a := Mod(t, 3600.0);
    assert t == 3600.0 * c.hours as real + a;
    var q := (t / 60.0).Floor;
    assert t / 60.0 == (60 * c.hours) as real + a / 60.0;
    assert q == 60 * c.hours + c.minutes;
    var r := Mod(t, 60.0);
    assert t == (3600 * c.hours + 60 * c.minutes) as real + r;
    RoundShift(3600 * c.hours + 60 * c.minutes, r);
  }

  /** A later time never shows an earlier reading. */
  lemma ShownMonotone(x: real, y: real)
    requires 0.0 <= x <= y
    ensures TimeToSeconds(Components(x)) <= TimeToSeconds(Components(y))
  {
    ComponentsTotal(x);
    ComponentsTotal(y);
    RoundMonotone(x, y);
  }

  /** The seconds field can read 60 (Math.round of a remainder of 59.5 or more),
      but only when t is not a whole number of seconds. */
  lemma SixtyOnlyWhenFractional(t: real)
    requires t >= 0.0
    ensures Components(t).seconds == 60 ==> t != t.Floor as real
  {
    if t == t.Floor as real {
      var q := (t / 60.0).Floor;
      var r := Mod(t, 60.0);
      assert r == (t.Floor - 60 * q) as real;
      assert Round(r) == t.Floor - 60 * q;
    }
  }

  /** 59.5 seconds is displayed as "0:60": the rounded second is not carried
      into the minutes. */
  lemma SixtyIsReachable()
    ensures Components(59.5) == Time(0, 0, 60)
    ensures FormatTime(59.5) == "0:60"
  {
    assert (59.5 / 3600.0).Floor == 0;
    assert (59.5 / 60.0).Floor == 0;
    assert Mod(59.5, 3600.0) == 59.5;
    assert Mod(59.5, 60.0) == 59.5;
    assert Round(59.5) == 60;
    assert Show(6) == "6" && Show(0) == "0";
    assert Show(60) == "60";
  }

  /** Layout of formatTime: three colon-separated fields exactly when there is
      at least one hour, otherwise two; the leading field is unpadded, every
      later field has exactly two digits. */
  lemma FormatTimeLayout(t: real)
    requires t >= 0.0
    ensures var c := Components(t);
            var f := Fields(FormatTime(t), ':');
            (|f| == 3 <==> c.hours > 0) && (|f| == 2 <==> c.hours == 0) &&
            Canonical(f[0]) &&
            (forall i :: 1 <= i < |f| ==> |f[i]| == 2 && AllDigits(f[i]))
  {
    DisplayLayout(Components(t));
  }

  lemma DisplayLayout(c: Time)
    requires InRange(c)
    ensures var f := Fields(Display(c), ':');
            (|f| == 3 <==> c.hours > 0) && (|f| == 2 <==> c.hours == 0) &&
            Canonical(f[0]) &&
            (forall i :: 1 <= i < |f| ==> |f[i]| == 2 && AllDigits(f[i]))
  {
    var f := Fields(Display(c), ':');
    DisplayFields(c);
    if c.hours > 0 {
      assert f == [Show(c.hours), Pad2(c.minutes), Pad2(c.seconds)];
      assert f[1] == Pad2(c.minutes) && f[2] == Pad2(c.seconds);
    } else {
      assert f == [Show(c.minutes), Pad2(c.seconds)];
      assert f[1] == Pad2(c.seconds);
    }
  }

  /** Reading the display of formatTime back gives exactly the components. */
  lemma FormatTimeReading(t: real)
    requires t >= 0.0
    ensures var c := Components(t);
            Reading(FormatTime(t)) ==
              if c.hours > 0 then [c.hours, c.minutes, c.seconds] else [c.minutes, c.seconds]
  {
    DisplayReading(Components(t));
  }

  /** What a formatTime display tells its reader: the components it reads back
      as, and that they stand for t to the nearest second. */
  lemma FormatTimeMeaning(t: real)
    requires t >= 0.0
    ensures var c := Components(t);
            Reading(FormatTime(t)) ==
              (if c.hours > 0 then [c.hours, c.minutes, c.seconds] else [c.minutes, c.seconds]) &&
            TimeToSeconds(c) == Round(t)
  {
    FormatTimeReading(t);
    ComponentsTotal(t);
  }

  lemma DisplayReading(c: Time)
    requires InRange(c)
    ensures Reading(Display(c)) ==
              if c.hours > 0 then [c.hours, c.minutes, c.seconds] else [c.minutes, c.seconds]
  {
    Pad2Digits(c.minutes);
    Pad2Digits(c.seconds);
    ValueOfShow(c.hours);
    ValueOfShow(c.minutes);
    DisplayFields(c);
    if c.hours > 0 {
      ValuesOfThree(Fields(Display(c), ':'));
    } else {
      ValuesOfTwo(Fields(Display(c), ':'));
    }
  }

  /** How the display of the components splits at its colons. */
  lemma DisplayFields(c: Time)
    requires InRange(c)
    ensures Fields(Display(c), ':') ==
              if c.hours > 0 then [Show(c.hours), Pad2(c.minutes), Pad2(c.seconds)]
              else [Show(c.minutes), Pad2(c.seconds)]
  {
    Pad2Digits(c.minutes);
    Pad2Digits(c.seconds);
    if c.hours > 0 {
      ColonJoin3(Show(c.hours), Pad2(c.minutes), Pad2(c.seconds));
    } else {
      ColonJoin2(Show(c.minutes), Pad2(c.seconds));
    }
  }

  /** timeToSeconds followed by formatTime gives back the hours, minutes and
      seconds that went in, for a time in normal form. */
  lemma TimeRoundTrip(t: Time)
    requires t.hours >= 0 && 0 <= t.minutes < 60 && 0 <= t.seconds < 60
    ensures Components(TimeToSeconds(t) as real) == Time(t.hours, t.minutes, t.seconds)
    ensures Reading(FormatTime(TimeToSeconds(t) as real)) ==
              if t.hours > 0 then [t.hours, t.minutes, t.seconds] else [t.minutes, t.seconds]
  {
    ComponentsOfTime(t);
    FormatTimeReading(TimeToSeconds(t) as real);
  }

  lemma ComponentsOfTime(t: Time)
    requires t.hours >= 0 && 0 <= t.minutes < 60 && 0 <= t.seconds < 60
    ensures Components(TimeToSeconds(t) as real) == Time(t.hours, t.minutes, t.seconds)
  {
    var x := TimeToSeconds(t) as real;
    var below := t.minutes * 60 + t.seconds;
    assert 0 <= below < 3600;
    assert x / 3600.0 == t.hours as real + below as real / 3600.0;
    assert (x / 3600.0).Floor == t.hours;
    assert Mod(x, 3600.0) == below as real;
    assert (below as real / 60.0).Floor == t.minutes;
    assert x / 60.0 == (t.hours * 60 + t.minutes) as real + t.seconds as real / 60.0;
    assert (x / 60.0).Floor == t.hours * 60 + t.minutes;
    assert Mod(x, 60.0) == t.seconds as real;
    assert Round(t.seconds as real) == t.seconds;
  }
}
