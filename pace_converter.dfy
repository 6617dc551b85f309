/** The pace converter of App.jsx: a min/km pace given as whole minutes and
    seconds becomes a min/mile pace, shown as whole minutes and rounded seconds. */
module PaceConverter {
  import opened JsMath
  import opened Text

  /** Kilometres in a mile, the factor the calculator uses throughout. */
  const KmPerMile: real := 1.60934

  /** paceMinMile: the pace in (fractional) minutes per mile. */
  function MinPerMile(minPerKm: int, secPerKm: int): (p: real)
    ensures p * 60.0 == (minPerKm * 60 + secPerKm) as real * KmPerMile
  {
    (minPerKm as real + secPerKm as real / 60.0) * KmPerMile
  }

  /** A pace per mile as displayed: whole minutes and rounded seconds. */
  datatype MilePace = MilePace(minutes: int, seconds: int)

  /** paceMinMileWhole and paceSecMile. The whole minutes are the floor of the
      mile pace, the seconds are the rest rounded, so the pair stands for the
      mile pace to within half a second; the seconds can read 60. Negative
      inputs are not rejected. */
  function ConvertPace(minPerKm: int, secPerKm: int): (p: MilePace)
    ensures var exact := MinPerMile(minPerKm, secPerKm);
            p.minutes as real <= exact < p.minutes as real + 1.0 &&
            0 <= p.seconds <= 60 &&
            -0.5 <= exact * 60.0 - (p.minutes * 60 + p.seconds) as real < 0.5
  {
    var paceMinMile := MinPerMile(minPerKm, secPerKm);
    var paceMinMileWhole := paceMinMile.Floor;
    var fraction := paceMinMile - paceMinMileWhole as real;
    assert 0.0 <= fraction < 1.0;
    var paceSecMile := Round(fraction * 60.0);
    assert paceMinMile * 60.0 - (paceMinMileWhole * 60 + paceSecMile) as real == fraction * 60.0 - paceSecMile as real;
    MilePace(paceMinMileWhole, paceSecMile)
  }

  /** The converter's output line: minutes unpadded, then the seconds padded to two digits. */
  function PaceText(p: MilePace): (s: string)
    requires p.minutes >= 0 && p.seconds >= 0
    ensures p.seconds < 100 ==> |s| >= 4 && s[|s| - 3] == ':' && AllDigits(s[|s| - 2..])
  {
    Show(p.minutes) + ":" + Pad2(p.seconds)
  }

  /** The output line reads back as the minutes and seconds it was made from. */
  lemma PaceTextReading(p: MilePace)
    requires p.minutes >= 0 && 0 <= p.seconds <= 60
    ensures Reading(PaceText(p)) == [p.minutes, p.seconds]
  {
    Pad2Digits(p.seconds);
    ValueOfShow(p.minutes);
    DigitsHaveNo(Show(p.minutes), ':');
    DigitsHaveNo(Pad2(p.seconds), ':');
    FieldsCons(Show(p.minutes), ':', Pad2(p.seconds));
    assert Fields(Pad2(p.seconds), ':') == [Pad2(p.seconds)];
    ValuesOfTwo([Show(p.minutes), Pad2(p.seconds)]);
  }

  /** A pace given with non-negative minutes and seconds is displayed without a sign. */
  lemma ConvertPaceNonNegative(minPerKm: int, secPerKm: int)
    requires minPerKm >= 0 && secPerKm >= 0
    ensures ConvertPace(minPerKm, secPerKm).minutes >= 0
  {
  }

  /** The four conversions the converter's quick-reference table lists. */
  lemma QuickReference()
    ensures ConvertPace(5, 0) == MilePace(8, 3) && PaceText(MilePace(8, 3)) == "8:03"
    ensures ConvertPace(4, 0) == MilePace(6, 26) && PaceText(MilePace(6, 26)) == "6:26"
    ensures ConvertPace(3, 30) == MilePace(5, 38) && PaceText(MilePace(5, 38)) == "5:38"
    ensures ConvertPace(3, 0) == MilePace(4, 50) && PaceText(MilePace(4, 50)) == "4:50"
  {
    ConvertsTo(5, 0, 8.0467, 8, 3);
    ConvertsTo(4, 0, 6.43736, 6, 26);
    ConvertsTo(3, 30, 5.63269, 5, 38);
    ConvertsTo(3, 0, 4.82802, 4, 50);
    QuickReferenceText();
  }

  lemma QuickReferenceText()
    ensures PaceText(MilePace(8, 3)) == "8:03" && PaceText(MilePace(6, 26)) == "6:26"
    ensures PaceText(MilePace(5, 38)) == "5:38" && PaceText(MilePace(4, 50)) == "4:50"
  {
    Pad2Of(3);
    Pad2Of(26);
    Pad2Of(38);
    Pad2Of(50);
  }

  lemma ConvertsTo(minPerKm: int, secPerKm: int, exact: real, minutes: int, seconds: int)
    requires MinPerMile(minPerKm, secPerKm) == exact
    requires exact.Floor == minutes
    requires Round((exact - minutes as real) * 60.0) == seconds
    ensures ConvertPace(minPerKm, secPerKm) == MilePace(minutes, seconds)
  {
  }

  /** 0:37 per km is 0.99243 min per mile, so the rounded seconds reach 60
      and the converter displays "0:60" rather than "1:00". */
  lemma SixtySecondsShown()
    ensures ConvertPace(0, 37) == MilePace(0, 60)
    ensures PaceText(ConvertPace(0, 37)) == "0:60"
  {
    assert MinPerMile(0, 37) == 37.0 / 60.0 * KmPerMile;
    assert MinPerMile(0, 37).Floor == 0;
    assert Show(0) == "0" && Show(60) == "60";
  }
}
