/** The training-zone deriver of App.jsx: a race preset and a race time give a
    reference pace per kilometre, and four zones scale it by fixed multipliers. */
module TrainingZones {
  import opened TimeCodec
  import PaceConverter
  import Text

  /** raceDistances: the race presets, in kilometres. */
  const RaceDistances: map<string, real> :=
    map["5k" := 5.0, "10k" := 10.0, "half" := 21.0975, "marathon" := 42.195]

  /** racePacePerKm: seconds per kilometre over the chosen race. The preset
      is one of the four the race selector offers. */
  function RacePacePerKm(raceTime: Time, race: string): (pace: real)
    requires race in RaceDistances
    ensures pace * RaceDistances[race] == TimeToSeconds(raceTime) as real
    ensures TimeToSeconds(raceTime) >= 0 ==> pace >= 0.0
  {
    assert RaceDistances[race] > 0.0;
    TimeToSeconds(raceTime) as real / RaceDistances[race]
  }

  /** A training zone: its title, its pace in seconds per kilometre and its description. */
  datatype Zone = Zone(name: string, pace: real, description: string)

  /** The multipliers of the easy, tempo, interval and repetition zones. */
  const Multipliers: seq<real> := [1.25, 1.08, 0.95, 0.90]

  /** The zone titles, in the same order. */
  const Names: seq<string> := ["Easy Run", "Tempo/Threshold", "Interval", "Repetition"]

  /** zones, in the order Object.values lists them: easy, tempo, interval, repetition. */
  function Zones(racePace: real): (z: seq<Zone>)
    ensures |z| == |Multipliers|
    ensures forall k :: 0 <= k < |z| ==> z[k].pace == racePace * Multipliers[k]
    ensures forall k :: 0 <= k < |z| ==> z[k].name == Names[k]
  {
    [ Zone("Easy Run", racePace * 1.25, "Comfortable, conversational pace"),
      Zone("Tempo/Threshold", racePace * 1.08, "Comfortably hard, sustainable effort"),
      Zone("Interval", racePace * 0.95, "Hard effort, 3-5 min repeats"),
      Zone("Repetition", racePace * 0.90, "Very hard, 200m-400m repeats") ]
  }

  /** The mile figure of a zone: its pace per kilometre times kilometres per mile. */
  function ZonePacePerMile(z: Zone): (perMile: real)
    ensures z.pace > 0.0 ==> perMile > z.pace
    ensures z.pace == 0.0 ==> perMile == 0.0
    ensures perMile / PaceConverter.KmPerMile == z.pace
  {
    z.pace * PaceConverter.KmPerMile
  }

  /** The two lines a zone card shows: formatTime of the pace per km and per mile. */
  function ZoneDisplay(z: Zone): (lines: (string, string))
    requires z.pace >= 0.0
    ensures ZonePacePerMile(z) >= 0.0
    ensures |lines.0| >= 4 && lines.0[|lines.0| - 3] == ':' && Text.AllDigits(lines.0[|lines.0| - 2..])
    ensures |lines.1| >= 4 && lines.1[|lines.1| - 3] == ':' && Text.AllDigits(lines.1[|lines.1| - 2..])
  {
    (FormatTime(z.pace), FormatTime(ZonePacePerMile(z)))
  }

  /** Each line of a zone card reads back as the hours (when there are any),
      minutes and seconds of its pace, and those stand for the pace rounded to
      the nearest second. */
  lemma ZoneDisplayReading(z: Zone)
    requires z.pace >= 0.0
    ensures var km := Components(z.pace);
            Text.Reading(ZoneDisplay(z).0) ==
              (if km.hours > 0 then [km.hours, km.minutes, km.seconds] else [km.minutes, km.seconds]) &&
            TimeToSeconds(km) == JsMath.Round(z.pace)
    ensures var mile := Components(ZonePacePerMile(z));
            Text.Reading(ZoneDisplay(z).1) ==
              (if mile.hours > 0 then [mile.hours, mile.minutes, mile.seconds] else [mile.minutes, mile.seconds]) &&
            TimeToSeconds(mile) == JsMath.Round(z.pace * PaceConverter.KmPerMile)
  {
    var mile := ZonePacePerMile(z);
    assert mile == z.pace * PaceConverter.KmPerMile;
    FormatTimeMeaning(z.pace);
    FormatTimeMeaning(mile);
  }

  /** For a positive reference pace: repetition < interval < race < tempo < easy. */
  lemma ZonesOrdered(racePace: real)
    requires racePace > 0.0
    ensures var z := Zones(racePace);
            z[3].pace < z[2].pace < racePace < z[1].pace < z[0].pace
  {
  }

  /** A reference pace no slower gives no slower a pace in every zone, and a
      strictly faster one a strictly faster pace in every zone. */
  lemma ZonesMonotone(p: real, q: real)
    requires p <= q
    ensures forall k :: 0 <= k < |Zones(p)| ==> Zones(p)[k].pace <= Zones(q)[k].pace
    ensures p < q ==> forall k :: 0 <= k < |Zones(p)| ==> Zones(p)[k].pace < Zones(q)[k].pace
  {
    forall k | 0 <= k < |Zones(p)|
      ensures Zones(p)[k].pace <= Zones(q)[k].pace
      ensures p < q ==> Zones(p)[k].pace < Zones(q)[k].pace
    {
      assert Multipliers[k] > 0.0;
    }
  }

  /** The four presets are the selector's four options with their distances. */
  lemma PresetTable()
    ensures RaceDistances.Keys == {"5k", "10k", "half", "marathon"}
    ensures RaceDistances["half"] * 2.0 == RaceDistances["marathon"]
    ensures forall race :: race in RaceDistances ==> RaceDistances[race] > 0.0
  {
  }

  /** A 25:00 5k gives a 5:00/km reference pace, an easy zone of 6:15/km
      (10:04/mile) and an interval zone of 4:45/km. */
  lemma FiveKExample()
    ensures RacePacePerKm(Time(0, 25, 0), "5k") == 300.0
    ensures Zones(300.0)[0].pace == 375.0 && Zones(300.0)[2].pace == 285.0
    ensures ZoneDisplay(Zones(300.0)[0]) == ("6:15", "10:04")
    ensures ZoneDisplay(Zones(300.0)[2]).0 == "4:45"
  {
    ReferencePaceExample();
    assert Zones(300.0)[0].pace == 375.0;
    assert Zones(300.0)[2].pace == 285.0;
    KmExamples();
    EasyMileExample();
  }

  lemma ReferencePaceExample()
    ensures RacePacePerKm(Time(0, 25, 0), "5k") == 300.0
  {
    assert RaceDistances["5k"] == 5.0;
  }

  lemma KmExamples()
    ensures FormatTime(375.0) == "6:15" && FormatTime(285.0) == "4:45"
  {
    ShownUnderAnHour(375.0, Time(0, 6, 15));
    ShownUnderAnHour(285.0, Time(0, 4, 45));
  }

  /** A whole number of seconds under an hour is shown as its minutes and padded seconds. */
  lemma ShownUnderAnHour(t: real, time: Time)
    requires time.hours == 0 && 0 <= time.minutes < 10 && 0 <= time.seconds < 60
    requires t == TimeToSeconds(time) as real
    ensures FormatTime(t) == [Text.DigitChar(time.minutes), ':',
                              Text.DigitChar(time.seconds / 10), Text.DigitChar(time.seconds % 10)]
  {
    ComponentsOfTime(time);
    Text.Pad2Of(time.seconds);
  }

  /** The easy zone of a 5:00/km runner is 603.5025 s per mile, shown as "10:04". */
  lemma EasyMileExample()
    ensures ZonePacePerMile(Zones(300.0)[0]) == 603.5025
    ensures FormatTime(603.5025) == "10:04"
  {
    var mile := 603.5025;
    assert (mile / 3600.0).Floor == 0;
    assert JsMath.Mod(mile, 3600.0) == mile;
    assert (mile / 60.0).Floor == 10;
    assert JsMath.Mod(mile, 60.0) == 3.5025;
    assert Components(mile) == Time(0, 10, 4);
    Text.Pad2Of(10);
    Text.Pad2Of(4);
    assert Text.Show(10) == Text.Pad2(10);
  }
}
