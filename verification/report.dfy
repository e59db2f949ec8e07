/** `ECT_ReportSavings`: which lines the final report prints, and the split of the elapsed
    milliseconds into the `hh:mm:ss.mmm` fields of its last line. */
module Report {
  import opened Dispatch

  /** The fields of `Completed in hh:mm:ss.mmm`. */
  datatype Duration = Duration(hours: nat, minutes: nat, seconds: nat, millis: nat)

  /** Whole hours, then minutes, seconds and milliseconds within their ranges. */
  function SplitDuration(total: nat): (d: Duration)
    ensures d.millis < 1000 && d.seconds < 60 && d.minutes < 60
    ensures total == ((d.hours * 60 + d.minutes) * 60 + d.seconds) * 1000 + d.millis
  {
    var d := Duration(total / 3600000, (total / 60000) % 60, (total / 1000) % 60, total % 1000);
    Reassemble(total);
    d
  }

  lemma Reassemble(total: nat)
    ensures total == (((total / 3600000) * 60 + (total / 60000) % 60) * 60 + (total / 1000) % 60) * 1000 + total % 1000
  {
    var s := total / 1000;
    var m := total / 60000;
    assert m == s / 60;
    assert total / 3600000 == m / 60;
  }

  /** Any split within the ranges that reassembles `total` is the one computed. */
  lemma SplitDurationUnique(total: nat, d: Duration)
    requires d.millis < 1000 && d.seconds < 60 && d.minutes < 60
    requires total == ((d.hours * 60 + d.minutes) * 60 + d.seconds) * 1000 + d.millis
    ensures d == SplitDuration(total)
  {
    var m := d.hours * 60 + d.minutes;
    var s := m * 60 + d.seconds;
    assert total / 1000 == s;
    assert total % 1000 == d.millis;
    assert total / 60000 == m;
    assert total / 3600000 == d.hours;
  }

  /** One line of the report. The three size figures are rendered in binary units with
      floating-point arithmetic; the model keeps their exact values. */
  datatype Line =
    | NoneFound
    | Processed(count: nat, plural: bool)
    | ResultIsBigger
    | Sizes(saved: int, original: nat, result: int)
    | CompletedIn(elapsed: Duration)

  /** The report for the final counters after `elapsed` milliseconds. */
  function ReportLines(t: Tally, elapsed: nat): (lines: seq<Line>)
    ensures t.processed == 0 <==> lines == [NoneFound]
    ensures t.processed > 0 ==> |lines| >= 2 && lines[0] == Processed(t.processed, t.processed > 1)
    // a net loss stops the report before the sizes and the time
    ensures t.processed > 0 && t.savings < 0 ==> |lines| == 2 && lines[1] == ResultIsBigger
    ensures t.processed > 0 && t.savings >= 0 ==>
      && |lines| == 3
      && lines[1].Sizes? && lines[1].original == lines[1].saved + lines[1].result && lines[1].saved == t.savings
      && lines[1].original == t.bytes
      && lines[2] == CompletedIn(SplitDuration(elapsed))
  {
    if t.processed == 0 then [NoneFound]
    else if t.savings < 0 then [Processed(t.processed, t.processed > 1), ResultIsBigger]
    else [Processed(t.processed, t.processed > 1), Sizes(t.savings, t.bytes, t.bytes - t.savings), CompletedIn(SplitDuration(elapsed))]
  }
}
