/** How long the machine has been up, split into days, hours and
    minutes, and rendered as text such as "5 days, 3 hours, 42 minutes".
    Instants are whole seconds since the Unix epoch. */
module Uptime {
  import opened PhpText

  const SecondsPerDay := 86400
  const SecondsPerHour := 3600
  const SecondsPerMinute := 60

  /** The units humanReadable can mention, largest first. */
  datatype TimeUnit = Day | Hour | Minute
  {
    function Rank(): nat {
      match this
      case Day => 0
      case Hour => 1
      case Minute => 2
    }

    function Seconds(): int {
      match this
      case Day => SecondsPerDay
      case Hour => SecondsPerHour
      case Minute => SecondsPerMinute
    }
  }

  /** One "<count> <unit>" part of the text. */
  datatype Part = Part(count: int, unit: TimeUnit)

  /** The unit's name, singular exactly when the count is 1. */
  function UnitWord(unit: TimeUnit, count: int): (w: string)
    ensures w != [] && (w[|w| - 1] == 's' <==> count != 1)
  {
    var singular := match unit
      case Day => "day"
      case Hour => "hour"
      case Minute => "minute";
    if count == 1 then singular else singular + "s"
  }

  function RenderPart(p: Part): string {
    IntToString(p.count) + " " + UnitWord(p.unit, p.count)
  }

  function RenderAll(ps: seq<Part>): (r: seq<string>)
    ensures |r| == |ps|
  {
    seq(|ps|, i requires 0 <= i < |ps| => RenderPart(ps[i]))
  }

  /** The seconds a list of parts stands for. */
  function PartsSeconds(ps: seq<Part>): int
    decreases |ps|
  {
    if ps == [] then 0 else PartsSeconds(ps[..|ps| - 1]) + ps[|ps| - 1].count * ps[|ps| - 1].unit.Seconds()
  }

  datatype UptimeSnapshot = UptimeSnapshot(totalSeconds: int, bootTime: int, timestamp: int)
  {
    /** Whole days: floor(totalSeconds / 86400). */
    function Days(): (d: int)
      ensures d * SecondsPerDay <= totalSeconds < d * SecondsPerDay + SecondsPerDay
    {
      totalSeconds / SecondsPerDay
    }

    /** Hours past the last whole day: floor of PHP's truncating
        `totalSeconds % 86400` over 3600. */
    function Hours(): (h: int)
      ensures totalSeconds >= 0 ==> 0 <= h <= 23
      ensures totalSeconds < 0 ==> -24 <= h <= 0
      ensures h * SecondsPerHour <= PhpRem(totalSeconds, SecondsPerDay) < h * SecondsPerHour + SecondsPerHour
    {
      PhpRem(totalSeconds, SecondsPerDay) / SecondsPerHour
    }

    /** Minutes past the last whole hour: floor of PHP's truncating
        `totalSeconds % 3600` over 60. */
    function Minutes(): (m: int)
      ensures totalSeconds >= 0 ==> 0 <= m <= 59
      ensures totalSeconds < 0 ==> -60 <= m <= 0
      ensures m * SecondsPerMinute <= PhpRem(totalSeconds, SecondsPerHour) < m * SecondsPerMinute + SecondsPerMinute
    {
      PhpRem(totalSeconds, SecondsPerHour) / SecondsPerMinute
    }

    /** The uptime in hours, fractions included. */
    function TotalHours(): (r: real)
      ensures r * SecondsPerHour as real == totalSeconds as real
    {
      totalSeconds as real / SecondsPerHour as real
    }

    /** The uptime in minutes, fractions included. */
    function TotalMinutes(): (r: real)
      ensures r * SecondsPerMinute as real == totalSeconds as real
    {
      totalSeconds as real / SecondsPerMinute as real
    }

    function CountOf(unit: TimeUnit): int {
      match unit
      case Day => Days()
      case Hour => Hours()
      case Minute => Minutes()
    }

    /** The parts humanReadable emits: a day part when there are days, an
        hour part when there are hours, and a minute part when there are
        minutes or nothing else was emitted; units appear largest first,
        each with its own count. */
    function Parts(): (ps: seq<Part>)
      ensures 1 <= |ps| <= 3
      ensures forall i, j :: 0 <= i < j < |ps| ==> ps[i].unit.Rank() < ps[j].unit.Rank()
      ensures forall i :: 0 <= i < |ps| ==> ps[i].count == CountOf(ps[i].unit)
      ensures (exists i :: 0 <= i < |ps| && ps[i].unit == Day) <==> Days() > 0
      ensures (exists i :: 0 <= i < |ps| && ps[i].unit == Hour) <==> Hours() > 0
      ensures (exists i :: 0 <= i < |ps| && ps[i].unit == Minute) <==> Minutes() > 0 || (Days() <= 0 && Hours() <= 0)
    {
      var d := if Days() > 0 then [Part(Days(), Day)] else [];
      var h := if Hours() > 0 then [Part(Hours(), Hour)] else [];
      var dh := d + h;
      var m := if Minutes() > 0 || dh == [] then [Part(Minutes(), Minute)] else [];
      var ps := dh + m;
      assert Days() > 0 ==> ps[0] == Part(Days(), Day);
      assert Hours() > 0 ==> ps[|d|] == Part(Hours(), Hour);
      assert m != [] ==> ps[|ps| - 1] == Part(Minutes(), Minute);
      ps
    }

    /** The text humanReadable returns: the rendered parts joined with ", ". */
    function Text(): string {
      Join(", ", RenderAll(Parts()))
    }

    /** humanReadable: appends the parts one by one, then joins them. */
    method HumanReadable() returns (text: string)
      ensures text == Text()
    {
      var days := Days();
      var hours := Hours();
      var minutes := Minutes();
      var parts: seq<string> := [];
      ghost var ps: seq<Part> := [];
      if days > 0 {
        RenderAllSnoc(ps, Part(days, Day));
        parts, ps := parts + [RenderPart(Part(days, Day))], ps + [Part(days, Day)];
      }
      if hours > 0 {
        RenderAllSnoc(ps, Part(hours, Hour));
        parts, ps := parts + [RenderPart(Part(hours, Hour))], ps + [Part(hours, Hour)];
      }
      if minutes > 0 || parts == [] {
        RenderAllSnoc(ps, Part(minutes, Minute));
        parts, ps := parts + [RenderPart(Part(minutes, Minute))], ps + [Part(minutes, Minute)];
      }
      assert ps == Parts();
      text := Join(", ", parts);
    }
  }

  lemma RenderAllSnoc(ps: seq<Part>, p: Part)
    ensures RenderAll(ps + [p]) == RenderAll(ps) + [RenderPart(p)]
  {
  }

  /** For a non-negative uptime, days, hours and minutes add back up to
      the uptime less the seconds below a minute. */
  lemma UptimeDecomposition(u: UptimeSnapshot)
    requires u.totalSeconds >= 0
    ensures var whole := u.Days() * SecondsPerDay + u.Hours() * SecondsPerHour + u.Minutes() * SecondsPerMinute;
      whole <= u.totalSeconds < whole + SecondsPerMinute
  {
    var s := u.totalSeconds;
    var r := s % SecondsPerDay;
    assert s == u.Days() * SecondsPerDay + r;
    var r2 := r % SecondsPerHour;
    assert r == u.Hours() * SecondsPerHour + r2;
    assert s == (u.Days() * 24 + u.Hours()) * SecondsPerHour + r2;
    assert s % SecondsPerHour == r2;
  }

  /** The parts of the text stand for the uptime less the seconds below
      a minute: the rendering loses nothing else. */
  lemma PartsCoverUptime(u: UptimeSnapshot)
    requires u.totalSeconds >= 0
    ensures var p := PartsSeconds(u.Parts());
      p <= u.totalSeconds < p + SecondsPerMinute
  {
    UptimeDecomposition(u);
    var ps := u.Parts();
    var d := if u.Days() > 0 then [Part(u.Days(), Day)] else [];
    var h := if u.Hours() > 0 then [Part(u.Hours(), Hour)] else [];
    var m := if u.Minutes() > 0 || d + h == [] then [Part(u.Minutes(), Minute)] else [];
    assert ps == d + h + m;
    PartsSecondsAppend(d, h);
    PartsSecondsAppend(d + h, m);
    assert PartsSeconds(d) == u.Days() * SecondsPerDay by {
      if u.Days() > 0 {
        assert PartsSeconds(d) == PartsSeconds([]) + u.Days() * SecondsPerDay;
      }
    }
    assert PartsSeconds(h) == u.Hours() * SecondsPerHour by {
      if u.Hours() > 0 {
        assert PartsSeconds(h) == PartsSeconds([]) + u.Hours() * SecondsPerHour;
      }
    }
    assert PartsSeconds(m) == u.Minutes() * SecondsPerMinute by {
      if m != [] {
        assert PartsSeconds(m) == PartsSeconds([]) + u.Minutes() * SecondsPerMinute;
      }
    }
  }

  lemma {:induction false} PartsSecondsAppend(a: seq<Part>, b: seq<Part>)
    ensures PartsSeconds(a + b) == PartsSeconds(a) + PartsSeconds(b)
    decreases |b|
  {
    if b == [] {
      assert a + b == a;
    } else {
      assert (a + b)[..|a + b| - 1] == a + b[..|b| - 1];
      PartsSecondsAppend(a, b[..|b| - 1]);
    }
  }

  /** The text is never empty. */
  lemma TextNonEmpty(u: UptimeSnapshot)
    ensures u.Text() != ""
  {
    var rs := RenderAll(u.Parts());
    JoinNonEmpty(", ", rs);
  }

  lemma JoinNonEmpty(sep: string, parts: seq<string>)
    requires |parts| >= 1 && parts[0] != ""
    ensures Join(sep, parts) != ""
  {
    if |parts| > 1 {
      assert Join(sep, parts)[0] == parts[0][0];
    }
  }

  /** Less than a minute of uptime reads "0 minutes". */
  lemma UnderAMinute(u: UptimeSnapshot)
    requires 0 <= u.totalSeconds < 60
    ensures u.Text() == "0 minutes"
  {
    assert u.Days() == 0 && u.Hours() == 0 && u.Minutes() == 0;
    assert u.Parts() == [Part(0, Minute)];
    assert NatToString(0) == "0";
  }

  lemma Join3(sep: string, a: string, b: string, c: string)
    ensures Join(sep, [a, b, c]) == a + sep + b + sep + c
  {
    assert [a, b, c][1..] == [b, c];
    assert [b, c][1..] == [c];
    assert Join(sep, [c]) == c;
    assert Join(sep, [b, c]) == b + sep + c;
    assert Join(sep, [a, b, c]) == a + sep + (b + sep + c);
  }

  /** Five days, three hours and forty-two minutes (and a few seconds)
      read "5 days, 3 hours, 42 minutes". */
  lemma FiveDaysExample(u: UptimeSnapshot)
    requires u.totalSeconds == 5 * 86400 + 3 * 3600 + 42 * 60 + 15
    ensures u.Text() == "5 days, 3 hours, 42 minutes"
  {
    assert u.Parts() == [Part(5, Day), Part(3, Hour), Part(42, Minute)] by {
      assert u.Days() == 5 && u.Hours() == 3 && u.Minutes() == 42;
    }
    FiveDaysRendering();
  }

  lemma FiveDaysRendering()
    ensures Join(", ", RenderAll([Part(5, Day), Part(3, Hour), Part(42, Minute)])) == "5 days, 3 hours, 42 minutes"
  {
    FiveDaysParts();
    RenderThree(Part(5, Day), Part(3, Hour), Part(42, Minute));
    FiveDaysText();
  }

  lemma FiveDaysParts()
    ensures RenderPart(Part(5, Day)) == "5 days"
    ensures RenderPart(Part(3, Hour)) == "3 hours"
    ensures RenderPart(Part(42, Minute)) == "42 minutes"
  {
    assert IntToString(5) == "5";
    assert IntToString(3) == "3";
    FortyTwo();
  }

  lemma FiveDaysText()
    ensures "5 days" + ", " + "3 hours" + ", " + "42 minutes" == "5 days, 3 hours, 42 minutes"
  {
  }

  lemma RenderThree(p1: Part, p2: Part, p3: Part)
    ensures Join(", ", RenderAll([p1, p2, p3])) == RenderPart(p1) + ", " + RenderPart(p2) + ", " + RenderPart(p3)
  {
    assert RenderAll([p1, p2, p3]) == [RenderPart(p1), RenderPart(p2), RenderPart(p3)];
    Join3(", ", RenderPart(p1), RenderPart(p2), RenderPart(p3));
  }

  lemma FortyTwo()
    ensures IntToString(42) == "42"
  {
    assert NatToString(4) == "4";
    assert NatToString(42) == NatToString(4) + [DigitChar(2)];
  }

  /** One of each unit is singular: "1 day, 1 hour, 1 minute". */
  lemma SingularExample(u: UptimeSnapshot)
    requires u.totalSeconds == 86400 + 3600 + 60 + 1
    ensures u.Text() == "1 day, 1 hour, 1 minute"
  {
    assert u.Parts() == [Part(1, Day), Part(1, Hour), Part(1, Minute)] by {
      assert u.Days() == 1 && u.Hours() == 1 && u.Minutes() == 1;
    }
    SingularRendering();
  }

  lemma SingularRendering()
    ensures Join(", ", RenderAll([Part(1, Day), Part(1, Hour), Part(1, Minute)])) == "1 day, 1 hour, 1 minute"
  {
    SingularParts();
    RenderThree(Part(1, Day), Part(1, Hour), Part(1, Minute));
    SingularText();
  }

  lemma SingularParts()
    ensures RenderPart(Part(1, Day)) == "1 day"
    ensures RenderPart(Part(1, Hour)) == "1 hour"
    ensures RenderPart(Part(1, Minute)) == "1 minute"
  {
    assert IntToString(1) == "1";
  }

  lemma SingularText()
    ensures "1 day" + ", " + "1 hour" + ", " + "1 minute" == "1 day, 1 hour, 1 minute"
  {
  }

  /** Whole hours with no spare minutes leave the minutes out. */
  lemma HoursOnlyExample(u: UptimeSnapshot)
    requires u.totalSeconds == 2 * 3600
    ensures u.Text() == "2 hours"
  {
    assert u.Days() == 0 && u.Hours() == 2 && u.Minutes() == 0;
    assert u.Parts() == [Part(2, Hour)];
    assert IntToString(2) == "2";
    assert RenderPart(Part(2, Hour)) == "2 hours";
    assert RenderAll(u.Parts()) == ["2 hours"];
  }
}
