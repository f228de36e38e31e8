/** The `sysctl kern.boottime` parser for macOS: the boot instant is the
    `sec` field of "{ sec = 1762527162, usec = 610941 } <date>".  The
    current instant is a parameter. */
module MacOsSysctlBoottimeParser {
  import opened Wrappers
  import opened PhpText
  import opened Uptime
  import Seqs

  // ---------------------------------------------------------------
  // The pattern sec\s*=\s*(\d+)
  // ---------------------------------------------------------------

  /** The first position at or after i that is not PCRE whitespace. */
  function SkipSpaces(s: string, i: nat): (j: nat)
    requires i <= |s|
    ensures i <= j <= |s|
    ensures forall k :: i <= k < j ==> s[k] in PcreSpaces
    ensures j == |s| || s[j] !in PcreSpaces
    decreases |s| - i
  {
    if i < |s| && s[i] in PcreSpaces then SkipSpaces(s, i + 1) else i
  }

  /** The digits the pattern captures when a match starts at i, or None
      when none starts there.  Giving back whitespace never helps, since
      neither '=' nor a digit is whitespace, and the digits are taken
      greedily. */
  function MatchSecAt(s: string, i: nat): (r: Option<string>)
    ensures r.Some? ==> r.value != "" && IsDigits(r.value)
  {
    if !(i + 3 <= |s| && s[i..i + 3] == "sec") then None
    else
      var j := SkipSpaces(s, i + 3);
      if j == |s| || s[j] != '=' then None
      else
        var k := SkipSpaces(s, j + 1);
        var d := DigitPrefix(s[k..]);
        if d == "" then None else Some(d)
  }

  /** preg_match: the digits of the leftmost match. */
  function FirstSecMatch(s: string): (r: Option<string>)
    ensures r.Some? ==> r.value != "" && IsDigits(r.value)
  {
    var r := Seqs.FirstFrom(0, |s|, (p: nat) => MatchSecAt(s, p));
    if r.Some? then
      Seqs.FirstFromLeftmost(0, |s|, (p: nat) => MatchSecAt(s, p), r.value);
      r
    else r
  }

  /** The search finds the digits of a match exactly when one starts
      there and none starts earlier. */
  lemma FirstSecMatchLeftmost(s: string, d: string)
    ensures FirstSecMatch(s) == Some(d) <==>
      exists p :: 0 <= p < |s| && MatchSecAt(s, p) == Some(d) && forall q :: 0 <= q < p ==> MatchSecAt(s, q).None?
  {
    var f := (p: nat) => MatchSecAt(s, p);
    Seqs.FirstFromLeftmost(0, |s|, f, d);
    if FirstSecMatch(s) == Some(d) {
      var p :| 0 <= p < |s| && f(p) == Some(d) && forall q :: 0 <= q < p ==> f(q).None?;
      assert MatchSecAt(s, p) == Some(d);
      forall q | 0 <= q < p
        ensures MatchSecAt(s, q).None?
      {
        assert f(q).None?;
      }
    } else {
      forall p | 0 <= p < |s| && MatchSecAt(s, p) == Some(d)
        ensures exists q :: 0 <= q < p && MatchSecAt(s, q).Some?
      {
        assert f(p) == Some(d);
        var q :| 0 <= q < p && f(q).Some?;
        assert MatchSecAt(s, q).Some?;
      }
    }
  }

  /** The search finds nothing exactly when no match starts anywhere. */
  lemma NoSecMatch(s: string)
    ensures FirstSecMatch(s).None? <==> forall p :: 0 <= p < |s| ==> MatchSecAt(s, p).None?
  {
    var f := (p: nat) => MatchSecAt(s, p);
    Seqs.FirstFromNone(0, |s|, f);
    assert forall p :: f(p) == MatchSecAt(s, p);
  }

  // ---------------------------------------------------------------
  // parse
  // ---------------------------------------------------------------

  /** The snapshot for a boot instant at instant `now`: a non-positive
      instant is invalid and a boot after `now` is in the future. */
  function SnapshotOfBoot(bootTimestamp: int, now: int): Result<UptimeSnapshot> {
    if bootTimestamp <= 0 then Failure(ParseErrorWith("Invalid boot timestamp"))
    else
      var totalSeconds := now - bootTimestamp;
      if totalSeconds < 0 then Failure(ParseErrorWith("Boot time is in the future"))
      else Success(UptimeSnapshot(totalSeconds, bootTimestamp, now))
  }

  /** What parse returns at instant `now`: blank output and output
      without a `sec = <digits>` match are errors; otherwise the digits
      of the first match are the boot instant. */
  function Parsed(contents: string, now: int): Result<UptimeSnapshot> {
    var t := Trim(contents);
    if t == "" then Failure(ParseErrorWith("Empty sysctl kern.boottime output"))
    else
      match FirstSecMatch(t)
      case None => Failure(ParseErrorWith("Could not parse boot time seconds from sysctl output"))
      case Some(d) => SnapshotOfBoot(IntCast(d), now)
  }

  /** A snapshot read from sysctl has a positive boot instant, is taken
      at `now`, and its uptime is the time since boot, never negative. */
  lemma ParsedSnapshot(contents: string, now: int)
    requires Parsed(contents, now).Success?
    ensures var u := Parsed(contents, now).value;
      u.bootTime > 0 && u.timestamp == now && u.totalSeconds == now - u.bootTime && u.totalSeconds >= 0
  {
  }

  /** Each failure happens exactly in its own case, with its own message;
      the boot instant is the value of the first match's digits. */
  lemma ParseErrors(contents: string, now: int)
    ensures var t := Trim(contents);
      var r := Parsed(contents, now);
      && (t == "" ==> r == Failure(ParseErrorWith("Empty sysctl kern.boottime output")))
      && (t != "" && FirstSecMatch(t).None? ==>
            r == Failure(ParseErrorWith("Could not parse boot time seconds from sysctl output")))
      && (t != "" && FirstSecMatch(t).Some? ==>
            var boot := DecimalValue(FirstSecMatch(t).value);
            && (boot == 0 ==> r == Failure(ParseErrorWith("Invalid boot timestamp")))
            && (0 < boot && now < boot ==> r == Failure(ParseErrorWith("Boot time is in the future")))
            && (0 < boot <= now ==> r == Success(UptimeSnapshot(now - boot, boot, now))))
  {
    var t := Trim(contents);
    if t != "" && FirstSecMatch(t).Some? {
      IntCastOfDigits(FirstSecMatch(t).value);
    }
  }

  // ---------------------------------------------------------------
  // What sysctl prints
  // ---------------------------------------------------------------

  /** The prefix sysctl prints before the seconds. */
  const SecPrefix := "{ sec = "

  /** The characters of a record starting with the prefix. */
  lemma RecordChars(s: string, digits: string, rest: string)
    requires s == SecPrefix + digits + rest
    ensures |s| >= 8 + |digits| && s[8..] == digits + rest
    ensures s[0] == '{' && s[1] == ' ' && s[2..5] == "sec" && s[5] == ' ' && s[6] == '=' && s[7] == ' '
  {
    assert s[..8] == SecPrefix;
  }

  /** A match at i whose "sec" is followed by one space, '=' and one
      space captures the digits after them. */
  lemma MatchSpaced(s: string, i: nat, digits: string, rest: string)
    requires i + 8 <= |s| && s[i..i + 3] == "sec" && s[i + 3] == ' ' && s[i + 4] == '=' && s[i + 5] == ' '
    requires s[i + 6..] == digits + rest
    requires digits != "" && IsDigits(digits) && (rest == [] || !IsDigit(rest[0]))
    ensures MatchSecAt(s, i) == Some(digits)
  {
    assert SkipSpaces(s, i + 4) == i + 4;
    assert SkipSpaces(s, i + 3) == i + 4;
    assert s[i + 6] == digits[0];
    assert SkipSpaces(s, i + 6) == i + 6;
    assert SkipSpaces(s, i + 5) == i + 6;
    DigitPrefixOfDigits(digits, rest);
  }

  /** No match starts where the text does not read "sec". */
  lemma NoMatchAt(s: string, i: nat)
    requires i < |s| && s[i] != 's'
    ensures MatchSecAt(s, i).None?
  {
    if i + 3 <= |s| {
      assert s[i..i + 3][0] == s[i];
    }
  }

  /** The leftmost match is at 2 when none starts at 0 or 1. */
  lemma FirstAtTwo(s: string, d: string)
    requires |s| > 2 && MatchSecAt(s, 0).None? && MatchSecAt(s, 1).None? && MatchSecAt(s, 2) == Some(d)
    ensures FirstSecMatch(s) == Some(d)
  {
    FirstSecMatchLeftmost(s, d);
    assert forall q :: 0 <= q < 2 ==> MatchSecAt(s, q).None?;
  }

  /** The match starts at the "sec" two characters in and captures the
      seconds' digits, wherever the text after them begins with a
      non-digit. */
  lemma MatchInRecord(s: string, digits: string, rest: string)
    requires digits != "" && IsDigits(digits) && rest != [] && !IsDigit(rest[0])
    requires s == SecPrefix + digits + rest
    ensures FirstSecMatch(s) == Some(digits)
  {
    RecordChars(s, digits, rest);
    NoMatchAt(s, 0);
    NoMatchAt(s, 1);
    assert s[8..] == s[2 + 6..];
    MatchSpaced(s, 2, digits, rest);
    FirstAtTwo(s, digits);
  }

  /** Whatever trims to a text whose leftmost match captures `d` parses
      as the boot instant `d` names. */
  lemma MatchRead(contents: string, s: string, d: string, now: int)
    requires Trim(contents) == s && s != "" && FirstSecMatch(s) == Some(d)
    ensures Parsed(contents, now) == SnapshotOfBoot(DecimalValue(d), now)
  {
    IntCastOfDigits(d);
  }

  /** The record sysctl prints, "{ sec = <sec>, usec = <usec> }". */
  function Record(sec: nat, usec: nat): string {
    SecPrefix + NatToString(sec) + (", usec = " + NatToString(usec) + " }")
  }

  /** The record sysctl prints is read back as the boot instant it
      names, whenever that instant is positive and not after `now`. */
  lemma BoottimeRoundTrip(sec: nat, usec: nat, now: int)
    requires 0 < sec <= now
    ensures Parsed(Record(sec, usec) + "\n", now) == Success(UptimeSnapshot(now - sec, sec, now))
  {
    var digits := NatToString(sec);
    var rest := ", usec = " + NatToString(usec) + " }";
    var s := Record(sec, usec);
    RecordEnds(s, digits, rest, usec);
    TerminatedLine(s);
    MatchInRecord(s, digits, rest);
    MatchRead(s + "\n", s, digits, now);
  }

  lemma RecordEnds(s: string, digits: string, rest: string, usec: nat)
    requires rest == ", usec = " + NatToString(usec) + " }"
    requires s == SecPrefix + digits + rest
    ensures rest != [] && rest[0] == ','
    ensures s != "" && s[0] !in TrimChars && s[|s| - 1] !in TrimChars
  {
    assert s[0] == '{' && s[|s| - 1] == '}';
  }
}
