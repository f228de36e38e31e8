/** The `sysctl vm.loadavg` parser for macOS: three load averages
    between braces, "{ 0.57 0.80 0.85 }". */
module MacOsSysctlLoadavgParser {
  import opened Wrappers
  import opened PhpText
  import opened LoadAverage

  const Braces: set<char> := {'{', '}'}

  /** The output with surrounding braces, then surrounding whitespace,
      removed. */
  function Unbraced(t: string): string {
    Trim(TrimSet(t, Braces))
  }

  /** What parse returns: blank output and fewer than three fields
      between the braces are errors about the command; otherwise the
      first three fields. */
  function Parsed(output: string): Result<LoadAverageSnapshot> {
    var t := Trim(output);
    if t == "" then Failure(ParseErrorForCommand("sysctl vm.loadavg", "Empty output"))
    else
      var fields := PregSplitWs(Unbraced(t));
      if |fields| < 3 then Failure(ParseErrorForCommand("sysctl vm.loadavg", "Insufficient fields"))
      else Success(SnapshotOfFields(fields))
  }

  /** Parsing fails exactly for blank output and for output of fewer than
      three fields between the braces, each with its own reason;
      otherwise it reads the first three fields. */
  lemma ParseErrors(output: string)
    ensures var t := Trim(output);
      var r := Parsed(output);
      && (r.Failure? <==> t == "" || |PregSplitWs(Unbraced(t))| < 3)
      && (t == "" ==> r.error == ParseErrorForCommand("sysctl vm.loadavg", "Empty output"))
      && (t != "" && |PregSplitWs(Unbraced(t))| < 3 ==>
            r.error == ParseErrorForCommand("sysctl vm.loadavg", "Insufficient fields"))
      && (r.Success? ==> r.value == SnapshotOfFields(PregSplitWs(Unbraced(t))))
  {
  }

  /** Nothing but characters trim() removes. */
  predicate Blank(w: string) {
    forall i :: 0 <= i < |w| ==> w[i] in TrimChars
  }

  /** Braces around nothing but whitespace hold no fields: "{ }" is
      rejected as too short. */
  lemma EmptyBraces(w: string)
    requires Blank(w)
    ensures Parsed("{" + w + "}") == Failure(ParseErrorForCommand("sysctl vm.loadavg", "Insufficient fields"))
  {
    BracedBlankFields(w);
    FieldsShort("{" + w + "}");
  }

  lemma BracedBlankFields(w: string)
    requires Blank(w)
    ensures var t := "{" + w + "}";
      Trim(t) != "" && |PregSplitWs(Unbraced(Trim(t)))| < 3
  {
    BracesKept(w);
    BracesAroundBlank(w);
  }

  lemma FieldsShort(output: string)
    requires Trim(output) != "" && |PregSplitWs(Unbraced(Trim(output)))| < 3
    ensures Parsed(output) == Failure(ParseErrorForCommand("sysctl vm.loadavg", "Insufficient fields"))
  {
  }

  lemma BracesKept(w: string)
    ensures Trim("{" + w + "}") == "{" + w + "}"
  {
    var t := "{" + w + "}";
    assert t[0] == '{' && t[|t| - 1] == '}';
    TrimSetNoop(t, TrimChars);
  }

  lemma BracesAroundBlank(w: string)
    requires Blank(w)
    ensures Unbraced("{" + w + "}") == "" && |PregSplitWs(Unbraced("{" + w + "}"))| == 1
  {
    assert forall i :: 0 <= i < |w| ==> w[i] !in Braces;
    TrimSetPadding("{", w, "}", Braces);
    TrimSetEmpty(w, TrimChars);
    assert PregSplitWs("") == [""];
  }

  /** The three averages are read back whether sysctl prints them between
      braces, as macOS does, or bare. */
  lemma SysctlRoundTrip(one: Decimal, five: Decimal, fifteen: Decimal)
    requires one.WellFormed() && five.WellFormed() && fifteen.WellFormed()
    ensures var line := Join(" ", [one.Text(), five.Text(), fifteen.Text()]);
      var expected := Success(LoadAverageSnapshot(one.Value(), five.Value(), fifteen.Value()));
      Parsed("{ " + line + " }\n") == expected && Parsed(line + "\n") == expected
  {
    var ws := [one.Text(), five.Text(), fifteen.Text()];
    var line := Join(" ", ws);
    DecimalsLine(one, five, fifteen);
    BracedLine(line);
    BareLine(line);
    FieldsRead("{ " + line + " }\n", ws);
    FieldsRead(line + "\n", ws);
    DecimalsRead(one, five, fifteen);
  }

  /** Three decimals joined by spaces make a line without braces that
      splits back into them. */
  lemma DecimalsLine(one: Decimal, five: Decimal, fifteen: Decimal)
    requires one.WellFormed() && five.WellFormed() && fifteen.WellFormed()
    ensures var ws := [one.Text(), five.Text(), fifteen.Text()];
      var line := Join(" ", ws);
      LineOk(line) && PregSplitWs(line) == ws && '{' !in line && '}' !in line
  {
    var ws := [one.Text(), five.Text(), fifteen.Text()];
    assert forall k :: 0 <= k < 3 ==> IsWord(ws[k]) by {
      DecimalIsWord(one);
      DecimalIsWord(five);
      DecimalIsWord(fifteen);
    }
    WordsLine(ws);
    WordsLineEnds(ws);
    DecimalsAvoid(one, five, fifteen, '{');
    DecimalsAvoid(one, five, fifteen, '}');
  }

  lemma DecimalsAvoid(one: Decimal, five: Decimal, fifteen: Decimal, c: char)
    requires one.WellFormed() && five.WellFormed() && fifteen.WellFormed()
    requires !IsDigit(c) && c != '.' && c != ' '
    ensures c !in Join(" ", [one.Text(), five.Text(), fifteen.Text()])
  {
    var ws := [one.Text(), five.Text(), fifteen.Text()];
    DecimalAvoids(one, c);
    DecimalAvoids(five, c);
    DecimalAvoids(fifteen, c);
    assert forall k :: 0 <= k < |ws| ==> c !in ws[k];
    JoinAvoids(ws, c);
  }

  lemma DecimalsRead(one: Decimal, five: Decimal, fifteen: Decimal)
    requires one.WellFormed() && five.WellFormed() && fifteen.WellFormed()
    ensures SnapshotOfFields([one.Text(), five.Text(), fifteen.Text()])
      == LoadAverageSnapshot(one.Value(), five.Value(), fifteen.Value())
  {
    FloatCastOfDecimal(one);
    FloatCastOfDecimal(five);
    FloatCastOfDecimal(fifteen);
  }

  /** Braces around a line, with a space inside each, are taken off. */
  lemma BracedLine(line: string)
    requires LineOk(line)
    ensures Trim("{ " + line + " }\n") != "" && Unbraced(Trim("{ " + line + " }\n")) == line
  {
    BracedTrimmed(line);
    BracesOff(line);
    SpacesOff(line);
  }

  lemma SpacesOff(line: string)
    requires LineOk(line)
    ensures Trim(" " + line + " ") == line
  {
    TrimSetPadding(" ", line, " ", TrimChars);
  }

  lemma BracedTrimmed(line: string)
    ensures Trim("{ " + line + " }\n") == "{ " + line + " }"
  {
    var x := "{ " + line + " }";
    assert x + "\n" == "{ " + line + " }\n";
    assert x[0] == '{' && x[|x| - 1] == '}';
    TerminatedLine(x);
  }

  lemma BracesOff(line: string)
    requires LineOk(line)
    ensures TrimSet("{ " + line + " }", Braces) == " " + line + " "
  {
    assert "{ " + line + " }" == "{" + (" " + line + " ") + "}";
    TrimSetPadding("{", " " + line + " ", "}", Braces);
  }

  /** A bare line is left as it is. */
  lemma BareLine(line: string)
    requires LineOk(line) && '{' !in line && '}' !in line
    ensures Trim(line + "\n") != "" && Unbraced(Trim(line + "\n")) == line
  {
    TerminatedLine(line);
    TrimSetNoop(line, Braces);
    TrimSetNoop(line, TrimChars);
  }

  lemma FieldsRead(output: string, fields: seq<string>)
    requires Trim(output) != "" && PregSplitWs(Unbraced(Trim(output))) == fields && |fields| >= 3
    ensures Parsed(output) == Success(SnapshotOfFields(fields))
  {
  }
}
