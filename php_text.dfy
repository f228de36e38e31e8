/** The PHP string built-ins the parsers rely on, written out with the
    semantics PHP 8 gives them: trim, explode, preg_split('/\s+/'),
    strrpos, substr, the (int) and (float) casts, strtolower,
    str_starts_with and str_contains, and the integer-to-string
    conversion used when numbers are interpolated into strings. */
module PhpText {
  import opened Wrappers

  // ---------------------------------------------------------------
  // Character classes
  // ---------------------------------------------------------------

  /** The characters trim() strips when it is given no list: " \t\n\r\0\x0B". */
  const TrimChars: set<char> := {' ', '\t', '\n', '\r', '\0', '\U{B}'}

  /** The characters PCRE's \s matches: space, \t, \n, \x0B, \f, \r.
      Unlike trim(), \s includes the form feed and excludes NUL. */
  const PcreSpaces: set<char> := {' ', '\t', '\n', '\U{B}', '\U{C}', '\r'}

  predicate IsDigit(c: char) { '0' <= c <= '9' }

  predicate IsHexDigit(c: char) {
    IsDigit(c) || 'a' <= c <= 'f' || 'A' <= c <= 'F'
  }

  // ---------------------------------------------------------------
  // trim
  // ---------------------------------------------------------------

  /** Drops every leading character that belongs to `cs`. */
  function TrimLeft(s: string, cs: set<char>): (r: string)
    ensures |r| <= |s| && r == s[|s| - |r|..]
    ensures r == [] || r[0] !in cs
    ensures forall i :: 0 <= i < |s| - |r| ==> s[i] in cs
    decreases |s|
  {
    if s != [] && s[0] in cs then TrimLeft(s[1..], cs) else s
  }

  /** Drops every trailing character that belongs to `cs`. */
  function TrimRight(s: string, cs: set<char>): (r: string)
    ensures |r| <= |s| && r == s[..|r|]
    ensures r == [] || r[|r| - 1] !in cs
    ensures forall i :: |r| <= i < |s| ==> s[i] in cs
    decreases |s|
  {
    if s != [] && s[|s| - 1] in cs then TrimRight(s[..|s| - 1], cs) else s
  }

  /** trim($s, $chars). */
  function TrimSet(s: string, cs: set<char>): string {
    TrimRight(TrimLeft(s, cs), cs)
  }

  /** trim($s). */
  function Trim(s: string): string {
    TrimSet(s, TrimChars)
  }

  /** What TrimLeft keeps is the end of its input. */
  lemma {:induction false} TrimLeftSplit(s: string, cs: set<char>)
    ensures s == s[..|s| - |TrimLeft(s, cs)|] + TrimLeft(s, cs)
  {
    assert s[|s| - |TrimLeft(s, cs)|..] == TrimLeft(s, cs);
  }

  /** What TrimRight keeps is the start of its input. */
  lemma {:induction false} TrimRightSplit(s: string, cs: set<char>)
    ensures s == TrimRight(s, cs) + s[|TrimRight(s, cs)|..]
  {
    assert s[..|TrimRight(s, cs)|] == TrimRight(s, cs);
  }

  /** trim() splits its input into the leading characters it drops and
      what is left after them, and that into what it keeps and the
      trailing characters it drops. */
  lemma TrimParts(s: string)
    ensures s == s[..|s| - |TrimLeft(s, TrimChars)|] + TrimLeft(s, TrimChars)
    ensures TrimLeft(s, TrimChars) == Trim(s) + TrimLeft(s, TrimChars)[|Trim(s)|..]
  {
    TrimLeftSplit(s, TrimChars);
    TrimRightSplit(TrimLeft(s, TrimChars), TrimChars);
  }

  /** What TrimRight drops holds no character outside the set. */
  lemma {:induction false} TrimRightDropped(s: string, cs: set<char>, c: char)
    requires c !in cs
    ensures c !in s[|TrimRight(s, cs)|..]
    decreases |s|
  {
    if s != [] && s[|s| - 1] in cs {
      var init := s[..|s| - 1];
      TrimRightDropped(init, cs, c);
      assert s[|TrimRight(s, cs)|..] == init[|TrimRight(init, cs)|..] + [s[|s| - 1]];
    }
  }

  /** The trailing characters trim() drops hold no ')'. */
  lemma TrimTailNoParen(s: string)
    ensures ')' !in TrimLeft(s, TrimChars)[|Trim(s)|..]
  {
    TrimRightDropped(TrimLeft(s, TrimChars), TrimChars, ')');
  }

  /** strrpos sees through text put in front: an occurrence in `s` is
      found shifted by the length of the prefix. */
  lemma {:induction false} LastIndexOfPrefixed(a: string, s: string, c: char)
    requires c in s
    ensures LastIndexOf(a + s, c) == Some(|a| + LastIndexOf(s, c).value)
  {
    var i := LastIndexOf(s, c).value;
    assert (a + s)[|a| + i + 1..] == s[i + 1..];
    LastIndexOfAt(a + s, c, |a| + i);
  }

  /** strrpos ignores appended text that does not hold `c`. */
  lemma {:induction false} LastIndexOfSuffixed(s: string, b: string, c: char)
    requires c in s && c !in b
    ensures LastIndexOf(s + b, c) == LastIndexOf(s, c)
  {
    var i := LastIndexOf(s, c).value;
    assert (s + b)[i + 1..] == s[i + 1..] + b;
    LastIndexOfAt(s + b, c, i);
  }

  /** substr past a prefix is substr of what follows it. */
  lemma {:induction false} SubstrPrefixed(a: string, s: string, i: nat, k: nat)
    ensures Substr(a + s, |a| + i + k) == Substr(s, i + k)
  {
    if i + k <= |s| {
      assert (a + s)[|a| + i + k..] == s[i + k..];
    }
  }

  /** substr inside `s` of `s + b` is substr of `s` followed by b. */
  lemma {:induction false} SubstrSuffixed(s: string, b: string, k: nat)
    requires k <= |s|
    ensures Substr(s + b, k) == Substr(s, k) + b
  {
    assert (s + b)[k..] == s[k..] + b;
  }

  /** What trimming leaves has no trimmable character at either end. */
  lemma TrimSetEnds(s: string, cs: set<char>)
    ensures var r := TrimSet(s, cs);
      r == [] || (r[0] !in cs && r[|r| - 1] !in cs)
  {
    var l := TrimLeft(s, cs);
    var r := TrimRight(l, cs);
    if r != [] {
      assert r[0] == l[0];
    }
  }

  /** trim() removes characters; it never brings in new ones. */
  lemma TrimSetKeeps(s: string, cs: set<char>, c: char)
    requires c in TrimSet(s, cs)
    ensures c in s
  {
    var l := TrimLeft(s, cs);
    var r := TrimRight(l, cs);
    var i :| 0 <= i < |r| && r[i] == c;
    assert l[i] == c;
    assert s[|s| - |l| + i] == c;
  }

  /** Trimming is idempotent. */
  lemma TrimSetIdempotent(s: string, cs: set<char>)
    ensures TrimSet(TrimSet(s, cs), cs) == TrimSet(s, cs)
  {
    TrimSetEnds(s, cs);
    TrimSetNoop(TrimSet(s, cs), cs);
  }

  /** A string with no trimmable character at either end is left alone. */
  lemma TrimSetNoop(s: string, cs: set<char>)
    requires s == [] || (s[0] !in cs && s[|s| - 1] !in cs)
    ensures TrimSet(s, cs) == s
  {
    assert TrimLeft(s, cs) == s;
    assert TrimRight(s, cs) == s;
  }

  /** Trimming gives "" exactly when every character is trimmable. */
  lemma TrimSetEmpty(s: string, cs: set<char>)
    ensures TrimSet(s, cs) == "" <==> forall i :: 0 <= i < |s| ==> s[i] in cs
  {
    var l := TrimLeft(s, cs);
    if l != [] {
      assert l[0] !in cs;
      assert TrimRight(l, cs) != [];
      assert s[|s| - |l|] == l[0];
    }
  }

  /** Padding made of trimmable characters does not change the trimmed value. */
  lemma TrimSetPadding(w0: string, t: string, w1: string, cs: set<char>)
    requires forall i :: 0 <= i < |w0| ==> w0[i] in cs
    requires forall i :: 0 <= i < |w1| ==> w1[i] in cs
    requires t == [] || (t[0] !in cs && t[|t| - 1] !in cs)
    ensures TrimSet(w0 + t + w1, cs) == t
  {
    if t == [] {
      var s := w0 + t + w1;
      assert forall i :: 0 <= i < |s| ==> s[i] in cs by {
        forall i | 0 <= i < |s| ensures s[i] in cs {
          if i < |w0| { assert s[i] == w0[i]; } else { assert s[i] == w1[i - |w0|]; }
        }
      }
      TrimSetEmpty(s, cs);
    } else {
      TrimLeftPadding(w0, t + w1, cs);
      assert w0 + t + w1 == w0 + (t + w1);
      TrimRightPadding(t, w1, cs);
    }
  }

  lemma {:induction false} TrimLeftPadding(w: string, s: string, cs: set<char>)
    requires forall i :: 0 <= i < |w| ==> w[i] in cs
    requires s == [] || s[0] !in cs
    ensures TrimLeft(w + s, cs) == s
    decreases |w|
  {
    if w == [] {
      assert w + s == s;
    } else {
      assert (w + s)[1..] == w[1..] + s;
      TrimLeftPadding(w[1..], s, cs);
    }
  }

  lemma {:induction false} TrimRightPadding(s: string, w: string, cs: set<char>)
    requires forall i :: 0 <= i < |w| ==> w[i] in cs
    requires s == [] || s[|s| - 1] !in cs
    ensures TrimRight(s + w, cs) == s
    decreases |w|
  {
    if w == [] {
      assert s + w == s;
    } else {
      assert (s + w)[..|s + w| - 1] == s + w[..|w| - 1];
      TrimRightPadding(s, w[..|w| - 1], cs);
    }
  }

  // ---------------------------------------------------------------
  // searching
  // ---------------------------------------------------------------

  /** The index of the first `c` in `s` (strpos for one character). */
  function IndexOf(s: string, c: char): (r: Option<nat>)
    ensures r.None? <==> c !in s
    ensures r.Some? ==> r.value < |s| && s[r.value] == c && c !in s[..r.value]
  {
    if s == [] then None
    else if s[0] == c then Some(0)
    else match IndexOf(s[1..], c)
      case None => None
      case Some(i) => assert s[1..][..i] == s[1..i + 1]; Some(i + 1)
  }

  /** The index of the first character of `s` that lies in `cs`. */
  function IndexOfAny(s: string, cs: set<char>): (r: Option<nat>)
    ensures r.None? <==> forall i :: 0 <= i < |s| ==> s[i] !in cs
    ensures r.Some? ==> r.value < |s| && s[r.value] in cs
    ensures r.Some? ==> forall i :: 0 <= i < r.value ==> s[i] !in cs
  {
    if s == [] then None
    else if s[0] in cs then Some(0)
    else match IndexOfAny(s[1..], cs)
      case None => None
      case Some(i) => Some(i + 1)
  }

  /** strrpos($s, $c) for one character: the index of the last occurrence. */
  function LastIndexOf(s: string, c: char): (r: Option<nat>)
    ensures r.None? <==> c !in s
    ensures r.Some? ==> r.value < |s| && s[r.value] == c && c !in s[r.value + 1..]
    decreases |s|
  {
    if s == [] then None
    else if s[|s| - 1] == c then Some(|s| - 1)
    else
      var r := LastIndexOf(s[..|s| - 1], c);
      LastIndexOfStep(s, c, r);
      r
  }

  /** Dropping a last character other than c changes neither whether c
      occurs nor whether an occurrence is the last one. */
  lemma LastIndexOfStep(s: string, c: char, r: Option<nat>)
    requires s != [] && s[|s| - 1] != c
    requires r.Some? ==> r.value < |s| - 1 && c !in s[..|s| - 1][r.value + 1..]
    ensures c in s <==> c in s[..|s| - 1]
    ensures r.Some? ==> c !in s[r.value + 1..]
  {
    assert s == s[..|s| - 1] + [s[|s| - 1]];
    if r.Some? {
      assert s[r.value + 1..] == s[..|s| - 1][r.value + 1..] + [s[|s| - 1]];
    }
  }

  /** An occurrence with none after it is the last one. */
  lemma LastIndexOfAt(s: string, c: char, i: nat)
    requires i < |s| && s[i] == c && c !in s[i + 1..]
    ensures LastIndexOf(s, c) == Some(i)
  {
    assert c in s by {
      assert s[i] == c;
    }
  }

  /** substr($s, $k) for k >= 0: PHP 8 returns "" when k is past the end. */
  function Substr(s: string, k: nat): (r: string)
    ensures k <= |s| ==> r == s[k..]
    ensures k > |s| ==> r == ""
  {
    if k <= |s| then s[k..] else ""
  }

  /** str_starts_with. */
  predicate StartsWith(s: string, prefix: string) {
    |prefix| <= |s| && s[..|prefix|] == prefix
  }

  /** str_contains. */
  predicate Contains(s: string, sub: string)
    decreases |s|
  {
    StartsWith(s, sub) || (s != [] && Contains(s[1..], sub))
  }

  /** `sub` occurs in `s` starting at index `i`. */
  predicate OccursAt(s: string, sub: string, i: int) {
    0 <= i <= |s| - |sub| && s[i..i + |sub|] == sub
  }

  /** str_contains finds `sub` exactly when it occurs at some position. */
  lemma {:induction false} ContainsAt(s: string, sub: string)
    ensures Contains(s, sub) <==> exists i :: OccursAt(s, sub, i)
    decreases |s|
  {
    if StartsWith(s, sub) {
      assert OccursAt(s, sub, 0);
    } else if s == [] {
    } else {
      ContainsAt(s[1..], sub);
      if exists i :: OccursAt(s, sub, i) {
        var i :| OccursAt(s, sub, i);
        assert i != 0;
        assert s[1..][i - 1..i - 1 + |sub|] == s[i..i + |sub|];
        assert OccursAt(s[1..], sub, i - 1);
      }
      if exists j :: OccursAt(s[1..], sub, j) {
        var j :| OccursAt(s[1..], sub, j);
        assert s[j + 1..j + 1 + |sub|] == s[1..][j..j + |sub|];
        assert OccursAt(s, sub, j + 1);
      }
    }
  }

  // ---------------------------------------------------------------
  // strtolower (ASCII only since PHP 8.2)
  // ---------------------------------------------------------------

  function LowerChar(c: char): char {
    if 'A' <= c <= 'Z' then (c as int + 32) as char else c
  }

  function ToLower(s: string): (r: string)
    ensures |r| == |s|
    ensures forall i :: 0 <= i < |s| ==> r[i] == LowerChar(s[i])
  {
    seq(|s|, i requires 0 <= i < |s| => LowerChar(s[i]))
  }

  /** Lower-casing is idempotent. */
  lemma ToLowerIdempotent(s: string)
    ensures ToLower(ToLower(s)) == ToLower(s)
  {
  }

  /** The trimmable characters are not letters, so lower-casing and
      trimming commute, and the normalisation strtolower(trim(s)) is
      idempotent. */
  lemma NormalizeIdempotent(s: string)
    ensures Trim(ToLower(Trim(s))) == ToLower(Trim(s))
    ensures ToLower(Trim(ToLower(Trim(s)))) == ToLower(Trim(s))
  {
    var t := Trim(s);
    TrimSetEnds(s, TrimChars);
    var u := ToLower(t);
    if u != [] {
      assert LowerChar(t[0]) == u[0];
      assert u[0] !in TrimChars;
      assert u[|u| - 1] !in TrimChars;
    }
    TrimSetNoop(u, TrimChars);
    ToLowerIdempotent(t);
  }

  // ---------------------------------------------------------------
  // explode / implode
  // ---------------------------------------------------------------

  /** explode($sep, $s) for a one-character separator. */
  function Explode(s: string, sep: char): (r: seq<string>)
    ensures |r| >= 1
    ensures forall i :: 0 <= i < |r| ==> sep !in r[i]
    decreases |s|
  {
    match IndexOf(s, sep)
    case None => [s]
    case Some(i) => [s[..i]] + Explode(s[i + 1..], sep)
  }

  /** implode($sep, $parts). */
  function Join(sep: string, parts: seq<string>): string
    decreases |parts|
  {
    if parts == [] then ""
    else if |parts| == 1 then parts[0]
    else parts[0] + sep + Join(sep, parts[1..])
  }

  /** Joining the pieces of an explode with the separator rebuilds the input. */
  lemma {:induction false} ExplodeJoin(s: string, sep: char)
    ensures Join([sep], Explode(s, sep)) == s
    decreases |s|
  {
    match IndexOf(s, sep)
    case None =>
    case Some(i) =>
      var rest := Explode(s[i + 1..], sep);
      ExplodeJoin(s[i + 1..], sep);
      assert Explode(s, sep) == [s[..i]] + rest;
      assert s == s[..i] + [sep] + s[i + 1..];
  }

  /** Exploding a string with no separator gives the string itself. */
  lemma ExplodeNoSeparator(s: string, sep: char)
    requires sep !in s
    ensures Explode(s, sep) == [s]
  {
  }

  /** Exploding `a + sep + b`, where `a` has no separator, splits off `a`. */
  lemma ExplodeCons(a: string, b: string, sep: char)
    requires sep !in a
    ensures Explode(a + [sep] + b, sep) == [a] + Explode(b, sep)
  {
    var s := a + [sep] + b;
    assert s[|a|] == sep;
    assert s[..|a|] == a;
    assert s[|a| + 1..] == b;
  }

  /** explode($sep, $s, 2): the text before and after the first separator. */
  function SplitOnce(s: string, sep: char): (r: Option<(string, string)>)
    ensures r.None? <==> sep !in s
    ensures r.Some? ==> sep !in r.value.0 && s == r.value.0 + [sep] + r.value.1
  {
    match IndexOf(s, sep)
    case None => None
    case Some(i) =>
      assert s == s[..i] + [sep] + s[i + 1..];
      Some((s[..i], s[i + 1..]))
  }

  /** The first separator splits the text where it stands. */
  lemma SplitOnceAt(a: string, b: string, sep: char)
    requires sep !in a
    ensures SplitOnce(a + [sep] + b, sep) == Some((a, b))
  {
    var s := a + [sep] + b;
    assert s[|a|] == sep;
    assert s[..|a|] == a;
    assert s[|a| + 1..] == b;
  }

  // ---------------------------------------------------------------
  // preg_split('/\s+/', $s)
  // ---------------------------------------------------------------

  predicate NoSpace(t: string) {
    forall i :: 0 <= i < |t| ==> t[i] !in PcreSpaces
  }

  predicate AllSpace(t: string) {
    forall i :: 0 <= i < |t| ==> t[i] in PcreSpaces
  }

  /** preg_split('/\s+/', $s): the pieces between maximal runs of \s.
      Leading or trailing whitespace yields an empty first or last piece,
      and "" yields the single piece "". */
  function PregSplitWs(s: string): (r: seq<string>)
    ensures |r| >= 1
    ensures forall k :: 0 <= k < |r| ==> NoSpace(r[k])
    decreases |s|
  {
    match IndexOfAny(s, PcreSpaces)
    case None => [s]
    case Some(i) => [s[..i]] + PregSplitWs(TrimLeft(s[i..], PcreSpaces))
  }

  /** The first character from `cs` in `t + x` is the head of `x` when
      `t` holds none and `x` starts with one. */
  lemma IndexOfAnyAfter(t: string, x: string, cs: set<char>)
    requires forall i :: 0 <= i < |t| ==> t[i] !in cs
    requires x != [] && x[0] in cs
    ensures IndexOfAny(t + x, cs) == Some(|t|)
  {
    assert (t + x)[|t|] == x[0];
    assert forall i :: 0 <= i < |t| ==> (t + x)[i] == t[i];
  }

  /** Splitting a token that holds no whitespace gives that token alone. */
  lemma PregSplitSingle(t: string)
    requires NoSpace(t)
    ensures PregSplitWs(t) == [t]
  {
  }

  /** A token followed by a run of whitespace and more text splits off the
      token; the length of the run does not matter. */
  lemma {:induction false} PregSplitCons(t: string, w: string, rest: string)
    requires NoSpace(t)
    requires w != [] && AllSpace(w)
    requires rest == [] || rest[0] !in PcreSpaces
    ensures PregSplitWs(t + w + rest) == [t] + PregSplitWs(rest)
  {
    var s := t + (w + rest);
    assert t + w + rest == s;
    IndexOfAnyAfter(t, w + rest, PcreSpaces);
    assert s[..|t|] == t && s[|t|..] == w + rest;
    TrimLeftPadding(w, rest, PcreSpaces);
  }

  /** Text appended after a non-blank string survives left-trimming whole. */
  lemma {:induction false} TrimLeftAppend(x: string, b: string, cs: set<char>)
    requires TrimLeft(x, cs) != []
    ensures TrimLeft(x + b, cs) == TrimLeft(x, cs) + b
    decreases |x|
  {
    assert (x + b)[0] == x[0];
    if x[0] in cs {
      assert (x + b)[1..] == x[1..] + b;
      TrimLeftAppend(x[1..], b, cs);
    }
  }

  /** The first character from `cs` in `a` stays the first one when
      text is appended. */
  lemma {:induction false} IndexOfAnyAppend(a: string, b: string, cs: set<char>)
    requires IndexOfAny(a, cs).Some?
    ensures IndexOfAny(a + b, cs) == IndexOfAny(a, cs)
  {
    var i := IndexOfAny(a, cs).value;
    assert (a + b)[i] == a[i];
  }

  /** Position k of a sequence with one element put in front. */
  lemma ConsAt(x: string, s: seq<string>, k: nat)
    requires 0 < k <= |s|
    ensures |[x] + s| == |s| + 1 && ([x] + s)[k] == s[k - 1]
  {
  }

  /** One step of the split of `a` and of `a + b`, when `a` holds
      whitespace: both start with the same first piece. */
  lemma PregSplitAppendStep(a: string, b: string)
    requires IndexOfAny(a, PcreSpaces).Some?
    ensures var i := IndexOfAny(a, PcreSpaces).value;
      && PregSplitWs(a) == [a[..i]] + PregSplitWs(TrimLeft(a[i..], PcreSpaces))
      && PregSplitWs(a + b) == [a[..i]] + PregSplitWs(TrimLeft(a[i..] + b, PcreSpaces))
      && |TrimLeft(a[i..], PcreSpaces)| < |a|
  {
    var i := IndexOfAny(a, PcreSpaces).value;
    IndexOfAnyAppend(a, b, PcreSpaces);
    assert (a + b)[..i] == a[..i];
    assert (a + b)[i..] == a[i..] + b;
    assert a[i..][0] in PcreSpaces;
  }

  /** The inductive step of PregSplitPrefix: when the split of the rest
      of `a` after its first whitespace run keeps piece k - 1 under the
      appended text, the split of `a` keeps piece k. */
  lemma PregSplitPrefixStep(a: string, b: string, k: nat)
    requires 0 < k < |PregSplitWs(a)| - 1
    requires var t := TrimLeft(a[IndexOfAny(a, PcreSpaces).value..], PcreSpaces);
      k - 1 < |PregSplitWs(t + b)| && PregSplitWs(t + b)[k - 1] == PregSplitWs(t)[k - 1]
    ensures k < |PregSplitWs(a + b)| && PregSplitWs(a + b)[k] == PregSplitWs(a)[k]
  {
    var i := IndexOfAny(a, PcreSpaces).value;
    var t := TrimLeft(a[i..], PcreSpaces);
    PregSplitAppendStep(a, b);
    assert t != [];
    TrimLeftAppend(a[i..], b, PcreSpaces);
    ConsAt(a[..i], PregSplitWs(t + b), k);
    ConsAt(a[..i], PregSplitWs(t), k);
  }

  /** Appending text can change only the last piece of a split: every
      earlier piece is the same in the longer string. */
  lemma {:induction false} PregSplitPrefix(a: string, b: string, k: nat)
    requires k < |PregSplitWs(a)| - 1
    ensures k < |PregSplitWs(a + b)| && PregSplitWs(a + b)[k] == PregSplitWs(a)[k]
    decreases |a|
  {
    PregSplitAppendStep(a, b);
    if k > 0 {
      var t := TrimLeft(a[IndexOfAny(a, PcreSpaces).value..], PcreSpaces);
      PregSplitPrefix(t, b, k - 1);
      PregSplitPrefixStep(a, b, k);
    }
  }

  /** PregSplitPrefix for a text already known to be `a` followed by `b`. */
  lemma PregSplitPrefixOf(a: string, b: string, s: string, k: nat)
    requires s == a + b
    requires k < |PregSplitWs(a)| - 1
    ensures k < |PregSplitWs(s)| && PregSplitWs(s)[k] == PregSplitWs(a)[k]
  {
    PregSplitPrefix(a, b, k);
  }

  /** Non-empty pieces without whitespace, as preg_split returns between runs. */
  predicate Tokens(tokens: seq<string>) {
    forall k :: 0 <= k < |tokens| ==> tokens[k] != "" && NoSpace(tokens[k])
  }

  /** Tokens joined by single spaces split back into the same tokens. */
  lemma {:induction false} PregSplitJoin(tokens: seq<string>)
    requires |tokens| >= 1 && Tokens(tokens)
    ensures PregSplitWs(Join(" ", tokens)) == tokens
    decreases |tokens|
  {
    if |tokens| == 1 {
      PregSplitSingle(tokens[0]);
    } else {
      var rest := tokens[1..];
      var tail := Join(" ", rest);
      assert PregSplitWs(tail) == rest by {
        PregSplitJoin(rest);
      }
      assert tail[0] !in PcreSpaces by {
        JoinStartsWithFirst(" ", rest);
        assert tail[0] == rest[0][0];
        assert NoSpace(rest[0]);
      }
      assert Join(" ", tokens) == tokens[0] + " " + tail;
      PregSplitCons(tokens[0], " ", tail);
    }
  }

  /** A join of non-empty parts starts with the first part. */
  lemma JoinStartsWithFirst(sep: string, parts: seq<string>)
    requires |parts| >= 1 && parts[0] != ""
    ensures |Join(sep, parts)| >= |parts[0]| && Join(sep, parts)[..|parts[0]|] == parts[0]
  {
  }

  /** Splitting text with no whitespace at either end gives only non-empty tokens. */
  lemma {:induction false} PregSplitNonEmptyTokens(s: string)
    requires s != [] && s[0] !in PcreSpaces && s[|s| - 1] !in PcreSpaces
    ensures forall k :: 0 <= k < |PregSplitWs(s)| ==> PregSplitWs(s)[k] != ""
    decreases |s|
  {
    match IndexOfAny(s, PcreSpaces)
    case None =>
    case Some(i) =>
      var rest := TrimLeft(s[i..], PcreSpaces);
      assert i > 0;
      assert s[i..][|s| - 1 - i] !in PcreSpaces;
      assert rest != [];
      assert rest[|rest| - 1] == s[|s| - 1];
      PregSplitNonEmptyTokens(rest);
  }

  // ---------------------------------------------------------------
  // Numbers: digits, (int), (float), and integer to string
  // ---------------------------------------------------------------

  /** The longest prefix of `s` made of decimal digits. */
  function DigitPrefix(s: string): (r: string)
    ensures |r| <= |s| && r == s[..|r|]
    ensures forall i :: 0 <= i < |r| ==> IsDigit(r[i])
    ensures |r| < |s| ==> !IsDigit(s[|r|])
  {
    if s != [] && IsDigit(s[0]) then [s[0]] + DigitPrefix(s[1..]) else ""
  }

  function DigitValue(c: char): nat
    requires IsDigit(c)
  {
    c as int - '0' as int
  }

  /** The value of a string of decimal digits, most significant first. */
  function DecimalValue(d: string): nat
    requires forall i :: 0 <= i < |d| ==> IsDigit(d[i])
    decreases |d|
  {
    if d == [] then 0 else 10 * DecimalValue(d[..|d| - 1]) + DigitValue(d[|d| - 1])
  }

  function Pow10(n: nat): (r: nat)
    ensures r >= 1
  {
    if n == 0 then 1 else 10 * Pow10(n - 1)
  }

  /** PHP's % on integers truncates toward zero, so the remainder takes
      the sign of the dividend. */
  function PhpRem(a: int, b: int): (r: int)
    requires b > 0
    ensures a >= 0 ==> 0 <= r < b && r == a % b
    ensures a < 0 ==> -b < r <= 0 && -r == (-a) % b
  {
    if a >= 0 then a % b else -((-a) % b)
  }

  /** An optional sign, then the text after it: the prefix the casts
      accept.  The flag says whether the sign was a minus. */
  function SignOf(t: string): (r: (bool, string))
    ensures |r.1| <= |t|
  {
    if t != [] && t[0] == '-' then (true, t[1..])
    else if t != [] && t[0] == '+' then (false, t[1..])
    else (false, t)
  }

  /** PHP's (int) cast of a string: leading whitespace, an optional sign,
      then the leading decimal digits; 0 when there are none.  Exponent
      notation and the 64-bit saturation are not modelled. */
  function IntCast(s: string): int {
    var (negative, body) := SignOf(TrimLeft(s, PcreSpaces));
    var v: int := DecimalValue(DigitPrefix(body));
    if negative then -v else v
  }

  /** PHP's (float) cast of a string, for plain decimal notation:
      leading whitespace, an optional sign, integer digits, then an
      optional '.' and fraction digits; 0.0 when no digit is present. */
  function FloatCast(s: string): real {
    var (negative, body) := SignOf(TrimLeft(s, PcreSpaces));
    var ip := DigitPrefix(body);
    var rest := body[|ip|..];
    var fp := if rest != [] && rest[0] == '.' then DigitPrefix(rest[1..]) else "";
    var v := DecimalValue(ip) as real + DecimalValue(fp) as real / Pow10(|fp|) as real;
    if negative then -v else v
  }

  /** A string that does not start with a digit, a sign, a dot or
      whitespace casts to 0 and to 0.0. */
  lemma CastOfNonNumeric(s: string)
    requires s != [] && !IsDigit(s[0]) && s[0] !in {'-', '+', '.'} && s[0] !in PcreSpaces
    ensures IntCast(s) == 0
    ensures FloatCast(s) == 0.0
  {
    assert TrimLeft(s, PcreSpaces) == s;
    assert SignOf(s) == (false, s);
    assert DigitPrefix(s) == "";
    assert s[|""|..] == s;
  }

  function DigitChar(d: nat): (c: char)
    requires d < 10
    ensures IsDigit(c) && DigitValue(c) == d
  {
    ('0' as int + d) as char
  }

  /** The decimal digits of a natural number, no leading zeros. */
  function NatToString(n: nat): (r: string)
    ensures r != []
    ensures forall i :: 0 <= i < |r| ==> IsDigit(r[i])
    ensures DecimalValue(r) == n
    decreases n
  {
    if n < 10 then [DigitChar(n)]
    else
      var r := NatToString(n / 10) + [DigitChar(n % 10)];
      assert r[..|r| - 1] == NatToString(n / 10);
      r
  }

  /** The decimal form PHP interpolates for an int. */
  function IntToString(n: int): string {
    if n < 0 then "-" + NatToString(-n) else NatToString(n)
  }

  lemma {:induction false} DigitPrefixOfDigits(d: string, rest: string)
    requires forall i :: 0 <= i < |d| ==> IsDigit(d[i])
    requires rest == [] || !IsDigit(rest[0])
    ensures DigitPrefix(d + rest) == d
    decreases |d|
  {
    if d != [] {
      assert (d + rest)[1..] == d[1..] + rest;
      DigitPrefixOfDigits(d[1..], rest);
    } else {
      assert d + rest == rest;
    }
  }

  /** How the (int) cast reads a string whose sign and digits are known. */
  lemma IntCastReads(s: string, negative: bool, d: string)
    requires forall i :: 0 <= i < |d| ==> IsDigit(d[i])
    requires TrimLeft(s, PcreSpaces) == s
    requires SignOf(s) == (negative, d)
    requires DigitPrefix(d) == d
    ensures IntCast(s) == if negative then -(DecimalValue(d) as int) else DecimalValue(d)
  {
  }

  lemma SignOfDigits(d: string)
    requires d != [] && IsDigit(d[0])
    ensures SignOf(d) == (false, d)
    ensures d[0] !in PcreSpaces
  {
  }

  /** A non-empty digit string casts to its decimal value. */
  lemma IntCastOfDigits(d: string)
    requires d != [] && forall i :: 0 <= i < |d| ==> IsDigit(d[i])
    ensures IntCast(d) == DecimalValue(d)
  {
    SignOfDigits(d);
    TrimLeftPadding("", d, PcreSpaces);
    assert "" + d == d;
    DigitPrefixOfDigits(d, "");
    assert d + "" == d;
    IntCastReads(d, false, d);
  }

  /** A minus sign followed by a non-empty digit string casts to the
      negated decimal value. */
  lemma IntCastOfNegatedDigits(d: string)
    requires d != [] && forall i :: 0 <= i < |d| ==> IsDigit(d[i])
    ensures IntCast("-" + d) == -(DecimalValue(d) as int)
  {
    var m := "-" + d;
    assert m[0] == '-' && m[1..] == d;
    TrimLeftPadding("", m, PcreSpaces);
    assert "" + m == m;
    DigitPrefixOfDigits(d, "");
    assert d + "" == d;
    IntCastReads(m, true, d);
  }

  /** The (int) cast reads back what integer interpolation writes. */
  lemma IntCastOfIntToString(n: int)
    ensures IntCast(IntToString(n)) == n
  {
    if n < 0 {
      IntCastOfNegatedDigits(NatToString(-n));
    } else {
      IntCastOfDigits(NatToString(n));
    }
  }

  predicate IsDigits(d: string) {
    forall i :: 0 <= i < |d| ==> IsDigit(d[i])
  }

  /** A decimal in plain notation: whole digits, then '.' and fraction
      digits, as /proc/loadavg and sysctl print load averages. */
  datatype Decimal = Decimal(whole: nat, fraction: string)
  {
    predicate WellFormed() { IsDigits(fraction) }

    function Text(): string {
      NatToString(whole) + "." + fraction
    }

    function Value(): real
      requires WellFormed()
    {
      whole as real + DecimalValue(fraction) as real / Pow10(|fraction|) as real
    }
  }

  /** The (float) cast reads back the value a decimal's text stands for. */
  lemma FloatCastOfDecimal(x: Decimal)
    requires x.WellFormed()
    ensures FloatCast(x.Text()) == x.Value()
  {
    var ip := NatToString(x.whole);
    DecimalTextShape(x);
    FloatCastReads(x.Text(), ip, x.fraction);
    assert DecimalValue(ip) == x.whole;
  }

  /** A decimal's text is unpadded and unsigned, its digit prefix is the
      whole part, and the fraction follows the '.'. */
  lemma DecimalTextShape(x: Decimal)
    requires x.WellFormed()
    ensures var s, ip := x.Text(), NatToString(x.whole);
      && TrimLeft(s, PcreSpaces) == s && SignOf(s) == (false, s)
      && DigitPrefix(s) == ip && |ip| <= |s| && s[|ip|..] == "." + x.fraction
      && DigitPrefix(x.fraction) == x.fraction
  {
    var ip := NatToString(x.whole);
    var fp := x.fraction;
    var s := x.Text();
    assert s == ip + ("." + fp);
    SignOfDigits(s);
    TrimLeftPadding("", s, PcreSpaces);
    assert "" + s == s;
    DigitPrefixOfDigits(ip, "." + fp);
    assert s[|ip|..] == "." + fp;
    DigitPrefixOfDigits(fp, "");
    assert fp + "" == fp;
  }

  /** How the (float) cast reads an unsigned decimal whose digits around
      the '.' are known. */
  lemma FloatCastReads(s: string, ip: string, fp: string)
    requires IsDigits(ip) && IsDigits(fp)
    requires TrimLeft(s, PcreSpaces) == s && SignOf(s) == (false, s)
    requires DigitPrefix(s) == ip && |ip| <= |s| && s[|ip|..] == "." + fp && DigitPrefix(fp) == fp
    ensures FloatCast(s) == DecimalValue(ip) as real + DecimalValue(fp) as real / Pow10(|fp|) as real
  {
    var rest := s[|ip|..];
    assert rest != [] && rest[0] == '.' && rest[1..] == fp;
  }

  /** A decimal's text is a single word. */
  lemma DecimalIsWord(x: Decimal)
    requires x.WellFormed()
    ensures IsWord(x.Text())
    ensures forall i :: 0 <= i < |x.Text()| ==> IsDigit(x.Text()[i]) || x.Text()[i] == '.'
  {
    var ip := NatToString(x.whole);
    var t := x.Text();
    forall i | 0 <= i < |t|
      ensures IsDigit(t[i]) || t[i] == '.'
    {
      if i < |ip| {
        assert t[i] == ip[i];
      } else if i > |ip| {
        assert t[i] == x.fraction[i - |ip| - 1];
      }
    }
  }

  /** A decimal's text holds nothing but digits and its '.'. */
  lemma DecimalAvoids(x: Decimal, c: char)
    requires x.WellFormed() && !IsDigit(c) && c != '.'
    ensures c !in x.Text()
  {
    DecimalIsWord(x);
  }

  /** A decimal's fraction is below one, so its value rounds down to its
      whole part. */
  lemma DecimalFloor(x: Decimal)
    requires x.WellFormed()
    ensures x.whole as real <= x.Value() < x.whole as real + 1.0
    ensures x.Value().Floor == x.whole
  {
    FractionBelowOne(x.fraction);
    QuotientBelowOne(DecimalValue(x.fraction) as real, Pow10(|x.fraction|) as real);
  }

  lemma QuotientBelowOne(f: real, p: real)
    requires 0.0 <= f < p
    ensures 0.0 <= f / p < 1.0
  {
  }

  lemma {:induction false} FractionBelowOne(d: string)
    requires IsDigits(d)
    ensures DecimalValue(d) < Pow10(|d|)
    decreases |d|
  {
    if d != [] {
      FractionBelowOne(d[..|d| - 1]);
    }
  }

  // ---------------------------------------------------------------
  // Numbers written out and read back
  // ---------------------------------------------------------------

  /** The decimal form of each number. */
  function NumberFields(ns: seq<int>): (r: seq<string>)
    ensures |r| == |ns|
    ensures forall k :: 0 <= k < |ns| ==> r[k] == IntToString(ns[k])
  {
    seq(|ns|, k requires 0 <= k < |ns| => IntToString(ns[k]))
  }

  /** The (int) cast reads each number back from its field. */
  lemma NumberFieldsCast(ns: seq<int>)
    ensures forall k :: 0 <= k < |ns| ==> IntCast(NumberFields(ns)[k]) == ns[k]
  {
    forall k | 0 <= k < |ns|
      ensures IntCast(NumberFields(ns)[k]) == ns[k]
    {
      IntCastOfIntToString(ns[k]);
    }
  }

  lemma IntToStringShape(n: int)
    ensures var t := IntToString(n);
      t != "" && (forall i :: 0 <= i < |t| ==> IsDigit(t[i]) || t[i] == '-')
      && IsDigit(t[|t| - 1]) && (IsDigit(t[0]) || t[0] == '-')
  {
    if n < 0 {
      var d := NatToString(-n);
      assert IntToString(n) == "-" + d;
      assert IntToString(n)[|IntToString(n)| - 1] == d[|d| - 1];
    }
  }

  /** A join of parts that avoid a character avoids it too. */
  lemma {:induction false} JoinAvoids(parts: seq<string>, c: char)
    requires c != ' '
    requires forall k :: 0 <= k < |parts| ==> c !in parts[k]
    ensures c !in Join(" ", parts)
    decreases |parts|
  {
    if |parts| > 1 {
      JoinAvoids(parts[1..], c);
    }
  }

  /** A join ends with the last part. */
  lemma {:induction false} JoinEndsWithLast(sep: string, parts: seq<string>)
    requires |parts| >= 1 && parts[|parts| - 1] != ""
    ensures Join(sep, parts) != [] && Join(sep, parts)[|Join(sep, parts)| - 1] == parts[|parts| - 1][|parts[|parts| - 1]| - 1]
    decreases |parts|
  {
    if |parts| > 1 {
      JoinEndsWithLast(sep, parts[1..]);
    }
  }

  /** Text that starts and ends with characters trim keeps is left as is. */
  lemma TrimmedConcat(a: string, b: string, c: string)
    requires a != [] && a[0] !in TrimChars
    requires c != [] && c[|c| - 1] !in TrimChars
    ensures Trim(a + b + c) == a + b + c
  {
    var s := a + b + c;
    assert s[0] == a[0];
    assert s[|s| - 1] == c[|c| - 1];
    TrimSetNoop(s, TrimChars);
  }

  // ---------------------------------------------------------------
  // Line-oriented command output
  // ---------------------------------------------------------------

  /** The lines a parser walks: explode("\n", trim($output)). */
  function OutputLines(output: string): (r: seq<string>)
    ensures |r| >= 1
  {
    Explode(Trim(output), '\n')
  }

  /** preg_split('/\s+/', trim($line)) for a body line, or None when the
      trimmed line is blank or has fewer than `arity` fields: the two
      cases every table parser skips. */
  function LineFields(line: string, arity: nat): (r: Option<seq<string>>)
    ensures r.Some? <==> Trim(line) != "" && |PregSplitWs(Trim(line))| >= arity
    ensures r.Some? ==> |r.value| >= arity && r.value == PregSplitWs(Trim(line))
  {
    var t := Trim(line);
    if t == "" then None
    else
      var fields := PregSplitWs(t);
      if |fields| < arity then None else Some(fields)
  }

  /** Blank output is a single empty line. */
  lemma OutputLinesOfBlank(output: string)
    requires Trim(output) == ""
    ensures OutputLines(output) == [""]
  {
    ExplodeNoSeparator("", '\n');
  }

  /** A first line that starts with a character trim() keeps is split off
      as it is, whatever it says. */
  lemma HeaderLine(header: string, rest: string)
    requires '\n' !in header && header != "" && header[0] !in TrimChars
    requires rest != "" && rest[|rest| - 1] !in TrimChars
    ensures OutputLines(header + "\n" + rest) == [header] + Explode(rest, '\n')
  {
    TrimmedConcat(header, "\n", rest);
    ExplodeCons(header, rest, '\n');
  }

  /** A field that trim() and \s splitting both leave intact. */
  predicate IsWord(t: string) {
    t != "" && forall i :: 0 <= i < |t| ==> t[i] !in TrimChars && t[i] !in PcreSpaces
  }

  lemma IntToStringIsWord(n: int)
    ensures IsWord(IntToString(n))
  {
    IntToStringShape(n);
  }

  /** Words joined by single spaces make a line with nothing to trim that
      splits back into the same words. */
  lemma WordsLine(ws: seq<string>)
    requires |ws| >= 1 && forall k :: 0 <= k < |ws| ==> IsWord(ws[k])
    ensures var line := Join(" ", ws);
      && line != "" && line[0] !in TrimChars && line[|line| - 1] !in TrimChars && '\n' !in line
      && Trim(line) == line && PregSplitWs(line) == ws
  {
    var line := Join(" ", ws);
    WordsLineEnds(ws);
    TrimSetNoop(line, TrimChars);
    PregSplitJoin(ws);
  }

  /** The characters at the ends of a line of words, and no newline. */
  lemma WordsLineEnds(ws: seq<string>)
    requires |ws| >= 1 && forall k :: 0 <= k < |ws| ==> IsWord(ws[k])
    ensures LineOk(Join(" ", ws))
  {
    var line := Join(" ", ws);
    JoinStartsWithFirst(" ", ws);
    assert line[0] == ws[0][0];
    JoinEndsWithLast(" ", ws);
    JoinAvoids(ws, '\n');
  }

  /** Such a line yields its words as fields when there are enough of them. */
  lemma WordsLineFields(ws: seq<string>, arity: nat)
    requires |ws| >= 1 && forall k :: 0 <= k < |ws| ==> IsWord(ws[k])
    ensures LineFields(Join(" ", ws), arity) == if |ws| >= arity then Some(ws) else None
  {
    WordsLine(ws);
  }

  /** Exploding a join of separator-free pieces gives the pieces back. */
  lemma {:induction false} ExplodeJoined(lines: seq<string>, sep: char)
    requires |lines| >= 1 && forall k :: 0 <= k < |lines| ==> sep !in lines[k]
    ensures Explode(Join([sep], lines), sep) == lines
    decreases |lines|
  {
    if |lines| == 1 {
      ExplodeNoSeparator(lines[0], sep);
    } else {
      var rest := Join([sep], lines[1..]);
      assert Join([sep], lines) == lines[0] + [sep] + rest;
      assert Explode(rest, sep) == lines[1..] by {
        ExplodeJoined(lines[1..], sep);
      }
      assert Explode(lines[0] + [sep] + rest, sep) == [lines[0]] + lines[1..] by {
        ExplodeCons(lines[0], rest, sep);
      }
      assert [lines[0]] + lines[1..] == lines;
    }
  }

  /** A line without newline that trim() leaves as is. */
  predicate LineOk(line: string) {
    line != "" && line[0] !in TrimChars && line[|line| - 1] !in TrimChars && '\n' !in line
  }

  /** Lines without newlines, the text starting and ending with characters
      trim() keeps. */
  predicate TableShape(lines: seq<string>) {
    && |lines| >= 1 && (forall k :: 0 <= k < |lines| ==> '\n' !in lines[k])
    && lines[0] != "" && lines[0][0] !in TrimChars
    && lines[|lines| - 1] != "" && lines[|lines| - 1][|lines[|lines| - 1]| - 1] !in TrimChars
  }

  /** Output written line by line, starting and ending with characters
      trim() keeps, is read back line for line. */
  lemma TableLines(lines: seq<string>)
    requires TableShape(lines)
    ensures OutputLines(Join("\n", lines)) == lines
  {
    var text := Join("\n", lines);
    JoinStartsWithFirst("\n", lines);
    assert text[0] == lines[0][0];
    JoinEndsWithLast("\n", lines);
    TrimSetNoop(text, TrimChars);
    ExplodeJoined(lines, '\n');
  }

  /** A table of word rows under a header of words is read back line
      for line. */
  lemma WordTable(header: seq<string>, rows: seq<seq<string>>)
    requires |header| >= 1 && forall k :: 0 <= k < |header| ==> IsWord(header[k])
    requires forall i :: 0 <= i < |rows| ==> |rows[i]| >= 1 && forall k :: 0 <= k < |rows[i]| ==> IsWord(rows[i][k])
    ensures OutputLines(Join("\n", [Join(" ", header)] + JoinRows(rows))) == [Join(" ", header)] + JoinRows(rows)
  {
    WordLinesShape(header, rows);
    TableLines([Join(" ", header)] + JoinRows(rows));
  }

  /** Lines each of which trim() leaves as is, without newlines, have
      the shape of a table. */
  lemma {:induction false} LinesOkShape(lines: seq<string>)
    requires |lines| >= 1 && forall i :: 0 <= i < |lines| ==> LineOk(lines[i])
    ensures TableShape(lines)
  {
    assert LineOk(lines[0]);
    assert LineOk(lines[|lines| - 1]);
  }

  /** A header and rows of words each make a line trim() leaves as is. */
  lemma {:induction false} WordLinesShape(header: seq<string>, rows: seq<seq<string>>)
    requires |header| >= 1 && forall k :: 0 <= k < |header| ==> IsWord(header[k])
    requires forall i :: 0 <= i < |rows| ==> |rows[i]| >= 1 && forall k :: 0 <= k < |rows[i]| ==> IsWord(rows[i][k])
    ensures TableShape([Join(" ", header)] + JoinRows(rows))
  {
    var lines := [Join(" ", header)] + JoinRows(rows);
    var body := JoinRows(rows);
    forall j | 0 <= j < |body|
      ensures LineOk(body[j])
    {
      WordsLineEnds(rows[j]);
    }
    WordsLineEnds(header);
    forall i | 0 <= i < |lines|
      ensures LineOk(lines[i])
    {
      if i > 0 {
        assert lines[i] == body[i - 1];
      }
    }
    LinesOkShape(lines);
  }

  /** A line and its terminating newline trim to the line. */
  lemma TerminatedLine(line: string)
    requires line != "" && line[0] !in TrimChars && line[|line| - 1] !in TrimChars
    ensures Trim(line + "\n") == line
  {
    TrimSetPadding("", line, "\n", TrimChars);
    assert "" + line + "\n" == line + "\n";
  }

  /** Words joined by single spaces, with a newline after them, trim to
      the words' line and split back into the words. */
  lemma TerminatedWordsLine(ws: seq<string>)
    requires |ws| >= 1 && forall k :: 0 <= k < |ws| ==> IsWord(ws[k])
    ensures var line := Join(" ", ws);
      Trim(line + "\n") == line && line != "" && PregSplitWs(line) == ws
  {
    WordsLine(ws);
    WordsLineEnds(ws);
    TerminatedLine(Join(" ", ws));
  }

  /** Three lines, each without newline or padding at its ends, read
      back as themselves. */
  lemma ThreeLines(a: string, b: string, c: string)
    requires LineOk(a) && LineOk(b) && LineOk(c)
    ensures OutputLines(Join("\n", [a, b, c])) == [a, b, c]
  {
    var lines := [a, b, c];
    assert forall k :: 0 <= k < 3 ==> LineOk(lines[k]);
    TableLines(lines);
  }

  /** Each row of words as a line. */
  function JoinRows(rows: seq<seq<string>>): (r: seq<string>)
    ensures |r| == |rows|
    ensures forall i :: 0 <= i < |rows| ==> r[i] == Join(" ", rows[i])
  {
    seq(|rows|, i requires 0 <= i < |rows| => Join(" ", rows[i]))
  }
}
