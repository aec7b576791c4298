/** Decimal integers and whitespace-separated tokens: how the benchmark's
    programs print ids, counts and durations, and how they read them back. */
module Text {
  import opened Common

  predicate IsDigit(c: char) { '0' <= c <= '9' }

  /** The ASCII whitespace that C++ `>>` and Python's `str.split()` skip. */
  predicate IsSpace(c: char)
  {
    c == ' ' || c == '\t' || c == '\n' || c == '\r' || c == '\U{0B}' || c == '\U{0C}'
  }

  predicate AllDigits(s: string) { forall i | 0 <= i < |s| :: IsDigit(s[i]) }

  predicate NoSpace(s: string) { forall i | 0 <= i < |s| :: !IsSpace(s[i]) }

  function DigitChar(d: int): (c: char)
    requires 0 <= d < 10
    ensures IsDigit(c)
  {
    (48 + d) as char
  }

  /** Decimal digits of `n`, most significant first, without leading zeros. */
  function NatToString(n: nat): (r: string)
    ensures |r| >= 1 && AllDigits(r)
    ensures |r| > 1 ==> r[0] != '0'
  {
    if n < 10 then [DigitChar(n)] else NatToString(n / 10) + [DigitChar(n % 10)]
  }

  /** `std::ostream << int` and Python `str(int)`. */
  function IntToString(i: int): (r: string)
  {
    if i < 0 then "-" + NatToString(-i) else NatToString(i)
  }

  /** The value of a string of decimal digits. */
  function DigitsValue(s: string): nat
    requires AllDigits(s)
  {
    if s == [] then 0 else DigitsValue(s[..|s| - 1]) * 10 + (s[|s| - 1] as int - 48)
  }

  /** Python `int(token)` and C++ `>>` into an int, for a token without
      whitespace: an optional sign followed by at least one decimal digit. */
  function ParseInt(tok: string): Option<int>
  {
    if |tok| >= 2 && tok[0] == '-' && AllDigits(tok[1..]) then Some(0 - DigitsValue(tok[1..]) as int)
    else if |tok| >= 2 && tok[0] == '+' && AllDigits(tok[1..]) then Some(DigitsValue(tok[1..]))
    else if |tok| >= 1 && AllDigits(tok) then Some(DigitsValue(tok))
    else None
  }

  lemma {:induction false} DigitsRoundTrip(n: nat)
    ensures DigitsValue(NatToString(n)) == n
  {
    if n >= 10 {
      var s := NatToString(n);
      DigitsRoundTrip(n / 10);
      assert s[..|s| - 1] == NatToString(n / 10);
    }
  }

  /** Printing an integer and reading it back gives the integer. */
  lemma ParseIntRoundTrip(i: int)
    ensures ParseInt(IntToString(i)) == Some(i)
  {
    if i < 0 {
      var digits := NatToString(-i);
      DigitsRoundTrip(-i);
      assert ("-" + digits)[1..] == digits;
    } else {
      var digits := NatToString(i);
      DigitsRoundTrip(i);
      assert IsDigit(digits[0]);
    }
  }

  lemma IntToStringNoSpace(i: int)
    ensures |IntToString(i)| >= 1 && NoSpace(IntToString(i))
  {
  }

  /** `s` without its leading whitespace. */
  function DropSpaces(s: string): (r: string)
    ensures |r| <= |s| && (r == [] || !IsSpace(r[0]))
  {
    if s != [] && IsSpace(s[0]) then DropSpaces(s[1..]) else s
  }

  /** Length of the maximal whitespace-free prefix of `s`. */
  function WordLength(s: string): (n: nat)
    ensures n <= |s| && NoSpace(s[..n])
    ensures s != [] && !IsSpace(s[0]) ==> n >= 1
    ensures n < |s| ==> IsSpace(s[n])
  {
    if s == [] || IsSpace(s[0]) then 0
    else
      var m := WordLength(s[1..]);
      assert s[..m + 1] == [s[0]] + s[1..][..m];
      1 + m
  }

  /** Python `str.split()` with no argument, and the sequence of tokens C++
      `>>` reads into strings: maximal runs of non-whitespace. */
  function Split(s: string): (r: seq<string>)
    ensures forall i | 0 <= i < |r| :: |r[i]| >= 1 && NoSpace(r[i])
    decreases |s|
  {
    var t := DropSpaces(s);
    if t == [] then []
    else
      var n := WordLength(t);
      [t[..n]] + Split(t[n..])
  }

  /** One line of a result file as main.cpp writes it: every id followed by
      one space, then a newline. */
  function FormatIds(ids: seq<int>): string
  {
    if ids == [] then "\n" else IntToString(ids[0]) + " " + FormatIds(ids[1..])
  }

  /** Python `sep.join(words)`. */
  function Join(sep: string, words: seq<string>): string
  {
    if words == [] then ""
    else if |words| == 1 then words[0]
    else words[0] + sep + Join(sep, words[1..])
  }

  function ParseAll(toks: seq<string>): Option<seq<int>>
  {
    if toks == [] then Some([])
    else match ParseInt(toks[0])
      case None => None
      case Some(v) =>
        match ParseAll(toks[1..])
        case None => None
        case Some(vs) => Some([v] + vs)
  }

  /** One line of ids as the Python scripts read it:
      `[int(x) for x in line.strip().split()]`; a malformed token is an error. */
  function ParseIds(line: string): Option<seq<int>>
  {
    ParseAll(Split(line))
  }

  function Show(ids: seq<int>): seq<string>
  {
    if ids == [] then [] else [IntToString(ids[0])] + Show(ids[1..])
  }

  lemma {:induction false} WordLengthOfWord(w: string, rest: string)
    requires NoSpace(w)
    requires rest == [] || IsSpace(rest[0])
    ensures WordLength(w + rest) == |w|
  {
    if w != [] {
      assert (w + rest)[1..] == w[1..] + rest;
      WordLengthOfWord(w[1..], rest);
    }
  }

  /** A word followed by a space splits off as the first token. */
  lemma SplitWord(w: string, rest: string)
    requires |w| >= 1 && NoSpace(w)
    ensures Split(w + " " + rest) == [w] + Split(rest)
  {
    SplitWordAt(w, ' ', rest);
  }

  /** What `DropSpaces` skips is whitespace, and what it keeps is the rest
      of the text. */
  lemma {:induction false} DropSpacesSuffix(s: string)
    ensures var r := DropSpaces(s);
      r == s[|s| - |r|..] && forall i | 0 <= i < |s| - |r| :: IsSpace(s[i])
  {
    if s != [] && IsSpace(s[0]) {
      DropSpacesSuffix(s[1..]);
    }
  }

  /** A text has no tokens exactly when it is all whitespace. */
  lemma SplitEmpty(s: string)
    ensures Split(s) == [] <==> forall i | 0 <= i < |s| :: IsSpace(s[i])
  {
    var t := DropSpaces(s);
    DropSpacesSuffix(s);
    if t != [] {
      assert s[|s| - |t|] == t[0];
    }
  }

  /** A leading whitespace character is skipped. */
  lemma SplitSkipsSpace(s: string)
    requires s != [] && IsSpace(s[0])
    ensures Split(s) == Split(s[1..])
  {
    assert DropSpaces(s) == DropSpaces(s[1..]);
  }

  /** A non-empty whitespace-free string is one token. */
  lemma SplitOneWord(w: string)
    requires |w| >= 1 && NoSpace(w)
    ensures Split(w) == [w]
  {
    assert DropSpaces(w) == w;
    WordLengthOfWord(w, []);
    assert w + [] == w;
    assert w[|w|..] == [];
  }

  /** A word followed by any whitespace character splits off as the first
      token. */
  lemma SplitWordAt(w: string, c: char, rest: string)
    requires |w| >= 1 && NoSpace(w) && IsSpace(c)
    ensures Split(w + [c] + rest) == [w] + Split(rest)
  {
    var line := w + [c] + rest;
    assert line == w + ([c] + rest);
    assert DropSpaces(line) == line;
    WordLengthOfWord(w, [c] + rest);
    assert line[..|w|] == w;
    assert line[|w|..] == [c] + rest;
    assert DropSpaces([c] + rest) == DropSpaces(rest);
  }

  /** Any whitespace character separates: the tokens of `a`, then those of
      `b`, and nothing is lost, merged or reordered. With `SplitOneWord` and
      `SplitEmpty` this fixes `Split` on every text. */
  lemma {:induction false} SplitAtSpace(a: string, c: char, b: string)
    requires IsSpace(c)
    ensures Split(a + [c] + b) == Split(a) + Split(b)
    decreases |a|
  {
    var s := a + [c] + b;
    if a == [] {
      assert s == [c] + b;
      SplitSkipsSpace(s);
      assert s[1..] == b;
    } else if IsSpace(a[0]) {
      SplitSkipsSpace(s);
      SplitSkipsSpace(a);
      assert s[1..] == a[1..] + [c] + b;
      SplitAtSpace(a[1..], c, b);
    } else {
      SplitAtWord(a, c, b);
    }
  }

  lemma {:induction false} SplitAtWord(a: string, c: char, b: string)
    requires IsSpace(c) && a != [] && !IsSpace(a[0])
    ensures Split(a + [c] + b) == Split(a) + Split(b)
    decreases |a|, 1
  {
    var n := WordLength(a);
    if n == |a| {
      SplitWordAt(a, c, b);
      SplitOneWord(a);
    } else {
      SplitAfterWord(a, n, c, b);
    }
  }

  /** `a` is a word, a whitespace character and more text. */
  lemma {:induction false} SplitAfterWord(a: string, n: nat, c: char, b: string)
    requires IsSpace(c) && 1 <= n < |a| && NoSpace(a[..n]) && IsSpace(a[n])
    ensures Split(a + [c] + b) == Split(a) + Split(b)
    decreases |a|, 0
  {
    var w, r := a[..n], a[n + 1..];
    calc {
      Split(a + [c] + b);
      { assert a + [c] + b == w + [a[n]] + (r + [c] + b); }
      Split(w + [a[n]] + (r + [c] + b));
      { SplitWordAt(w, a[n], r + [c] + b); }
      [w] + Split(r + [c] + b);
      { SplitAtSpace(r, c, b); }
      [w] + Split(r) + Split(b);
      { assert a == w + [a[n]] + r; SplitWordAt(w, a[n], r); }
      Split(a) + Split(b);
    }
  }

  lemma {:induction false} SplitFormatted(ids: seq<int>)
    ensures Split(FormatIds(ids)) == Show(ids)
  {
    if ids == [] {
      assert DropSpaces("\n") == DropSpaces("");
    } else {
      IntToStringNoSpace(ids[0]);
      SplitWord(IntToString(ids[0]), FormatIds(ids[1..]));
      SplitFormatted(ids[1..]);
    }
  }

  lemma {:induction false} ParseShown(ids: seq<int>)
    ensures ParseAll(Show(ids)) == Some(ids)
  {
    if ids != [] {
      ParseIntRoundTrip(ids[0]);
      ParseShown(ids[1..]);
      assert Show(ids)[0] == IntToString(ids[0]);
      assert Show(ids)[1..] == Show(ids[1..]);
      assert [ids[0]] + ids[1..] == ids;
    }
  }

  /** A line written by main.cpp's result serialiser reads back, through the
      Python loaders' parser, as exactly the ids that were written. */
  lemma IdsRoundTrip(ids: seq<int>)
    ensures ParseIds(FormatIds(ids)) == Some(ids)
  {
    SplitFormatted(ids);
    ParseShown(ids);
  }
}
