/** String operations the source takes from its languages' standard libraries, restricted to
    ASCII: Python's `str.strip`, `upper`, `lower`, `in` and `startswith`; JavaScript's `trim`,
    `toUpperCase` and `split(' ')`; decimal rendering of a number inside a template string. */
module Text {

  /** Python `str.isspace` on ASCII: space, \t, \n, \v, \f, \r and the separators 0x1C-0x1F. */
  predicate IsPyWhitespace(c: char) {
    c == ' ' || c == '\t' || c == '\n' || c == '\r' || c == '\U{0B}' || c == '\U{0C}'
    || c == '\U{1C}' || c == '\U{1D}' || c == '\U{1E}' || c == '\U{1F}'
  }

  /** The ASCII part of JavaScript's white space and line terminators, which `trim` removes;
      unlike Python it does not include 0x1C-0x1F. */
  predicate IsJsWhitespace(c: char) {
    c == ' ' || c == '\t' || c == '\n' || c == '\r' || c == '\U{0B}' || c == '\U{0C}'
  }

  /** Which language's notion of white space a strip uses. */
  datatype Blanks = PyBlanks | JsBlanks

  predicate IsBlank(ws: Blanks, c: char) {
    match ws
    case PyBlanks => IsPyWhitespace(c)
    case JsBlanks => IsJsWhitespace(c)
  }

  /** The number of blanks the string starts with. */
  function LeadingBlanks(s: string, ws: Blanks): (k: nat)
    ensures k <= |s| && (k < |s| ==> !IsBlank(ws, s[k]))
    ensures forall i | 0 <= i < k :: IsBlank(ws, s[i])
  {
    if s != [] && IsBlank(ws, s[0]) then 1 + LeadingBlanks(s[1..], ws) else 0
  }

  /** The number of blanks the string ends with. */
  function TrailingBlanks(s: string, ws: Blanks): (k: nat)
    ensures k <= |s| && (k < |s| ==> !IsBlank(ws, s[|s| - k - 1]))
    ensures forall i | |s| - k <= i < |s| :: IsBlank(ws, s[i])
  {
    if s != [] && IsBlank(ws, s[|s| - 1]) then 1 + TrailingBlanks(s[..|s| - 1], ws) else 0
  }

  function TrimStart(s: string, ws: Blanks): (r: string)
    ensures |r| <= |s| && r == s[|s| - |r|..]
    ensures r != [] ==> !IsBlank(ws, r[0])
    ensures forall i | 0 <= i < |s| - |r| :: IsBlank(ws, s[i])
  {
    s[LeadingBlanks(s, ws)..]
  }

  function TrimEnd(s: string, ws: Blanks): (r: string)
    ensures |r| <= |s| && r == s[..|r|]
    ensures r != [] ==> !IsBlank(ws, r[|r| - 1])
    ensures forall i | |r| <= i < |s| :: IsBlank(ws, s[i])
  {
    s[..|s| - TrailingBlanks(s, ws)]
  }

  /** Removes leading and trailing white space of the kind `ws`. */
  function Strip(s: string, ws: Blanks): string {
    TrimEnd(TrimStart(s, ws), ws)
  }

  /** Python `s.strip()`. */
  function PyStrip(s: string): string { Strip(s, PyBlanks) }

  /** JavaScript `s.trim()`. */
  function JsTrim(s: string): string { Strip(s, JsBlanks) }

  /** The stripped string is the piece of the input that starts after the leading blanks. */
  lemma StripSlice(s: string, ws: Blanks)
    ensures var lo := |s| - |TrimStart(s, ws)|;
      0 <= lo <= |s| - |Strip(s, ws)| && Strip(s, ws) == s[lo..lo + |Strip(s, ws)|]
  {
    var t := TrimStart(s, ws);
    var r := TrimEnd(t, ws);
    var lo := |s| - |t|;
    assert t == s[lo..];
    assert r == t[..|r|];
    assert r == s[lo..lo + |r|];
  }

  /** The stripped string is empty exactly when every character is blank. */
  lemma StripEmptyIff(s: string, ws: Blanks)
    ensures Strip(s, ws) == [] <==> forall i | 0 <= i < |s| :: IsBlank(ws, s[i])
  {
    var t := TrimStart(s, ws);
    if t != [] {
      assert !IsBlank(ws, s[|s| - |t|]);
      assert TrimEnd(t, ws) != [];
    }
  }

  /** The stripped string is a contiguous piece of the input that starts and ends in a
      non-blank character, everything cut off before and after it is blank, and it is empty
      exactly when every character is blank. */
  lemma StripShape(s: string, ws: Blanks)
    ensures exists lo | 0 <= lo <= |s| - |Strip(s, ws)| :: OccursAt(s, Strip(s, ws), lo)
    ensures var lo := |s| - |TrimStart(s, ws)|;
      && lo + |Strip(s, ws)| <= |s| && Strip(s, ws) == s[lo..lo + |Strip(s, ws)|]
      && (forall i | 0 <= i < lo :: IsBlank(ws, s[i]))
      && (forall i | lo + |Strip(s, ws)| <= i < |s| :: IsBlank(ws, s[i]))
    ensures Strip(s, ws) != [] ==> !IsBlank(ws, Strip(s, ws)[0]) && !IsBlank(ws, Strip(s, ws)[|Strip(s, ws)| - 1])
    ensures Strip(s, ws) == [] <==> forall i | 0 <= i < |s| :: IsBlank(ws, s[i])
  {
    var t := TrimStart(s, ws);
    var r := TrimEnd(t, ws);
    var lo := |s| - |t|;
    StripSlice(s, ws);
    assert OccursAt(s, r, lo);
    if r != [] {
      assert t[0] == r[0];
    }
    forall i | lo + |r| <= i < |s| ensures IsBlank(ws, s[i]) {
      assert s[i] == t[i - lo];
    }
    StripEmptyIff(s, ws);
  }

  /** Stripping twice is stripping once: a stripped string equals its own strip. */
  lemma StripIdempotent(s: string, ws: Blanks)
    ensures Strip(Strip(s, ws), ws) == Strip(s, ws)
  {
    var r := Strip(s, ws);
    StripShape(s, ws);
    if r != [] {
      assert TrimStart(r, ws) == r;
      assert TrimEnd(r, ws) == r;
    }
  }

  lemma PyStripIdempotent(s: string)
    ensures PyStrip(PyStrip(s)) == PyStrip(s)
  {
    StripIdempotent(s, PyBlanks);
  }

  lemma JsTrimIdempotent(s: string)
    ensures JsTrim(JsTrim(s)) == JsTrim(s)
  {
    StripIdempotent(s, JsBlanks);
  }

  function UpperChar(c: char): char {
    if 'a' <= c <= 'z' then (c as int - 32) as char else c
  }

  function LowerChar(c: char): char {
    if 'A' <= c <= 'Z' then (c as int + 32) as char else c
  }

  /** Python `upper()` / JavaScript `toUpperCase()` on ASCII. */
  function Upper(s: string): (r: string)
    ensures |r| == |s|
    ensures forall i | 0 <= i < |s| :: r[i] == UpperChar(s[i])
  {
    seq(|s|, i requires 0 <= i < |s| => UpperChar(s[i]))
  }

  /** Python `lower()` on ASCII. */
  function Lower(s: string): (r: string)
    ensures |r| == |s|
    ensures forall i | 0 <= i < |s| :: r[i] == LowerChar(s[i])
  {
    seq(|s|, i requires 0 <= i < |s| => LowerChar(s[i]))
  }

  /** An upper-cased string has no lower-case letter left. */
  lemma UpperIsUpper(s: string)
    ensures forall i | 0 <= i < |Upper(s)| :: !('a' <= Upper(s)[i] <= 'z') && UpperChar(Upper(s)[i]) == Upper(s)[i]
  {
  }

  predicate OccursAt(s: string, sub: string, i: int) {
    0 <= i && i + |sub| <= |s| && s[i..i + |sub|] == sub
  }

  /** Python `sub in s`. */
  predicate Contains(s: string, sub: string) {
    exists i | 0 <= i <= |s| - |sub| :: OccursAt(s, sub, i)
  }

  /** Python `s.startswith(p)`. */
  predicate StartsWith(s: string, p: string) {
    |p| <= |s| && s[..|p|] == p
  }

  lemma ContainsInfix(a: string, sub: string, b: string)
    ensures Contains(a + sub + b, sub)
  {
    assert OccursAt(a + sub + b, sub, |a|);
  }

  function DigitChar(d: nat): char
    requires d < 10
  {
    ('0' as int + d) as char
  }

  function DigitValue(c: char): int {
    c as int - '0' as int
  }

  /** The decimal rendering of a number in a template string (`${n}`). */
  function NatToString(n: nat): (r: string)
    ensures |r| >= 1
    ensures forall i | 0 <= i < |r| :: '0' <= r[i] <= '9'
  {
    if n < 10 then [DigitChar(n)] else NatToString(n / 10) + [DigitChar(n % 10)]
  }

  /** Reading the digits back, most significant first. */
  function ParseDigits(s: string): int
    requires |s| >= 1
  {
    if |s| == 1 then DigitValue(s[0]) else ParseDigits(s[..|s| - 1]) * 10 + DigitValue(s[|s| - 1])
  }

  /** The rendering is read back as the number it renders. */
  lemma {:induction false} ParseNatToString(n: nat)
    ensures ParseDigits(NatToString(n)) == n
  {
    if n >= 10 {
      var s := NatToString(n);
      assert s[..|s| - 1] == NatToString(n / 10);
      ParseNatToString(n / 10);
    }
  }

  /** Different numbers render differently, so ids built from different clock values differ. */
  lemma NatToStringInjective(i: nat, j: nat)
    ensures NatToString(i) == NatToString(j) ==> i == j
  {
    ParseNatToString(i);
    ParseNatToString(j);
  }

  /** JavaScript `s.split(sep)` for a one-character separator: the pieces between separators,
      including the empty ones that leading, trailing or doubled separators produce. */
  function Split(s: string, sep: char): (parts: seq<string>)
    ensures |parts| >= 1
  {
    if s == [] then [""]
    else
      var rest := Split(s[1..], sep);
      if s[0] == sep then [""] + rest else [[s[0]] + rest[0]] + rest[1..]
  }

  /** The pieces put back together with the separator between each two of them: the inverse
      that `Split` is proved against. */
  function Join(parts: seq<string>, sep: char): string {
    if parts == [] then ""
    else if |parts| == 1 then parts[0]
    else parts[0] + [sep] + Join(parts[1..], sep)
  }

  function Count(s: string, c: char): nat {
    if s == [] then 0 else (if s[0] == c then 1 else 0) + Count(s[1..], c)
  }

  /** Splitting on a character yields one piece more than the character's occurrences, and no
      piece contains the separator. */
  lemma {:induction false} SplitCount(s: string, sep: char)
    ensures |Split(s, sep)| == Count(s, sep) + 1
    ensures forall p | p in Split(s, sep) :: sep !in p
  {
    if s != [] {
      SplitCount(s[1..], sep);
    }
  }

  /** Splitting loses nothing: joining the pieces with the separator gives the string back. */
  lemma {:induction false} JoinSplit(s: string, sep: char)
    ensures Join(Split(s, sep), sep) == s
  {
    if s != [] {
      var rest := Split(s[1..], sep);
      JoinSplit(s[1..], sep);
      if s[0] == sep {
        assert ([""] + rest)[1..] == rest;
      } else if |rest| > 1 {
        var parts := [[s[0]] + rest[0]] + rest[1..];
        assert parts[1..] == rest[1..];
        assert s == [s[0]] + s[1..];
      } else {
        assert s == [s[0]] + s[1..];
      }
    }
  }

  /** A string without the separator is one piece. */
  lemma {:induction false} SplitWithoutSeparator(a: string, sep: char)
    requires sep !in a
    ensures Split(a, sep) == [a]
  {
    if a != [] {
      SplitWithoutSeparator(a[1..], sep);
      assert a == [a[0]] + a[1..];
    }
  }

  /** A separator cuts the string into the pieces on either side of it. */
  lemma {:induction false} SplitAround(a: string, b: string, sep: char)
    ensures Split(a + [sep] + b, sep) == Split(a, sep) + Split(b, sep)
  {
    if a == [] {
      assert a + [sep] + b == [sep] + b;
      SplitCons(sep, b, sep);
    } else {
      SplitAround(a[1..], b, sep);
      SplitAroundStep(a[0], a[1..] + [sep] + b, a[1..], Split(b, sep), sep);
      assert a == [a[0]] + a[1..];
      assert a + [sep] + b == [a[0]] + (a[1..] + [sep] + b);
    }
  }

  /** The inductive step of `SplitAround`: when `x` splits into the pieces of `y` followed by
      `tail`, a character put in front of both keeps that relation. */
  lemma SplitAroundStep(c: char, x: string, y: string, tail: seq<string>, sep: char)
    requires Split(x, sep) == Split(y, sep) + tail
    ensures Split([c] + x, sep) == Split([c] + y, sep) + tail
  {
    var head := Split(y, sep);
    if c != sep {
      assert Split([c] + x, sep) == [[c] + (head + tail)[0]] + (head + tail)[1..] by {
        SplitCons(c, x, sep);
      }
      assert Split([c] + y, sep) == [[c] + head[0]] + head[1..] by {
        SplitCons(c, y, sep);
      }
      PrependToFirst([c], head, tail);
    } else {
      assert Split([c] + x, sep) == [""] + (head + tail) by {
        SplitCons(c, x, sep);
      }
      assert Split([c] + y, sep) == [""] + head by {
        SplitCons(c, y, sep);
      }
      assert [""] + (head + tail) == ([""] + head) + tail;
    }
  }

  /** Growing the first piece commutes with appending more pieces. */
  lemma PrependToFirst(x: string, head: seq<string>, tail: seq<string>)
    requires |head| >= 1
    ensures [x + (head + tail)[0]] + (head + tail)[1..] == ([x + head[0]] + head[1..]) + tail
  {
    assert (head + tail)[1..] == head[1..] + tail;
  }

  /** One step of splitting: the first character either ends the first piece or joins it. */
  lemma SplitCons(c: char, t: string, sep: char)
    ensures Split([c] + t, sep) ==
      var rest := Split(t, sep);
      if c == sep then [""] + rest else [[c] + rest[0]] + rest[1..]
  {
    assert ([c] + t)[0] == c && ([c] + t)[1..] == t;
  }

  /** Joining at least one piece, none of which holds the separator, and splitting again gives
      the same pieces: `Split` and `Join` are inverse on such lists. */
  lemma {:induction false} SplitJoin(parts: seq<string>, sep: char)
    requires |parts| >= 1
    requires forall p | p in parts :: sep !in p
    ensures Split(Join(parts, sep), sep) == parts
  {
    assert parts[0] in parts;
    SplitWithoutSeparator(parts[0], sep);
    if |parts| > 1 {
      forall p | p in parts[1..] ensures sep !in p {
        assert p in parts;
      }
      SplitJoin(parts[1..], sep);
      SplitAround(parts[0], Join(parts[1..], sep), sep);
      assert parts == [parts[0]] + parts[1..];
    }
  }
}
