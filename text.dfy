/**
  The C string routines the slice lists go through: `strtok_r` on ",",
  `atof`, `%d` rendering and `snprintf`/`strncpy` truncation into a
  fixed-size buffer.
 */
module Text {
  import opened Options

  const Delimiter: char := ','

  /** Index of the first delimiter in `s`, or `|s|` when there is none. */
  function FirstDelimiter(s: string): (j: nat)
    ensures j <= |s|
    ensures forall i :: 0 <= i < j ==> s[i] != Delimiter
    ensures j < |s| ==> s[j] == Delimiter
  {
    if s == [] || s[0] == Delimiter then 0 else 1 + FirstDelimiter(s[1..])
  }

  /**
    One call of `strtok_r` with delimiter ",": skip leading delimiters; if
    nothing is left there is no token, otherwise the token runs up to the
    next delimiter (or the end), and scanning resumes just past it.
   */
  function Strtok(s: string): (r: Option<(string, string)>)
    ensures r.None? <==> forall i :: 0 <= i < |s| ==> s[i] == Delimiter
    ensures r.Some? ==> |r.value.0| > 0 && Delimiter !in r.value.0 && |r.value.1| < |s|
  {
    if s == [] then None
    else if s[0] == Delimiter then Strtok(s[1..])
    else
      var j := FirstDelimiter(s);
      Some((s[..j], if j < |s| then s[j + 1..] else []))
  }

  /** The successive tokens `strtok_r` returns for `s`. */
  function Tokens(s: string): (ts: seq<string>)
    ensures |ts| <= |s|
    ensures ts == [] <==> forall i :: 0 <= i < |s| ==> s[i] == Delimiter
    decreases |s|
  {
    match Strtok(s)
    case None => []
    case Some((t, rest)) => [t] + Tokens(rest)
  }

  /** The tokens still to come once `strtok_r` has returned `tok`. */
  function Pending(tok: Option<(string, string)>): seq<string> {
    match tok
    case None => []
    case Some((t, rest)) => [t] + Tokens(rest)
  }

  /**
    Where a `strtok_r` scan of `s` stands: `k` tokens returned before
    `tok`, and the tokens still to come are `tok` and those after it.
   */
  predicate Scanned(s: string, k: nat, tok: Option<(string, string)>) {
    k <= |Tokens(s)| && Tokens(s)[k..] == Pending(tok)
  }

  /** The first call returns the first token. */
  lemma ScannedStart(s: string)
    ensures Scanned(s, 0, Strtok(s))
  {
  }

  /** A returned token is the `k`-th, and the next call returns the `k + 1`-th. */
  lemma ScannedNext(s: string, k: nat, tok: Option<(string, string)>)
    requires tok.Some? && Scanned(s, k, tok)
    ensures k < |Tokens(s)| && Tokens(s)[k] == tok.value.0
    ensures Scanned(s, k + 1, Strtok(tok.value.1))
  {
    assert Tokens(s)[k..][1..] == Tokens(tok.value.1);
  }

  /** When no token comes back, all `k` tokens of `s` have been returned. */
  lemma ScannedDone(s: string, k: nat, tok: Option<(string, string)>)
    requires tok.None? && Scanned(s, k, tok)
    ensures |Tokens(s)| == k
  {
  }

  /** Every token is non-empty and holds no delimiter. */
  lemma {:induction false} TokensWellFormed(s: string)
    ensures forall k :: 0 <= k < |Tokens(s)| ==> |Tokens(s)[k]| > 0 && Delimiter !in Tokens(s)[k]
    decreases |s|
  {
    match Strtok(s)
    case None =>
    case Some((t, rest)) =>
      TokensWellFormed(rest);
  }

  /** Reference split: the fields between delimiters, empty ones included. */
  function Fields(s: string): (fs: seq<string>)
    ensures |fs| >= 1
    decreases |s|
  {
    var j := FirstDelimiter(s);
    if j == |s| then [s] else [s[..j]] + Fields(s[j + 1..])
  }

  function NonEmpty(fs: seq<string>): (r: seq<string>)
    ensures forall k :: 0 <= k < |r| ==> r[k] != []
  {
    if fs == [] then [] else (if fs[0] == [] then [] else [fs[0]]) + NonEmpty(fs[1..])
  }

  /** Joins fields back with the delimiter. */
  function Join(fs: seq<string>): string
  {
    if fs == [] then [] else if |fs| == 1 then fs[0] else fs[0] + [Delimiter] + Join(fs[1..])
  }

  /** Splitting into fields loses nothing: joining them restores the string. */
  lemma {:induction false} JoinFields(s: string)
    ensures Join(Fields(s)) == s
    decreases |s|
  {
    var j := FirstDelimiter(s);
    if j < |s| {
      JoinFields(s[j + 1..]);
      assert s == s[..j] + [Delimiter] + s[j + 1..];
    }
  }

  /**
    The tokens are exactly the non-empty fields, in order: leading, trailing
    and repeated delimiters produce no token.
   */
  lemma {:induction false} TokensAreNonEmptyFields(s: string)
    ensures Tokens(s) == NonEmpty(Fields(s))
    decreases |s|
  {
    var j := FirstDelimiter(s);
    if s == [] {
    } else if s[0] == Delimiter {
      assert j == 0;
      TokensAreNonEmptyFields(s[1..]);
      assert Fields(s) == [[]] + Fields(s[1..]);
      assert NonEmpty(Fields(s)) == NonEmpty(Fields(s[1..]));
    } else if j == |s| {
      assert s[..j] == s;
      assert Tokens(s) == [s] + Tokens([]);
    } else {
      TokensAreNonEmptyFields(s[j + 1..]);
      var fs := Fields(s);
      assert Strtok(s) == Some((s[..j], s[j + 1..]));
      assert Tokens(s) == [s[..j]] + Tokens(s[j + 1..]);
      assert fs == [s[..j]] + Fields(s[j + 1..]);
      assert fs[0] == s[..j] != [] && fs[1..] == Fields(s[j + 1..]);
      assert NonEmpty(fs) == [s[..j]] + NonEmpty(Fields(s[j + 1..]));
    }
  }

  /** Leading whitespace as C's `isspace` sees it. */
  predicate IsSpace(c: char) {
    c == ' ' || c == '\t' || c == '\n' || c == '\r' || c == '\U{0B}' || c == '\U{0C}'
  }

  predicate IsDigit(c: char) {
    '0' <= c <= '9'
  }

  function DigitValue(c: char): (d: nat)
    requires IsDigit(c)
    ensures d < 10
  {
    c as int - '0' as int
  }

  function DigitChar(d: nat): (c: char)
    requires d < 10
    ensures IsDigit(c) && DigitValue(c) == d
  {
    ('0' as int + d) as char
  }

  function SkipSpaces(s: string): (r: string)
    ensures |r| <= |s| && r == s[|s| - |r|..]
    ensures r != [] ==> !IsSpace(r[0])
  {
    if s != [] && IsSpace(s[0]) then SkipSpaces(s[1..]) else s
  }

  /** Length of the run of digits at the start of `s`. */
  function DigitRun(s: string): (n: nat)
    ensures n <= |s| && forall i :: 0 <= i < n ==> IsDigit(s[i])
    ensures n < |s| ==> !IsDigit(s[n])
  {
    if s != [] && IsDigit(s[0]) then 1 + DigitRun(s[1..]) else 0
  }

  /** Value of a string of decimal digits, most significant first. */
  function DigitsValue(ds: string): nat
    requires forall i :: 0 <= i < |ds| ==> IsDigit(ds[i])
  {
    if ds == [] then 0 else 10 * DigitsValue(ds[..|ds| - 1]) + DigitValue(ds[|ds| - 1])
  }

  /** Value of the digits after a decimal point: 0.d1 d2 d3 ... */
  function FractionValue(ds: string): real
    requires forall i :: 0 <= i < |ds| ==> IsDigit(ds[i])
  {
    if ds == [] then 0.0 else (DigitValue(ds[0]) as real + FractionValue(ds[1..])) / 10.0
  }

  /** Unsigned decimal `digits[.digits]` at the start of `s`; 0 when there is none. */
  function UnsignedValue(s: string): real
  {
    var n := DigitRun(s);
    var whole := DigitsValue(s[..n]) as real;
    if n < |s| && s[n] == '.' then
      var rest := s[n + 1..];
      whole + FractionValue(rest[..DigitRun(rest)])
    else whole
  }

  /**
    `atof`, leniently: skip whitespace, an optional sign, then the longest
    decimal prefix; anything that is not a number reads as 0.
   */
  function Atof(s: string): real
  {
    var t := SkipSpaces(s);
    if t != [] && t[0] == '-' then -UnsignedValue(t[1..])
    else if t != [] && t[0] == '+' then UnsignedValue(t[1..])
    else UnsignedValue(t)
  }

  /** A leading blank does not change what `atof` reads. */
  lemma AtofSkipsBlank(c: char, s: string)
    requires IsSpace(c)
    ensures Atof([c] + s) == Atof(s)
  {
    var t := [c] + s;
    assert t[1..] == s;
    assert SkipSpaces(t) == SkipSpaces(s);
  }

  /** A `-` before the number negates it. */
  lemma AtofNegative(s: string)
    requires s == [] || (!IsSpace(s[0]) && s[0] != '-' && s[0] != '+')
    ensures Atof("-" + s) == -Atof(s)
  {
    var neg := "-" + s;
    assert neg[1..] == s;
    AtofMinus(neg);
    AtofUnsigned(s);
  }

  lemma AtofMinus(t: string)
    requires t != [] && t[0] == '-'
    ensures Atof(t) == -UnsignedValue(t[1..])
  {
    assert SkipSpaces(t) == t;
  }

  lemma AtofUnsigned(t: string)
    requires t == [] || (!IsSpace(t[0]) && t[0] != '-' && t[0] != '+')
    ensures Atof(t) == UnsignedValue(t)
  {
    assert SkipSpaces(t) == t;
  }

  /** A `+` before the number keeps it. */
  lemma AtofPositive(s: string)
    requires s == [] || (!IsSpace(s[0]) && s[0] != '-' && s[0] != '+')
    ensures Atof("+" + s) == Atof(s)
  {
    var pos := "+" + s;
    assert pos[0] == '+' && pos[1..] == s;
    assert SkipSpaces(pos) == pos;
    assert Atof(pos) == UnsignedValue(s);
    assert SkipSpaces(s) == s;
  }

  /** `atof` of two token lists, position by position. */
  function ParsePairs(ss: seq<string>, es: seq<string>): (r: seq<(real, real)>)
    requires |ss| == |es|
    ensures |r| == |ss|
  {
    if ss == [] then []
    else
      var n := |ss| - 1;
      ParsePairs(ss[..n], es[..n]) + [(Atof(ss[n]), Atof(es[n]))]
  }

  /** Parsing one more pair of tokens appends one entry. */
  lemma ParsePairsSnoc(ss: seq<string>, es: seq<string>, k: nat)
    requires k < |ss| && k < |es|
    ensures ParsePairs(ss[..k + 1], es[..k + 1]) == ParsePairs(ss[..k], es[..k]) + [(Atof(ss[k]), Atof(es[k]))]
  {
    assert ss[..k + 1][..k] == ss[..k];
    assert es[..k + 1][..k] == es[..k];
  }

  /** Entry `i` is the parse of the `i`-th start and the `i`-th end. */
  lemma {:induction false} ParsePairsAt(ss: seq<string>, es: seq<string>)
    requires |ss| == |es|
    ensures forall i :: 0 <= i < |ss| ==> ParsePairs(ss, es)[i] == (Atof(ss[i]), Atof(es[i]))
  {
    if ss != [] {
      var n := |ss| - 1;
      ParsePairsAt(ss[..n], es[..n]);
    }
  }

  /** Text that does not start with a number (after blanks and a sign) reads as 0. */
  lemma AtofOfNonNumber(s: string)
    requires var t := SkipSpaces(s);
      var u := if t != [] && (t[0] == '-' || t[0] == '+') then t[1..] else t;
      u == [] || (!IsDigit(u[0]) && u[0] != '.')
    ensures Atof(s) == 0.0
  {
    var t := SkipSpaces(s);
    var u := if t != [] && (t[0] == '-' || t[0] == '+') then t[1..] else t;
    assert DigitRun(u) == 0;
    assert u[..0] == [];
    assert DigitsValue(u[..0]) == 0;
    assert !(0 < |u| && u[0] == '.');
    assert UnsignedValue(u) == 0.0;
    if t != [] && t[0] == '-' {
      assert Atof(s) == -UnsignedValue(u);
    } else if t != [] && t[0] == '+' {
      assert Atof(s) == UnsignedValue(u);
    } else {
      assert Atof(s) == UnsignedValue(u);
    }
  }

  /** `%d` of a non-negative number. */
  function NatToString(n: nat): (s: string)
    ensures |s| > 0 && forall i :: 0 <= i < |s| ==> IsDigit(s[i])
  {
    if n < 10 then [DigitChar(n)] else NatToString(n / 10) + [DigitChar(n % 10)]
  }

  /** Rendering a number in decimal and reading it back gives the number. */
  lemma {:induction false} NatToStringValue(n: nat)
    ensures DigitsValue(NatToString(n)) == n
  {
    var s := NatToString(n);
    if n >= 10 {
      NatToStringValue(n / 10);
      assert s[..|s| - 1] == NatToString(n / 10);
    } else {
      assert s[..0] == [];
    }
  }

  /** `atof` of a rendered number is that number. */
  lemma AtofOfNatToString(n: nat)
    ensures Atof(NatToString(n)) == n as real
  {
    var s := NatToString(n);
    assert SkipSpaces(s) == s;
    assert DigitRun(s) == |s| by {
      AllDigitsRun(s);
    }
    assert s[..|s|] == s;
    NatToStringValue(n);
  }

  lemma {:induction false} AllDigitsRun(s: string)
    requires forall i :: 0 <= i < |s| ==> IsDigit(s[i])
    ensures DigitRun(s) == |s|
  {
    if s != [] {
      AllDigitsRun(s[1..]);
    }
  }

  /**
    What a `size`-byte buffer keeps of `s` after `snprintf(buf, size, "%s", s)`
    or `strncpy(buf, s, size - 1); buf[size - 1] = '\0'`: at most `size - 1`
    characters, a prefix of `s`, and all of `s` when it fits.
   */
  function Truncate(s: string, size: nat): (r: string)
    requires size >= 1
    ensures |r| <= size - 1 && r <= s
    ensures |s| < size ==> r == s
    ensures |s| >= size ==> |r| == size - 1
  {
    if |s| < size then s else s[..size - 1]
  }
}
