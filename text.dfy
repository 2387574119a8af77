// Character-level helpers that stand for the C library the bridge relies
// on: strlen on a C string, isspace, atoi, strtok, sprintf("%d").
module Text {
  import opened Wrappers

  /** The characters a C `char*` holds before its terminating NUL. */
  function CPrefix(s: string): (r: string)
    ensures '\0' !in r
    ensures |r| <= |s| && r == s[..|r|]
    ensures |r| < |s| ==> s[|r|] == '\0'
  {
    if s == [] then []
    else if s[0] == '\0' then []
    else [s[0]] + CPrefix(s[1..])
  }

  /** A string that can be stored in a C `char*` unchanged. */
  predicate IsCString(s: string) { '\0' !in s }

  /** isspace() in the C locale. */
  predicate IsSpace(c: char) {
    c == ' ' || c == '\t' || c == '\n' || c == '\U{B}' || c == '\U{C}' || c == '\r'
  }

  predicate IsDigit(c: char) { '0' <= c <= '9' }

  function DigitValue(c: char): (d: nat)
    requires IsDigit(c)
    ensures d < 10
  {
    c as int - '0' as int
  }

  function DigitChar(d: nat): (c: char)
    requires d < 10
    ensures IsDigit(c) && DigitValue(c) == d
  {
    ('0' as int + d) as char
  }

  predicate AllDigits(s: string) { forall i :: 0 <= i < |s| ==> IsDigit(s[i]) }

  /** The value of a string of decimal digits, most significant first. */
  function DigitsValue(s: string): (n: nat)
    requires AllDigits(s)
  {
    if s == [] then 0 else DigitsValue(s[..|s| - 1]) * 10 + DigitValue(s[|s| - 1])
  }

  /** std::to_string / sprintf("%d") of a non-negative number. */
  function NatToDecimal(n: nat): (s: string)
    ensures |s| > 0 && AllDigits(s)
    ensures IsCString(s)
  {
    if n < 10 then [DigitChar(n)] else NatToDecimal(n / 10) + [DigitChar(n % 10)]
  }

  lemma {:induction false} DecimalValue(n: nat)
    ensures DigitsValue(NatToDecimal(n)) == n
  {
    var s := NatToDecimal(n);
    if n >= 10 {
      assert s[..|s| - 1] == NatToDecimal(n / 10);
      DecimalValue(n / 10);
    }
  }

  /** The longest run of digits at the start of s. */
  function LeadingDigits(s: string): (r: string)
    ensures AllDigits(r) && |r| <= |s| && r == s[..|r|]
    ensures |r| < |s| ==> !IsDigit(s[|r|])
  {
    if s != [] && IsDigit(s[0]) then [s[0]] + LeadingDigits(s[1..]) else []
  }

  lemma {:induction false} LeadingDigitsOf(d: string, rest: string)
    requires AllDigits(d)
    requires rest == [] || !IsDigit(rest[0])
    ensures LeadingDigits(d + rest) == d
  {
    if d != [] {
      assert (d + rest)[1..] == d[1..] + rest;
      LeadingDigitsOf(d[1..], rest);
    } else {
      assert d + rest == rest;
    }
  }

  function SkipSpaces(s: string): (r: string)
    ensures |r| <= |s|
    ensures r == [] || !IsSpace(r[0])
  {
    if s != [] && IsSpace(s[0]) then SkipSpaces(s[1..]) else s
  }

  /**
   * atoi / strtol(s, NULL, 10): leading white space, an optional sign, then
   * the longest run of digits; no digits gives 0. The value is not bounded
   * to the width of `int` or `long`.
   */
  function Atoi(s: string): int {
    var t := SkipSpaces(CPrefix(s));
    if t != [] && (t[0] == '-' || t[0] == '+') then
      var v: int := DigitsValue(LeadingDigits(t[1..]));
      if t[0] == '-' then -v else v
    else
      DigitsValue(LeadingDigits(t))
  }

  /** The range of a 64-bit `long`. */
  const LongMin: int := -0x8000_0000_0000_0000
  const LongMax: int := 0x7FFF_FFFF_FFFF_FFFF

  /**
   * strtol(s, &end, 10): the same reading as atoi, except that a value
   * outside the range of `long` saturates at LONG_MIN or LONG_MAX.
   */
  function Strtol(s: string): (r: int)
    ensures LongMin <= r <= LongMax
  {
    var v := Atoi(s);
    if v > LongMax then LongMax else if v < LongMin then LongMin else v
  }

  /** Atoi reads back what NatToDecimal writes, whatever non-digit text follows. */
  lemma AtoiOfDecimal(n: nat, rest: string)
    requires rest == [] || !IsDigit(rest[0])
    requires IsCString(rest)
    ensures Atoi(NatToDecimal(n) + rest) == n
  {
    var d := NatToDecimal(n);
    var s := d + rest;
    CStringConcat(d, rest);
    LeadingDigitsOf(d, rest);
    assert s[0] == d[0];
    AtoiOfLeadingDigits(s);
    DecimalValue(n);
  }

  /** Atoi reads back what NatToDecimal writes. */
  lemma AtoiOfNat(n: nat)
    ensures Atoi(NatToDecimal(n)) == n
  {
    AtoiOfDecimal(n, []);
    assert NatToDecimal(n) + [] == NatToDecimal(n);
  }

  /** On a C string that starts with a digit, atoi is the value of the leading digits. */
  lemma AtoiOfLeadingDigits(s: string)
    requires IsCString(s) && s != [] && IsDigit(s[0])
    ensures Atoi(s) == DigitsValue(LeadingDigits(s))
  {
    CPrefixOfCString(s);
    SkipSpacesAtNonSpace(s);
    AtoiUnsigned(s);
  }

  lemma SkipSpacesAtNonSpace(s: string)
    requires s == [] || !IsSpace(s[0])
    ensures SkipSpaces(s) == s
  {
  }

  /** Without a sign after the white space, atoi is the value of the leading digits there. */
  lemma AtoiUnsigned(s: string)
    requires var t := SkipSpaces(CPrefix(s)); t == [] || (t[0] != '-' && t[0] != '+')
    ensures Atoi(s) == DigitsValue(LeadingDigits(SkipSpaces(CPrefix(s))))
  {
  }

  lemma CStringConcat(a: string, b: string)
    requires IsCString(a) && IsCString(b)
    ensures IsCString(a + b)
  {
    forall i | 0 <= i < |a + b| ensures (a + b)[i] != '\0' {
      if i < |a| { assert (a + b)[i] == a[i] && a[i] in a; } else { assert (a + b)[i] == b[i - |a|] && b[i - |a|] in b; }
    }
  }

  lemma {:induction false} CPrefixOfCString(s: string)
    requires IsCString(s)
    ensures CPrefix(s) == s
  {
    if s != [] {
      assert s[0] in s;
      CPrefixOfCString(s[1..]);
    }
  }

  type uint8 = x: int | 0 <= x < 256
  type uint16 = x: int | 0 <= x < 65536

  /** Two's-complement truncation to an unsigned width, as a C cast does. */
  function Truncate(x: int, modulus: nat): (r: nat)
    requires modulus > 0
    ensures r < modulus
    ensures 0 <= x < modulus ==> r == x
  {
    x % modulus
  }

  function ToU8(x: int): (r: nat) ensures r < 256 { Truncate(x, 256) }
  function ToU16(x: int): (r: nat) ensures r < 65536 { Truncate(x, 65536) }

  /**
   * strtok: skip delimiters from position p, then take the run of
   * non-delimiters. None when only delimiters remain.
   */
  function SkipDelims(s: string, delims: set<char>, p: nat): (q: nat)
    requires p <= |s|
    ensures p <= q <= |s|
    ensures q < |s| ==> s[q] !in delims
    ensures forall k :: p <= k < q ==> s[k] in delims
    decreases |s| - p
  {
    if p < |s| && s[p] in delims then SkipDelims(s, delims, p + 1) else p
  }

  function TokenEnd(s: string, delims: set<char>, p: nat): (q: nat)
    requires p <= |s|
    ensures p <= q <= |s|
    ensures q < |s| ==> s[q] in delims
    ensures forall k :: p <= k < q ==> s[k] !in delims
    decreases |s| - p
  {
    if p < |s| && s[p] !in delims then TokenEnd(s, delims, p + 1) else p
  }

  /** Every token strtok returns on s: maximal runs of non-delimiters, in order. */
  function Tokens(s: string, delims: set<char>): (r: seq<string>)
    ensures forall i :: 0 <= i < |r| ==> |r[i]| > 0
    decreases |s|
  {
    if s == [] then []
    else if s[0] in delims then Tokens(s[1..], delims)
    else
      var e := TokenEnd(s, delims, 0);
      [s[..e]] + Tokens(s[e..], delims)
  }

  /** One strtok step from cursor p: the token and the cursor just after its delimiter. */
  function NextToken(s: string, delims: set<char>, p: nat): (r: Option<(string, nat)>)
    requires p <= |s|
    ensures r.Some? ==> p < r.value.1 <= |s|
    ensures r.None? <==> Tokens(s[p..], delims) == []
    ensures r.Some? ==> Tokens(s[p..], delims) == [r.value.0] + Tokens(s[r.value.1..], delims)
    decreases |s| - p
  {
    if p == |s| then None
    else if s[p] in delims then
      assert s[p..][1..] == s[p + 1..];
      NextToken(s, delims, p + 1)
    else
      var e := TokenEnd(s, delims, p);
      TokenEndShift(s, delims, p);
      assert s[p..][..e - p] == s[p..e];
      assert s[p..][e - p..] == s[e..];
      if e < |s| then
        assert s[e..][1..] == s[e + 1..];
        Some((s[p..e], e + 1))
      else
        Some((s[p..e], e))
  }

  lemma {:induction false} TokenEndShift(s: string, delims: set<char>, p: nat)
    requires p <= |s|
    ensures TokenEnd(s[p..], delims, 0) == TokenEnd(s, delims, p) - p
    decreases |s| - p
  {
    var e := TokenEnd(s, delims, p);
    var t := s[p..];
    assert forall k :: 0 <= k < e - p ==> t[k] == s[p + k];
    TokenEndIs(t, delims, 0, e - p);
  }

  /** TokenEnd is the first delimiter at or after p (or the end). */
  lemma {:induction false} TokenEndIs(s: string, delims: set<char>, p: nat, e: nat)
    requires p <= e <= |s|
    requires forall k :: p <= k < e ==> s[k] !in delims
    requires e < |s| ==> s[e] in delims
    ensures TokenEnd(s, delims, p) == e
    decreases e - p
  {
    if p < e {
      TokenEndIs(s, delims, p + 1, e);
    }
  }

  /** A leading delimiter-free token followed by a delimiter (or nothing) is the first token. */
  lemma TokensCons(t: string, x: string, delims: set<char>)
    requires |t| > 0 && forall i :: 0 <= i < |t| ==> t[i] !in delims
    requires x == [] || x[0] in delims
    ensures Tokens(t + x, delims) == [t] + Tokens(x, delims)
  {
    var s := t + x;
    var e := TokenEnd(s, delims, 0);
    TokenEndIs(s, delims, 0, |t|);
    assert s[..e] == t;
    assert s[e..] == x;
  }

  /** Leading delimiters are skipped. */
  lemma {:induction false} TokensSkip(d: string, x: string, delims: set<char>)
    requires forall i :: 0 <= i < |d| ==> d[i] in delims
    ensures Tokens(d + x, delims) == Tokens(x, delims)
  {
    if d != [] {
      assert (d + x)[1..] == d[1..] + x;
      TokensSkip(d[1..], x, delims);
    } else {
      assert d + x == x;
    }
  }

  predicate IsToken(t: string, delims: set<char>) {
    |t| > 0 && forall i :: 0 <= i < |t| ==> t[i] !in delims
  }

  /** Tokenizing lines each followed by a separator of delimiters yields the lines back. */
  lemma {:induction false} TokensOfTerminated(lines: seq<string>, sep: string, tail: string, delims: set<char>)
    requires forall i :: 0 <= i < |lines| ==> IsToken(lines[i], delims)
    requires |sep| > 0 && forall i :: 0 <= i < |sep| ==> sep[i] in delims
    ensures Tokens(Terminated(lines, sep) + tail, delims) == lines + Tokens(tail, delims)
  {
    if lines == [] {
      assert Terminated(lines, sep) + tail == tail;
    } else {
      var rest := Terminated(lines[1..], sep) + tail;
      assert Terminated(lines, sep) + tail == lines[0] + (sep + rest);
      TokensCons(lines[0], sep + rest, delims);
      TokensSkip(sep, rest, delims);
      TokensOfTerminated(lines[1..], sep, tail, delims);
      assert lines == [lines[0]] + lines[1..];
    }
  }

  /** The strtok loop: collect tokens until it returns NULL. */
  method SplitTokens(s: string, delims: set<char>) returns (r: seq<string>)
    ensures r == Tokens(s, delims)
  {
    r := [];
    var p := 0;
    assert s[0..] == s;
    var next := NextToken(s, delims, p);
    while next.Some?
      invariant p <= |s|
      invariant next == NextToken(s, delims, p)
      invariant r + Tokens(s[p..], delims) == Tokens(s, delims)
      decreases |s| - p
    {
      r := r + [next.value.0];
      p := next.value.1;
      next := NextToken(s, delims, p);
    }
  }

  /** strncmp(prefix, s, |prefix|) == 0. */
  predicate StartsWith(s: string, prefix: string) {
    |prefix| <= |s| && s[..|prefix|] == prefix
  }

  /** The characters from index k on; nothing past the end. */
  function Drop(s: string, k: nat): (r: string)
    ensures k <= |s| ==> r == s[k..]
  {
    if k <= |s| then s[k..] else []
  }

  /** Joins non-empty delimiter-free pieces with one delimiter after each. */
  function Terminated(pieces: seq<string>, sep: string): (r: string)
  {
    if pieces == [] then [] else pieces[0] + sep + Terminated(pieces[1..], sep)
  }
}
