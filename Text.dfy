/**
 * Character-level helpers shared by the configuration store and the path helpers:
 * whitespace trimming (the store's `trim`), character search (`find` /
 * `find_last_of`), and the decimal conversions `std::stoi` and `std::to_wstring`
 * on a platform where `long` is 32 bits wide.
 */
module Text {
  import opened Wrappers

  /** The whitespace `isspace` recognises in the classic locale: space, and tab through carriage return. */
  predicate IsSpace(c: char)
  {
    c == ' ' || 9 <= c as int <= 13
  }

  predicate AllSpace(s: string)
  {
    forall i :: 0 <= i < |s| ==> IsSpace(s[i])
  }

  /** Neither the first nor the last character is whitespace. */
  predicate IsTrimmed(s: string)
  {
    s == [] || (!IsSpace(s[0]) && !IsSpace(s[|s| - 1]))
  }

  /** Drops the leading whitespace. */
  function TrimStart(s: string): (r: string)
    ensures |r| <= |s|
    ensures r == [] || !IsSpace(r[0])
  {
    if s != [] && IsSpace(s[0]) then TrimStart(s[1..]) else s
  }

  /** Drops the trailing whitespace. */
  function TrimEnd(s: string): (r: string)
    ensures |r| <= |s|
    ensures r == [] || !IsSpace(r[|r| - 1])
  {
    if s != [] && IsSpace(s[|s| - 1]) then TrimEnd(s[..|s| - 1]) else s
  }

  /** `trim`: the text without its surrounding whitespace. */
  function Trim(s: string): (r: string)
    ensures IsTrimmed(r) && |r| <= |s|
  {
    var t := TrimStart(s);
    TrimEndDropsSpace(t);
    TrimEnd(t)
  }

  /** `TrimStart` drops a run of whitespace from the front and keeps the rest. */
  lemma {:induction false} TrimStartDropsSpace(s: string)
    ensures TrimStart(s) == s[|s| - |TrimStart(s)|..]
    ensures AllSpace(s[..|s| - |TrimStart(s)|])
  {
    if s != [] && IsSpace(s[0]) {
      TrimStartDropsSpace(s[1..]);
      assert s[..|s| - |TrimStart(s)|] == [s[0]] + s[1..][..|s| - 1 - |TrimStart(s[1..])|];
    }
  }

  /** `TrimEnd` drops a run of whitespace from the back and keeps the rest. */
  lemma {:induction false} TrimEndDropsSpace(s: string)
    ensures TrimEnd(s) == s[..|TrimEnd(s)|]
    ensures AllSpace(s[|TrimEnd(s)|..])
  {
    if s != [] && IsSpace(s[|s| - 1]) {
      TrimEndDropsSpace(s[..|s| - 1]);
      assert s[|TrimEnd(s)|..] == s[..|s| - 1][|TrimEnd(s[..|s| - 1])|..] + [s[|s| - 1]];
    }
  }

  /**
   * `trim` removes whitespace at both ends and nothing else: the result is the
   * slice of the text that starts after the leading whitespace.
   */
  lemma {:induction false} TrimIsSlice(s: string)
    ensures var i := |s| - |TrimStart(s)|;
      && i + |Trim(s)| <= |s|
      && Trim(s) == s[i..i + |Trim(s)|]
      && AllSpace(s[..i]) && AllSpace(s[i + |Trim(s)|..])
  {
    var t := TrimStart(s);
    var i := |s| - |t|;
    var r := Trim(s);
    TrimStartDropsSpace(s);
    TrimEndDropsSpace(t);
    assert s[i..i + |r|] == r;
    assert s[i + |r|..] == t[|r|..];
  }

  /** A text without surrounding whitespace is its own trim. */
  lemma TrimOfTrimmed(s: string)
    requires IsTrimmed(s)
    ensures Trim(s) == s
  {
    assert TrimStart(s) == s;
    assert TrimEnd(s) == s;
  }

  lemma TrimIdempotent(s: string)
    ensures Trim(Trim(s)) == Trim(s)
  {
    TrimOfTrimmed(Trim(s));
  }

  /** Trimming never brings in a character the text did not have. */
  lemma TrimKeepsOut(s: string, c: char)
    requires c !in s
    ensures c !in Trim(s)
  {
    TrimIsSlice(s);
  }

  lemma TrimStartStops(s: string)
    requires s == [] || !IsSpace(s[0])
    ensures TrimStart(s) == s
  {
  }

  lemma TrimEndStops(s: string)
    requires s == [] || !IsSpace(s[|s| - 1])
    ensures TrimEnd(s) == s
  {
  }

  /** The first `erase` of the in-place `trim`: up to the first non-space character. */
  method EraseLeadingSpace(s: string) returns (t: string)
    ensures t == TrimStart(s)
  {
    var i := 0;
    while i < |s| && IsSpace(s[i])
      invariant 0 <= i <= |s|
      invariant TrimStart(s) == TrimStart(s[i..])
    {
      assert s[i..][1..] == s[i + 1..];
      i := i + 1;
    }
    TrimStartStops(s[i..]);
    t := s[i..];
  }

  /** The second `erase` of the in-place `trim`: from just after the last non-space character. */
  method EraseTrailingSpace(s: string) returns (t: string)
    ensures t == TrimEnd(s)
  {
    var j := |s|;
    assert s[..j] == s;
    while j > 0 && IsSpace(s[j - 1])
      invariant 0 <= j <= |s|
      invariant TrimEnd(s) == TrimEnd(s[..j])
    {
      assert s[..j][..j - 1] == s[..j - 1];
      j := j - 1;
    }
    TrimEndStops(s[..j]);
    t := s[..j];
  }

  /** The in-place `trim`: both erasures, leading whitespace first. */
  method EraseSurroundingSpace(s: string) returns (t: string)
    ensures t == Trim(s)
  {
    t := EraseLeadingSpace(s);
    t := EraseTrailingSpace(t);
  }

  /** `find`: the position of the first `c` in `s` (see `IndexOfFinds`). */
  function IndexOf(s: string, c: char): Option<nat>
  {
    if s == [] then None
    else if s[0] == c then Some(0)
    else
      match IndexOf(s[1..], c)
      case None => None
      case Some(i) => Some(i + 1)
  }

  /** `IndexOf` finds nothing exactly when `c` does not occur, and otherwise the first `c`. */
  lemma {:induction false} IndexOfFinds(s: string, c: char)
    ensures IndexOf(s, c).None? <==> c !in s
    ensures IndexOf(s, c).Some? ==>
      var i := IndexOf(s, c).value;
      i < |s| && s[i] == c && c !in s[..i]
  {
    if s != [] && s[0] != c {
      IndexOfFinds(s[1..], c);
      assert s == [s[0]] + s[1..];
      if IndexOf(s[1..], c).Some? {
        var i := IndexOf(s[1..], c).value;
        assert s[..i + 1] == [s[0]] + s[1..][..i];
      }
    }
  }

  /** The first `c` of `s` is at `i` when `s[i]` is `c` and nothing before it is. */
  lemma {:induction false} IndexOfAt(s: string, c: char, i: nat)
    requires i < |s| && s[i] == c && c !in s[..i]
    ensures IndexOf(s, c) == Some(i)
  {
    if i > 0 {
      assert s[0] in s[..i];
      assert s[1..][..i - 1] == s[..i][1..];
      IndexOfAt(s[1..], c, i - 1);
    }
  }

  /** `find_last_of` for one character: the position of the last `c` in `s`. */
  function LastIndexOf(s: string, c: char): (r: Option<nat>)
    ensures r.None? <==> c !in s
    ensures r.Some? ==> r.value < |s| && s[r.value] == c && c !in s[r.value + 1..]
  {
    if s == [] then None
    else if s[|s| - 1] == c then Some(|s| - 1)
    else
      match LastIndexOf(s[..|s| - 1], c)
      case None => assert s == s[..|s| - 1] + [s[|s| - 1]]; None
      case Some(i) => assert s[i + 1..] == s[..|s| - 1][i + 1..] + [s[|s| - 1]]; Some(i)
  }

  // Decimal numbers.

  const Int32Min: int := -0x8000_0000
  const Int32Max: int := 0x7FFF_FFFF

  predicate InInt32(n: int)
  {
    Int32Min <= n <= Int32Max
  }

  predicate IsDigit(c: char)
  {
    '0' <= c <= '9'
  }

  predicate AllDigits(s: string)
  {
    forall i :: 0 <= i < |s| ==> IsDigit(s[i])
  }

  /** The longest run of decimal digits at the start of `s`. */
  function DigitPrefix(s: string): (d: string)
    ensures |d| <= |s| && d == s[..|d|] && AllDigits(d)
    ensures |d| == |s| || !IsDigit(s[|d|])
  {
    if s != [] && IsDigit(s[0]) then
      var rest := DigitPrefix(s[1..]);
      assert [s[0]] + rest == s[..|rest| + 1];
      [s[0]] + rest
    else []
  }

  /** The run of digits a string starts with is unique. */
  lemma DigitPrefixOf(ds: string, rest: string)
    requires AllDigits(ds)
    requires rest == [] || !IsDigit(rest[0])
    ensures DigitPrefix(ds + rest) == ds
  {
    var s := ds + rest;
    assert s[..|ds|] == ds;
  }

  function DigitValue(c: char): nat
    requires IsDigit(c)
  {
    c as int - '0' as int
  }

  function DigitChar(d: nat): (c: char)
    requires d < 10
    ensures IsDigit(c) && DigitValue(c) == d
  {
    ('0' as int + d) as char
  }

  /** The number a run of decimal digits denotes, most significant digit first. */
  function DigitsValue(ds: string): nat
    requires AllDigits(ds)
  {
    if ds == [] then 0
    else DigitsValue(ds[..|ds| - 1]) * 10 + DigitValue(ds[|ds| - 1])
  }

  /** The decimal digits of `n`, without leading zeros. */
  function NatToDigits(n: nat): (ds: string)
    ensures ds != [] && AllDigits(ds)
    ensures DigitsValue(ds) == n
    ensures ds[0] == '0' ==> n == 0
  {
    if n < 10 then [DigitChar(n)]
    else
      var ds := NatToDigits(n / 10) + [DigitChar(n % 10)];
      assert ds[..|ds| - 1] == NatToDigits(n / 10);
      ds
  }

  /** `std::to_wstring` of an integer. */
  function IntToString(n: int): (s: string)
    ensures s != [] && (s[0] == '-' || IsDigit(s[0]))
    ensures IsDigit(s[|s| - 1])
  {
    if n < 0 then "-" + NatToDigits(-n) else NatToDigits(n)
  }

  /**
   * `std::stoi`: skip leading whitespace, read an optional sign and the longest run
   * of digits. `None` stands for the exceptions: no digits at all (`invalid_argument`)
   * or a value outside the 32-bit range (`out_of_range`). Whatever follows the digits is ignored.
   */
  function Stoi(s: string): (r: Option<int>)
    ensures r.Some? ==> InInt32(r.value)
  {
    var t := TrimStart(s);
    if t != [] && t[0] == '-' then SignedValue(true, DigitPrefix(t[1..]))
    else if t != [] && t[0] == '+' then SignedValue(false, DigitPrefix(t[1..]))
    else SignedValue(false, DigitPrefix(t))
  }

  /** The value of a sign and a run of digits, when there is at least one digit and it fits in 32 bits. */
  function SignedValue(negative: bool, ds: string): (r: Option<int>)
    requires AllDigits(ds)
    ensures r.Some? ==> InInt32(r.value)
  {
    var magnitude: int := DigitsValue(ds);
    var n := if negative then -magnitude else magnitude;
    if ds == [] || !InInt32(n) then None else Some(n)
  }

  /**
   * `stoi` reads back what `to_wstring` wrote, also when text that does not start
   * with a digit follows it (so `"12x"` reads as 12).
   */
  lemma StoiOfIntToString(n: int, rest: string)
    requires InInt32(n)
    requires rest == [] || !IsDigit(rest[0])
    ensures Stoi(IntToString(n) + rest) == Some(n)
  {
    if n < 0 {
      StoiOfDigits(true, NatToDigits(-n), rest);
      assert IntToString(n) + rest == "-" + NatToDigits(-n) + rest;
    } else {
      StoiOfDigits(false, NatToDigits(n), rest);
      assert IntToString(n) + rest == "" + NatToDigits(n) + rest;
    }
  }

  /** `stoi` of an optional minus sign, a run of digits and a non-digit tail. */
  lemma StoiOfDigits(negative: bool, ds: string, rest: string)
    requires ds != [] && AllDigits(ds)
    requires rest == [] || !IsDigit(rest[0])
    ensures Stoi((if negative then "-" else "") + ds + rest) == SignedValue(negative, ds)
  {
    var body := ds + rest;
    DigitPrefixOf(ds, rest);
    if negative {
      var s := ['-'] + body;
      assert "-" + ds + rest == s;
      TrimStartStops(s);
      assert s[1..] == body;
      assert Stoi(s) == SignedValue(true, DigitPrefix(body));
    } else {
      assert "" + ds + rest == body;
      TrimStartStops(body);
      assert Stoi(body) == SignedValue(false, DigitPrefix(body));
    }
  }

  /** Leading whitespace is skipped up to the first other character. */
  lemma {:induction false} TrimStartSkipsSpace(space: string, s: string)
    requires AllSpace(space)
    requires s == [] || !IsSpace(s[0])
    ensures TrimStart(space + s) == s
  {
    if space == [] {
      assert space + s == s;
      TrimStartStops(s);
    } else {
      assert (space + s)[1..] == space[1..] + s;
      TrimStartSkipsSpace(space[1..], s);
    }
  }

  /** `stoi` skips leading whitespace. */
  lemma {:induction false} StoiSkipsSpace(space: string, s: string)
    requires AllSpace(space)
    requires s == [] || !IsSpace(s[0])
    ensures Stoi(space + s) == Stoi(s)
  {
    TrimStartSkipsSpace(space, s);
    TrimStartStops(s);
  }

  /**
   * `stoi` on whitespace, an optional sign and a run of digits: the signed value
   * when it fits in 32 bits, and `None` (`out_of_range`) when it does not.
   */
  lemma {:induction false} StoiReads(space: string, sign: string, ds: string, rest: string)
    requires AllSpace(space)
    requires sign == "" || sign == "+" || sign == "-"
    requires ds != [] && AllDigits(ds)
    requires rest == [] || !IsDigit(rest[0])
    ensures Stoi(space + sign + ds + rest) == SignedValue(sign == "-", ds)
    ensures var m: int := DigitsValue(ds);
      var v := if sign == "-" then -m else m;
      SignedValue(sign == "-", ds) == if InInt32(v) then Some(v) else None
  {
    var body := sign + ds + rest;
    assert space + sign + ds + rest == space + body;
    if sign == "" {
      assert body == ds + rest;
      StoiSkipsSpace(space, body);
      StoiOfDigits(false, ds, rest);
      assert "" + ds + rest == body;
    } else {
      assert body == [sign[0]] + (ds + rest);
      StoiSkipsSpace(space, body);
      StoiSigned(sign[0] == '-', sign, ds, rest);
    }
  }

  /** `stoi` after an explicit sign. */
  lemma {:induction false} StoiSigned(negative: bool, sign: string, ds: string, rest: string)
    requires sign == (if negative then "-" else "+")
    requires ds != [] && AllDigits(ds)
    requires rest == [] || !IsDigit(rest[0])
    ensures Stoi(sign + ds + rest) == SignedValue(negative, ds)
  {
    var body := sign + ds + rest;
    DigitPrefixOf(ds, rest);
    TrimStartStops(body);
    assert body[1..] == ds + rest;
  }

  /** `to_wstring` never writes the same text for two different numbers. */
  lemma IntToStringInjective(a: int, b: int)
    requires InInt32(a) && InInt32(b)
    requires IntToString(a) == IntToString(b)
    ensures a == b
  {
    StoiOfIntToString(a, []);
    StoiOfIntToString(b, []);
    assert IntToString(a) + [] == IntToString(a);
    assert IntToString(b) + [] == IntToString(b);
  }

  /** Text that does not start (after whitespace and a sign) with a digit makes `stoi` throw. */
  lemma StoiWithoutDigits(s: string)
    requires var t := TrimStart(s);
      t == [] || (!IsDigit(t[0]) && (t[0] == '-' || t[0] == '+' ==> |t| == 1 || !IsDigit(t[1])))
    ensures Stoi(s) == None
  {
  }
}
