/** `hextoDecimal` (helper.go:104-116): the text after the first `x` of the
    input, up to and including the next `x`, parsed as a base-16 integer in
    the `int32` range by `strconv.ParseInt(piece, 16, 32)`. */
module Hex {
  import opened GoTypes

  /** The error kinds a `strconv.NumError` carries. */
  datatype NumError = ErrSyntax | ErrRange

  const MAX_UINT32: int := 0xFFFF_FFFF
  /** `1 << (32 - 1)`: the first value outside the `int32` range. */
  const INT32_CUTOFF: int := 0x8000_0000

  // ---------------------------------------------------------------------------
  // strings.SplitAfter(s, "x")

  /** The pieces `strings.SplitAfter(s, "x")` returns: `s` cut after every
      `x`, each separator kept at the end of its piece. */
  function SplitAfterX(s: string): (pieces: seq<string>)
    ensures |pieces| >= 1
    ensures 'x' in s <==> |pieces| >= 2
  {
    if s == [] then [[]]
    else
      var rest := SplitAfterX(s[1..]);
      assert 'x' in s <==> s[0] == 'x' || 'x' in s[1..] by {
        assert s == [s[0]] + s[1..];
      }
      if s[0] == 'x' then [[s[0]]] + rest
      else [[s[0]] + rest[0]] + rest[1..]
  }

  /** The position of the first `x` in `s`. */
  function IndexOfX(s: string): (i: nat)
    requires 'x' in s
    ensures i < |s| && s[i] == 'x' && 'x' !in s[..i]
  {
    if s[0] == 'x' then 0
    else
      assert s == [s[0]] + s[1..];
      var j := IndexOfX(s[1..]);
      assert s[..j + 1] == [s[0]] + s[1..][..j];
      j + 1
  }

  /** The text up to and including the first `x`, or all of `s` when it has none. */
  function UpToFirstX(s: string): (t: string)
    ensures 'x' !in s ==> t == s
    ensures 'x' in s ==> |t| > 0 && t[|t| - 1] == 'x'
  {
    if 'x' in s then s[..IndexOfX(s) + 1] else s
  }

  /** What the source expects in `rmPrefix[1]`: the text after the first `x`,
      up to and including the next `x` or to the end. */
  function AfterFirstX(s: string): string
    requires 'x' in s
  {
    UpToFirstX(s[IndexOfX(s) + 1..])
  }

  /** The pieces concatenated back together. */
  function Concat(pieces: seq<string>): string {
    if pieces == [] then [] else pieces[0] + Concat(pieces[1..])
  }

  /** Splitting loses nothing: the pieces put back together are the input. */
  lemma {:induction false} SplitAfterXJoin(s: string)
    ensures Concat(SplitAfterX(s)) == s
  {
    if s != [] {
      var rest := SplitAfterX(s[1..]);
      SplitAfterXJoin(s[1..]);
      if s[0] == 'x' {
        assert ([[s[0]]] + rest)[1..] == rest;
      } else {
        var pieces := [[s[0]] + rest[0]] + rest[1..];
        assert pieces[1..] == rest[1..];
        assert Concat(rest) == rest[0] + Concat(rest[1..]);
        assert s == [s[0]] + s[1..];
      }
    }
  }

  /** Splitting a string that does not start with `x`: its first character
      joins the first piece of the rest. */
  lemma SplitAfterXCons(s: string)
    requires s != [] && s[0] != 'x'
    ensures SplitAfterX(s)[0] == [s[0]] + SplitAfterX(s[1..])[0]
    ensures SplitAfterX(s)[1..] == SplitAfterX(s[1..])[1..]
  {
  }

  /** The first `x` of a string that does not start with `x` is one past the
      first `x` of its tail. */
  lemma IndexOfXCons(s: string)
    requires 'x' in s && s[0] != 'x'
    ensures 'x' in s[1..] && IndexOfX(s) == IndexOfX(s[1..]) + 1
  {
  }

  /** The first piece runs to the first `x` (inclusive), or is all of `s`. */
  lemma {:induction false} SplitAfterXHead(s: string)
    ensures SplitAfterX(s)[0] == UpToFirstX(s)
  {
    if s != [] && s[0] != 'x' {
      var tail := s[1..];
      if 'x' in s {
        IndexOfXCons(s);
        var j := IndexOfX(tail);
        calc {
          SplitAfterX(s)[0];
          { SplitAfterXCons(s); }
          [s[0]] + SplitAfterX(tail)[0];
          { SplitAfterXHead(tail); }
          [s[0]] + tail[..j + 1];
          s[..j + 2];
          UpToFirstX(s);
        }
      } else {
        assert 'x' !in tail;
        calc {
          SplitAfterX(s)[0];
          { SplitAfterXCons(s); }
          [s[0]] + SplitAfterX(tail)[0];
          { SplitAfterXHead(tail); }
          [s[0]] + tail;
          s;
        }
      }
    }
  }

  /** The pieces after the first are the split of the text after the first `x`. */
  lemma {:induction false} SplitAfterXTail(s: string)
    requires 'x' in s
    ensures SplitAfterX(s)[1..] == SplitAfterX(s[IndexOfX(s) + 1..])
  {
    var tail := s[1..];
    if s[0] == 'x' {
      assert IndexOfX(s) == 0;
      assert SplitAfterX(s) == [[s[0]]] + SplitAfterX(tail);
      assert ([[s[0]]] + SplitAfterX(tail))[1..] == SplitAfterX(tail);
    } else {
      IndexOfXCons(s);
      var j := IndexOfX(tail);
      calc {
        SplitAfterX(s)[1..];
        { SplitAfterXCons(s); }
        SplitAfterX(tail)[1..];
        { SplitAfterXTail(tail); }
        SplitAfterX(tail[j + 1..]);
        { assert tail[j + 1..] == s[j + 2..]; assert IndexOfX(s) + 1 == j + 2; }
        SplitAfterX(s[IndexOfX(s) + 1..]);
      }
    }
  }

  /** `rmPrefix[1]` in the source is the text after the first `x`, up to and
      including the next `x` or the end. */
  lemma SecondPiece(s: string)
    requires 'x' in s
    ensures SplitAfterX(s)[1] == AfterFirstX(s)
  {
    SplitAfterXTail(s);
    var tail := s[IndexOfX(s) + 1..];
    SplitAfterXHead(tail);
    assert SplitAfterX(s)[1] == SplitAfterX(s)[1..][0];
  }

  // ---------------------------------------------------------------------------
  // Base-16 digits and their value

  /** Go's digit test for base 16: `0`-`9`, or a letter whose lower-case form
      has a value below 16, which is `a`-`f` and `A`-`F`. */
  predicate IsHexDigit(c: char) {
    '0' <= c <= '9' || 'a' <= c <= 'f' || 'A' <= c <= 'F'
  }

  function DigitValue(c: char): (d: nat)
    requires IsHexDigit(c)
    ensures d < 16
  {
    if '0' <= c <= '9' then c as int - '0' as int
    else if 'a' <= c <= 'f' then c as int - 'a' as int + 10
    else c as int - 'A' as int + 10
  }

  predicate AllHex(h: string) {
    forall i :: 0 <= i < |h| ==> IsHexDigit(h[i])
  }

  function Pow16(k: nat): (p: nat)
    ensures p >= 1
  {
    if k == 0 then 1 else 16 * Pow16(k - 1)
  }

  /** The value of a string of hex digits, most significant first. */
  function HexValue(h: string): nat
    requires AllHex(h)
  {
    if h == [] then 0 else DigitValue(h[0]) * Pow16(|h| - 1) + HexValue(h[1..])
  }

  // ---------------------------------------------------------------------------
  // strconv.ParseUint(s, 16, 32) and strconv.ParseInt(s, 16, 32)

  /** The digit loop of `strconv.ParseUint` for base 16 and 32 bits, with `n`
      the value read so far. A character that is not a hex digit is a syntax
      error; a value above `2^32 - 1` is a range error reported at once, with
      the maximum as value. (Go's other overflow test, `n >= maxUint64/16 + 1`,
      cannot fire while `n` fits in 32 bits.) */
  function Accumulate(s: string, n: nat): (r: GoResult<nat, NumError>)
    requires n <= MAX_UINT32
    ensures r.value <= MAX_UINT32
    ensures r.Err? ==> r.value == if r.error == ErrRange then MAX_UINT32 else 0
    decreases |s|
  {
    if s == [] then Ok(n)
    else if !IsHexDigit(s[0]) then Err(0, ErrSyntax)
    else
      var n1 := n * 16 + DigitValue(s[0]);
      if n1 > MAX_UINT32 then Err(MAX_UINT32, ErrRange)
      else Accumulate(s[1..], n1)
  }

  /** `strconv.ParseUint(s, 16, 32)`: the empty string is a syntax error. */
  function ParseUint(s: string): (r: GoResult<nat, NumError>)
    ensures r.value <= MAX_UINT32
    ensures r.Err? ==> r.value == if r.error == ErrRange then MAX_UINT32 else 0
  {
    if s == [] then Err(0, ErrSyntax) else Accumulate(s, 0)
  }

  /** `strconv.ParseInt(s, 16, 32)`: an optional `+` or `-`, then the unsigned
      digits; an unsigned value outside the `int32` range is a range error
      whose value is the bound on that side. */
  function ParseInt(s: string): (r: GoResult<int, NumError>)
    ensures -INT32_CUTOFF <= r.value < INT32_CUTOFF
  {
    if s == [] then Err(0, ErrSyntax)
    else
      var neg := s[0] == '-';
      var u := ParseUint(if s[0] == '+' || s[0] == '-' then s[1..] else s);
      if u.Err? && u.error != ErrRange then Err(0, u.error)
      else if !neg && u.value >= INT32_CUTOFF then Err(INT32_CUTOFF - 1, ErrRange)
      else if neg && u.value > INT32_CUTOFF then Err(-INT32_CUTOFF, ErrRange)
      else Ok(if neg then -(u.value as int) else u.value)
  }

  /** The digits after an optional sign. */
  function Unsigned(t: string): string {
    if |t| > 0 && (t[0] == '+' || t[0] == '-') then t[1..] else t
  }

  predicate Negative(t: string) {
    |t| > 0 && t[0] == '-'
  }

  /** `t` is an optionally signed, non-empty string of hex digits whose value
      lies in the `int32` range. */
  predicate IsInt32Hex(t: string) {
    var digits := Unsigned(t);
    |digits| > 0 && AllHex(digits) &&
    (if Negative(t) then HexValue(digits) <= INT32_CUTOFF else HexValue(digits) < INT32_CUTOFF)
  }

  function SignedHexValue(t: string): int
    requires IsInt32Hex(t)
  {
    if Negative(t) then -(HexValue(Unsigned(t)) as int) else HexValue(Unsigned(t))
  }

  /** The digit loop computes the positional value, or stops with a range
      error as soon as that value exceeds `2^32 - 1`. */
  lemma {:induction false} AccumulateValue(s: string, n: nat)
    requires n <= MAX_UINT32 && AllHex(s)
    ensures var total := n * Pow16(|s|) + HexValue(s);
            Accumulate(s, n) == if total <= MAX_UINT32 then Ok(total) else Err(MAX_UINT32, ErrRange)
  {
    if s != [] {
      var k := |s| - 1;
      var d := DigitValue(s[0]);
      var n1 := n * 16 + d;
      assert AllHex(s[1..]) by {
        forall i | 0 <= i < |s[1..]| ensures IsHexDigit(s[1..][i]) {
          assert s[1..][i] == s[i + 1];
        }
      }
      assert HexValue(s) == d * Pow16(k) + HexValue(s[1..]);
      ShiftDigit(n, d, Pow16(k));
      if n1 <= MAX_UINT32 {
        AccumulateValue(s[1..], n1);
      }
    }
  }

  /** One step of the positional value: `n` followed by digit `d`, then by
      digits worth `p` per unit of `d`. */
  lemma ShiftDigit(n: nat, d: nat, p: nat)
    requires p >= 1
    ensures n * (16 * p) + d * p == (n * 16 + d) * p
    ensures (n * 16 + d) * p >= n * 16 + d
  {
  }

  /** A character that is not a hex digit makes the digit loop fail. */
  lemma {:induction false} AccumulateRejects(s: string, n: nat)
    requires n <= MAX_UINT32 && !AllHex(s)
    ensures Accumulate(s, n).Err?
  {
    if IsHexDigit(s[0]) {
      var n1 := n * 16 + DigitValue(s[0]);
      if n1 <= MAX_UINT32 {
        var i :| 0 <= i < |s| && !IsHexDigit(s[i]);
        assert i > 0 && !IsHexDigit(s[1..][i - 1]);
        AccumulateRejects(s[1..], n1);
      }
    }
  }

  /** `ParseInt(t, 16, 32)` succeeds exactly on signed hex numerals in the
      `int32` range, and then returns their value. */
  lemma ParseIntCorrect(t: string)
    ensures ParseInt(t).Ok? <==> IsInt32Hex(t)
    ensures IsInt32Hex(t) ==> ParseInt(t).value == SignedHexValue(t)
  {
    var digits := Unsigned(t);
    if digits != [] {
      if AllHex(digits) {
        AccumulateValue(digits, 0);
      } else {
        AccumulateRejects(digits, 0);
      }
    }
  }

  // ---------------------------------------------------------------------------
  // hextoDecimal

  /** `hextoDecimal(hexinput)`. Go panics on an input without `x`, where
      `rmPrefix` has a single piece; that input is excluded here. A parse
      error yields `-1` together with the error. */
  function HexToDecimal(hexinput: string): (r: GoResult<int, NumError>)
    requires 'x' in hexinput
    ensures -INT32_CUTOFF <= r.value < INT32_CUTOFF
    ensures r.Err? ==> r.value == -1
  {
    var rmPrefix := SplitAfterX(hexinput);
    var x := ParseInt(rmPrefix[1]);
    if x.Err? then Err(-1, x.error) else Ok(x.value)
  }

  /** Exactly when the text after the first `x` is a signed hex numeral in the
      `int32` range, `hextoDecimal` returns its value with no error; in every
      other case it returns `-1` with an error. */
  lemma HexToDecimalSpec(s: string)
    requires 'x' in s
    ensures var t := AfterFirstX(s);
            && (IsInt32Hex(t) ==> HexToDecimal(s) == Ok(SignedHexValue(t)))
            && (!IsInt32Hex(t) ==> HexToDecimal(s).Err? && HexToDecimal(s).value == -1)
  {
    SecondPiece(s);
    ParseIntCorrect(AfterFirstX(s));
  }

  /** `hextoDecimal("0x" + h)` for hex digits `h` with value at most
      `2^31 - 1` is that value, with no error. */
  lemma HexToDecimalPrefixed(h: string)
    requires |h| > 0 && AllHex(h) && HexValue(h) < INT32_CUTOFF
    ensures HexToDecimal("0x" + h) == Ok(HexValue(h))
  {
    var s := "0x" + h;
    assert IndexOfX(s) == 1 by {
      assert s[1] == 'x' && s[..1] == "0";
    }
    assert 'x' !in h by {
      assert forall i :: 0 <= i < |h| ==> h[i] != 'x';
    }
    assert s[2..] == h;
    assert AfterFirstX(s) == h;
    assert Unsigned(h) == h by {
      assert IsHexDigit(h[0]);
    }
    HexToDecimalSpec(s);
  }

  /** A second `x` after the first one ends the piece with an `x`, which is
      not a hex digit: the result is `-1` with an error. */
  lemma HexToDecimalSecondX(s: string)
    requires 'x' in s && 'x' in s[IndexOfX(s) + 1..]
    ensures HexToDecimal(s).Err? && HexToDecimal(s).value == -1
  {
    var t := AfterFirstX(s);
    assert t[|t| - 1] == 'x';
    assert !AllHex(Unsigned(t)) by {
      var u := Unsigned(t);
      if |u| > 0 {
        assert u[|u| - 1] == t[|t| - 1];
      }
    }
    HexToDecimalSpec(s);
  }
}
