/**
 * Pieces of the Kotlin standard library, specified over `string` (a sequence
 * of characters): `String.split` with a one-character delimiter and
 * `String.toIntOrNull()`, which the workout decoder uses, and `Int.toString()`,
 * which the round-trip lemma uses to print counts.
 */
module KotlinText {

  datatype Option<+T> = None | Some(value: T) {
    /** Kotlin's elvis operator `x ?: default`. */
    function GetOr(default: T): T {
      match this
      case Some(v) => v
      case None => default
    }
  }

  /** The range of a Kotlin `Int` (32-bit two's complement). */
  const INT_MIN: int := -0x8000_0000
  const INT_MAX: int := 0x7fff_ffff

  predicate IsInt(n: int) {
    INT_MIN <= n <= INT_MAX
  }

  /** Number of occurrences of `c` in `s`. */
  function CountOf(s: string, c: char): nat {
    if s == [] then 0 else (if s[0] == c then 1 else 0) + CountOf(s[1..], c)
  }

  // ---------------------------------------------------------------------------
  // split / joinToString
  // ---------------------------------------------------------------------------

  /**
   * `s.split(sep)`: the pieces between consecutive occurrences of `sep`, empty
   * pieces included (also a leading and a trailing one). Never an empty list:
   * `"".split(sep)` is `[""]`.
   */
  function Split(s: string, sep: char): (pieces: seq<string>)
    ensures |pieces| == CountOf(s, sep) + 1
    ensures forall i :: 0 <= i < |pieces| ==> sep !in pieces[i]
  {
    if s == [] then [""]
    else
      var rest := Split(s[1..], sep);
      if s[0] == sep then [""] + rest
      else
        var first := [s[0]] + rest[0];
        assert sep !in first by {
          assert forall k :: 1 <= k < |first| ==> first[k] == rest[0][k - 1];
        }
        [first] + rest[1..]
  }

  /** `pieces.joinToString(sep)`. */
  function Join(pieces: seq<string>, sep: char): string {
    if |pieces| == 0 then ""
    else if |pieces| == 1 then pieces[0]
    else pieces[0] + [sep] + Join(pieces[1..], sep)
  }

  /** Splitting loses nothing: joining the pieces back gives the original text. */
  lemma {:induction false} JoinSplit(s: string, sep: char)
    ensures Join(Split(s, sep), sep) == s
  {
    if s != [] {
      var rest := Split(s[1..], sep);
      JoinSplit(s[1..], sep);
      if s[0] == sep {
        assert Split(s, sep) == [""] + rest;
        assert ([""] + rest)[1..] == rest;
      } else {
        var pieces := Split(s, sep);
        assert pieces == [[s[0]] + rest[0]] + rest[1..];
        if |rest| == 1 {
          assert Join(rest, sep) == rest[0];
        } else {
          assert pieces[1..] == rest[1..];
          assert Join(rest, sep) == rest[0] + [sep] + Join(rest[1..], sep);
        }
      }
    }
  }

  /** Text without the delimiter is one piece. */
  lemma {:induction false} SplitWithoutSeparator(a: string, sep: char)
    requires sep !in a
    ensures Split(a, sep) == [a]
  {
    if a != [] {
      SplitWithoutSeparator(a[1..], sep);
      assert [a[0]] + a[1..] == a;
    }
  }

  /** A delimiter-free prefix followed by the delimiter becomes the first piece. */
  lemma {:induction false} SplitAfterPiece(a: string, sep: char, rest: string)
    requires sep !in a
    ensures Split(a + [sep] + rest, sep) == [a] + Split(rest, sep)
  {
    var s := a + [sep] + rest;
    if a == [] {
      assert s[0] == sep && s[1..] == rest;
    } else {
      assert s[0] == a[0] && s[1..] == a[1..] + [sep] + rest;
      SplitAfterPiece(a[1..], sep, rest);
      assert [a[0]] + a[1..] == a;
    }
  }

  /**
   * Joining delimiter-free pieces and splitting again gives the same pieces,
   * so together with JoinSplit, Split is the unique delimiter-free
   * decomposition of a text.
   */
  lemma {:induction false} SplitJoin(pieces: seq<string>, sep: char)
    requires |pieces| > 0
    requires forall i :: 0 <= i < |pieces| ==> sep !in pieces[i]
    ensures Split(Join(pieces, sep), sep) == pieces
  {
    if |pieces| == 1 {
      SplitWithoutSeparator(pieces[0], sep);
    } else {
      SplitJoin(pieces[1..], sep);
      SplitAfterPiece(pieces[0], sep, Join(pieces[1..], sep));
      assert [pieces[0]] + pieces[1..] == pieces;
    }
  }

  // ---------------------------------------------------------------------------
  // toIntOrNull / toString
  // ---------------------------------------------------------------------------

  predicate IsDigit(c: char) {
    '0' <= c <= '9'
  }

  predicate AllDigits(s: string) {
    forall i :: 0 <= i < |s| ==> IsDigit(s[i])
  }

  /** The value of a string of decimal digits, most significant first. */
  function DigitsValue(ds: string): nat
    requires AllDigits(ds)
  {
    if ds == [] then 0
    else 10 * DigitsValue(ds[..|ds| - 1]) + (ds[|ds| - 1] as int - '0' as int)
  }

  /**
   * The shape `toIntOrNull` accepts: a digit, or a `-` or `+` with at least
   * one character after it, followed only by digits.
   */
  predicate IsNumeral(s: string) {
    && 0 < |s|
    && (IsDigit(s[0]) || ((s[0] == '-' || s[0] == '+') && 1 < |s|))
    && forall i :: 0 < i < |s| ==> IsDigit(s[i])
  }

  /** The signed value a numeral denotes, before any range check. */
  function NumeralValue(s: string): int
    requires IsNumeral(s)
  {
    if s[0] == '-' then -(DigitsValue(s[1..]) as int)
    else if s[0] == '+' then DigitsValue(s[1..])
    else DigitsValue(s)
  }

  /**
   * `s.toIntOrNull()` (radix 10): an optional leading `-` or `+` followed by at
   * least one decimal digit, whose value fits a Kotlin `Int`; anything else is
   * `null` (here `None`).
   */
  function ToIntOrNull(s: string): (r: Option<int>)
    ensures r.Some? ==> IsInt(r.value)
    ensures r.Some? ==> IsNumeral(s) && r.value == NumeralValue(s)
  {
    var signed := |s| > 0 && (s[0] == '-' || s[0] == '+');
    var digits := if signed then s[1..] else s;
    if digits != [] && AllDigits(digits) then
      var magnitude := DigitsValue(digits);
      var n: int := if signed && s[0] == '-' then -(magnitude as int) else magnitude;
      if IsInt(n) then Some(n) else None
    else None
  }

  /**
   * Text that is not a numeral is no number: the empty text (an empty count
   * field), a lone sign, a first character that is neither a digit nor a
   * sign, or a non-digit anywhere after the first character.
   */
  lemma NonNumericIsNull(s: string)
    requires !IsNumeral(s)
    ensures ToIntOrNull(s) == None
  {
  }

  /** A numeral whose value fits an `Int` parses to that value, whatever its sign or leading zeros. */
  lemma NumeralParses(s: string)
    requires IsNumeral(s) && IsInt(NumeralValue(s))
    ensures ToIntOrNull(s) == Some(NumeralValue(s))
  {
  }

  /** A numeral whose value does not fit an `Int` is null: there is no wrap-around. */
  lemma OutOfRangeIsNull(s: string)
    requires IsNumeral(s) && !IsInt(NumeralValue(s))
    ensures ToIntOrNull(s) == None
  {
  }

  function DigitChar(d: nat): (c: char)
    requires d < 10
    ensures IsDigit(c)
  {
    ('0' as int + d) as char
  }

  /** Decimal digits of `n` without leading zeros. */
  function NatDigits(n: nat): (ds: string)
    ensures 0 < |ds| && AllDigits(ds)
    ensures DigitsValue(ds) == n
    ensures ds[0] == '0' ==> n == 0
  {
    if n < 10 then [DigitChar(n)]
    else
      var ds := NatDigits(n / 10) + [DigitChar(n % 10)];
      assert ds[..|ds| - 1] == NatDigits(n / 10);
      ds
  }

  /** `n.toString()` for a Kotlin `Int`: a `-` for negatives, then the digits. */
  function IntToString(n: int): (s: string)
    ensures 0 < |s|
    ensures forall i :: 0 <= i < |s| ==> IsDigit(s[i]) || (i == 0 && s[i] == '-')
  {
    if n < 0 then "-" + NatDigits(-n) else NatDigits(n)
  }

  /** Printing an `Int` and parsing it back gives the same `Int`. */
  lemma ToIntOrNullOfToString(n: int)
    requires IsInt(n)
    ensures ToIntOrNull(IntToString(n)) == Some(n)
  {
    var s := IntToString(n);
    if n < 0 {
      assert s[1..] == NatDigits(-n);
    } else {
      assert s == NatDigits(n);
      assert !(s[0] == '-' || s[0] == '+');
    }
  }
}
