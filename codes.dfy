/**
 * The code normaliser: every raw municipality code, from the statistics
 * service or from the boundary features, is turned into a three-character key.
 */
module MunicipalityCodes {

  /** A raw `kunta` value as it may appear in a feature's property bag. */
  datatype RawCode =
    | Nullish            // `null` or `undefined`
    | Str(s: string)     // a string value
    | Whole(n: int)      // an integral number

  /** The character of one decimal digit. */
  function DigitChar(d: nat): (c: char)
    requires d < 10
    ensures '0' <= c <= '9'
    ensures c as int - '0' as int == d
  {
    "0123456789"[d]
  }

  /** The shortest decimal numeral of a natural number. */
  function Digits(n: nat): (s: string)
    ensures |s| >= 1
    ensures forall i :: 0 <= i < |s| ==> '0' <= s[i] <= '9'
    decreases n
  {
    if n < 10 then [DigitChar(n)] else Digits(n / 10) + [DigitChar(n % 10)]
  }

  /** `String(v)` after `v ?? ""`: the string a raw code becomes. */
  function AsString(raw: RawCode): string
  {
    match raw
    case Nullish => ""
    case Str(s) => s
    case Whole(n) => if n < 0 then "-" + Digits(-n) else Digits(n)
  }

  /**
   * `s.slice(-3)`: the last three characters of `s`, or all of `s` when it
   * is shorter. The statistics table is keyed by this, without padding.
   */
  function Last3(s: string): (r: string)
    ensures |r| == if |s| < 3 then |s| else 3
  {
    if |s| < 3 then s else s[|s| - 3..]
  }

  /** `s.padStart(3, "0")`. */
  function PadStart3(s: string): (r: string)
    ensures |s| <= 3 ==> |r| == 3
    ensures |s| >= 3 ==> r == s
  {
    if |s| < 3 then seq(3 - |s|, _ => '0') + s else s
  }

  /**
   * `toMunicipalityCode`: three characters, made of the last (at most three)
   * characters of the value's string form, preceded by as many '0' as are
   * missing. Nothing checks that they are digits.
   */
  function ToMunicipalityCode(raw: RawCode): (r: string)
    ensures |r| == 3
    ensures var s := AsString(raw);
            var m := if |s| < 3 then |s| else 3;
            && r[3 - m..] == s[|s| - m..]
            && forall i :: 0 <= i < 3 - m ==> r[i] == '0'
  {
    PadStart3(Last3(AsString(raw)))
  }

  /** An absent code is looked up under "000". */
  lemma AbsentIsZeros()
    ensures ToMunicipalityCode(Nullish) == "000"
  {
  }

  /** A string of exactly three characters is already normal. */
  lemma ThreeCharsAreFixed(s: string)
    requires |s| == 3
    ensures ToMunicipalityCode(Str(s)) == s
  {
  }

  /** Normalising is idempotent on its own output. */
  lemma Idempotent(raw: RawCode)
    ensures ToMunicipalityCode(Str(ToMunicipalityCode(raw))) == ToMunicipalityCode(raw)
  {
    ThreeCharsAreFixed(ToMunicipalityCode(raw));
  }

  /**
   * Two strings of at least three characters normalise to the same key
   * exactly when they end in the same three characters, whatever prefix
   * (such as "KU") they carry.
   */
  lemma SameKeyIffSameSuffix(s: string, t: string)
    requires |s| >= 3 && |t| >= 3
    ensures ToMunicipalityCode(Str(s)) == ToMunicipalityCode(Str(t))
            <==> s[|s| - 3..] == t[|t| - 3..]
  {
  }

  /** The zero-padded three-digit numeral of a number below 1000. */
  function ThreeDigits(m: nat): (r: string)
    requires m < 1000
    ensures |r| == 3
  {
    [DigitChar(m / 100), DigitChar(m / 10 % 10), DigitChar(m % 10)]
  }

  /** The last character of a numeral is the last digit of the number. */
  lemma LastDigit(n: nat)
    ensures Digits(n)[|Digits(n)| - 1] == DigitChar(n % 10)
  {
  }

  /** The last three characters of a numeral of at least three digits. */
  lemma {:induction false} LastThreeDigits(n: nat)
    requires n >= 100
    ensures Last3(Digits(n)) == [DigitChar(n / 100 % 10), DigitChar(n / 10 % 10), DigitChar(n % 10)]
  {
    var x := Digits(n / 100);
    LastDigit(n / 100);
    assert Digits(n / 10) == x + [DigitChar(n / 10 % 10)];
    var s := x + [DigitChar(n / 10 % 10), DigitChar(n % 10)];
    assert Digits(n) == s;
    assert s[|s| - 3..] == [x[|x| - 1], DigitChar(n / 10 % 10), DigitChar(n % 10)];
  }

  /** Division by ten, pinned down by its quotient and remainder. */
  lemma DivMod10(x: nat, q: nat, r: nat)
    requires r < 10 && x == 10 * q + r
    ensures x / 10 == q && x % 10 == r
  {
  }

  /** Division by a hundred, pinned down by its quotient and remainder. */
  lemma DivMod100(x: nat, q: nat, r: nat)
    requires r < 100 && x == 100 * q + r
    ensures x / 100 == q && x % 100 == r
  {
  }

  /** The digits of `n % 1000` are the last three digits of `n`. */
  lemma LowDigits(n: nat)
    ensures n % 1000 / 100 == n / 100 % 10
    ensures n % 1000 / 10 % 10 == n / 10 % 10
    ensures n % 1000 % 10 == n % 10
  {
    var q, r := n / 1000, n % 1000;
    var a, b := r / 100, r % 100;
    var c, e := b / 10, b % 10;
    DivMod100(n, 10 * q + a, b);
    DivMod10(10 * q + a, q, a);
    DivMod10(n, 100 * q + 10 * a + c, e);
    DivMod10(100 * q + 10 * a + c, 10 * q + a, c);
    DivMod10(r, 10 * a + c, e);
    DivMod10(10 * a + c, a, c);
  }

  /**
   * A non-negative numeric code keeps its last three decimal digits,
   * zero-padded: 49 becomes "049" and 91049 becomes "049".
   */
  lemma {:induction false} NumericCode(n: nat)
    ensures ToMunicipalityCode(Whole(n)) == ThreeDigits(n % 1000)
  {
    if n < 10 {
      OneDigitCode(n);
      OneDigitNumeral(n);
    } else if n < 100 {
      TwoDigitCode(n);
      TwoDigitNumeral(n);
    } else {
      LowDigits(n);
      LastThreeDigits(n);
      assert ToMunicipalityCode(Whole(n)) == PadStart3(Last3(Digits(n)));
    }
  }

  lemma OneDigitNumeral(n: nat)
    requires n < 10
    ensures ThreeDigits(n % 1000) == ['0', '0', DigitChar(n)]
  {
  }

  lemma TwoDigitNumeral(n: nat)
    requires 10 <= n < 100
    ensures ThreeDigits(n % 1000) == ['0', DigitChar(n / 10), DigitChar(n % 10)]
  {
    var m := n % 1000;
    assert m == n;
    DivMod100(m, 0, m);
    DivMod10(0, 0, 0);
    DivMod10(m, m / 10, m % 10);
  }

  lemma OneDigitCode(n: nat)
    requires n < 10
    ensures ToMunicipalityCode(Whole(n)) == ['0', '0', DigitChar(n)]
  {
    assert Last3(Digits(n)) == [DigitChar(n)];
    assert seq(2, _ => '0') == ['0', '0'];
  }

  lemma TwoDigitCode(n: nat)
    requires 10 <= n < 100
    ensures ToMunicipalityCode(Whole(n)) == ['0', DigitChar(n / 10), DigitChar(n % 10)]
  {
    assert Digits(n / 10) == [DigitChar(n / 10)];
    assert Last3(Digits(n)) == [DigitChar(n / 10), DigitChar(n % 10)];
    assert seq(1, _ => '0') == ['0'];
  }

  /** The number 91 is looked up as "091". */
  lemma NinetyOne()
    ensures ToMunicipalityCode(Whole(91)) == "091"
  {
    NumericCode(91);
    assert ThreeDigits(91) == "091";
  }

  /** A negative number keeps its sign character; nothing checks for digits. */
  lemma NegativeKeepsSign()
    ensures ToMunicipalityCode(Whole(-5)) == "0-5"
    ensures ToMunicipalityCode(Whole(-49)) == "-49"
  {
    assert Digits(5) == "5";
    assert Digits(49) == "49";
  }
}
