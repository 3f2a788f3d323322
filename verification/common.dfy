/**
 * Small building blocks shared by every generation of the game server:
 * failure-carrying results, the integer semantics of Java, decimal rendering
 * of counters (used for player and client ids) and ASCII case folding.
 */
module Common {

  datatype Option<+T> = None | Some(value: T)

  /** The outcome of an operation the source lets throw or report an error. */
  datatype Result<+T> = Success(value: T) | Failure(error: string)

  /** Java's `%` on `int`: the remainder takes the sign of the dividend. */
  function JavaRem(a: int, b: int): (r: int)
    requires b > 0
    ensures a >= 0 ==> r == a % b
    ensures -b < r < b
    ensures r == 0 <==> a % b == 0
  {
    if a >= 0 then a % b
    else
      NegRemZero(a, b);
      -((-a) % b)
  }

  lemma NegRemZero(a: int, b: int)
    requires b > 0 && a < 0
    ensures (-a) % b == 0 <==> a % b == 0
  {
    var q, m := (-a) / b, (-a) % b;
    assert -a == q * b + m;
    if m == 0 {
      assert a == (-q) * b;
      ModOfMultiple(-q, b);
    } else {
      assert a == (-q - 1) * b + (b - m);
      ModUnique(a, b, -q - 1, b - m);
    }
    if a % b == 0 {
      var q' := a / b;
      assert a == q' * b;
      assert -a == (-q') * b;
      ModOfMultiple(-q', b);
    }
  }

  lemma ModOfMultiple(q: int, b: int)
    requires b > 0
    ensures (q * b) % b == 0
  {
    ModUnique(q * b, b, q, 0);
  }

  lemma ModUnique(a: int, b: int, q: int, r: int)
    requires b > 0 && 0 <= r < b && a == q * b + r
    ensures a % b == r && a / b == q
  {
    var q', r' := a / b, a % b;
    assert a == q' * b + r';
    var k := q - q';
    assert k * b == q * b - q' * b;
    assert k * b == r' - r;
    if k > 0 {
      MulAtLeast(k, b);
    } else if k < 0 {
      MulAtLeast(-k, b);
    }
  }

  lemma MulAtLeast(k: int, b: int)
    requires k >= 1 && b > 0
    ensures k * b >= b
  {
    assert k * b == b + (k - 1) * b;
  }

  /** Java's `/` on `int`: the quotient is truncated toward zero. */
  function JavaDiv(a: int, b: int): (r: int)
    requires b > 0
    ensures a >= 0 ==> r == a / b
    ensures a >= 0 ==> r * b <= a < r * b + b
    ensures a < 0 ==> r * b >= a > r * b - b
  {
    if a >= 0 then a / b else -((-a) / b)
  }

  function DigitChar(d: nat): (c: char)
    requires d < 10
    ensures '0' <= c <= '9'
  {
    (d + 48) as char
  }

  /** `String(n)` in TypeScript and `Integer.toString(n)` in Java, for n >= 0. */
  function NatToDecimal(n: nat): (s: string)
    ensures |s| >= 1
    ensures n >= 10 ==> |s| >= 2
    ensures forall i :: 0 <= i < |s| ==> '0' <= s[i] <= '9'
    decreases n
  {
    if n < 10 then [DigitChar(n)] else NatToDecimal(n / 10) + [DigitChar(n % 10)]
  }

  function IntToDecimal(n: int): (s: string)
    ensures |s| >= 1
  {
    if n < 0 then "-" + NatToDecimal(-n) else NatToDecimal(n)
  }

  /** Distinct counters render to distinct strings. */
  lemma {:induction false} NatToDecimalInjective(a: nat, b: nat)
    requires NatToDecimal(a) == NatToDecimal(b)
    ensures a == b
    decreases a
  {
    var sa, sb := NatToDecimal(a), NatToDecimal(b);
    if a < 10 && b < 10 {
      assert sa[0] == DigitChar(a) && sb[0] == DigitChar(b);
    } else if a < 10 || b < 10 {
      assert false;
    } else {
      assert sa[|sa| - 1] == DigitChar(a % 10);
      assert sb[|sb| - 1] == DigitChar(b % 10);
      assert a % 10 == b % 10;
      assert sa[..|sa| - 1] == NatToDecimal(a / 10);
      assert sb[..|sb| - 1] == NatToDecimal(b / 10);
      NatToDecimalInjective(a / 10, b / 10);
    }
  }

  /** The value of a string of decimal digits; leading zeros add nothing. */
  function DecimalValue(s: string): (v: nat)
    requires forall i :: 0 <= i < |s| ==> '0' <= s[i] <= '9'
    decreases |s|
  {
    if |s| == 0 then 0
    else DecimalValue(s[..|s| - 1]) * 10 + (s[|s| - 1] as int - '0' as int)
  }

  /** Reading back a rendered counter gives the counter. */
  lemma {:induction false} DecimalRoundTrip(n: nat)
    ensures DecimalValue(NatToDecimal(n)) == n
    decreases n
  {
    var s := NatToDecimal(n);
    if n >= 10 {
      assert s[..|s| - 1] == NatToDecimal(n / 10);
      DecimalRoundTrip(n / 10);
    }
  }

  /** A leading zero does not change the value. */
  lemma {:induction false} LeadingZero(s: string)
    requires forall i :: 0 <= i < |s| ==> '0' <= s[i] <= '9'
    ensures DecimalValue("0" + s) == DecimalValue(s)
    decreases |s|
  {
    if |s| > 0 {
      var t := "0" + s;
      assert t[..|t| - 1] == "0" + s[..|s| - 1];
      LeadingZero(s[..|s| - 1]);
    }
  }

  function ToLowerAscii(c: char): (r: char)
    ensures 'A' <= c <= 'Z' ==> r != c && 'a' <= r <= 'z'
    ensures !('A' <= c <= 'Z') ==> r == c
  {
    if 'A' <= c <= 'Z' then (c as int + 32) as char else c
  }

  /** A string with every ASCII capital replaced by its small letter. */
  function ToLowerAsciiString(s: string): (t: string)
    ensures |t| == |s| && forall i :: 0 <= i < |s| ==> t[i] == ToLowerAscii(s[i])
    decreases |s|
  {
    if |s| == 0 then "" else [ToLowerAscii(s[0])] + ToLowerAsciiString(s[1..])
  }

  /**
   * Java's `String.equalsIgnoreCase`, restricted to ASCII letters: the two
   * strings agree once both are lower-cased.
   */
  predicate EqualsIgnoreCase(a: string, b: string): (eq: bool)
    ensures eq <==> ToLowerAsciiString(a) == ToLowerAsciiString(b)
  {
    var la, lb := ToLowerAsciiString(a), ToLowerAsciiString(b);
    assert |la| == |lb| ==> (la == lb <==> forall i :: 0 <= i < |a| ==> la[i] == lb[i]);
    |a| == |b| && forall i :: 0 <= i < |a| ==> ToLowerAscii(a[i]) == ToLowerAscii(b[i])
  }

  /** The comparison is an equivalence: reflexive, symmetric and transitive. */
  lemma EqualsIgnoreCaseProperties(a: string, b: string, c: string)
    ensures EqualsIgnoreCase(a, a)
    ensures EqualsIgnoreCase(a, b) <==> EqualsIgnoreCase(b, a)
    ensures EqualsIgnoreCase(a, b) && EqualsIgnoreCase(b, c) ==> EqualsIgnoreCase(a, c)
  {
  }
}
