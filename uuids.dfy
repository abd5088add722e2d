/**
 * The source of fresh callback identifiers. `uuid.uuid1()` is a time-based
 * identifier; here it is the decimal rendering of a logical clock that
 * advances once per identifier issued. Distinct clock readings give distinct
 * identifiers, which is all the registry relies on.
 */
module Uuids {

  type Uuid = string

  function DigitChar(d: nat): (c: char)
    requires d < 10
    ensures '0' <= c <= '9'
    ensures c as int - '0' as int == d
  {
    (d + '0' as int) as char
  }

  /** The decimal digits of `n`, most significant first, without leading zeros. */
  function Decimal(n: nat): (s: string)
    ensures |s| >= 1
    ensures |s| == 1 <==> n < 10
    ensures forall i :: 0 <= i < |s| ==> '0' <= s[i] <= '9'
  {
    if n < 10 then [DigitChar(n)] else Decimal(n / 10) + [DigitChar(n % 10)]
  }

  /** The identifier issued at clock reading `t`. */
  function UuidAt(t: nat): Uuid
  {
    Decimal(t)
  }

  /** Different numbers have different decimal renderings. */
  lemma {:induction false} DecimalInjective(a: nat, b: nat)
    requires Decimal(a) == Decimal(b)
    ensures a == b
  {
    if a >= 10 && b >= 10 {
      var sa, sb := Decimal(a), Decimal(b);
      assert sa[..|sa| - 1] == Decimal(a / 10);
      assert sb[..|sb| - 1] == Decimal(b / 10);
      DecimalInjective(a / 10, b / 10);
      assert DigitChar(a % 10) == sa[|sa| - 1] == sb[|sb| - 1] == DigitChar(b % 10);
    }
  }

  /** Identifiers issued at different clock readings differ. */
  lemma UuidAtInjective(s: nat, t: nat)
    requires s != t
    ensures UuidAt(s) != UuidAt(t)
  {
    if UuidAt(s) == UuidAt(t) {
      DecimalInjective(s, t);
    }
  }
}
