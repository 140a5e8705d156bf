/** Values shared by every part of the shop model: optional and failing results,
    bytes, JavaScript truthiness of request fields, and the decimal rendering of
    row ids that the image URLs embed. */
module Common {

  datatype Option<+T> = None | Some(value: T)

  datatype Result<+T, +E> = Ok(value: T) | Err(error: E)

  newtype byte = b: int | 0 <= b < 256

  /** A request field that JavaScript treats as true in `if (field)`:
      present and not the empty string. */
  predicate Truthy(s: Option<string>)
  {
    s.Some? && s.value != ""
  }

  /** A numeric request field that JavaScript treats as true: present and not zero. */
  predicate TruthyNumber(n: Option<int>)
  {
    n.Some? && n.value != 0
  }

  /** `field || fallback` on an optional string field. */
  function OrElse(s: Option<string>, fallback: string): string
  {
    if Truthy(s) then s.value else fallback
  }

  function DigitChar(d: nat): (c: char)
    requires d < 10
    ensures '0' <= c <= '9'
  {
    ('0' as int + d) as char
  }

  /** The decimal text of `n`, as a JavaScript template literal renders an id. */
  function Decimal(n: nat): (s: string)
    ensures |s| >= 1
    ensures forall i :: 0 <= i < |s| ==> '0' <= s[i] <= '9'
    ensures n >= 10 ==> |s| >= 2
  {
    if n < 10 then [DigitChar(n)] else Decimal(n / 10) + [DigitChar(n % 10)]
  }

  /** Distinct ids render to distinct text. */
  lemma {:induction false} DecimalInjective(a: nat, b: nat)
    requires Decimal(a) == Decimal(b)
    ensures a == b
  {
    if a < 10 && b < 10 {
      assert Decimal(a)[0] == DigitChar(a);
    } else if a >= 10 && b >= 10 {
      var sa, sb := Decimal(a), Decimal(b);
      assert sa[|sa| - 1] == DigitChar(a % 10);
      assert sb[|sb| - 1] == DigitChar(b % 10);
      assert sa[..|sa| - 1] == Decimal(a / 10);
      assert sb[..|sb| - 1] == Decimal(b / 10);
      DecimalInjective(a / 10, b / 10);
    }
  }
}
