/**
 * `MutableLong`, a mutable Java `long` box, as its tests fix it: `valueOf`,
 * the default value, `addAndGet`, `getAndInc`, `toString`, `equals` and
 * `hashCode`. Arithmetic wraps around at 64 bits as Java's `long` does.
 */
module MutableLongs {
  import opened JavaInts

  /** Two's-complement wrap-around of a mathematical sum into a `long`. */
  function Wrap64(x: int): (r: Long)
    ensures (r - x) % TwoTo64 == 0
    ensures -TwoTo63 <= x < TwoTo63 ==> r == x
  {
    (x + TwoTo63) % TwoTo64 - TwoTo63
  }

  datatype MutableLong = MutableLong(value: Long)

  /** `new MutableLong()`. */
  function Default(): (m: MutableLong)
    ensures m.value == 0
  {
    MutableLong(0)
  }

  /** `MutableLong.valueOf(value)`. */
  function ValueOf(value: Long): (m: MutableLong)
    ensures m.value == value
  {
    MutableLong(value)
  }

  /**
   * `addAndGet(delta)`: adds `delta` and returns the new value, which is also
   * the value stored; it is `value + delta` modulo 2^64 within the `long` range.
   */
  function AddAndGet(m: MutableLong, delta: Long): (r: (MutableLong, Long))
    ensures r.0.value == r.1
    ensures (r.1 - (m.value + delta)) % TwoTo64 == 0
    ensures -TwoTo63 <= m.value + delta < TwoTo63 ==> r.1 == m.value + delta
  {
    var v := Wrap64(m.value + delta);
    (MutableLong(v), v)
  }

  /** `getAndInc()`: returns the old value and stores the next one, wrapping at `Long.MAX_VALUE`. */
  function GetAndInc(m: MutableLong): (r: (MutableLong, Long))
    ensures r.1 == m.value
    ensures m.value < TwoTo63 - 1 ==> r.0.value == m.value + 1
    ensures m.value == TwoTo63 - 1 ==> r.0.value == -TwoTo63
  {
    (MutableLong(Wrap64(m.value + 1)), m.value)
  }

  /** The test's values: 13 + 11 is 24 and stored; `getAndInc` on 13 gives 13 and stores 14. */
  lemma ArithmeticExamples()
    ensures AddAndGet(ValueOf(13), 11) == (ValueOf(24), 24)
    ensures GetAndInc(ValueOf(13)) == (ValueOf(14), 13)
  {
  }

  /** `getAndInc` called `n` times. */
  function IncTimes(m: MutableLong, n: nat): MutableLong
    decreases n
  {
    if n == 0 then m else GetAndInc(IncTimes(m, n - 1)).0
  }

  /** `n` calls of `getAndInc` store what one `addAndGet(n)` would: the value plus `n`, wrapped. */
  lemma {:induction false} IncrementsAddUp(m: MutableLong, n: nat)
    ensures IncTimes(m, n).value == Wrap64(m.value + n)
    decreases n
  {
    if n > 0 {
      IncrementsAddUp(m, n - 1);
      WrapThenAdd(m.value + n - 1, 1);
    }
  }

  /** Wrapping before an addition does not change the wrapped sum. */
  lemma WrapThenAdd(x: int, y: int)
    ensures Wrap64(Wrap64(x) + y) == Wrap64(x + y)
  {
    var k := (x + TwoTo63) / TwoTo64;
    assert Wrap64(x) == x - k * TwoTo64;
    WrapPeriodic(x + y, -k);
  }

  lemma WrapPeriodic(x: int, k: int)
    ensures Wrap64(x + k * TwoTo64) == Wrap64(x)
  {
    var y := x + TwoTo63;
    assert (y + k * TwoTo64) % TwoTo64 == y % TwoTo64;
  }

  // ---------------------------------------------------------------------------
  // toString

  function DigitChar(d: nat): char
    requires d < 10
  {
    "0123456789"[d]
  }

  predicate IsDigit(c: char) {
    '0' <= c <= '9'
  }

  function DigitValue(c: char): nat
    requires IsDigit(c)
  {
    (c as int) - ('0' as int)
  }

  /** The decimal digits of `n`, without leading zeros. */
  function Decimal(n: nat): (s: string)
    ensures |s| > 0 && IsDecimal(s)
    decreases n
  {
    if n < 10 then [DigitChar(n)] else Decimal(n / 10) + [DigitChar(n % 10)]
  }

  /** Reading decimal digits back. */
  function ParseDecimal(s: string): nat
    requires IsDecimal(s)
  {
    if |s| == 0 then 0 else ParseDecimal(s[..|s| - 1]) * 10 + DigitValue(s[|s| - 1])
  }

  lemma {:induction false} ParseDecimalOfDecimal(n: nat)
    ensures ParseDecimal(Decimal(n)) == n
    decreases n
  {
    if n >= 10 {
      ParseDecimalOfDecimal(n / 10);
      var s := Decimal(n);
      assert s[..|s| - 1] == Decimal(n / 10);
    }
  }

  /** Java's rendering of a `long`: a minus sign for negatives, then the digits. */
  function LongToString(v: int): string {
    if v < 0 then "-" + Decimal(-v) else Decimal(v)
  }

  /** `toString()`. */
  function ToString(m: MutableLong): string {
    "MutableLong{value=" + LongToString(m.value) + "}"
  }

  /** A default-constructed MutableLong renders as "MutableLong{value=0}". */
  lemma DefaultToString()
    ensures ToString(Default()) == "MutableLong{value=0}"
  {
  }

  predicate IsDecimal(s: string) {
    forall k :: 0 <= k < |s| ==> IsDigit(s[k])
  }

  /** Reading a rendered `long` back: an optional minus sign, then decimal digits. */
  function ParseLong(s: string): int
    requires IsDecimal(s) || (|s| > 0 && s[0] == '-' && IsDecimal(s[1..]))
  {
    if |s| > 0 && s[0] == '-' then -(ParseDecimal(s[1..]) as int) else ParseDecimal(s)
  }

  /** The rendering of a `long` reads back as that `long`. */
  lemma ParseLongOfLongToString(x: int)
    ensures var s := LongToString(x);
            (IsDecimal(s) || (|s| > 0 && s[0] == '-' && IsDecimal(s[1..]))) && ParseLong(s) == x
  {
    var s := LongToString(x);
    if x < 0 {
      var d := Decimal(-x);
      assert s[1..] == d;
      ParseDecimalOfDecimal(-x);
    } else {
      var d := Decimal(x);
      assert IsDigit(d[0]);
      ParseDecimalOfDecimal(x);
    }
  }

  /** Different MutableLongs render differently. */
  lemma ToStringInjective(a: MutableLong, b: MutableLong)
    requires ToString(a) == ToString(b)
    ensures a == b
  {
    var prefix := "MutableLong{value=";
    var sa, sb := LongToString(a.value), LongToString(b.value);
    var ta, tb := ToString(a), ToString(b);
    assert |sa| == |sb|;
    assert ta[|prefix|..|prefix| + |sa|] == sa;
    assert tb[|prefix|..|prefix| + |sb|] == sb;
    ParseLongOfLongToString(a.value);
    ParseLongOfLongToString(b.value);
  }

  // ---------------------------------------------------------------------------
  // equals and hashCode

  /** What `equals` may be handed: null, a MutableLong, or an object of another class. */
  datatype Obj = Null | LongBox(box: MutableLong) | OtherObject(className: string)

  /** `equals(o)`: another MutableLong with the same value; never null nor another class. */
  function Equals(m: MutableLong, o: Obj): (r: bool)
    ensures r <==> o.LongBox? && o.box.value == m.value
  {
    match o
    case Null => false
    case OtherObject(_) => false
    case LongBox(other) => m.value == other.value
  }

  /** `equals` is reflexive and symmetric, and rejects null and other classes. */
  lemma EqualsContract(a: MutableLong, b: MutableLong, other: string)
    ensures Equals(a, LongBox(a))
    ensures Equals(a, LongBox(b)) <==> Equals(b, LongBox(a))
    ensures Equals(a, LongBox(b)) <==> a.value == b.value
    ensures !Equals(a, Null) && !Equals(a, OtherObject(other))
  {
  }

  /** `hashCode()`: Java's hash of a `long`, the exclusive or of its two 32-bit halves, as an `int`. */
  function HashCode(m: MutableLong): (h: int)
    ensures IsInt32(h)
  {
    var u := if m.value < 0 then m.value + TwoTo64 else m.value;
    var bits := u as bv64;
    var folded := ((bits ^ (bits >> 32)) & 0xFFFF_FFFF) as int;
    if folded >= 0x8000_0000 then folded - 0x1_0000_0000 else folded
  }

  /** Equal MutableLongs have equal hash codes. */
  lemma HashConsistentWithEquals(a: MutableLong, b: MutableLong)
    requires Equals(a, LongBox(b))
    ensures HashCode(a) == HashCode(b)
  {
  }
}
