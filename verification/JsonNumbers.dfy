/**
 Decimal integers: `uintToString` and `valueToString` on the writing side, `decodeNumber` on
 the reading side, both against the value of a digit string.
 */
module JsonNumbers {
  import opened JsonValues
  import JsonScanner

  const MAX_INT := 0x7FFF_FFFF
  const MAX_LARGEST_INT := 0x7FFF_FFFF_FFFF_FFFF
  const MAX_LARGEST_UINT := 0xFFFF_FFFF_FFFF_FFFF

  /** 3 * sizeof(LargestUInt) + 1. */
  const UINT_TO_STRING_BUFFER_SIZE := 25

  predicate AllDigits(s: string) {
    forall i :: 0 <= i < |s| ==> JsonScanner.IsDigit(s[i])
  }

  /** The number a digit string denotes; the empty string denotes 0. */
  ghost function Num(s: string): nat
    requires AllDigits(s)
  {
    if s == [] then 0 else Num(s[..|s| - 1]) * 10 + (s[|s| - 1] as int - '0' as int)
  }

  function Digit(d: nat): char
    requires d < 10
  {
    ('0' as int + d) as char
  }

  /** The shortest digit string of n. */
  ghost function Decimal(n: nat): (s: string)
    ensures s != [] && AllDigits(s)
  {
    (if n < 10 then [] else Decimal(n / 10)) + [Digit(n % 10)]
  }

  ghost function DecimalInt(i: int): string {
    if i < 0 then "-" + Decimal(-i) else Decimal(i)
  }

  lemma {:induction false} NumDecimal(n: nat)
    ensures Num(Decimal(n)) == n
  {
    var s := Decimal(n);
    if n >= 10 {
      NumDecimal(n / 10);
      assert s[..|s| - 1] == Decimal(n / 10);
    }
  }

  /** No number but zero itself begins with a zero. */
  lemma {:induction false} NoLeadingZero(n: nat)
    ensures n > 0 ==> Decimal(n)[0] != '0'
    ensures n == 0 ==> Decimal(n) == "0"
  {
    if n >= 10 {
      NoLeadingZero(n / 10);
    }
  }

  ghost function Pow10(k: nat): nat {
    if k == 0 then 1 else 10 * Pow10(k - 1)
  }

  lemma {:induction false} DecimalLength(n: nat, k: nat)
    requires k > 0 && n < Pow10(k)
    ensures |Decimal(n)| <= k
  {
    if n >= 10 {
      assert Pow10(1) == 10;
      assert n / 10 < Pow10(k - 1);
      DecimalLength(n / 10, k - 1);
    }
  }

  lemma SixtyFourBits()
    ensures Pow10(19) == 10_000_000_000_000_000_000 && Pow10(20) == 100_000_000_000_000_000_000
  {
    assert Pow10(5) == 100_000;
    assert Pow10(10) == 10_000_000_000;
    assert Pow10(15) == 1_000_000_000_000_000;
  }

  /** More digits only make a number larger. */
  lemma {:induction false} NumPrefix(s: string, k: nat)
    requires AllDigits(s) && k <= |s|
    ensures AllDigits(s[..k]) && Num(s[..k]) <= Num(s)
    ensures k < |s| ==> 10 * Num(s[..k]) <= Num(s)
  {
    if k == |s| {
      assert s[..k] == s;
    } else {
      NumPrefix(s[..|s| - 1], k);
      assert s[..|s| - 1][..k] == s[..k];
    }
  }

  lemma DigitStep(n: nat, tail: string)
    ensures Decimal(n) + tail == (if n < 10 then [] else Decimal(n / 10)) + ([Digit(n % 10)] + tail)
  {
  }

  lemma NumEmpty()
    ensures Num("") == 0
  {
  }

  lemma NumSnoc(s: string, k: nat)
    requires k < |s| && AllDigits(s[..k]) && JsonScanner.IsDigit(s[k])
    ensures AllDigits(s[..k + 1]) && Num(s[..k + 1]) == Num(s[..k]) * 10 + (s[k] as int - '0' as int)
  {
    assert s[..k + 1][..k] == s[..k];
  }

  /** When the number read so far has reached max / 10 and one more digit cannot be taken, the
      whole digit string denotes more than max. */
  lemma Overflows(s: string, k: nat, max: nat)
    requires k < |s| && AllDigits(s) && max >= 10
    requires Num(s[..k]) >= max / 10
    requires Num(s[..k]) > max / 10 || k + 1 < |s| || s[k] as int - '0' as int > max % 10
    ensures Num(s) > max
  {
    NumSnoc(s, k);
    NumPrefix(s, k + 1);
  }

  // ---------------------------------------------------------------------------
  // Writing
  // ---------------------------------------------------------------------------

  /** Writes the digits of value and a terminating NUL backwards, ending before `end`. */
  method UIntToString(value: UInt64, buffer: array<char>, end: nat) returns (current: nat)
    requires |Decimal(value)| + 1 <= end <= buffer.Length
    modifies buffer
    ensures current == end - 1 - |Decimal(value)|
    ensures buffer[current..end] == Decimal(value) + ['\0']
    ensures buffer[..current] == old(buffer[..current]) && buffer[end..] == old(buffer[end..])
  {
    hide Decimal, Digit;
    current := end - 1;
    buffer[current] := '\0';
    var rest := value;
    ghost var written := "";
    while true
      invariant 0 <= rest && |written| + |Decimal(rest)| + 1 <= end
      invariant current == end - 1 - |written|
      invariant buffer[current..end] == written + ['\0']
      invariant Decimal(rest) + written == Decimal(value)
      invariant buffer[..current] == old(buffer[..current]) && buffer[end..] == old(buffer[end..])
      decreases rest
    {
      ghost var was := buffer[current..end];
      current := current - 1;
      buffer[current] := Digit(rest % 10);
      DigitStep(rest, written);
      written := [Digit(rest % 10)] + written;
      assert buffer[current..end] == [Digit(rest % 10)] + was;
      if rest < 10 {
        break;
      }
      rest := rest / 10;
    }
  }

  /** valueToString(LargestInt): at most 21 of the 25 bytes of the buffer are used. */
  method IntToString(value: Int64) returns (text: string)
    ensures text == DecimalInt(value) && |text| + 1 <= 21
  {
    hide Decimal, Pow10;
    var buffer := new char[UINT_TO_STRING_BUFFER_SIZE];
    var end := UINT_TO_STRING_BUFFER_SIZE;
    var magnitude: int := value;
    if value == -MAX_LARGEST_INT - 1 {
      magnitude := MAX_LARGEST_INT + 1;
    } else if value < 0 {
      magnitude := -magnitude;
    }
    SixtyFourBits();
    DecimalLength(magnitude, 19);
    var current := UIntToString(magnitude, buffer, end);
    ghost var digits := buffer[current..end];
    if value < 0 {
      current := current - 1;
      buffer[current] := '-';
      assert buffer[current + 1..end] == digits;
      text := buffer[current..end - 1];
      assert text == "-" + digits[..|digits| - 1];
    } else {
      text := buffer[current..end - 1];
      assert text == digits[..|digits| - 1];
    }
    assert digits[..|digits| - 1] == Decimal(magnitude);
  }

  method UInt64ToString(value: UInt64) returns (text: string)
    ensures text == Decimal(value) && |text| + 1 <= 21
  {
    hide Decimal, Pow10;
    var buffer := new char[UINT_TO_STRING_BUFFER_SIZE];
    SixtyFourBits();
    DecimalLength(value, 20);
    var current := UIntToString(value, buffer, UINT_TO_STRING_BUFFER_SIZE);
    ghost var digits := buffer[current..UINT_TO_STRING_BUFFER_SIZE];
    text := buffer[current..UINT_TO_STRING_BUFFER_SIZE - 1];
    assert text == digits[..|digits| - 1];
    assert digits[..|digits| - 1] == Decimal(value);
  }

  // ---------------------------------------------------------------------------
  // Reading
  // ---------------------------------------------------------------------------

  /** What `std::istringstream >> double` makes of a text; None when the extraction fails. */
  type ToDouble = string -> Option<real>

  predicate InRange(i: int) {
    -MAX_LARGEST_INT - 1 <= i <= MAX_LARGEST_UINT
  }

  /** The tag a decoded integer gets: unsigned only above the range of a 32-bit int. */
  function Tagged(i: int): Value
    requires InRange(i)
  {
    if i <= MAX_INT then Int(i) else UInt(i)
  }

  /** The integer a text of digits with an optional minus stands for. */
  ghost function IntegerText(text: string): Option<int> {
    if text != [] && text[0] == '-' && AllDigits(text[1..]) then Some(0 - Num(text[1..]) as int)
    else if AllDigits(text) then Some(Num(text))
    else None
  }

  /** The value of a number token: the exact integer when the text is one and it fits in 64 bits
      of its sign, otherwise whatever the conversion to double yields. */
  ghost function NumberValue(text: string, toDouble: ToDouble): Option<Value> {
    var i := IntegerText(text);
    if i.Some? && InRange(i.value) then Some(Tagged(i.value))
    else
      match toDouble(text)
      case Some(r) => Some(Real(r))
      case None => None
  }

  method DecodeDouble(text: string, toDouble: ToDouble) returns (decoded: Option<Value>)
    ensures decoded == match toDouble(text) case Some(r) => Some(Real(r)) case None => None
  {
    var value := toDouble(text);
    match value
    case Some(r) => decoded := Some(Real(r));
    case None => decoded := None;
  }

  /** decodeNumber on the token document[start..end]. */
  method DecodeNumber(document: string, start: nat, end: nat, toDouble: ToDouble) returns (decoded: Option<Value>)
    requires start < end <= |document|
    ensures decoded == NumberValue(document[start..end], toDouble)
  {
    hide Num;
    ghost var text := document[start..end];
    var current := start;
    var isNegative := document[current] == '-';
    if isNegative {
      current := current + 1;
    }
    ghost var first := current;
    ghost var digits := document[first..end];
    assert digits == if isNegative then text[1..] else text;
    var maxIntegerValue: UInt64 := if isNegative then MAX_LARGEST_INT + 1 else MAX_LARGEST_UINT;
    var threshold := maxIntegerValue / 10;
    var value: UInt64 := 0;
    NumEmpty();
    while current < end
      invariant first <= current <= end
      invariant AllDigits(digits[..current - first]) && value == Num(digits[..current - first]) <= maxIntegerValue
    {
      ghost var k := current - first;
      var c := document[current];
      current := current + 1;
      assert c == digits[k];
      if !JsonScanner.IsDigit(c) {
        decoded := DecodeDouble(document[start..end], toDouble);
        return;
      }
      NumSnoc(digits, k);
      var digit := c as int - '0' as int;
      if value >= threshold {
        if value > threshold || current != end || digit > maxIntegerValue % 10 {
          if AllDigits(digits) {
            Overflows(digits, k, maxIntegerValue);
          }
          decoded := DecodeDouble(document[start..end], toDouble);
          return;
        }
      }
      value := value * 10 + digit;
    }
    assert digits[..end - first] == digits;
    if isNegative && value == maxIntegerValue {
      decoded := Some(Int(-MAX_LARGEST_INT - 1));
    } else if isNegative {
      var magnitude: int := value;
      decoded := Some(Int(-magnitude));
    } else if value <= MAX_INT {
      decoded := Some(Int(value));
    } else {
      decoded := Some(UInt(value));
    }
  }

  /** Reading inverts writing: the integer comes back exactly, whatever its tag was. */
  lemma DecodeInvertsToString(i: int, toDouble: ToDouble)
    requires InRange(i)
    ensures NumberValue(DecimalInt(i), toDouble) == Some(Tagged(i))
  {
    hide Decimal, Num;
    var text := DecimalInt(i);
    if i < 0 {
      NumDecimal(-i);
      assert text[1..] == Decimal(-i);
      assert IntegerText(text) == Some(i);
    } else {
      NumDecimal(i);
      assert JsonScanner.IsDigit(text[0]);
    }
  }
}
