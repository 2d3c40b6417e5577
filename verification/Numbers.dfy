/** Integers as text: uintToString/valueToString (json_writer.cpp) and decodeNumber (json_reader.cpp). */
module Numbers {
  import opened Options
  import opened JsonValue

  /** What reading a number needs besides the text: `sscanf(text, "%lf", ...)`, None when it matches nothing. */
  type DoubleScanner = string -> Option<real>

  datatype Decoded<+T> = Good(value: T) | Bad(message: string, extra: Option<nat>)

  const WORD := 0x1_0000_0000

  // ---- Decimal notation ----

  function Digit(d: nat): (c: char)
    requires d < 10
    ensures '0' <= c <= '9' && c as int - '0' as int == d
  {
    ('0' as int + d) as char
  }

  function Digits(n: nat): (s: string)
    ensures |s| > 0 && AllDigits(s)
  {
    if n < 10 then [Digit(n)] else Digits(n / 10) + [Digit(n % 10)]
  }

  function IntText(i: int): string {
    if i < 0 then "-" + Digits(-i) else Digits(i)
  }

  predicate AllDigits(s: string) {
    forall i | 0 <= i < |s| :: '0' <= s[i] <= '9'
  }

  function DecimalValue(s: string): nat
    requires AllDigits(s)
  {
    if s == [] then 0 else 10 * DecimalValue(s[..|s| - 1]) + (s[|s| - 1] as int - '0' as int)
  }

  lemma {:induction false} DigitsValue(n: nat)
    ensures DecimalValue(Digits(n)) == n
  {
    if n >= 10 {
      DigitsValue(n / 10);
      assert Digits(n)[..|Digits(n)| - 1] == Digits(n / 10);
    }
  }

  /** A number below ten to the k has at most k digits. */
  lemma {:induction false} DigitsLength(n: nat, k: nat)
    requires k >= 1 && n < Pow10(k)
    ensures |Digits(n)| <= k
  {
    if n >= 10 {
      DigitsLength(n / 10, k - 1);
    }
  }

  function Pow10(k: nat): nat {
    if k == 0 then 1 else 10 * Pow10(k - 1)
  }

  // ---- decodeNumber ----

  predicate IsDoubleMark(c: char) {
    c == '.' || c == 'e' || c == 'E' || c == '+'
  }

  predicate LooksDouble(text: string) {
    exists i | 0 <= i < |text| :: IsDoubleMark(text[i]) || (text[i] == '-' && i != 0)
  }

  /** `UInt(-minInt) / 10` for a negative number, `maxUInt / 10` otherwise. */
  function Threshold(negative: bool): nat {
    (if negative then MAX_INT + 1 else MAX_UINT) / 10
  }

  datatype Accumulated = Total(value: int) | TooBig | NotADigit

  /** The accumulation loop on a 32-bit unsigned word. */
  function Accumulate(text: string, value: nat, threshold: nat): Accumulated
    decreases |text|
  {
    if text == [] then Total(value)
    else if !('0' <= text[0] <= '9') then NotADigit
    else if value >= threshold then TooBig
    else Accumulate(text[1..], (value * 10 + (text[0] as int - '0' as int)) % WORD, threshold)
  }

  function NotANumber(text: string): string {
    "'" + text + "' is not a number."
  }

  function DecodeDouble(scan: DoubleScanner, text: string): Decoded<Value> {
    match scan(text)
    case Some(r) => Good(Real(r))
    case None => Bad(NotANumber(text), None)
  }

  function DecodeNumber(scan: DoubleScanner, text: string): Decoded<Value>
    requires text != []
  {
    if LooksDouble(text) then DecodeDouble(scan, text)
    else
      var negative := text[0] == '-';
      match Accumulate(if negative then text[1..] else text, 0, Threshold(negative))
      case NotADigit => Bad(NotANumber(text), None)
      case TooBig => DecodeDouble(scan, text)
      case Total(value) =>
        if negative then Good(Int(-value))
        else if value <= MAX_INT then Good(Int(value))
        else Good(UInt(value))
  }

  // ---- The accumulator is exact ----

  /** Some proper prefix of the digits already reaches the threshold. */
  ghost predicate PrefixReaches(digits: string, threshold: nat)
    requires AllDigits(digits)
  {
    exists k | 0 <= k < |digits| :: DecimalValue(digits[..k]) >= threshold
  }

  lemma ValueStep(digits: string, k: nat)
    requires AllDigits(digits) && k < |digits|
    ensures DecimalValue(digits[..k + 1]) == 10 * DecimalValue(digits[..k]) + (digits[k] as int - '0' as int)
  {
    assert digits[..k + 1][..k] == digits[..k];
  }

  /** Below the threshold one more digit fits the 32-bit word. */
  lemma AccumulateStep(text: string, value: nat, threshold: nat)
    requires text != [] && '0' <= text[0] <= '9' && value < threshold <= Threshold(false)
    ensures var next := 10 * value + (text[0] as int - '0' as int);
      next < WORD && Accumulate(text, value, threshold) == Accumulate(text[1..], next, threshold)
  {}

  /** Having read `k` digits, the loop either stops at the first prefix reaching the threshold or ends
      with the exact value. */
  lemma {:induction false} AccumulateExact(digits: string, k: nat, threshold: nat)
    requires AllDigits(digits) && k <= |digits|
    requires 0 < threshold <= Threshold(false)
    requires forall j | 0 <= j < k :: DecimalValue(digits[..j]) < threshold
    ensures Accumulate(digits[k..], DecimalValue(digits[..k]), threshold)
         == if PrefixReaches(digits, threshold) then TooBig else Total(DecimalValue(digits))
    decreases |digits| - k
  {
    var value := DecimalValue(digits[..k]);
    if k == |digits| {
      assert digits[..k] == digits;
    } else if value >= threshold {
      assert PrefixReaches(digits, threshold);
    } else {
      AccumulateExact(digits, k + 1, threshold);
      ValueStep(digits, k);
      AccumulateStep(digits[k..], value, threshold);
      assert digits[k..][1..] == digits[k + 1..];
    }
  }

  /** The digits of an integer token, without its sign. */
  function Magnitude(text: string): string {
    if text != [] && text[0] == '-' then text[1..] else text
  }

  /** An integer token is read exactly, or handed to `decodeDouble` just when a proper prefix of its
      digits reaches the threshold. */
  lemma DecodeInteger(scan: DoubleScanner, text: string)
    requires text != [] && AllDigits(Magnitude(text))
    ensures var digits, negative := Magnitude(text), text[0] == '-';
      DecodeNumber(scan, text) ==
        if PrefixReaches(digits, Threshold(negative)) then DecodeDouble(scan, text)
        else if negative then Good(Int(0 - DecimalValue(digits)))
        else if DecimalValue(digits) <= MAX_INT then Good(Int(DecimalValue(digits)))
        else Good(UInt(DecimalValue(digits)))
  {
    var digits, negative := Magnitude(text), text[0] == '-';
    AccumulateExact(digits, 0, Threshold(negative));
    assert digits[0..] == digits;
    forall i | 0 <= i < |text| && !(i == 0 && negative)
      ensures '0' <= text[i] <= '9'
    {
      assert text[i] == digits[if negative then i - 1 else i];
    }
  }

  // ---- Which printed integers come back ----

  lemma {:induction false} PrefixMonotone(digits: string, j: nat, k: nat)
    requires AllDigits(digits) && j <= k <= |digits|
    ensures DecimalValue(digits[..j]) <= DecimalValue(digits[..k])
    decreases k - j
  {
    if j < k {
      ValueStep(digits, j);
      PrefixMonotone(digits, j + 1, k);
    }
  }

  lemma PrintedPrefixReaches(n: nat, threshold: nat)
    requires threshold > 0
    ensures PrefixReaches(Digits(n), threshold) <==> n / 10 >= threshold
  {
    var digits := Digits(n);
    var k := |digits| - 1;
    DigitsValue(n);
    ValueStep(digits, k);
    assert digits[..k + 1] == digits;
    assert DecimalValue(digits[..k]) == n / 10;
    if PrefixReaches(digits, threshold) {
      var j :| 0 <= j < |digits| && DecimalValue(digits[..j]) >= threshold;
      PrefixMonotone(digits, j, k);
    }
  }

  /** The smallest integer that is read back as an integer: `value < threshold` before its last digit. */
  const MIN_READABLE_INT := -2147483639
  const MAX_READABLE_UINT := 4294967289

  /** Every printed `Int` is read back as itself from -2147483639 on, and as a double below that. */
  lemma IntReadBack(scan: DoubleScanner, i: int)
    requires -MAX_INT <= i <= MAX_INT
    ensures DecodeNumber(scan, IntText(i))
         == if i >= MIN_READABLE_INT then Good(Int(i)) else DecodeDouble(scan, IntText(i))
  {
    hide DecodeNumber, DecodeDouble, Digits, PrefixReaches, DecimalValue;
    var n := if i < 0 then -i else i;
    DigitsValue(n);
    assert Magnitude(IntText(i)) == Digits(n);
    PrintedPrefixReaches(n, Threshold(i < 0));
    DecodeInteger(scan, IntText(i));
  }

  /** A printed `UInt` keeps its type only above maxInt, and its value only up to 4294967289. */
  lemma UIntReadBack(scan: DoubleScanner, u: nat)
    requires u <= MAX_UINT
    ensures DecodeNumber(scan, Digits(u))
         == if u <= MAX_INT then Good(Int(u))
            else if u <= MAX_READABLE_UINT then Good(UInt(u))
            else DecodeDouble(scan, Digits(u))
  {
    DigitsValue(u);
    assert Magnitude(Digits(u)) == Digits(u);
    PrintedPrefixReaches(u, Threshold(false));
    DecodeInteger(scan, Digits(u));
  }

  // ---- Printing into the 32-byte buffer ----

  /** uintToString: digits are written backwards, in front of a NUL. */
  method UintToString(value: nat, buffer: array<char>, end: nat) returns (current: nat)
    requires value <= MAX_UINT && 11 <= end <= buffer.Length
    modifies buffer
    ensures current + |Digits(value)| + 1 == end
    ensures buffer[current..end] == Digits(value) + ['\0']
    ensures end - 11 <= current
    ensures forall i | 0 <= i < buffer.Length && !(current <= i < end) :: buffer[i] == old(buffer[i])
  {
    assert Pow10(10) == 10000000000;
    DigitsLength(value, 10);
    current := end - 1;
    buffer[current] := '\0';
    var v: nat := value;
    var more := true;
    while more
      invariant current < end && v <= value
      invariant more ==> current >= |Digits(v)|
      invariant (if more then Digits(v) else []) + buffer[current..end] == Digits(value) + ['\0']
      invariant forall i | 0 <= i < buffer.Length && !(current <= i < end) :: buffer[i] == old(buffer[i])
      decreases more, v
    {
      ghost var tail := buffer[current..end];
      current := current - 1;
      buffer[current] := Digit(v % 10);
      assert buffer[current..end] == [Digit(v % 10)] + tail;
      assert v >= 10 ==> Digits(v) + tail == Digits(v / 10) + ([Digit(v % 10)] + tail);
      v := v / 10;
      more := v != 0;
    }
  }

  lemma CStringStops(text: string, rest: string)
    requires NulFree(text)
    ensures CString(text + ['\0'] + rest) == text
  {
    var all := text + ['\0'] + rest;
    assert forall i | 0 <= i < |text| :: all[i] == text[i];
    assert all[|text|] == '\0';
    var r := CString(all);
    assert forall i | 0 <= i < |r| :: r[i] == all[i];
    assert r == all[..|r|];
    assert all[..|text|] == text;
  }

  /** The string that starts at `current` in the buffer. */
  method StringFrom(buffer: array<char>, current: nat, ghost text: string) returns (s: string)
    requires NulFree(text) && current <= buffer.Length && buffer[current..] == text + ['\0']
    ensures s == text
  {
    CStringStops(text, []);
    assert text + ['\0'] + [] == text + ['\0'];
    s := CString(buffer[current..]);
  }

  /** valueToString(Int); `minInt` is excluded because its negation overflows. */
  method IntToString(value: int) returns (s: string)
    requires -MAX_INT <= value <= MAX_INT
    ensures s == IntText(value)
  {
    var buffer := new char[32](_ => '\0');
    var isNegative := value < 0;
    var magnitude: nat := if isNegative then -value else value;
    var current := UintToString(magnitude, buffer, 32);
    if isNegative {
      ghost var digits := buffer[current..32];
      current := current - 1;
      buffer[current] := '-';
      assert buffer[current..] == ['-'] + digits;
      assert ['-'] + digits == IntText(value) + ['\0'];
    }
    s := StringFrom(buffer, current, IntText(value));
  }

  /** valueToString(UInt). */
  method UIntToString(value: nat) returns (s: string)
    requires value <= MAX_UINT
    ensures s == Digits(value)
  {
    var buffer := new char[32](_ => '\0');
    var current := UintToString(value, buffer, 32);
    s := StringFrom(buffer, current, Digits(value));
  }

  // ---- The buffer of decodeDouble ----

  /** `bufferSize`. */
  const DOUBLE_BUFFER := 32

  /** The copy of a token that is not too long into the buffer, and its terminator, which for a token of exactly 32
      characters falls behind the buffer: then the result is false. */
  method BufferDouble(text: string) returns (inside: bool)
    ensures inside <==> |text| != DOUBLE_BUFFER
  {
    if |text| <= DOUBLE_BUFFER {
      var buffer := new char[DOUBLE_BUFFER];
      for i := 0 to |text|
        invariant buffer[..i] == text[..i]
      {
        buffer[i] := text[i];
      }
      if |text| >= buffer.Length {
        return false;
      }
      buffer[|text|] := '\0';
      assert buffer[..|text|] == text;
    }
    inside := true;
  }

  /** No integer the writers print comes near it when it is diverted to a double. */
  lemma PrintedIntegersAreShort(i: int)
    requires -MAX_INT <= i <= MAX_UINT
    ensures |IntText(i)| <= 11 < DOUBLE_BUFFER
  {
    assert Pow10(10) == 10000000000;
    DigitsLength(if i < 0 then -i else i, 10);
  }
}
