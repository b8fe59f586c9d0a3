/**
  jsoncpp's integers: the decoder that decides without overflowing whether a number
  fits 64 bits, and the printer that writes digits backwards into a fixed buffer.
 */
module JsonCppIntegers {
  import opened Bytes

  const MAX_LARGEST_UINT: nat := 0xFFFF_FFFF_FFFF_FFFF
  const MAX_LARGEST_INT: nat := 0x7FFF_FFFF_FFFF_FFFF
  const MIN_LARGEST_INT: int := -0x8000_0000_0000_0000
  const MAX_INT: nat := 0x7FFF_FFFF
  const MINUS: byte := 45
  const ZERO: byte := 48

  predicate IsDigit(b: byte) {
    48 <= b <= 57
  }

  // ---------- decimal numerals ----------

  predicate AllDigits(ds: bytes) {
    forall i :: 0 <= i < |ds| ==> IsDigit(ds[i])
  }

  // The number a digit string of any length denotes.
  function Value(ds: bytes): nat
    requires AllDigits(ds)
  {
    if ds == [] then 0 else Value(ds[..|ds| - 1]) * 10 + (ds[|ds| - 1] - ZERO)
  }

  lemma ValueNext(ds: bytes, i: nat)
    requires AllDigits(ds) && i < |ds|
    ensures Value(ds[..i + 1]) == Value(ds[..i]) * 10 + (ds[i] - ZERO)
  {
    assert ds[..i + 1][..i] == ds[..i];
  }

  // More digits never make the number smaller.
  lemma {:induction false} ValueGrows(ds: bytes, i: nat)
    requires AllDigits(ds) && i <= |ds|
    ensures Value(ds[..i]) <= Value(ds)
    decreases |ds| - i
  {
    if i == |ds| {
      assert ds[..i] == ds;
    } else {
      ValueNext(ds, i);
      ValueGrows(ds, i + 1);
    }
  }

  function Decimal(n: nat): (r: bytes)
    ensures AllDigits(r) && |r| > 0
  {
    if n < 10 then [ZERO + n] else Decimal(n / 10) + [ZERO + n % 10]
  }

  // The decimal text denotes the number, and begins with a zero for zero only.
  lemma {:induction false} ValueOfDecimal(n: nat)
    ensures Value(Decimal(n)) == n
    ensures Decimal(n)[0] == 48 <==> n == 0
  {
    if n < 10 {
      assert Decimal(n)[..0] == [];
    } else {
      ValueOfDecimal(n / 10);
      var d := Decimal(n);
      assert d[..|d| - 1] == Decimal(n / 10);
    }
  }

  function Pow10(k: nat): nat {
    if k == 0 then 1 else 10 * Pow10(k - 1)
  }

  lemma {:induction false} DecimalLength(n: nat, k: nat)
    requires 0 < k && n < Pow10(k)
    ensures |Decimal(n)| <= k
  {
    if n >= 10 {
      DecimalLength(n / 10, k - 1);
    }
  }

  // Twenty digits hold every 64-bit number.
  lemma LargestHasTwentyDigits(n: nat)
    requires n <= MAX_LARGEST_UINT
    ensures |Decimal(n)| <= 20
  {
    assert Pow10(4) == 10000;
    assert Pow10(8) == 10000_0000;
    assert Pow10(12) == 10000_0000_0000;
    assert Pow10(16) == 10000_0000_0000_0000;
    assert Pow10(20) == 10000_0000_0000_0000_0000;
    DecimalLength(n, 20);
  }

  // ---------- decoding ----------

  // A value of the signed or the unsigned kind, or left to the double decoder.
  datatype Decoded = IntValue(i: int) | UIntValue(u: nat) | AsDouble

  predicate Negative(token: bytes) {
    token != [] && token[0] == MINUS
  }

  function Digits(token: bytes): bytes {
    if Negative(token) then token[1..] else token
  }

  // The integer a token of an optional minus and digits denotes.
  function Denotes(token: bytes): int
    requires AllDigits(Digits(token))
  {
    if Negative(token) then 0 - Value(Digits(token)) else Value(Digits(token))
  }

  predicate Fits(v: int) {
    MIN_LARGEST_INT <= v <= MAX_LARGEST_UINT
  }

  // The mathematical reading of a token: its integer when it is one and fits.
  function Decode(token: bytes): (r: Decoded)
    ensures r.IntValue? ==> MIN_LARGEST_INT <= r.i <= MAX_LARGEST_INT
    ensures r.UIntValue? ==> r.u <= MAX_LARGEST_UINT
  {
    if AllDigits(Digits(token)) && Fits(Denotes(token)) then
      var v := Denotes(token);
      if v <= MAX_INT then IntValue(v) else UIntValue(v)
    else AsDouble
  }

  // The sum of the digits times their powers of ten.
  function PlaceValue(ds: bytes): int {
    if ds == [] then 0 else (ds[0] - 48) * Pow10(|ds| - 1) + PlaceValue(ds[1..])
  }

  lemma {:induction false} PlaceValueNext(ds: bytes, d: byte)
    ensures PlaceValue(ds + [d]) == PlaceValue(ds) * 10 + (d - 48)
  {
    if ds == [] {
      assert ([d])[1..] == [] && [] + [d] == [d];
    } else {
      PlaceValueNext(ds[1..], d);
      assert (ds + [d])[1..] == ds[1..] + [d];
      var first: int := ds[0];
      TenTimes(first - 48, Pow10(|ds| - 1));
    }
  }

  lemma TenTimes(a: int, p: int)
    ensures a * (10 * p) == 10 * (a * p)
  {
  }

  lemma {:induction false} ValueIsPlaceValue(ds: bytes)
    requires AllDigits(ds)
    ensures Value(ds) == PlaceValue(ds)
  {
    if ds != [] {
      var front := ds[..|ds| - 1];
      ValueIsPlaceValue(front);
      PlaceValueNext(front, ds[|ds| - 1]);
      assert ds == front + [ds[|ds| - 1]];
    }
  }

  // Main theorem: a token is an integer exactly if it is an optional minus and digits whose
  // sum lies between the least signed and the greatest unsigned 64-bit number; it is of the
  // signed kind up to the greatest int, and everything else is left to the double decoder.
  lemma DecodesExactly(token: bytes)
    ensures var minus := token != [] && token[0] == 45;
            var ds := if minus then token[1..] else token;
            var v := if minus then 0 - PlaceValue(ds) else PlaceValue(ds);
            Decode(token) == if (exists i :: 0 <= i < |ds| && !(48 <= ds[i] <= 57))
                                || v < -0x8000_0000_0000_0000 || v > 0xFFFF_FFFF_FFFF_FFFF then AsDouble
                             else if v <= 0x7FFF_FFFF then IntValue(v) else UIntValue(v)
  {
    var ds := Digits(token);
    if AllDigits(ds) {
      ValueIsPlaceValue(ds);
    } else {
      var i :| 0 <= i < |ds| && !IsDigit(ds[i]);
    }
  }

  // Reader::decodeNumber.  The accumulator stays within the limit of its sign, so the
  // 64-bit arithmetic of the source never wraps.
  method DecodeNumber(token: bytes) returns (r: Decoded)
    requires token != []
    ensures r == Decode(token)
  {
    var isNegative := token[0] == MINUS;
    var current := if isNegative then 1 else 0;
    var maxIntegerValue: nat := if isNegative then MAX_LARGEST_INT + 1 else MAX_LARGEST_UINT;
    var threshold := maxIntegerValue / 10;
    var value: nat := 0;
    ghost var ds := Digits(token);
    ghost var first := current;
    while current < |token|
      invariant first <= current <= |token|
      invariant AllDigits(ds[..current - first]) && value == Value(ds[..current - first])
      invariant value <= maxIntegerValue
    {
      var c := token[current];
      ghost var i := current - first;
      assert c == ds[i];
      current := current + 1;
      if c < 48 || c > 57 {
        return AsDouble;
      }
      var digit := c - ZERO;
      assert ds[..i + 1] == ds[..i] + [c];
      if value >= threshold {
        if value > threshold || current != |token| || digit > maxIntegerValue % 10 {
          TooLarge(ds, i, value, maxIntegerValue);
          return AsDouble;
        }
      }
      assert ds[..i + 1][..i] == ds[..i];
      value := value * 10 + digit;
    }
    assert ds[..current - first] == ds;
    if isNegative && value == maxIntegerValue {
      r := IntValue(MIN_LARGEST_INT);
    } else if isNegative {
      r := IntValue(0 - value);
    } else if value <= MAX_INT {
      r := IntValue(value);
    } else {
      r := UIntValue(value);
    }
  }

  // The overflow test is exact: when it trips, the whole number exceeds the limit.
  lemma TooLarge(ds: bytes, i: nat, value: nat, limit: nat)
    requires i < |ds| && AllDigits(ds[..i + 1]) && AllDigits(ds[..i]) && value == Value(ds[..i])
    requires limit >= 100 && value >= limit / 10
    requires value > limit / 10 || i + 1 != |ds| || ds[i] - ZERO > limit % 10
    ensures AllDigits(ds) ==> Value(ds) > limit
  {
    if AllDigits(ds) {
      ValueNext(ds, i);
      ValueGrows(ds, i + 1);
      if i + 1 < |ds| {
        ValueNext(ds, i + 1);
        ValueGrows(ds, i + 2);
      } else {
        assert ds[..i + 1] == ds;
      }
    }
  }

  // ---------- printing ----------

  const BUFFER_SIZE: nat := 25

  // uintToString: writes the terminator and the digits below `current`.
  method UintToString(value: nat, buffer: array<byte>, current: nat) returns (start: nat)
    requires current <= buffer.Length && |Decimal(value)| + 1 <= current
    modifies buffer
    ensures start == current - 1 - |Decimal(value)|
    ensures buffer[start..current - 1] == Decimal(value) && buffer[current - 1] == NUL
    ensures buffer[..start] == old(buffer[..start]) && buffer[current..] == old(buffer[current..])
  {
    start := current - 1;
    buffer[start] := NUL;
    var v: nat := value;
    while true
      invariant 0 <= start < current && buffer[current - 1] == NUL
      invariant Decimal(value) == Decimal(v) + buffer[start..current - 1]
      invariant |Decimal(v)| <= start
      invariant buffer[..start] == old(buffer[..start]) && buffer[current..] == old(buffer[current..])
      decreases v
    {
      ghost var tail := buffer[start..current - 1];
      start := start - 1;
      buffer[start] := v % 10 + ZERO;
      assert buffer[start..current - 1] == [v % 10 + ZERO] + tail;
      v := v / 10;
      if v == 0 {
        return;
      }
    }
  }

  function Text(v: int): bytes {
    if v < 0 then [MINUS] + Decimal(-v) else Decimal(v)
  }

  // valueToString(LargestInt) and valueToString(LargestUInt): the whole text fits the
  // buffer, for every value of either type.
  method ValueToString(v: int) returns (r: bytes)
    requires Fits(v)
    ensures r == Text(v)
  {
    var buffer := new byte[BUFFER_SIZE];
    var current;
    if v < 0 {
      LargestHasTwentyDigits(-v);
      current := UintToString(-v, buffer, BUFFER_SIZE);
      current := current - 1;
      buffer[current] := MINUS;
      assert buffer[current..BUFFER_SIZE - 1] == [MINUS] + buffer[current + 1..BUFFER_SIZE - 1];
    } else {
      LargestHasTwentyDigits(v);
      current := UintToString(v, buffer, BUFFER_SIZE);
    }
    r := buffer[current..BUFFER_SIZE - 1];
  }

  // Round trip: every integer of either 64-bit type is read back from its text.
  lemma DecodeInvertsText(v: int)
    requires Fits(v)
    ensures Decode(Text(v)) == if v <= MAX_INT then IntValue(v) else UIntValue(v)
  {
    var n := if v < 0 then -v else v;
    ValueOfDecimal(n);
    if v < 0 {
      assert Text(v)[1..] == Decimal(n);
    } else {
      assert IsDigit(Decimal(n)[0]);
    }
  }
}
