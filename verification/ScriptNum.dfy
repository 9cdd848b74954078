/** Script numbers: little-endian sign-magnitude integers of at most 8 bytes. */
module ScriptNum {
  import opened ScriptTypes

  const DEFAULT_MAX_NUM_SIZE := 4

  function Pow256(n: nat): (p: nat)
    ensures p >= 1
  {
    if n == 0 then 1 else 256 * Pow256(n - 1)
  }

  /** Value of a little-endian digit string. */
  function LeValue(b: Bytes): nat {
    if b == [] then 0 else b[0] + 256 * LeValue(b[1..])
  }

  /** Shortest little-endian digit string of a value. */
  function LeDigits(n: nat): Bytes {
    if n == 0 then [] else [n % 256] + LeDigits(n / 256)
  }

  /** The string with the sign bit of its last byte cleared. */
  function ClearSign(b: Bytes): (r: Bytes)
    requires b != []
  {
    Pop(b) + [if Last(b) >= 128 then Last(b) - 128 else Last(b)]
  }

  /** Sign-magnitude reading: the top bit of the last byte is the sign. */
  function Decode(b: Bytes): int {
    if b == [] then 0
    else if Last(b) >= 128 then 0 - LeValue(ClearSign(b))
    else LeValue(b)
  }

  /** The minimality test: a last byte of 0x00 or 0x80 is there only for the sign. */
  predicate Minimal(b: Bytes) {
    b != [] && Last(b) % 128 == 0 ==> |b| > 1 && b[|b| - 2] >= 128
  }

  function Abs(v: int): nat { if v < 0 then -v else v }

  function Serialize(v: int): Bytes {
    var m := LeDigits(Abs(v));
    if v == 0 then []
    else
      assert m != [];
      if Last(m) >= 128 then m + [if v < 0 then 0x80 else 0x00]
      else if v < 0 then Pop(m) + [Last(m) + 0x80]
      else m
  }

  predicate CastToBool(b: Bytes) {
    exists i :: 0 <= i < |b| && b[i] != 0 && !(i == |b| - 1 && b[i] == 0x80)
  }

  function FromBytes(b: Bytes, requireMinimal: bool, maxSize: nat): Result<int> {
    if |b| > maxSize || (requireMinimal && !Minimal(b)) then Err(ScriptNumError)
    else Ok(Decode(b))
  }

  // ---- Little-endian facts -------------------------------------------------------------

  lemma {:induction false} LeValueSnoc(b: Bytes, d: Byte)
    ensures LeValue(b + [d]) == LeValue(b) + d * Pow256(|b|)
  {
    if b == [] {
      assert b + [d] == [d];
      assert LeValue([d]) == d + 256 * LeValue([]);
    } else {
      var x, p := LeValue(b[1..]), Pow256(|b| - 1);
      assert (b + [d])[1..] == b[1..] + [d];
      calc {
        LeValue(b + [d]);
        b[0] + 256 * LeValue(b[1..] + [d]);
        { LeValueSnoc(b[1..], d); }
        b[0] + 256 * (x + d * p);
        { Scaled(x, d, p); }
        b[0] + 256 * x + d * (256 * p);
      }
    }
  }

  lemma Scaled(x: nat, d: nat, p: nat)
    ensures 256 * (x + d * p) == 256 * x + d * (256 * p)
  {
  }

  lemma {:induction false} LeValueBound(b: Bytes)
    ensures LeValue(b) < Pow256(|b|)
  {
    if b != [] { LeValueBound(b[1..]); }
  }

  lemma {:induction false} LeDigitsValue(n: nat)
    ensures LeValue(LeDigits(n)) == n
    ensures n > 0 ==> LeDigits(n) != [] && Last(LeDigits(n)) != 0
  {
    if n > 0 {
      LeDigitsValue(n / 256);
      assert LeDigits(n)[1..] == LeDigits(n / 256);
      if n / 256 > 0 {
        assert Last(LeDigits(n)) == Last(LeDigits(n / 256));
      }
    }
  }

  /** A digit string with no leading zero is the digit string of its value. */
  lemma {:induction false} LeDigitsUnique(b: Bytes)
    requires b == [] || Last(b) != 0
    ensures LeDigits(LeValue(b)) == b
  {
    if b != [] {
      if |b| == 1 {
        assert LeValue(b) == b[0];
        assert LeDigits(b[0]) == [b[0]] + LeDigits(0);
      } else {
        assert Last(b[1..]) == Last(b);
        LeDigitsUnique(b[1..]);
        assert LeValue(b) % 256 == b[0] && LeValue(b) / 256 == LeValue(b[1..]);
        assert LeValue(b[1..]) != 0;
        assert [b[0]] + b[1..] == b;
      }
    }
  }

  lemma {:induction false} LeDigitsBound(n: nat, k: nat)
    requires n < Pow256(k)
    ensures |LeDigits(n)| <= k
  {
    if n > 0 {
      LeDigitsBound(n / 256, k - 1);
    }
  }

  lemma {:induction false} LeValueZero(b: Bytes)
    ensures LeValue(b) == 0 <==> forall i :: 0 <= i < |b| ==> b[i] == 0
  {
    if b != [] {
      LeValueZero(b[1..]);
      assert forall i :: 0 <= i < |b| ==> b[i] == if i == 0 then b[0] else b[1..][i - 1];
    }
  }

  // ---- The round trips -----------------------------------------------------------------

  /** What is pushed by a numeric opcode reads back as the same number, minimally encoded. */
  lemma DecodeSerialize(v: int)
    ensures Decode(Serialize(v)) == v
    ensures Minimal(Serialize(v))
  {
    hide LeDigits, LeValue, Decode, Minimal;
    if v == 0 {
      DecodeNothing();
    } else {
      var m := LeDigits(Abs(v));
      LeDigitsValue(Abs(v));
      if Last(m) >= 128 {
        SignAppended(m, if v < 0 then 0x80 else 0x00);
      } else {
        SignSet(m, v < 0);
      }
    }
  }

  lemma DecodeNothing()
    ensures Decode([]) == 0 && Minimal([])
  {
  }

  lemma SignAppended(m: Bytes, s: Byte)
    requires m != [] && Last(m) >= 128 && (s == 0x80 || s == 0)
    ensures Decode(m + [s]) == (if s == 0 then LeValue(m) else 0 - LeValue(m)) && Minimal(m + [s])
  {
    hide LeValue;
    assert Pop(m + [s]) == m && Last(m + [s]) == s;
    assert ClearSign(m + [s]) == m + [0];
    LeValueSnoc(m, 0);
  }

  lemma SignSet(m: Bytes, negative: bool)
    requires m != [] && 0 < Last(m) < 128
    ensures var b := if negative then Pop(m) + [Last(m) + 0x80] else m;
            Decode(b) == (if negative then 0 - LeValue(m) else LeValue(m)) && Minimal(b)
  {
    hide LeValue;
    var b := Pop(m) + [Last(m) + 0x80];
    assert Pop(b) == Pop(m) && Pop(m) + [Last(m)] == m;
  }

  /** A minimally encoded string is the only minimal encoding of its value. */
  lemma SerializeDecode(b: Bytes)
    requires Minimal(b)
    ensures Serialize(Decode(b)) == b
  {
    if b != [] {
      if Last(b) % 128 == 0 {
        var m := Pop(b);   // the last byte holds the sign alone
        assert ClearSign(b) == m + [0] && (Last(b) < 128 ==> b == m + [0]);
        LeValueSnoc(m, 0);
        SerializeDigits(m, Decode(b));
      } else {
        var m := ClearSign(b);
        assert Last(b) < 128 ==> m == b;
        SerializeDigits(m, Decode(b));
        assert Pop(m) == Pop(b);
      }
      assert Pop(b) + [Last(b)] == b;
    }
  }

  lemma SerializeDigits(m: Bytes, v: int)
    requires m != [] && Last(m) != 0 && Abs(v) == LeValue(m)
    ensures v != 0 && LeDigits(Abs(v)) == m
  {
    LeDigitsUnique(m);
    LeDigitsNonZero(m);
  }

  lemma LeDigitsNonZero(b: Bytes)
    requires b != [] && Last(b) != 0
    ensures LeValue(b) > 0
  {
    LeValueZero(b);
    assert b[|b| - 1] != 0;
  }

  lemma MulMono(a: nat, b: nat, p: nat)
    requires a <= b
    ensures a * p <= b * p
  {
    calc { b * p; (b - a) * p + a * p; }
  }

  /** A stack item is true exactly when it reads as a non-zero number. */
  lemma CastToBoolIsNonZero(b: Bytes)
    ensures CastToBool(b) <==> Decode(b) != 0
  {
    if b != [] {
      var m := ClearSign(b);
      assert Last(b) < 128 ==> m == b;
      LeValueZero(m);
      assert forall i :: 0 <= i < |b| ==> m[i] == if i == |b| - 1 && b[i] >= 128 then b[i] - 128 else b[i];
      if Decode(b) != 0 {
        var i :| 0 <= i < |m| && m[i] != 0;
        assert b[i] != 0;
      }
    }
  }

  lemma Pow256Values()
    ensures Pow256(1) == 0x100 && Pow256(2) == 0x1_0000 && Pow256(3) == 0x100_0000
    ensures Pow256(4) == 0x1_0000_0000 && Pow256(5) == 0x100_0000_0000
    ensures Pow256(6) == 0x1_0000_0000_0000 && Pow256(7) == 0x100_0000_0000_0000
    ensures Pow256(8) == 0x1_0000_0000_0000_0000
  {
    assert Pow256(1) == 256 * Pow256(0);
    assert Pow256(2) == 256 * Pow256(1);
    assert Pow256(3) == 256 * Pow256(2);
    assert Pow256(4) == 256 * Pow256(3);
    assert Pow256(5) == 256 * Pow256(4);
    assert Pow256(6) == 256 * Pow256(5);
    assert Pow256(7) == 256 * Pow256(6);
    assert Pow256(8) == 256 * Pow256(7);
  }

  lemma {:induction false} Pow256Monotone(a: nat, b: nat)
    requires a <= b
    ensures Pow256(a) <= Pow256(b)
  {
    if a < b { Pow256Monotone(a, b - 1); }
  }

  /** A string of at most k bytes reads as a number below half of 256^k in magnitude. */
  lemma DecodeBound(b: Bytes, k: nat)
    requires |b| <= k && k > 0
    ensures 2 * Abs(Decode(b)) < Pow256(k)
  {
    if b != [] {
      var t: Byte := if Last(b) >= 128 then Last(b) - 128 else Last(b);
      LeValueSnoc(Pop(b), t);
      assert Last(b) < 128 ==> ClearSign(b) == b;
      LeValueBound(Pop(b));
      MulMono(t, 127, Pow256(|b| - 1));
      Pow256Monotone(|b|, k);
    }
  }

  /** Size of the encoding: every |v| < 2^(8k-1) takes at most k bytes. */
  lemma SerializeSize(v: int, k: nat)
    requires k > 0 && 2 * Abs(v) < Pow256(k)
    ensures |Serialize(v)| <= k
  {
    if v != 0 {
      var m := LeDigits(Abs(v));
      LeDigitsValue(Abs(v));
      LeDigitsBound(Abs(v), k);
      if |m| == k {
        var low, top := Pop(m), Last(m);
        assert low + [top] == m;
        LeValueSnoc(low, top);
        if top >= 128 { MulMono(128, top, Pow256(k - 1)); }
      }
    }
  }

  /** Numbers of at most four bytes are inside the 32-bit sign-magnitude range. */
  lemma OperandBound(a: Bytes)
    requires |a| <= 4
    ensures Abs(Decode(a)) < 0x8000_0000
  {
    DecodeBound(a, 4);
    Pow256Values();
  }

  /** Every result of a numeric opcode fits in five bytes. */
  lemma ResultSize(v: int)
    requires Abs(v) <= 0x1_0000_0000
    ensures |Serialize(v)| <= 5
  {
    Pow256Values();
    SerializeSize(v, 5);
  }

  // ---- The loops -----------------------------------------------------------------------

  method DecodeBytes(data: Bytes) returns (v: Int64)
    requires |data| <= 8
    ensures v == Decode(data)
  {
    if data == [] { return 0; }
    var result: U64 := 0;   // the 64-bit pattern; each byte goes where it is still zero
    var i := 0;
    while i < |data|
      invariant 0 <= i <= |data|
      invariant result == LeValue(data[..i])
    {
      assert data[..i + 1] == data[..i] + [data[i]];
      LeValueSnoc(data[..i], data[i]);
      LeFitsWord(data[..i + 1]);
      result := result + data[i] * Pow256(i);
      i := i + 1;
    }
    assert data[..|data|] == data;
    Int64Bound(data);
    if data[|data| - 1] >= 0x80 {
      SignBit(data);
      var mask: U64 := 0x80 * Pow256(|data| - 1);
      return -(result - mask);
    }
    return result;
  }

  lemma LeFitsWord(b: Bytes)
    requires |b| <= 8
    ensures LeValue(b) < 0x1_0000_0000_0000_0000
  {
    LeValueBound(b);
    Pow256Monotone(|b|, 8);
    Pow256Values();
  }

  lemma Int64Bound(data: Bytes)
    requires 0 < |data| <= 8
    ensures Abs(Decode(data)) < 0x8000_0000_0000_0000
  {
    DecodeBound(data, 8);
    Pow256Values();
  }

  /** Masking the sign bit off the accumulated pattern clears it in the last byte. */
  lemma SignBit(data: Bytes)
    requires data != [] && Last(data) >= 0x80
    ensures LeValue(ClearSign(data)) == LeValue(data) - 0x80 * Pow256(|data| - 1)
  {
    hide LeValue, Pow256;
    var low, t: Byte := Pop(data), Last(data) - 128;
    assert ClearSign(data) == low + [t];
    assert data == low + [t + 128];
    SetSignBit(low, t);
  }

  lemma {:induction false} SetSignBit(low: Bytes, t: Byte)
    requires t < 128
    ensures LeValue(low + [t + 128]) == LeValue(low + [t]) + 0x80 * Pow256(|low|)
  {
    if low == [] {
      assert low + [t] == [t] && low + [t + 128] == [t + 128];
    } else {
      SetSignBit(low[1..], t);
      assert (low + [t])[1..] == low[1..] + [t];
      assert (low + [t + 128])[1..] == low[1..] + [t + 128];
    }
  }

  method Digits(value: U64) returns (result: Bytes)
    ensures result == LeDigits(value)
  {
    hide LeDigits;
    var absValue: U64 := value;
    result := [];
    assert [] + LeDigits(value) == LeDigits(value);
    while absValue > 0
      invariant result + LeDigits(absValue) == LeDigits(value)
    {
      DigitStep(absValue);
      Assoc(result, [absValue % 256], LeDigits(absValue / 256));
      result := result + [absValue % 256];
      absValue := absValue / 256;
    }
    assert LeDigits(0) == [] by { NoDigits(); }
    assert result + [] == result;
  }

  lemma DigitStep(n: nat)
    requires n > 0
    ensures LeDigits(n) == [n % 256] + LeDigits(n / 256)
  {
  }

  lemma NoDigits()
    ensures LeDigits(0) == []
  {
  }

  method SerializeInt64(value: Int64) returns (result: Bytes)
    ensures result == Serialize(value)
  {
    if value == 0 { return []; }
    var neg := value < 0;
    result := Digits(if neg then 0 - value else value);
    LeDigitsValue(Abs(value));
    if result[|result| - 1] >= 0x80 {
      result := result + [if neg then 0x80 else 0x00];
    } else if neg {
      var last := |result| - 1;
      result := result[last := result[last] + 0x80];
    }
  }

  method CastToBoolScan(vch: Bytes) returns (r: bool)
    ensures r == CastToBool(vch)
  {
    var i := 0;
    while i < |vch|
      invariant 0 <= i <= |vch|
      invariant forall j :: 0 <= j < i ==> vch[j] == 0
    {
      if vch[i] != 0 {
        if i == |vch| - 1 && vch[i] == 0x80 { return false; }
        return true;
      }
      i := i + 1;
    }
    return false;
  }

  method FromBytesChecked(data: Bytes, requireMinimal: bool, maxSize: nat) returns (r: Result<Int64>)
    requires maxSize <= 8
    ensures r == FromBytes(data, requireMinimal, maxSize)
  {
    if |data| > maxSize { return Err(ScriptNumError); }
    if requireMinimal && data != [] {
      if data[|data| - 1] % 0x80 == 0 {
        if |data| <= 1 || data[|data| - 2] < 0x80 { return Err(ScriptNumError); }
      }
    }
    var v := DecodeBytes(data);
    return Ok(v);
  }

  /** `getint`: clamp to 32 bits. */
  function GetInt(v: int): Int32 {
    if v > 0x7FFF_FFFF then 0x7FFF_FFFF else if v < -0x8000_0000 then -0x8000_0000 else v
  }
}
