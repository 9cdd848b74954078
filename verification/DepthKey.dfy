/** The string key under which transactions with the same alarm depths are grouped. */
module DepthKey {
  import opened ScriptTypes

  const DIGITS := "0123456789"

  /** Decimal digits, most significant first. */
  function Decimal(n: nat): (r: string)
    ensures r != [] && forall i :: 0 <= i < |r| ==> r[i] in DIGITS
  {
    if n < 10 then [DIGITS[n]] else Decimal(n / 10) + [DIGITS[n % 10]]
  }

  function DigitValue(c: char): nat { if '0' <= c <= '9' then c as nat - '0' as nat else 0 }

  function DecimalValue(s: string): nat {
    if s == [] then 0 else 10 * DecimalValue(Pop(s)) + DigitValue(Last(s))
  }

  lemma {:induction false} DecimalBack(n: nat)
    ensures DecimalValue(Decimal(n)) == n
  {
    if n < 10 {
      assert DecimalValue([DIGITS[n]]) == 10 * DecimalValue([]) + DigitValue(DIGITS[n]);
    } else {
      DecimalBack(n / 10);
      assert Pop(Decimal(n)) == Decimal(n / 10) && Last(Decimal(n)) == DIGITS[n % 10];
    }
  }

  /** Decimals joined by commas. */
  function DepthSetKey(depths: seq<nat>): string {
    if depths == [] then ""
    else if |depths| == 1 then Decimal(depths[0])
    else Decimal(depths[0]) + [','] + DepthSetKey(depths[1..])
  }

  lemma NoComma(n: nat)
    ensures ',' !in Decimal(n)
  {
  }

  lemma CommaSplits(a: string, b: string, x: string, y: string)
    requires ',' !in a && ',' !in b && a + [','] + x == b + [','] + y
    ensures a == b && x == y
  {
    var s := a + [','] + x;
    assert s[|a|] == ',' && s[|b|] == ',';
    assert forall i :: 0 <= i < |a| ==> s[i] == a[i] && a[i] in a;
    assert forall i :: 0 <= i < |b| ==> s[i] == b[i] && b[i] in b;
    assert |a| == |b|;
    assert a == s[..|a|] && b == s[..|b|] && x == s[|a| + 1..] && y == s[|b| + 1..];
  }

  lemma HasComma(a: seq<nat>)
    ensures ',' in DepthSetKey(a) <==> |a| > 1
  {
    if |a| == 1 { NoComma(a[0]); }
  }

  /** The key determines the list. */
  lemma {:induction false} KeyInjective(a: seq<nat>, b: seq<nat>)
    requires DepthSetKey(a) == DepthSetKey(b)
    ensures a == b
  {
    if a == [] || b == [] { return; }
    HasComma(a);
    HasComma(b);
    NoComma(a[0]);
    NoComma(b[0]);
    DecimalBack(a[0]);
    DecimalBack(b[0]);
    if |a| > 1 {
      CommaSplits(Decimal(a[0]), Decimal(b[0]), DepthSetKey(a[1..]), DepthSetKey(b[1..]));
      KeyInjective(a[1..], b[1..]);
      assert a == [a[0]] + a[1..] && b == [b[0]] + b[1..];
    } else {
      assert a == [a[0]] && b == [b[0]];
    }
  }

  lemma {:induction false} KeyGrows(a: seq<nat>, d: nat)
    requires a != []
    ensures DepthSetKey(a + [d]) == DepthSetKey(a) + [','] + Decimal(d)
  {
    var b := a + [d];
    assert b[1..] == a[1..] + [d];
    if |a| > 1 { KeyGrows(a[1..], d); }
  }

  /** The key, written out from left to right. */
  method BuildKey(depths: seq<nat>) returns (key: string)
    ensures key == DepthSetKey(depths)
  {
    key := "";
    for i := 0 to |depths|
      invariant key == DepthSetKey(depths[..i])
    {
      assert depths[..i + 1] == depths[..i] + [depths[i]];
      if i > 0 {
        KeyGrows(depths[..i], depths[i]);
        key := key + [','];
      }
      key := key + Decimal(depths[i]);
    }
    assert depths[..|depths|] == depths;
  }
}
