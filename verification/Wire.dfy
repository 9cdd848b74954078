/** Fixed-width little-endian integers and Bitcoin's compact-size integers. */
module Wire {
  import opened ScriptTypes
  import opened ScriptNum

  /** The low `width` base-256 digits of a number, least significant first. */
  function Le(n: nat, width: nat): (r: Bytes)
    ensures |r| == width
  {
    if width == 0 then [] else [n % 256] + Le(n / 256, width - 1)
  }

  lemma {:induction false} LeRoundTrip(n: nat, width: nat)
    requires n < Pow256(width)
    ensures LeValue(Le(n, width)) == n
  {
    if width > 0 {
      LeRoundTrip(n / 256, width - 1);
      assert Le(n, width)[1..] == Le(n / 256, width - 1);
    }
  }

  lemma LeInjective(a: nat, b: nat, width: nat)
    requires a < Pow256(width) && b < Pow256(width) && Le(a, width) == Le(b, width)
    ensures a == b
  {
    LeRoundTrip(a, width);
    LeRoundTrip(b, width);
  }

  /** Lengths are 64-bit in the code; a longer one would lose its high digits here. */
  function CompactSize(n: nat): (r: Bytes)
    ensures 1 <= |r| <= 9
  {
    if n < 0xfd then [n]
    else if n <= 0xffff then [0xfd] + Le(n, 2)
    else if n <= 0xffff_ffff then [0xfe] + Le(n, 4)
    else [0xff] + Le(n, 8)
  }

  /** Width of the number that follows a tag byte. */
  function TagWidth(tag: Byte): nat {
    if tag == 0xfd then 2 else if tag == 0xfe then 4 else if tag == 0xff then 8 else 0
  }

  /** The value at the head of a buffer and the bytes it takes; non-shortest forms count. */
  function ReadCompact(buf: Bytes): (r: Option<(U64, nat)>)
    ensures r.Some? ==> 1 <= r.value.1 <= |buf|
  {
    if buf == [] then None
    else
      var w := TagWidth(buf[0]);
      if w == 0 then Some((buf[0], 1))
      else if |buf| < 1 + w then None
      else
        LeFitsWord(buf[1..1 + w]);
        Some((LeValue(buf[1..1 + w]), 1 + w))
  }

  /** One byte below 253; above, a tag and the number in 2, 4 or 8 bytes, the fewest that do. */
  lemma CompactForm(n: U64)
    ensures var e := CompactSize(n);
            && (n < 253 ==> e == [n])
            && (n >= 253 ==>
                  && LeValue(e[1..]) == n
                  && (n < 0x1_0000 ==> |e| == 3 && e[0] == 253)
                  && (0x1_0000 <= n < 0x1_0000_0000 ==> |e| == 5 && e[0] == 254)
                  && (n >= 0x1_0000_0000 ==> |e| == 9 && e[0] == 255))
  {
    Pow256Values();
    if n >= 253 {
      var w := if n < 0x1_0000 then 2 else if n < 0x1_0000_0000 then 4 else 8;
      assert CompactSize(n)[1..] == Le(n, w);
      LeRoundTrip(n, w);
    }
  }

  /** A compact size is read back whatever follows it. */
  lemma CompactRoundTrip(n: U64, rest: Bytes)
    ensures ReadCompact(CompactSize(n) + rest) == Some((n, |CompactSize(n)|))
  {
    var buf := CompactSize(n) + rest;
    var w := TagWidth(buf[0]);
    Pow256Values();
    if w > 0 {
      assert buf[1..1 + w] == Le(n, w);
      LeRoundTrip(n, w);
    }
  }

  /** Compact sizes are prefix-free: two of them in front of anything agree if the whole does. */
  lemma CompactPrefix(a: U64, b: U64, x: Bytes, y: Bytes)
    requires CompactSize(a) + x == CompactSize(b) + y
    ensures a == b && x == y
  {
    CompactRoundTrip(a, x);
    CompactRoundTrip(b, y);
    assert x == (CompactSize(a) + x)[|CompactSize(a)|..];
    assert y == (CompactSize(b) + y)[|CompactSize(b)|..];
  }

  /** The same for two strings of equal length. */
  lemma FixedPrefix<T>(a: seq<T>, b: seq<T>, x: seq<T>, y: seq<T>)
    requires |a| == |b| && a + x == b + y
    ensures a == b && x == y
  {
    assert a == (a + x)[..|a|] && b == (b + y)[..|b|];
    assert x == (a + x)[|a|..] && y == (b + y)[|b|..];
  }
}
