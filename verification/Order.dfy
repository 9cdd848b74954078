/** Lexicographic order, and the one sorted list of a set. */
module Order {
  import opened ScriptTypes

  predicate LexLess(a: seq<nat>, b: seq<nat>)
    decreases |a|
  {
    if a == [] || b == [] then a == [] && b != []
    else a[0] < b[0] || (a[0] == b[0] && LexLess(a[1..], b[1..]))
  }

  lemma {:induction false} LexAsymmetric(a: seq<nat>, b: seq<nat>)
    requires LexLess(a, b)
    ensures !LexLess(b, a) && a != b
    decreases |a|
  {
    if a != [] && a[0] == b[0] { LexAsymmetric(a[1..], b[1..]); }
  }

  lemma {:induction false} LexTransitive(a: seq<nat>, b: seq<nat>, c: seq<nat>)
    requires LexLess(a, b) && LexLess(b, c)
    ensures LexLess(a, c)
    decreases |a|
  {
    if a != [] && a[0] == b[0] == c[0] { LexTransitive(a[1..], b[1..], c[1..]); }
  }

  lemma {:induction false} LexTotal(a: seq<nat>, b: seq<nat>)
    ensures LexLess(a, b) || LexLess(b, a) || a == b
    decreases |a|
  {
    if a != [] && b != [] && a[0] == b[0] {
      LexTotal(a[1..], b[1..]);
      assert a == [a[0]] + a[1..] && b == [b[0]] + b[1..];
    }
  }

  predicate DiffersAt(a: seq<nat>, b: seq<nat>, k: nat) { k < |a| && k < |b| && a[..k] == b[..k] && a[k] < b[k] }

  /** One is the beginning of the other, or the first number in which they differ decides. */
  ghost predicate Precedes(a: seq<nat>, b: seq<nat>) {
    (|a| < |b| && a == b[..|a|]) || exists k: nat :: DiffersAt(a, b, k)
  }

  lemma {:induction false} LexLessIff(a: seq<nat>, b: seq<nat>)
    ensures LexLess(a, b) <==> Precedes(a, b)
    decreases |a|
  {
    if a != [] && b != [] && a[0] == b[0] {
      LexLessIff(a[1..], b[1..]);
      TailPrecedes(a, b);
    } else if a != [] && b != [] && a[0] < b[0] {
      assert DiffersAt(a, b, 0);
    } else if a != [] && b != [] {
      assert forall k :: 0 < k <= |a| && k <= |b| ==> a[..k][0] == a[0] && b[..k][0] == b[0];
    }
  }

  lemma TailPrecedes(a: seq<nat>, b: seq<nat>)
    requires a != [] && b != [] && a[0] == b[0]
    ensures Precedes(a, b) <==> Precedes(a[1..], b[1..])
  {
    hide DiffersAt;
    BeginsTail(a, b);
    if k: nat :| DiffersAt(a, b, k) { DiffersDown(a, b, k); }
    if k: nat :| DiffersAt(a[1..], b[1..], k) { DiffersUp(a, b, k); }
  }

  lemma BeginsTail(a: seq<nat>, b: seq<nat>)
    requires a != [] && b != [] && a[0] == b[0]
    ensures |a| < |b| && a == b[..|a|] <==> |a[1..]| < |b[1..]| && a[1..] == b[1..][..|a[1..]|]
  {
    if |a| < |b| {
      assert b[..|a|] == [b[0]] + b[1..][..|a| - 1] && a == [a[0]] + a[1..];
      assert b[..|a|][1..] == b[1..][..|a| - 1];
    }
  }

  lemma DiffersDown(a: seq<nat>, b: seq<nat>, k: nat)
    requires a != [] && b != [] && a[0] == b[0] && DiffersAt(a, b, k)
    ensures k > 0 && DiffersAt(a[1..], b[1..], k - 1)
  {
    assert a[1..][..k - 1] == a[..k][1..] && b[1..][..k - 1] == b[..k][1..];
  }

  lemma DiffersUp(a: seq<nat>, b: seq<nat>, k: nat)
    requires a != [] && b != [] && a[0] == b[0] && DiffersAt(a[1..], b[1..], k)
    ensures DiffersAt(a, b, k + 1)
  {
    assert a[..k + 1] == [a[0]] + a[1..][..k] && b[..k + 1] == [b[0]] + b[1..][..k];
  }

  type Rank<!K> = K -> seq<nat>

  predicate Sorted<K>(ks: seq<K>, rank: Rank<K>) {
    forall i, j :: 0 <= i < j < |ks| ==> LexLess(rank(ks[i]), rank(ks[j]))
  }

  ghost predicate Distinguishes<K(!new)>(rank: Rank<K>) { forall a, b :: rank(a) == rank(b) ==> a == b }

  ghost predicate Lists<K(!new)>(ks: seq<K>, s: set<K>) { forall k :: k in ks <==> k in s }

  /** A set has one sorted list. */
  lemma {:induction false} SortedUnique<K(!new)>(a: seq<K>, b: seq<K>, rank: Rank<K>)
    requires Sorted(a, rank) && Sorted(b, rank) && forall k :: k in a <==> k in b
    ensures a == b
  {
    if a != [] { assert a[0] in a; }
    if b != [] { assert b[0] in b; }
    if a != [] {
      SameLast(a, b, rank);
      var x := Last(a);
      forall k ensures k in Pop(a) <==> k in Pop(b) {
        AllButLast(a, rank, k);
        AllButLast(b, rank, k);
      }
      SortedUnique(Pop(a), Pop(b), rank);
      assert a == Pop(a) + [x] && b == Pop(b) + [x];
    }
  }

  lemma SameLast<K(!new)>(a: seq<K>, b: seq<K>, rank: Rank<K>)
    requires a != [] && b != [] && Sorted(a, rank) && Sorted(b, rank) && forall k :: k in a <==> k in b
    ensures Last(a) == Last(b)
  {
    var x, y := Last(a), Last(b);
    assert x in b && y in a;
    if x != y {
      assert LexLess(rank(x), rank(y));
      LexAsymmetric(rank(x), rank(y));
    }
  }

  lemma AllButLast<K>(a: seq<K>, rank: Rank<K>, k: K)
    requires a != [] && Sorted(a, rank)
    ensures k in Pop(a) <==> k in a && k != Last(a)
  {
    if k in Pop(a) {
      var i :| 0 <= i < |a| - 1 && a[i] == k;
      LexAsymmetric(rank(k), rank(Last(a)));
    }
  }

  /** Insert an element where it belongs. */
  function Insert<K>(ks: seq<K>, x: K, rank: Rank<K>): seq<K> {
    if ks == [] then [x]
    else if LexLess(rank(x), rank(ks[0])) then [x] + ks
    else [ks[0]] + Insert(ks[1..], x, rank)
  }

  lemma {:induction false} InsertMembers<K>(ks: seq<K>, x: K, rank: Rank<K>, k: K)
    ensures k in Insert(ks, x, rank) <==> k in ks || k == x
  {
    if ks != [] && !LexLess(rank(x), rank(ks[0])) {
      InsertMembers(ks[1..], x, rank, k);
      assert ks == [ks[0]] + ks[1..];
    }
  }

  lemma {:induction false} InsertSorted<K(!new)>(ks: seq<K>, x: K, rank: Rank<K>)
    requires Sorted(ks, rank) && Distinguishes(rank) && x !in ks
    ensures Sorted(Insert(ks, x, rank), rank)
  {
    if ks != [] {
      var rest := ks[1..];
      assert ks == [ks[0]] + rest;
      if LexLess(rank(x), rank(ks[0])) {
        BelowHead(x, ks, rank);
        ConsSorted(x, ks, rank);
      } else {
        LexTotal(rank(x), rank(ks[0]));
        InsertSorted(rest, x, rank);
        var more := Insert(rest, x, rank);
        forall k | k in more ensures LexLess(rank(ks[0]), rank(k)) { InsertMembers(rest, x, rank, k); }
        ConsSorted(ks[0], more, rank);
      }
    }
  }

  lemma BelowHead<K>(x: K, ks: seq<K>, rank: Rank<K>)
    requires ks != [] && Sorted(ks, rank) && LexLess(rank(x), rank(ks[0]))
    ensures forall k :: k in ks ==> LexLess(rank(x), rank(k))
  {
    forall k | k in ks ensures LexLess(rank(x), rank(k)) {
      var i :| 0 <= i < |ks| && ks[i] == k;
      if i > 0 { LexTransitive(rank(x), rank(ks[0]), rank(k)); }
    }
  }

  lemma ConsSorted<K>(x: K, ks: seq<K>, rank: Rank<K>)
    requires Sorted(ks, rank) && forall k :: k in ks ==> LexLess(rank(x), rank(k))
    ensures Sorted([x] + ks, rank)
  {
    var r := [x] + ks;
    forall i, j | 0 <= i < j < |r| ensures LexLess(rank(r[i]), rank(r[j])) {
      assert r[j] == ks[j - 1] && ks[j - 1] in ks;
    }
  }

  /** The sorted list of a set. */
  ghost function SortedOf<K(!new)>(s: set<K>, rank: Rank<K>): (ks: seq<K>)
    requires Distinguishes(rank)
    ensures Sorted(ks, rank) && Lists(ks, s)
    decreases |s|
  {
    if s == {} then []
    else
      var x :| x in s;
      var rest := SortedOf(s - {x}, rank);
      assert x !in rest;
      InsertSorted(rest, x, rank);
      assert forall k :: k in Insert(rest, x, rank) <==> k in s by {
        forall k ensures k in Insert(rest, x, rank) <==> k in s { InsertMembers(rest, x, rank, k); }
      }
      Insert(rest, x, rank)
  }

  lemma IsSortedOf<K(!new)>(ks: seq<K>, s: set<K>, rank: Rank<K>)
    requires Distinguishes(rank) && Sorted(ks, rank) && Lists(ks, s)
    ensures ks == SortedOf(s, rank)
  {
    SortedUnique(ks, SortedOf(s, rank), rank);
  }

  /** Collect the elements and sort them. */
  method SortedElements<K(!new, ==)>(s: set<K>, rank: Rank<K>) returns (ks: seq<K>)
    requires Distinguishes(rank)
    ensures ks == SortedOf(s, rank)
  {
    ks := [];
    var left := s;
    while left != {}
      invariant left <= s && Sorted(ks, rank) && Lists(ks, s - left)
    {
      var x :| x in left;
      InsertSorted(ks, x, rank);
      forall k ensures k in Insert(ks, x, rank) <==> k in s - (left - {x}) { InsertMembers(ks, x, rank, k); }
      left := left - {x};
      ks := Insert(ks, x, rank);
    }
    assert s - {} == s;
    IsSortedOf(ks, s, rank);
  }

  // ---- What the keys are sorted by -----------------------------------------------------

  function RankNumber(n: U32): seq<nat> { [n] }
  function RankBytes(b: Bytes): seq<nat> { b }
  function RankHash(h: Hash32): seq<nat> { h }
  function RankOutPoint(o: OutPoint): seq<nat> { o.txid + [o.vout] }

  function RankText(s: string): (r: seq<nat>)
    ensures |r| == |s| && forall i :: 0 <= i < |s| ==> r[i] == s[i] as nat
  {
    if s == "" then [] else RankText(Pop(s)) + [Last(s) as nat]
  }

  lemma RanksDistinguish()
    ensures Distinguishes(RankNumber) && Distinguishes(RankBytes) && Distinguishes(RankHash)
    ensures Distinguishes(RankOutPoint) && Distinguishes(RankText)
  {
    forall a, b | RankNumber(a) == RankNumber(b) ensures a == b { assert RankNumber(a)[0] == RankNumber(b)[0]; }
    forall a, b | RankOutPoint(a) == RankOutPoint(b) ensures a == b {
      assert a.txid == RankOutPoint(a)[..32] && b.txid == RankOutPoint(b)[..32];
      assert a.vout == RankOutPoint(a)[32] && b.vout == RankOutPoint(b)[32];
    }
    forall a, b | RankText(a) == RankText(b) ensures a == b {
      assert forall i :: 0 <= i < |a| ==> RankText(a)[i] == RankText(b)[i];
    }
  }
}
