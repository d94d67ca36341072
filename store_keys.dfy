/** Record-store keys (src/filesystem.rs, `id.to_be_bytes()`): the big-endian
    bytes of an id, and the order in which the store iterates over them. */
module StoreKeys {
  import opened Common

  function Pow256(n: nat): (p: nat)
    ensures p > 0
  {
    if n == 0 then 1 else 256 * Pow256(n - 1)
  }

  /** The number that a big-endian byte string denotes. */
  function Value(x: seq<byte>): nat
  {
    if x == [] then 0 else x[0] as nat * Pow256(|x| - 1) + Value(x[1..])
  }

  /** Byte-wise lexicographic order, the order the record store keeps keys in. */
  predicate LexLess(x: seq<byte>, y: seq<byte>)
  {
    |x| > 0 && |y| > 0 && (x[0] < y[0] || (x[0] == y[0] && LexLess(x[1..], y[1..])))
  }

  /** `id.to_be_bytes()`: the most significant byte first. */
  function Be4(id: u32): (k: seq<byte>)
    ensures |k| == 4
    ensures Value(k) == id as nat
  {
    var n := id as nat;
    var q1 := n / 256;
    var q2 := q1 / 256;
    var q3 := q2 / 256;
    var k: seq<byte> := [q3 as byte, (q2 % 256) as byte, (q1 % 256) as byte, (n % 256) as byte];
    assert Pow256(3) == 0x100_0000 && Pow256(2) == 0x1_0000 && Pow256(1) == 0x100;
    assert Value(k[3..]) == n % 256 by {
      assert k[3..][1..] == [];
    }
    assert Value(k[2..]) == (q1 % 256) * 0x100 + n % 256 by {
      assert k[2..][1..] == k[3..];
    }
    assert Value(k[1..]) == (q2 % 256) * 0x1_0000 + (q1 % 256) * 0x100 + n % 256 by {
      assert k[1..][1..] == k[2..];
    }
    assert Value(k) == q3 * 0x100_0000 + (q2 % 256) * 0x1_0000 + (q1 % 256) * 0x100 + n % 256;
    k
  }

  lemma {:induction false} ValueBound(x: seq<byte>)
    ensures Value(x) < Pow256(|x|)
  {
    if x != [] {
      ValueBound(x[1..]);
      var p := Pow256(|x| - 1);
      assert x[0] as nat * p + p <= 256 * p by {
        MulStep(x[0] as nat, 256, p);
      }
    }
  }

  lemma MulStep(a: nat, b: nat, p: nat)
    requires a < b
    ensures a * p + p <= b * p
  {
    MulMono(a + 1, b, p);
    assert (a + 1) * p == a * p + p;
  }

  lemma {:induction false} MulMono(x: nat, y: nat, p: nat)
    requires x <= y
    ensures x * p <= y * p
  {
    if p > 0 {
      MulMono(x, y, p - 1);
      assert x * p == x * (p - 1) + x;
      assert y * p == y * (p - 1) + y;
    }
  }

  /** On strings of one length, lexicographic order is numeric order. */
  lemma {:induction false} LexIsNumeric(x: seq<byte>, y: seq<byte>)
    requires |x| == |y|
    ensures LexLess(x, y) <==> Value(x) < Value(y)
  {
    if x != [] {
      var p := Pow256(|x| - 1);
      ValueBound(x[1..]);
      ValueBound(y[1..]);
      if x[0] < y[0] {
        MulStep(x[0] as nat, y[0] as nat, p);
      } else if y[0] < x[0] {
        MulStep(y[0] as nat, x[0] as nat, p);
      } else {
        LexIsNumeric(x[1..], y[1..]);
      }
    }
  }

  /** Distinct ids give distinct keys. */
  lemma Be4Injective(a: u32, b: u32)
    requires Be4(a) == Be4(b)
    ensures a == b
  {
  }

  /** The store's key order is ascending id order. */
  lemma Be4Order(a: u32, b: u32)
    ensures LexLess(Be4(a), Be4(b)) <==> a < b
  {
    LexIsNumeric(Be4(a), Be4(b));
  }

  lemma {:induction false} LeastElement(s: set<u32>) returns (m: u32)
    requires s != {}
    ensures m in s && forall x :: x in s ==> m <= x
    decreases |s|
  {
    var y :| y in s;
    if s == {y} {
      m := y;
    } else {
      var rest := LeastElement(s - {y});
      m := if y < rest then y else rest;
      forall x | x in s
        ensures m <= x
      {
        if x != y {
          assert x in s - {y};
        }
      }
    }
  }

  lemma MinExists(s: set<u32>)
    requires s != {}
    ensures exists m :: m in s && forall x :: x in s ==> m <= x
  {
    var m := LeastElement(s);
  }

  /** The smallest id of a non-empty set. */
  function MinOf(s: set<u32>): (m: u32)
    requires s != {}
    ensures m in s && forall x :: x in s ==> m <= x
  {
    MinExists(s);
    var m :| m in s && forall x :: x in s ==> m <= x;
    m
  }

  /** The ids of a set in the order the store iterates over their keys. */
  function KeyOrder(s: set<u32>): (r: seq<u32>)
    ensures |r| == |s|
    ensures forall x :: x in s <==> x in r
    ensures forall i, j :: 0 <= i < j < |r| ==> r[i] < r[j]
    decreases |s|
  {
    if s == {} then []
    else
      var m := MinOf(s);
      [m] + KeyOrder(s - {m})
  }

  /** Consecutive ids in `KeyOrder` have byte-wise increasing keys. */
  lemma KeyOrderIsStoreOrder(s: set<u32>, i: nat, j: nat)
    requires i < j < |KeyOrder(s)|
    ensures LexLess(Be4(KeyOrder(s)[i]), Be4(KeyOrder(s)[j]))
  {
    Be4Order(KeyOrder(s)[i], KeyOrder(s)[j]);
  }
}
