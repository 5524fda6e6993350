/** What comparators and hash functions of the source are made of. */
module Comparing {

  /** `express(f)`: decides unless the two values are equal. */
  function Express(x: int, y: int, otherwise: int): int {
    if x > y then 1 else if x < y then -1 else otherwise
  }

  /** The exclusive or of some words. */
  function XorAll(ws: seq<bv32>): bv32
    decreases |ws|
  {
    if ws == [] then 0 else XorAll(ws[..|ws| - 1]) ^ ws[|ws| - 1]
  }

  /** Each word tells: changing one changes the result by just the difference. */
  lemma {:induction false} XorAllChange(ws: seq<bv32>, i: nat, w: bv32)
    requires i < |ws|
    ensures XorAll(ws[i := w]) == XorAll(ws) ^ ws[i] ^ w
    decreases |ws|
  {
    var n := |ws| - 1;
    if i < n {
      XorAllChange(ws[..n], i, w);
      assert ws[i := w][..n] == ws[..n][i := w];
    } else {
      assert ws[i := w][..n] == ws[..n];
    }
  }

  /** The same from the front, added to `res`. */
  function XorFrom(res: bv32, ws: seq<bv32>): bv32
    decreases |ws|
  {
    if ws == [] then res else XorFrom(res ^ ws[0], ws[1..])
  }

  lemma {:induction false} XorFromConcat(res: bv32, a: seq<bv32>, b: seq<bv32>)
    ensures XorFrom(res, a + b) == XorFrom(XorFrom(res, a), b)
    decreases |a|
  {
    if a == [] {
      assert a + b == b;
    } else {
      assert (a + b)[1..] == a[1..] + b;
      XorFromConcat(res ^ a[0], a[1..], b);
    }
  }

  lemma XorOne(res: bv32, a: bv32, w: bv32)
    ensures XorFrom(res, [w]) == res ^ w && res ^ a ^ w == res ^ (a ^ w)
  {
    assert [w][1..] == [];
  }

  lemma XorFromNext(res: bv32, w: bv32, ws: seq<bv32>)
    ensures XorFrom(res, [w] + ws) == XorFrom(res ^ w, ws)
  {
    assert ([w] + ws)[1..] == ws;
  }

  lemma {:induction false} XorFromIs(res: bv32, ws: seq<bv32>)
    ensures XorFrom(res, ws) == res ^ XorAll(ws)
    decreases |ws|
  {
    if ws != [] {
      var n := |ws| - 1;
      XorFromIs(res, ws[..n]);
      assert ws[..n] + [ws[n]] == ws;
      XorFromConcat(res, ws[..n], [ws[n]]);
      XorOne(XorFrom(res, ws[..n]), 0, ws[n]);
      XorOne(res, XorAll(ws[..n]), ws[n]);
    }
  }

  /** A value converted to 32 bits. */
  function Bits(x: int): bv32 {
    (x % 0x1_0000_0000) as bv32
  }
}
