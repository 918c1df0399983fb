// Two of the test vectors of RFC 1320, section A.5, computed operation by operation.
module Md4Vectors {
  import opened Common
  import opened Bytes
  import opened Text
  import opened Md4Block
  import opened Mdfour

  // ----- one operation on given words ----------------------------------------------------------------

  // t is the chain after j operations of a round.
  ghost predicate Reached(round: nat, j: nat, s: Chain, x: seq<W>, t: Chain) {
    forall k {:trigger Look(k)} :: Look(k) ==> j <= 16 == |x| && Round(round, j, s, x) == t
  }

  lemma {:induction false} Started(round: nat, s: Chain, x: seq<W>, zero: nat)
    requires |x| == 16 && zero == 0
    ensures Reached(round, zero, s, x, s) == true
  {
  }

  lemma {:induction false} Step1(j: nat, s: Chain, x: seq<W>, a: W, b: W, c: W, d: W, m: W, shift: nat, r: W)
    requires j < 16 == |x| && Reached(1, j, s, x, Chain(a, b, c, d)) == true
    requires x[MessageIndex(1, j)] == m && shift == Shift(1, j)
    requires Lshift(Add(Add(a, F(b, c, d)), m), shift) == r
    ensures Reached(1, j + 1, s, x, Chain(d, r, b, c)) == true
  {
    assert Look(0);
  }

  lemma {:induction false} Step2(j: nat, s: Chain, x: seq<W>, a: W, b: W, c: W, d: W, m: W, shift: nat, r: W)
    requires j < 16 == |x| && Reached(2, j, s, x, Chain(a, b, c, d)) == true
    requires x[MessageIndex(2, j)] == m && shift == Shift(2, j)
    requires Lshift(Add(Add(Add(a, G(b, c, d)), m), W(0x5A827999)), shift) == r
    ensures Reached(2, j + 1, s, x, Chain(d, r, b, c)) == true
  {
    assert Look(0);
  }

  lemma {:induction false} Step3(j: nat, s: Chain, x: seq<W>, a: W, b: W, c: W, d: W, m: W, shift: nat, r: W)
    requires j < 16 == |x| && Reached(3, j, s, x, Chain(a, b, c, d)) == true
    requires x[MessageIndex(3, j)] == m && shift == Shift(3, j)
    requires Lshift(Add(Add(Add(a, H(b, c, d)), m), W(0x6ED9EBA1)), shift) == r
    ensures Reached(3, j + 1, s, x, Chain(d, r, b, c)) == true
  {
    assert Look(0);
  }

  // ----- the padded empty message ------------------------------------------------------------------------------

  // The sixteen words of the padded empty message.
  ghost predicate IsEmpty(x: seq<W>) {
    |x| == 16 && forall k {:trigger Look(k)} :: Look(k) ==>
      x[0] == W(0x80) && x[1] == W(0x0) && x[2] == W(0x0) && x[3] == W(0x0)
      && x[4] == W(0x0) && x[5] == W(0x0) && x[6] == W(0x0) && x[7] == W(0x0)
      && x[8] == W(0x0) && x[9] == W(0x0) && x[10] == W(0x0) && x[11] == W(0x0)
      && x[12] == W(0x0) && x[13] == W(0x0) && x[14] == W(0x0) && x[15] == W(0x0)
  }

  lemma {:induction false} Empty1A(x: seq<W>, s: Chain, j: nat)
    requires IsEmpty(x) && j == 0 && Reached(1, j, s, x, Chain(W(0x67452301), W(0xefcdab89), W(0x98badcfe), W(0x10325476))) == true
    ensures Reached(1, j + 4, s, x, Chain(W(0x000003f8), W(0x740f9e7d), W(0x0446b910), W(0x769a0254))) == true
  {
    assert Look(0);
    var a, d, c, b := W(0x67452301), W(0x10325476), W(0x98badcfe), W(0xefcdab89);
    var a', d', c', b' := W(0x000003f8), W(0x769a0254), W(0x0446b910), W(0x740f9e7d);
    Step1(j, s, x, a, b, c, d, W(0x80), 3, a');
    Step1(j + 1, s, x, d, a', b, c, W(0x0), 7, d');
    Step1(j + 2, s, x, c, d', a', b, W(0x0), 11, c');
    Step1(j + 3, s, x, b, c', d', a', W(0x0), 19, b');
  }

  lemma {:induction false} Empty1B(x: seq<W>, s: Chain, j: nat)
    requires IsEmpty(x) && j == 4 && Reached(1, j, s, x, Chain(W(0x000003f8), W(0x740f9e7d), W(0x0446b910), W(0x769a0254))) == true
    ensures Reached(1, j + 4, s, x, Chain(W(0x34b4e040), W(0xf5ef256b), W(0x6c2bc1c2), W(0x704dd255))) == true
  {
    assert Look(0);
    var a, d, c, b := W(0x000003f8), W(0x769a0254), W(0x0446b910), W(0x740f9e7d);
    var a', d', c', b' := W(0x34b4e040), W(0x704dd255), W(0x6c2bc1c2), W(0xf5ef256b);
    Step1(j, s, x, a, b, c, d, W(0x0), 3, a');
    Step1(j + 1, s, x, d, a', b, c, W(0x0), 7, d');
    Step1(j + 2, s, x, c, d', a', b, W(0x0), 11, c');
    Step1(j + 3, s, x, b, c', d', a', W(0x0), 19, b');
  }

  lemma {:induction false} Empty1C(x: seq<W>, s: Chain, j: nat)
    requires IsEmpty(x) && j == 8 && Reached(1, j, s, x, Chain(W(0x34b4e040), W(0xf5ef256b), W(0x6c2bc1c2), W(0x704dd255))) == true
    ensures Reached(1, j + 4, s, x, Chain(W(0xc7059cb4), W(0x18be2386), W(0x8bf5399c), W(0xbe8bdbae))) == true
  {
    assert Look(0);
    var a, d, c, b := W(0x34b4e040), W(0x704dd255), W(0x6c2bc1c2), W(0xf5ef256b);
    var a', d', c', b' := W(0xc7059cb4), W(0xbe8bdbae), W(0x8bf5399c), W(0x18be2386);
    Step1(j, s, x, a, b, c, d, W(0x0), 3, a');
    Step1(j + 1, s, x, d, a', b, c, W(0x0), 7, d');
    Step1(j + 2, s, x, c, d', a', b, W(0x0), 11, c');
    Step1(j + 3, s, x, b, c', d', a', W(0x0), 19, b');
  }

  lemma {:induction false} Empty1D(x: seq<W>, s: Chain, j: nat)
    requires IsEmpty(x) && j == 12 && Reached(1, j, s, x, Chain(W(0xc7059cb4), W(0x18be2386), W(0x8bf5399c), W(0xbe8bdbae))) == true
    ensures Reached(1, j + 4, s, x, Chain(W(0xaddcb303), W(0x3665f296), W(0x8ee8f245), W(0xa483a664))) == true
  {
    assert Look(0);
    var a, d, c, b := W(0xc7059cb4), W(0xbe8bdbae), W(0x8bf5399c), W(0x18be2386);
    var a', d', c', b' := W(0xaddcb303), W(0xa483a664), W(0x8ee8f245), W(0x3665f296);
    Step1(j, s, x, a, b, c, d, W(0x0), 3, a');
    Step1(j + 1, s, x, d, a', b, c, W(0x0), 7, d');
    Step1(j + 2, s, x, c, d', a', b, W(0x0), 11, c');
    Step1(j + 3, s, x, b, c', d', a', W(0x0), 19, b');
  }

  lemma {:induction false} EmptyHalf1(x: seq<W>, s: Chain, j0: nat, j4: nat)
    requires IsEmpty(x) && s == Chain(W(0x67452301), W(0xefcdab89), W(0x98badcfe), W(0x10325476)) && j0 == 0 && j4 == 4
    ensures Reached(1, j4 + 4, s, x, Chain(W(0x34b4e040), W(0xf5ef256b), W(0x6c2bc1c2), W(0x704dd255))) == true
  {
    Started(1, s, x, j0);
    Empty1A(x, s, j0);
    Empty1B(x, s, j4);
  }

  lemma {:induction false} EmptyRound1(x: seq<W>, s: Chain)
    requires IsEmpty(x) && s == Chain(W(0x67452301), W(0xefcdab89), W(0x98badcfe), W(0x10325476))
    ensures Reached(1, |x|, s, x, Chain(W(0xaddcb303), W(0x3665f296), W(0x8ee8f245), W(0xa483a664))) == true
  {
    var j8, j12: nat := 8, 12;
    EmptyHalf1(x, s, 0, 4);
    Empty1C(x, s, j8);
    Empty1D(x, s, j12);
  }

  lemma {:induction false} Empty2A(x: seq<W>, s: Chain, j: nat)
    requires IsEmpty(x) && j == 0 && Reached(2, j, s, x, Chain(W(0xaddcb303), W(0x3665f296), W(0x8ee8f245), W(0xa483a664))) == true
    ensures Reached(2, j + 4, s, x, Chain(W(0x7a08fb05), W(0x66cec932), W(0x98bbca4f), W(0xade24047))) == true
  {
    assert Look(0);
    var a, d, c, b := W(0xaddcb303), W(0xa483a664), W(0x8ee8f245), W(0x3665f296);
    var a', d', c', b' := W(0x7a08fb05), W(0xade24047), W(0x98bbca4f), W(0x66cec932);
    Step2(j, s, x, a, b, c, d, W(0x80), 3, a');
    Step2(j + 1, s, x, d, a', b, c, W(0x0), 5, d');
    Step2(j + 2, s, x, c, d', a', b, W(0x0), 9, c');
    Step2(j + 3, s, x, b, c', d', a', W(0x0), 13, b');
  }

  lemma {:induction false} Empty2B(x: seq<W>, s: Chain, j: nat)
    requires IsEmpty(x) && j == 4 && Reached(2, j, s, x, Chain(W(0x7a08fb05), W(0x66cec932), W(0x98bbca4f), W(0xade24047))) == true
    ensures Reached(2, j + 4, s, x, Chain(W(0x0bb1e72c), W(0x3d0db9ec), W(0x9e4a14b3), W(0x6410a1c2))) == true
  {
    assert Look(0);
    var a, d, c, b := W(0x7a08fb05), W(0xade24047), W(0x98bbca4f), W(0x66cec932);
    var a', d', c', b' := W(0x0bb1e72c), W(0x6410a1c2), W(0x9e4a14b3), W(0x3d0db9ec);
    Step2(j, s, x, a, b, c, d, W(0x0), 3, a');
    Step2(j + 1, s, x, d, a', b, c, W(0x0), 5, d');
    Step2(j + 2, s, x, c, d', a', b, W(0x0), 9, c');
    Step2(j + 3, s, x, b, c', d', a', W(0x0), 13, b');
  }

  lemma {:induction false} Empty2C(x: seq<W>, s: Chain, j: nat)
    requires IsEmpty(x) && j == 8 && Reached(2, j, s, x, Chain(W(0x0bb1e72c), W(0x3d0db9ec), W(0x9e4a14b3), W(0x6410a1c2))) == true
    ensures Reached(2, j + 4, s, x, Chain(W(0x11e8953d), W(0xc8d84161), W(0x727f1264), W(0x7b76231b))) == true
  {
    assert Look(0);
    var a, d, c, b := W(0x0bb1e72c), W(0x6410a1c2), W(0x9e4a14b3), W(0x3d0db9ec);
    var a', d', c', b' := W(0x11e8953d), W(0x7b76231b), W(0x727f1264), W(0xc8d84161);
    Step2(j, s, x, a, b, c, d, W(0x0), 3, a');
    Step2(j + 1, s, x, d, a', b, c, W(0x0), 5, d');
    Step2(j + 2, s, x, c, d', a', b, W(0x0), 9, c');
    Step2(j + 3, s, x, b, c', d', a', W(0x0), 13, b');
  }

  lemma {:induction false} Empty2D(x: seq<W>, s: Chain, j: nat)
    requires IsEmpty(x) && j == 12 && Reached(2, j, s, x, Chain(W(0x11e8953d), W(0xc8d84161), W(0x727f1264), W(0x7b76231b))) == true
    ensures Reached(2, j + 4, s, x, Chain(W(0x374891bf), W(0x6f952b2e), W(0xb49a4dae), W(0x0a15c329))) == true
  {
    assert Look(0);
    var a, d, c, b := W(0x11e8953d), W(0x7b76231b), W(0x727f1264), W(0xc8d84161);
    var a', d', c', b' := W(0x374891bf), W(0x0a15c329), W(0xb49a4dae), W(0x6f952b2e);
    Step2(j, s, x, a, b, c, d, W(0x0), 3, a');
    Step2(j + 1, s, x, d, a', b, c, W(0x0), 5, d');
    Step2(j + 2, s, x, c, d', a', b, W(0x0), 9, c');
    Step2(j + 3, s, x, b, c', d', a', W(0x0), 13, b');
  }

  lemma {:induction false} EmptyHalf2(x: seq<W>, s: Chain, j0: nat, j4: nat)
    requires IsEmpty(x) && s == Chain(W(0xaddcb303), W(0x3665f296), W(0x8ee8f245), W(0xa483a664)) && j0 == 0 && j4 == 4
    ensures Reached(2, j4 + 4, s, x, Chain(W(0x0bb1e72c), W(0x3d0db9ec), W(0x9e4a14b3), W(0x6410a1c2))) == true
  {
    Started(2, s, x, j0);
    Empty2A(x, s, j0);
    Empty2B(x, s, j4);
  }

  lemma {:induction false} EmptyRound2(x: seq<W>, s: Chain)
    requires IsEmpty(x) && s == Chain(W(0xaddcb303), W(0x3665f296), W(0x8ee8f245), W(0xa483a664))
    ensures Reached(2, |x|, s, x, Chain(W(0x374891bf), W(0x6f952b2e), W(0xb49a4dae), W(0x0a15c329))) == true
  {
    var j8, j12: nat := 8, 12;
    EmptyHalf2(x, s, 0, 4);
    Empty2C(x, s, j8);
    Empty2D(x, s, j12);
  }

  lemma {:induction false} Empty3A(x: seq<W>, s: Chain, j: nat)
    requires IsEmpty(x) && j == 0 && Reached(3, j, s, x, Chain(W(0x374891bf), W(0x6f952b2e), W(0xb49a4dae), W(0x0a15c329))) == true
    ensures Reached(3, j + 4, s, x, Chain(W(0xb9e91c4b), W(0x28f076bd), W(0x1ab10ced), W(0xac532bb7))) == true
  {
    assert Look(0);
    var a, d, c, b := W(0x374891bf), W(0x0a15c329), W(0xb49a4dae), W(0x6f952b2e);
    var a', d', c', b' := W(0xb9e91c4b), W(0xac532bb7), W(0x1ab10ced), W(0x28f076bd);
    Step3(j, s, x, a, b, c, d, W(0x80), 3, a');
    Step3(j + 1, s, x, d, a', b, c, W(0x0), 9, d');
    Step3(j + 2, s, x, c, d', a', b, W(0x0), 11, c');
    Step3(j + 3, s, x, b, c', d', a', W(0x0), 15, b');
  }

  lemma {:induction false} Empty3B(x: seq<W>, s: Chain, j: nat)
    requires IsEmpty(x) && j == 4 && Reached(3, j, s, x, Chain(W(0xb9e91c4b), W(0x28f076bd), W(0x1ab10ced), W(0xac532bb7))) == true
    ensures Reached(3, j + 4, s, x, Chain(W(0x36aace9e), W(0xb8b9000f), W(0x6f678dca), W(0x31984c40))) == true
  {
    assert Look(0);
    var a, d, c, b := W(0xb9e91c4b), W(0xac532bb7), W(0x1ab10ced), W(0x28f076bd);
    var a', d', c', b' := W(0x36aace9e), W(0x31984c40), W(0x6f678dca), W(0xb8b9000f);
    Step3(j, s, x, a, b, c, d, W(0x0), 3, a');
    Step3(j + 1, s, x, d, a', b, c, W(0x0), 9, d');
    Step3(j + 2, s, x, c, d', a', b, W(0x0), 11, c');
    Step3(j + 3, s, x, b, c', d', a', W(0x0), 15, b');
  }

  lemma {:induction false} Empty3C(x: seq<W>, s: Chain, j: nat)
    requires IsEmpty(x) && j == 8 && Reached(3, j, s, x, Chain(W(0x36aace9e), W(0xb8b9000f), W(0x6f678dca), W(0x31984c40))) == true
    ensures Reached(3, j + 4, s, x, Chain(W(0x5e5bde24), W(0x187317b3), W(0xb69f1f41), W(0xef178453))) == true
  {
    assert Look(0);
    var a, d, c, b := W(0x36aace9e), W(0x31984c40), W(0x6f678dca), W(0xb8b9000f);
    var a', d', c', b' := W(0x5e5bde24), W(0xef178453), W(0xb69f1f41), W(0x187317b3);
    Step3(j, s, x, a, b, c, d, W(0x0), 3, a');
    Step3(j + 1, s, x, d, a', b, c, W(0x0), 9, d');
    Step3(j + 2, s, x, c, d', a', b, W(0x0), 11, c');
    Step3(j + 3, s, x, b, c', d', a', W(0x0), 15, b');
  }

  lemma {:induction false} Empty3D(x: seq<W>, s: Chain, j: nat)
    requires IsEmpty(x) && j == 12 && Reached(3, j, s, x, Chain(W(0x5e5bde24), W(0x187317b3), W(0xb69f1f41), W(0xef178453))) == true
    ensures Reached(3, j + 4, s, x, Chain(W(0x798ab330), W(0x421bbf48), W(0x3e9e5fb9), W(0xb0576c6a))) == true
  {
    assert Look(0);
    var a, d, c, b := W(0x5e5bde24), W(0xef178453), W(0xb69f1f41), W(0x187317b3);
    var a', d', c', b' := W(0x798ab330), W(0xb0576c6a), W(0x3e9e5fb9), W(0x421bbf48);
    Step3(j, s, x, a, b, c, d, W(0x0), 3, a');
    Step3(j + 1, s, x, d, a', b, c, W(0x0), 9, d');
    Step3(j + 2, s, x, c, d', a', b, W(0x0), 11, c');
    Step3(j + 3, s, x, b, c', d', a', W(0x0), 15, b');
  }

  lemma {:induction false} EmptyHalf3(x: seq<W>, s: Chain, j0: nat, j4: nat)
    requires IsEmpty(x) && s == Chain(W(0x374891bf), W(0x6f952b2e), W(0xb49a4dae), W(0x0a15c329)) && j0 == 0 && j4 == 4
    ensures Reached(3, j4 + 4, s, x, Chain(W(0x36aace9e), W(0xb8b9000f), W(0x6f678dca), W(0x31984c40))) == true
  {
    Started(3, s, x, j0);
    Empty3A(x, s, j0);
    Empty3B(x, s, j4);
  }

  lemma {:induction false} EmptyRound3(x: seq<W>, s: Chain)
    requires IsEmpty(x) && s == Chain(W(0x374891bf), W(0x6f952b2e), W(0xb49a4dae), W(0x0a15c329))
    ensures Reached(3, |x|, s, x, Chain(W(0x798ab330), W(0x421bbf48), W(0x3e9e5fb9), W(0xb0576c6a))) == true
  {
    var j8, j12: nat := 8, 12;
    EmptyHalf3(x, s, 0, 4);
    Empty3C(x, s, j8);
    Empty3D(x, s, j12);
  }

  lemma {:induction false} EmptyChain(x: seq<W>)
    requires IsEmpty(x)
    ensures Compress(INITIAL, x) == Chain(W(0xe0cfd631), W(0x31e96ad1), W(0xd7593cb7), W(0xc089c0e0))
  {
    EmptyRound1(x, INITIAL);
    EmptyRound2(x, Chain(W(0xaddcb303), W(0x3665f296), W(0x8ee8f245), W(0xa483a664)));
    EmptyRound3(x, Chain(W(0x374891bf), W(0x6f952b2e), W(0xb49a4dae), W(0x0a15c329)));
    assert Look(0);
  }

  // ----- the padded message "abc" ------------------------------------------------------------------------------

  // The sixteen words of the padded message "abc".
  ghost predicate IsAbc(x: seq<W>) {
    |x| == 16 && forall k {:trigger Look(k)} :: Look(k) ==>
      x[0] == W(0x80636261) && x[1] == W(0x0) && x[2] == W(0x0) && x[3] == W(0x0)
      && x[4] == W(0x0) && x[5] == W(0x0) && x[6] == W(0x0) && x[7] == W(0x0)
      && x[8] == W(0x0) && x[9] == W(0x0) && x[10] == W(0x0) && x[11] == W(0x0)
      && x[12] == W(0x0) && x[13] == W(0x0) && x[14] == W(0x18) && x[15] == W(0x0)
  }

  lemma {:induction false} Abc1A(x: seq<W>, s: Chain, j: nat)
    requires IsAbc(x) && j == 0 && Reached(1, j, s, x, Chain(W(0x67452301), W(0xefcdab89), W(0x98badcfe), W(0x10325476))) == true
    ensures Reached(1, j + 4, s, x, Chain(W(0x031b1304), W(0xf66d8f45), W(0xd38454e4), W(0xee123855))) == true
  {
    assert Look(0);
    var a, d, c, b := W(0x67452301), W(0x10325476), W(0x98badcfe), W(0xefcdab89);
    var a', d', c', b' := W(0x031b1304), W(0xee123855), W(0xd38454e4), W(0xf66d8f45);
    Step1(j, s, x, a, b, c, d, W(0x80636261), 3, a');
    Step1(j + 1, s, x, d, a', b, c, W(0x0), 7, d');
    Step1(j + 2, s, x, c, d', a', b, W(0x0), 11, c');
    Step1(j + 3, s, x, b, c', d', a', W(0x0), 19, b');
  }

  lemma {:induction false} Abc1B(x: seq<W>, s: Chain, j: nat)
    requires IsAbc(x) && j == 4 && Reached(1, j, s, x, Chain(W(0x031b1304), W(0xf66d8f45), W(0xd38454e4), W(0xee123855))) == true
    ensures Reached(1, j + 4, s, x, Chain(W(0xe98a3ac6), W(0x613b2bc8), W(0x97854e65), W(0x0f435cf0))) == true
  {
    assert Look(0);
    var a, d, c, b := W(0x031b1304), W(0xee123855), W(0xd38454e4), W(0xf66d8f45);
    var a', d', c', b' := W(0xe98a3ac6), W(0x0f435cf0), W(0x97854e65), W(0x613b2bc8);
    Step1(j, s, x, a, b, c, d, W(0x0), 3, a');
    Step1(j + 1, s, x, d, a', b, c, W(0x0), 7, d');
    Step1(j + 2, s, x, c, d', a', b, W(0x0), 11, c');
    Step1(j + 3, s, x, b, c', d', a', W(0x0), 19, b');
  }

  lemma {:induction false} Abc1C(x: seq<W>, s: Chain, j: nat)
    requires IsAbc(x) && j == 8 && Reached(1, j, s, x, Chain(W(0xe98a3ac6), W(0x613b2bc8), W(0x97854e65), W(0x0f435cf0))) == true
    ensures Reached(1, j + 4, s, x, Chain(W(0xc65cc9b7), W(0xa7d13acb), W(0x15d2eef5), W(0x6e365830))) == true
  {
    assert Look(0);
    var a, d, c, b := W(0xe98a3ac6), W(0x0f435cf0), W(0x97854e65), W(0x613b2bc8);
    var a', d', c', b' := W(0xc65cc9b7), W(0x6e365830), W(0x15d2eef5), W(0xa7d13acb);
    Step1(j, s, x, a, b, c, d, W(0x0), 3, a');
    Step1(j + 1, s, x, d, a', b, c, W(0x0), 7, d');
    Step1(j + 2, s, x, c, d', a', b, W(0x0), 11, c');
    Step1(j + 3, s, x, b, c', d', a', W(0x0), 19, b');
  }

  lemma {:induction false} Abc1D(x: seq<W>, s: Chain, j: nat)
    requires IsAbc(x) && j == 12 && Reached(1, j, s, x, Chain(W(0xc65cc9b7), W(0xa7d13acb), W(0x15d2eef5), W(0x6e365830))) == true
    ensures Reached(1, j + 4, s, x, Chain(W(0xa299a540), W(0xda717395), W(0x24baadcb), W(0x04e19293))) == true
  {
    assert Look(0);
    var a, d, c, b := W(0xc65cc9b7), W(0x6e365830), W(0x15d2eef5), W(0xa7d13acb);
    var a', d', c', b' := W(0xa299a540), W(0x04e19293), W(0x24baadcb), W(0xda717395);
    Step1(j, s, x, a, b, c, d, W(0x0), 3, a');
    Step1(j + 1, s, x, d, a', b, c, W(0x0), 7, d');
    Step1(j + 2, s, x, c, d', a', b, W(0x18), 11, c');
    Step1(j + 3, s, x, b, c', d', a', W(0x0), 19, b');
  }

  lemma {:induction false} AbcHalf1(x: seq<W>, s: Chain, j0: nat, j4: nat)
    requires IsAbc(x) && s == Chain(W(0x67452301), W(0xefcdab89), W(0x98badcfe), W(0x10325476)) && j0 == 0 && j4 == 4
    ensures Reached(1, j4 + 4, s, x, Chain(W(0xe98a3ac6), W(0x613b2bc8), W(0x97854e65), W(0x0f435cf0))) == true
  {
    Started(1, s, x, j0);
    Abc1A(x, s, j0);
    Abc1B(x, s, j4);
  }

  lemma {:induction false} AbcRound1(x: seq<W>, s: Chain)
    requires IsAbc(x) && s == Chain(W(0x67452301), W(0xefcdab89), W(0x98badcfe), W(0x10325476))
    ensures Reached(1, |x|, s, x, Chain(W(0xa299a540), W(0xda717395), W(0x24baadcb), W(0x04e19293))) == true
  {
    var j8, j12: nat := 8, 12;
    AbcHalf1(x, s, 0, 4);
    Abc1C(x, s, j8);
    Abc1D(x, s, j12);
  }

  lemma {:induction false} Abc2A(x: seq<W>, s: Chain, j: nat)
    requires IsAbc(x) && j == 0 && Reached(2, j, s, x, Chain(W(0xa299a540), W(0xda717395), W(0x24baadcb), W(0x04e19293))) == true
    ensures Reached(2, j + 4, s, x, Chain(W(0x1389a66c), W(0x228b5116), W(0xdd3d21a5), W(0x43b67f2e))) == true
  {
    assert Look(0);
    var a, d, c, b := W(0xa299a540), W(0x04e19293), W(0x24baadcb), W(0xda717395);
    var a', d', c', b' := W(0x1389a66c), W(0x43b67f2e), W(0xdd3d21a5), W(0x228b5116);
    Step2(j, s, x, a, b, c, d, W(0x80636261), 3, a');
    Step2(j + 1, s, x, d, a', b, c, W(0x0), 5, d');
    Step2(j + 2, s, x, c, d', a', b, W(0x0), 9, c');
    Step2(j + 3, s, x, b, c', d', a', W(0x0), 13, b');
  }

  lemma {:induction false} Abc2B(x: seq<W>, s: Chain, j: nat)
    requires IsAbc(x) && j == 4 && Reached(2, j, s, x, Chain(W(0x1389a66c), W(0x228b5116), W(0xdd3d21a5), W(0x43b67f2e))) == true
    ensures Reached(2, j + 4, s, x, Chain(W(0x8e5c895d), W(0x4ec68171), W(0xbd68a784), W(0x8abf3b85))) == true
  {
    assert Look(0);
    var a, d, c, b := W(0x1389a66c), W(0x43b67f2e), W(0xdd3d21a5), W(0x228b5116);
    var a', d', c', b' := W(0x8e5c895d), W(0x8abf3b85), W(0xbd68a784), W(0x4ec68171);
    Step2(j, s, x, a, b, c, d, W(0x0), 3, a');
    Step2(j + 1, s, x, d, a', b, c, W(0x0), 5, d');
    Step2(j + 2, s, x, c, d', a', b, W(0x0), 9, c');
    Step2(j + 3, s, x, b, c', d', a', W(0x0), 13, b');
  }

  lemma {:induction false} Abc2C(x: seq<W>, s: Chain, j: nat)
    requires IsAbc(x) && j == 8 && Reached(2, j, s, x, Chain(W(0x8e5c895d), W(0x4ec68171), W(0xbd68a784), W(0x8abf3b85))) == true
    ensures Reached(2, j + 4, s, x, Chain(W(0xbe6d33db), W(0x0323e3b7), W(0x74661d2d), W(0x75cb1df4))) == true
  {
    assert Look(0);
    var a, d, c, b := W(0x8e5c895d), W(0x8abf3b85), W(0xbd68a784), W(0x4ec68171);
    var a', d', c', b' := W(0xbe6d33db), W(0x75cb1df4), W(0x74661d2d), W(0x0323e3b7);
    Step2(j, s, x, a, b, c, d, W(0x0), 3, a');
    Step2(j + 1, s, x, d, a', b, c, W(0x0), 5, d');
    Step2(j + 2, s, x, c, d', a', b, W(0x0), 9, c');
    Step2(j + 3, s, x, b, c', d', a', W(0x18), 13, b');
  }

  lemma {:induction false} Abc2D(x: seq<W>, s: Chain, j: nat)
    requires IsAbc(x) && j == 12 && Reached(2, j, s, x, Chain(W(0xbe6d33db), W(0x0323e3b7), W(0x74661d2d), W(0x75cb1df4))) == true
    ensures Reached(2, j + 4, s, x, Chain(W(0x7296594c), W(0x8e531b8f), W(0x3dd42422), W(0x4e7e1748))) == true
  {
    assert Look(0);
    var a, d, c, b := W(0xbe6d33db), W(0x75cb1df4), W(0x74661d2d), W(0x0323e3b7);
    var a', d', c', b' := W(0x7296594c), W(0x4e7e1748), W(0x3dd42422), W(0x8e531b8f);
    Step2(j, s, x, a, b, c, d, W(0x0), 3, a');
    Step2(j + 1, s, x, d, a', b, c, W(0x0), 5, d');
    Step2(j + 2, s, x, c, d', a', b, W(0x0), 9, c');
    Step2(j + 3, s, x, b, c', d', a', W(0x0), 13, b');
  }

  lemma {:induction false} AbcHalf2(x: seq<W>, s: Chain, j0: nat, j4: nat)
    requires IsAbc(x) && s == Chain(W(0xa299a540), W(0xda717395), W(0x24baadcb), W(0x04e19293)) && j0 == 0 && j4 == 4
    ensures Reached(2, j4 + 4, s, x, Chain(W(0x8e5c895d), W(0x4ec68171), W(0xbd68a784), W(0x8abf3b85))) == true
  {
    Started(2, s, x, j0);
    Abc2A(x, s, j0);
    Abc2B(x, s, j4);
  }

  lemma {:induction false} AbcRound2(x: seq<W>, s: Chain)
    requires IsAbc(x) && s == Chain(W(0xa299a540), W(0xda717395), W(0x24baadcb), W(0x04e19293))
    ensures Reached(2, |x|, s, x, Chain(W(0x7296594c), W(0x8e531b8f), W(0x3dd42422), W(0x4e7e1748))) == true
  {
    var j8, j12: nat := 8, 12;
    AbcHalf2(x, s, 0, 4);
    Abc2C(x, s, j8);
    Abc2D(x, s, j12);
  }

  lemma {:induction false} Abc3A(x: seq<W>, s: Chain, j: nat)
    requires IsAbc(x) && j == 0 && Reached(3, j, s, x, Chain(W(0x7296594c), W(0x8e531b8f), W(0x3dd42422), W(0x4e7e1748))) == true
    ensures Reached(3, j + 4, s, x, Chain(W(0xfe66819a), W(0xfd9fcfeb), W(0x2f4e3583), W(0x73824016))) == true
  {
    assert Look(0);
    var a, d, c, b := W(0x7296594c), W(0x4e7e1748), W(0x3dd42422), W(0x8e531b8f);
    var a', d', c', b' := W(0xfe66819a), W(0x73824016), W(0x2f4e3583), W(0xfd9fcfeb);
    Step3(j, s, x, a, b, c, d, W(0x80636261), 3, a');
    Step3(j + 1, s, x, d, a', b, c, W(0x0), 9, d');
    Step3(j + 2, s, x, c, d', a', b, W(0x0), 11, c');
    Step3(j + 3, s, x, b, c', d', a', W(0x0), 15, b');
  }

  lemma {:induction false} Abc3B(x: seq<W>, s: Chain, j: nat)
    requires IsAbc(x) && j == 4 && Reached(3, j, s, x, Chain(W(0xfe66819a), W(0xfd9fcfeb), W(0x2f4e3583), W(0x73824016))) == true
    ensures Reached(3, j + 4, s, x, Chain(W(0x74a13dc8), W(0x71a2ad97), W(0x03f2b578), W(0x99e6af11))) == true
  {
    assert Look(0);
    var a, d, c, b := W(0xfe66819a), W(0x73824016), W(0x2f4e3583), W(0xfd9fcfeb);
    var a', d', c', b' := W(0x74a13dc8), W(0x99e6af11), W(0x03f2b578), W(0x71a2ad97);
    Step3(j, s, x, a, b, c, d, W(0x0), 3, a');
    Step3(j + 1, s, x, d, a', b, c, W(0x0), 9, d');
    Step3(j + 2, s, x, c, d', a', b, W(0x0), 11, c');
    Step3(j + 3, s, x, b, c', d', a', W(0x18), 15, b');
  }

  lemma {:induction false} Abc3C(x: seq<W>, s: Chain, j: nat)
    requires IsAbc(x) && j == 8 && Reached(3, j, s, x, Chain(W(0x74a13dc8), W(0x71a2ad97), W(0x03f2b578), W(0x99e6af11))) == true
    ensures Reached(3, j + 4, s, x, Chain(W(0x798f0b3e), W(0xacbf46ad), W(0xea0ccd51), W(0x3f5d0629))) == true
  {
    assert Look(0);
    var a, d, c, b := W(0x74a13dc8), W(0x99e6af11), W(0x03f2b578), W(0x71a2ad97);
    var a', d', c', b' := W(0x798f0b3e), W(0x3f5d0629), W(0xea0ccd51), W(0xacbf46ad);
    Step3(j, s, x, a, b, c, d, W(0x0), 3, a');
    Step3(j + 1, s, x, d, a', b, c, W(0x0), 9, d');
    Step3(j + 2, s, x, c, d', a', b, W(0x0), 11, c');
    Step3(j + 3, s, x, b, c', d', a', W(0x0), 15, b');
  }

  lemma {:induction false} Abc3D(x: seq<W>, s: Chain, j: nat)
    requires IsAbc(x) && j == 12 && Reached(3, j, s, x, Chain(W(0x798f0b3e), W(0xacbf46ad), W(0xea0ccd51), W(0x3f5d0629))) == true
    ensures Reached(3, j + 4, s, x, Chain(W(0x12bc25a3), W(0x630a7626), W(0x4f4fe461), W(0x8d405204))) == true
  {
    assert Look(0);
    var a, d, c, b := W(0x798f0b3e), W(0x3f5d0629), W(0xea0ccd51), W(0xacbf46ad);
    var a', d', c', b' := W(0x12bc25a3), W(0x8d405204), W(0x4f4fe461), W(0x630a7626);
    Step3(j, s, x, a, b, c, d, W(0x0), 3, a');
    Step3(j + 1, s, x, d, a', b, c, W(0x0), 9, d');
    Step3(j + 2, s, x, c, d', a', b, W(0x0), 11, c');
    Step3(j + 3, s, x, b, c', d', a', W(0x0), 15, b');
  }

  lemma {:induction false} AbcHalf3(x: seq<W>, s: Chain, j0: nat, j4: nat)
    requires IsAbc(x) && s == Chain(W(0x7296594c), W(0x8e531b8f), W(0x3dd42422), W(0x4e7e1748)) && j0 == 0 && j4 == 4
    ensures Reached(3, j4 + 4, s, x, Chain(W(0x74a13dc8), W(0x71a2ad97), W(0x03f2b578), W(0x99e6af11))) == true
  {
    Started(3, s, x, j0);
    Abc3A(x, s, j0);
    Abc3B(x, s, j4);
  }

  lemma {:induction false} AbcRound3(x: seq<W>, s: Chain)
    requires IsAbc(x) && s == Chain(W(0x7296594c), W(0x8e531b8f), W(0x3dd42422), W(0x4e7e1748))
    ensures Reached(3, |x|, s, x, Chain(W(0x12bc25a3), W(0x630a7626), W(0x4f4fe461), W(0x8d405204))) == true
  {
    var j8, j12: nat := 8, 12;
    AbcHalf3(x, s, 0, 4);
    Abc3C(x, s, j8);
    Abc3D(x, s, j12);
  }

  lemma {:induction false} AbcChain(x: seq<W>)
    requires IsAbc(x)
    ensures Compress(INITIAL, x) == Chain(W(0x7a0148a4), W(0x52d821af), W(0xe80ac15f), W(0x9d72a67a))
  {
    AbcRound1(x, INITIAL);
    AbcRound2(x, Chain(W(0xa299a540), W(0xda717395), W(0x24baadcb), W(0x04e19293)));
    AbcRound3(x, Chain(W(0x7296594c), W(0x8e531b8f), W(0x3dd42422), W(0x4e7e1748)));
    assert Look(0);
  }

  // ----- the digests -----------------------------------------------------------------------------------

  lemma {:induction false} SmallBytes(n: nat)
    requires n < 256
    ensures LittleEndianBytes(n, WORD_BYTES) == [n as char, '\0', '\0', '\0']
  {
    assert n % 256 == n && n / 0x100 == 0 && n / 0x1_0000 == 0 && n / 0x100_0000 == 0;
    FourBytes(n);
  }

  lemma {:induction false} SmallLength(n: nat, zero: nat)
    requires n < 256 && zero == 0
    ensures LittleEndianBytes(n, LENGTH_BYTES) == [n as char] + Zeros(7)
  {
    assert Wrap(n) == n && n / WORD_MOD == zero;
    EightBytesSplit(n);
    SmallBytes(n);
    SmallBytes(zero);
  }

  // A message of up to three bytes is padded to one block.
  lemma {:induction false} ShortBlock(m: seq<Byte>, p: seq<Byte>)
    requires |m| <= 3 && p == RfcPadded(m)
    ensures |p| == 64 && p[..|m|] == m && p[|m|] == '\U{80}' && p[56] == (8 * |m|) as char
    ensures forall k :: |m| < k < 64 && k != 56 ==> p[k] == '\0'
  {
    SmallLength(8 * |m|, 0);
    assert p == m + ['\U{80}'] + Zeros(55 - |m|) + ([(8 * |m|) as char] + Zeros(7));
  }

  lemma {:induction false} WordAt(p: seq<Byte>, i: nat)
    requires i < 16 && |p| == 64
    ensures LittleEndianWord(p[4 * i..4 * i + 4]) < 0x1_0000_0000
    ensures Words(p)[i] == W(LittleEndianWord(p[4 * i..4 * i + 4]) as bv32)
  {
  }

  lemma {:induction false} ZeroWord(p: seq<Byte>, i: nat)
    requires i < 16 && |p| == 64 && p[4 * i] == p[4 * i + 1] == p[4 * i + 2] == p[4 * i + 3] == '\0'
    ensures Words(p)[i] == W(0)
  {
    WordAt(p, i);
  }

  lemma {:induction false} EmptyWords(p: seq<Byte>)
    requires p == RfcPadded([])
    ensures |p| == 64 && IsEmpty(Words(p))
  {
    ShortBlock([], p);
    EmptyFirstWord(p);
    forall i | 1 <= i < 16
      ensures Words(p)[i] == W(0)
    {
      ZeroWord(p, i);
    }
  }

  lemma {:induction false} EmptyFirstWord(p: seq<Byte>)
    requires |p| == 64 && p[0] == '\U{80}' && p[1] == p[2] == p[3] == '\0'
    ensures Words(p)[0] == W(0x80)
  {
    WordIs(p, 0, 0x80);
  }

  lemma {:induction false} WordIs(p: seq<Byte>, i: nat, b: bv32)
    requires i < 16 && |p| == 64 && b as int == LittleEndianWord(p[4 * i..4 * i + 4])
    ensures Words(p)[i] == W(b)
  {
    WordAt(p, i);
    assert (b as int) as bv32 == b;
  }

  lemma AbcNumber(q: seq<Byte>, b: bv32)
    requires q == ['a', 'b', 'c', '\U{80}'] && b == 0x80636261
    ensures LittleEndianWord(q) == b as int
  {
  }

  lemma {:induction false} AbcFirstWord(p: seq<Byte>, b: bv32)
    requires |p| == 64 && p[0] == 'a' && p[1] == 'b' && p[2] == 'c' && p[3] == '\U{80}' && b == 0x80636261
    ensures Words(p)[0] == W(b)
  {
    AbcNumber(p[0..4], b);
    WordIs(p, 0, b);
  }

  lemma {:induction false} AbcLength(p: seq<Byte>)
    requires |p| == 64 && p[56] == 24 as char && p[57] == p[58] == p[59] == '\0'
    ensures Words(p)[14] == W(0x18)
  {
    WordIs(p, 14, 0x18);
  }

  lemma {:induction false} AbcWords(p: seq<Byte>)
    requires p == RfcPadded("abc")
    ensures |p| == 64 && IsAbc(Words(p))
  {
    ShortBlock("abc", p);
    assert p[0] == p[..3][0] && p[1] == p[..3][1] && p[2] == p[..3][2];
    AbcFirstWord(p, 0x80636261);
    AbcLength(p);
    forall i | 1 <= i < 16 && i != 14
      ensures Words(p)[i] == W(0)
    {
      ZeroWord(p, i);
    }
  }

  lemma {:induction false} ChainOfBlock(m: seq<Byte>, p: seq<Byte>)
    requires p == RfcPadded(m) && |p| == 64
    ensures RfcChain(Md4, m) == Compress(INITIAL, Words(p))
  {
    OneBlock(Md4, INITIAL, p);
  }

  lemma {:induction false} WordText(x: Word, a: Byte, b: Byte, c: Byte, d: Byte)
    requires a as int == x % 256 && b as int == x / 0x100 % 256 && c as int == x / 0x1_0000 % 256 && d as int == x / 0x100_0000 % 256
    ensures HexText(LittleEndianBytes(x, WORD_BYTES)) == HexByte(a) + HexByte(b) + HexByte(c) + HexByte(d)
  {
    FourBytes(x);
    var t: seq<Byte> := [a, b, c, d];
    assert t[1..] == [b, c, d] && [b, c, d][1..] == [c, d] && [c, d][1..] == [d] && [d][1..] == [];
    assert HexText([d]) == HexByte(d) + [] && HexText([c, d]) == HexByte(c) + HexText([d]);
    assert HexText([b, c, d]) == HexByte(b) + HexText([c, d]);
    assert HexText(t) == HexByte(a) + HexText([b, c, d]);
  }

  lemma {:induction false} OutputText(a: Word, b: Word, c: Word, d: Word)
    ensures HexText(OutputWords(a, b, c, d))
         == HexText(LittleEndianBytes(a, WORD_BYTES)) + HexText(LittleEndianBytes(b, WORD_BYTES))
          + HexText(LittleEndianBytes(c, WORD_BYTES)) + HexText(LittleEndianBytes(d, WORD_BYTES))
  {
    var e, f := LittleEndianBytes(a, WORD_BYTES), LittleEndianBytes(b, WORD_BYTES);
    var g, h := LittleEndianBytes(c, WORD_BYTES), LittleEndianBytes(d, WORD_BYTES);
    HexTextConcat(e + f + g, h);
    HexTextConcat(e + f, g);
    HexTextConcat(e, f);
  }

  lemma {:induction false} OutputParts(s: Chain, a: seq<Byte>, b: seq<Byte>, c: seq<Byte>, d: seq<Byte>)
    requires HexText(LittleEndianBytes(Mdfour.Value(s.a), WORD_BYTES)) == a
    requires HexText(LittleEndianBytes(Mdfour.Value(s.b), WORD_BYTES)) == b
    requires HexText(LittleEndianBytes(Mdfour.Value(s.c), WORD_BYTES)) == c
    requires HexText(LittleEndianBytes(Mdfour.Value(s.d), WORD_BYTES)) == d
    ensures HexText(Output(s)) == a + b + c + d
  {
    OutputText(Mdfour.Value(s.a), Mdfour.Value(s.b), Mdfour.Value(s.c), Mdfour.Value(s.d));
  }

  lemma {:induction false} EmptyTextA(w: W)
    requires w == W(0xe0cfd631)
    ensures HexText(LittleEndianBytes(Mdfour.Value(w), WORD_BYTES)) == "31d6cfe0"
  {
    WordText(Mdfour.Value(w), '\U{31}', '\U{D6}', '\U{CF}', '\U{E0}');
    assert HexByte('\U{31}') == "31" && HexByte('\U{D6}') == "d6"
        && HexByte('\U{CF}') == "cf" && HexByte('\U{E0}') == "e0";
  }

  lemma {:induction false} EmptyTextB(w: W)
    requires w == W(0x31e96ad1)
    ensures HexText(LittleEndianBytes(Mdfour.Value(w), WORD_BYTES)) == "d16ae931"
  {
    WordText(Mdfour.Value(w), '\U{D1}', '\U{6A}', '\U{E9}', '\U{31}');
    assert HexByte('\U{D1}') == "d1" && HexByte('\U{6A}') == "6a"
        && HexByte('\U{E9}') == "e9" && HexByte('\U{31}') == "31";
  }

  lemma {:induction false} EmptyTextC(w: W)
    requires w == W(0xd7593cb7)
    ensures HexText(LittleEndianBytes(Mdfour.Value(w), WORD_BYTES)) == "b73c59d7"
  {
    WordText(Mdfour.Value(w), '\U{B7}', '\U{3C}', '\U{59}', '\U{D7}');
    assert HexByte('\U{B7}') == "b7" && HexByte('\U{3C}') == "3c"
        && HexByte('\U{59}') == "59" && HexByte('\U{D7}') == "d7";
  }

  lemma {:induction false} EmptyTextD(w: W)
    requires w == W(0xc089c0e0)
    ensures HexText(LittleEndianBytes(Mdfour.Value(w), WORD_BYTES)) == "e0c089c0"
  {
    WordText(Mdfour.Value(w), '\U{E0}', '\U{C0}', '\U{89}', '\U{C0}');
    assert HexByte('\U{E0}') == "e0" && HexByte('\U{C0}') == "c0"
        && HexByte('\U{89}') == "89" && HexByte('\U{C0}') == "c0";
  }

  lemma {:induction false} EmptyText(s: Chain)
    requires s == Chain(W(0xe0cfd631), W(0x31e96ad1), W(0xd7593cb7), W(0xc089c0e0))
    ensures HexText(Output(s)) == "31d6cfe0" + "d16ae931" + "b73c59d7" + "e0c089c0"
  {
    EmptyTextA(s.a);
    EmptyTextB(s.b);
    EmptyTextC(s.c);
    EmptyTextD(s.d);
    OutputParts(s, "31d6cfe0", "d16ae931", "b73c59d7", "e0c089c0");
  }

  // MD4("") = 31d6cfe0d16ae931b73c59d7e0c089c0
  lemma {:induction false} DigestOfNothing()
    ensures HexText(Output(RfcChain(Md4, []))) == "31d6cfe0" + "d16ae931" + "b73c59d7" + "e0c089c0"
  {
    var p := RfcPadded([]);
    EmptyWords(p);
    ChainOfBlock([], p);
    EmptyChain(Words(p));
    EmptyText(RfcChain(Md4, []));
  }

  lemma {:induction false} AbcTextA(w: W)
    requires w == W(0x7a0148a4)
    ensures HexText(LittleEndianBytes(Mdfour.Value(w), WORD_BYTES)) == "a448017a"
  {
    WordText(Mdfour.Value(w), '\U{A4}', '\U{48}', '\U{01}', '\U{7A}');
    assert HexByte('\U{A4}') == "a4" && HexByte('\U{48}') == "48"
        && HexByte('\U{01}') == "01" && HexByte('\U{7A}') == "7a";
  }

  lemma {:induction false} AbcTextB(w: W)
    requires w == W(0x52d821af)
    ensures HexText(LittleEndianBytes(Mdfour.Value(w), WORD_BYTES)) == "af21d852"
  {
    WordText(Mdfour.Value(w), '\U{AF}', '\U{21}', '\U{D8}', '\U{52}');
    assert HexByte('\U{AF}') == "af" && HexByte('\U{21}') == "21"
        && HexByte('\U{D8}') == "d8" && HexByte('\U{52}') == "52";
  }

  lemma {:induction false} AbcTextC(w: W)
    requires w == W(0xe80ac15f)
    ensures HexText(LittleEndianBytes(Mdfour.Value(w), WORD_BYTES)) == "5fc10ae8"
  {
    WordText(Mdfour.Value(w), '\U{5F}', '\U{C1}', '\U{0A}', '\U{E8}');
    assert HexByte('\U{5F}') == "5f" && HexByte('\U{C1}') == "c1"
        && HexByte('\U{0A}') == "0a" && HexByte('\U{E8}') == "e8";
  }

  lemma {:induction false} AbcTextD(w: W)
    requires w == W(0x9d72a67a)
    ensures HexText(LittleEndianBytes(Mdfour.Value(w), WORD_BYTES)) == "7aa6729d"
  {
    WordText(Mdfour.Value(w), '\U{7A}', '\U{A6}', '\U{72}', '\U{9D}');
    assert HexByte('\U{7A}') == "7a" && HexByte('\U{A6}') == "a6"
        && HexByte('\U{72}') == "72" && HexByte('\U{9D}') == "9d";
  }

  lemma {:induction false} AbcText(s: Chain)
    requires s == Chain(W(0x7a0148a4), W(0x52d821af), W(0xe80ac15f), W(0x9d72a67a))
    ensures HexText(Output(s)) == "a448017a" + "af21d852" + "5fc10ae8" + "7aa6729d"
  {
    AbcTextA(s.a);
    AbcTextB(s.b);
    AbcTextC(s.c);
    AbcTextD(s.d);
    OutputParts(s, "a448017a", "af21d852", "5fc10ae8", "7aa6729d");
  }

  // MD4("abc") = a448017aaf21d8525fc10ae87aa6729d
  lemma {:induction false} DigestOfAbc()
    ensures HexText(Output(RfcChain(Md4, "abc"))) == "a448017a" + "af21d852" + "5fc10ae8" + "7aa6729d"
  {
    var p := RfcPadded("abc");
    AbcWords(p);
    ChainOfBlock("abc", p);
    AbcChain(Words(p));
    AbcText(RfcChain(Md4, "abc"));
  }
}
