/**
 * The GGM tree of the SPCOT: a binary tree of blocks grown from a seed, with
 * the XOR of all left and of all right nodes of every level; and its
 * reconstruction, by the party that misses one leaf, from one of the two
 * sums per level.
 *
 * The two-key PRP is the pair of parameters `g0`, `g1`: the left and the
 * right child of a node `p` are `g0(p)` and `g1(p)`.  A level of `2^h`
 * nodes is stored in the first `2^h` slots of the tree buffer and expanded
 * in place into the next level.
 */
module Ggm {
  import opened Blocks
  import opened Arith

  type Prf = Block -> Block

  // The tree as values.

  /** The next level: node j has children `2j` (left) and `2j + 1` (right). */
  function Expand(g0: Prf, g1: Prf, p: seq<Block>): (c: seq<Block>)
    ensures |c| == 2 * |p|
  {
    seq(2 * |p|, j requires 0 <= j < 2 * |p| => if j % 2 == 0 then g0(p[j / 2]) else g1(p[j / 2]))
  }

  lemma ExpandAt(g0: Prf, g1: Prf, p: seq<Block>, j: nat)
    requires j < |p|
    ensures Expand(g0, g1, p)[2 * j] == g0(p[j]) && Expand(g0, g1, p)[2 * j + 1] == g1(p[j])
  {
    assert (2 * j) / 2 == j && (2 * j) % 2 == 0;
    assert (2 * j + 1) / 2 == j && (2 * j + 1) % 2 == 1;
  }

  /** A sequence holding the children of every node of p, in place, is p's expansion. */
  lemma ExpandPairs(g0: Prf, g1: Prf, p: seq<Block>, c: seq<Block>)
    requires |c| == 2 * |p|
    requires forall j :: 0 <= j < |p| ==> c[2 * j] == g0(p[j]) && c[2 * j + 1] == g1(p[j])
    ensures c == Expand(g0, g1, p)
  {
    forall m | 0 <= m < |c|
      ensures c[m] == Expand(g0, g1, p)[m]
    {
      var j := m / 2;
      ExpandAt(g0, g1, p, j);
      if m % 2 == 0 {
        assert m == 2 * j;
      } else {
        assert m == 2 * j + 1;
      }
    }
  }

  /** Changing one node changes exactly its two children. */
  lemma ExpandUpdate(g0: Prf, g1: Prf, p: seq<Block>, q: nat, x: Block)
    requires q < |p|
    ensures Expand(g0, g1, p[q := x]) == Expand(g0, g1, p)[2 * q := g0(x)][2 * q + 1 := g1(x)]
  {
    var c := Expand(g0, g1, p)[2 * q := g0(x)][2 * q + 1 := g1(x)];
    forall j | 0 <= j < |p|
      ensures c[2 * j] == g0(p[q := x][j]) && c[2 * j + 1] == g1(p[q := x][j])
    {
      ExpandAt(g0, g1, p, j);
    }
    ExpandPairs(g0, g1, p[q := x], c);
  }

  /** Level h of the tree grown from a seed: `2^h` nodes. */
  function Level(g0: Prf, g1: Prf, seed: Block, h: nat): (l: seq<Block>)
    ensures |l| == Pow2(h)
  {
    if h == 0 then [seed] else Expand(g0, g1, Level(g0, g1, seed, h - 1))
  }

  /** The XOR of the nodes `2j + side` for `lo <= j < hi`: the left (0) or right (1) nodes of a level. */
  function SideSum(s: seq<Block>, side: nat, lo: nat, hi: nat): Block
    requires side <= 1 && lo <= hi && 2 * hi <= |s|
    decreases hi - lo
  {
    if lo == hi then Zero else Xor(s[2 * lo + side], SideSum(s, side, lo + 1, hi))
  }

  /** XOR of all left nodes of a level (`k0`). */
  function LeftSum(s: seq<Block>): Block
  {
    SideSum(s, 0, 0, |s| / 2)
  }

  /** XOR of all right nodes of a level (`k1`). */
  function RightSum(s: seq<Block>): Block
  {
    SideSum(s, 1, 0, |s| / 2)
  }

  /** The left and right sums of a level of `2 * half` nodes run over `half` pairs. */
  lemma HalfSums(s: seq<Block>, half: nat)
    requires |s| == 2 * half
    ensures LeftSum(s) == SideSum(s, 0, 0, half) && RightSum(s) == SideSum(s, 1, 0, half)
  {
    assert |s| / 2 == half;
  }

  /** Adding the nodes from the low end one by one gives the same sum. */
  lemma {:induction false} SideSumSnoc(s: seq<Block>, side: nat, lo: nat, hi: nat)
    requires side <= 1 && lo <= hi && 2 * (hi + 1) <= |s|
    ensures SideSum(s, side, lo, hi + 1) == Xor(SideSum(s, side, lo, hi), s[2 * hi + side])
    decreases hi - lo
  {
    if lo == hi {
      XorZero(s[2 * hi + side]);
    } else {
      SideSumSnoc(s, side, lo + 1, hi);
      XorAssoc(s[2 * lo + side], SideSum(s, side, lo + 1, hi), s[2 * hi + side]);
    }
  }

  /** Sums over nodes on which two levels agree are equal. */
  lemma {:induction false} SideSumSame(s: seq<Block>, t: seq<Block>, side: nat, lo: nat, hi: nat)
    requires side <= 1 && lo <= hi && 2 * hi <= |s| && 2 * hi <= |t|
    requires forall j :: lo <= j < hi ==> s[2 * j + side] == t[2 * j + side]
    ensures SideSum(s, side, lo, hi) == SideSum(t, side, lo, hi)
    decreases hi - lo
  {
    if lo < hi {
      SideSumSame(s, t, side, lo + 1, hi);
    }
  }

  /** Zeroing one node of the summed side takes exactly that node out of the sum. */
  lemma {:induction false} SideSumZeroed(s: seq<Block>, t: seq<Block>, side: nat, lo: nat, hi: nat, q: nat)
    requires side <= 1 && lo <= q < hi && 2 * hi <= |s| && 2 * hi <= |t|
    requires forall j :: lo <= j < hi && j != q ==> t[2 * j + side] == s[2 * j + side]
    requires t[2 * q + side] == Zero
    ensures SideSum(t, side, lo, hi) == Xor(SideSum(s, side, lo, hi), s[2 * q + side])
    decreases hi - lo
  {
    var x := s[2 * q + side];
    if lo == q {
      SideSumSame(s, t, side, lo + 1, hi);
      var rest := SideSum(s, side, lo + 1, hi);
      XorZero(rest);
      XorComm(x, rest);
      XorCancel(rest, x);
    } else {
      SideSumZeroed(s, t, side, lo + 1, hi, q);
      XorAssoc(s[2 * lo + side], SideSum(s, side, lo + 1, hi), x);
    }
  }

  lemma Xor4(k: Block, a: Block, b: Block, c: Block, d: Block)
    ensures Xor(Xor(Xor(Xor(k, a), b), c), d) == Xor(a, Xor(b, Xor(c, Xor(d, k))))
  {
    XorComm(k, a);
    XorAssoc(a, k, b);
    XorComm(k, b);
    XorAssoc(a, Xor(b, k), c);
    XorAssoc(b, k, c);
    XorComm(k, c);
    XorAssoc(a, Xor(b, Xor(c, k)), d);
    XorAssoc(b, Xor(c, k), d);
    XorAssoc(c, k, d);
    XorComm(k, d);
  }

  // Reconstruction as values.

  /** The punctured leaf: each bit of its index is the complement of the matching choice bit. */
  function PosOf(alpha: seq<bool>): (pos: nat)
    ensures pos < Pow2(|alpha|)
  {
    if |alpha| == 0 then 0
    else 2 * PosOf(alpha[..|alpha| - 1]) + (if alpha[|alpha| - 1] then 0 else 1)
  }

  /** Both children of node q zeroed: the state before one of them is recovered. */
  function Clear(l: seq<Block>, q: nat): (b: seq<Block>)
    requires 2 * q + 1 < |l|
    ensures |b| == |l| && b[2 * q] == Zero && b[2 * q + 1] == Zero
    ensures forall j :: 0 <= j < |l| && j != 2 * q && j != 2 * q + 1 ==> b[j] == l[j]
  {
    l[2 * q := Zero][2 * q + 1 := Zero]
  }

  /**
   * Recovers the child of node q on the chosen side as the XOR of the other
   * nodes of that side with `k`; the other child becomes the unknown node.
   * `bit` true means the right sum was given, so the left child is unknown.
   */
  function Fill(b: seq<Block>, half: nat, q: nat, bit: bool, k: Block): (r: (seq<Block>, nat))
    requires |b| == 2 * half && q < half
    ensures |r.0| == |b| && r.1 < |b|
  {
    if !bit then (b[2 * q := Xor(SideSum(b, 0, 0, half), k)], 2 * q + 1)
    else (b[2 * q + 1 := Xor(SideSum(b, 1, 0, half), k)], 2 * q)
  }

  /**
   * One layer of the reconstruction from the previous layer's tree and
   * unknown node q: the previous level is expanded, the two children of q
   * are zeroed and the child on the chosen side is recovered.
   */
  function Layer(g0: Prf, g1: Prf, prev: seq<Block>, q: nat, bit: bool, k: Block): (r: (seq<Block>, nat))
    requires q < |prev|
    ensures |r.0| == 2 * |prev| && r.1 < 2 * |prev|
  {
    Fill(Clear(Expand(g0, g1, prev), q), |prev|, q, bit, k)
  }

  /** The tree the reconstruction holds after layer i, with the index of the node it cannot know. */
  function Rec(g0: Prf, g1: Prf, k: seq<Block>, alpha: seq<bool>, i: nat): (r: (seq<Block>, nat))
    requires i <= |alpha| && |k| == |alpha|
    ensures |r.0| == Pow2(i) && r.1 < Pow2(i)
    decreases i
  {
    if i == 0 then ([Zero], 0)
    else
      var prev := Rec(g0, g1, k, alpha, i - 1);
      Layer(g0, g1, prev.0, prev.1, alpha[i - 1], k[i - 1])
  }

  /** `k[h]` is the sum `alpha[h]` selects from level `h + 1` of the seed's tree. */
  predicate ChosenSums(g0: Prf, g1: Prf, seed: Block, k: seq<Block>, alpha: seq<bool>)
  {
    |k| == |alpha| &&
    forall h :: 0 <= h < |alpha| ==>
      k[h] == if alpha[h] then RightSum(Level(g0, g1, seed, h + 1)) else LeftSum(Level(g0, g1, seed, h + 1))
  }

  /**
   * A layer applied to a level with only node q zeroed, given the full sum
   * of the chosen side of the next level, yields the next level with only
   * one child of q zeroed: the right one when the left sum was given.
   */
  lemma LayerCorrect(g0: Prf, g1: Prf, lp: seq<Block>, q: nat, bit: bool, k: Block)
    requires q < |lp|
    requires k == SideSum(Expand(g0, g1, lp), if bit then 1 else 0, 0, |lp|)
    ensures Layer(g0, g1, lp[q := Zero], q, bit, k) ==
              (Expand(g0, g1, lp)[2 * q + (if bit then 0 else 1) := Zero], 2 * q + (if bit then 0 else 1))
  {
    ClearExpandUpdate(g0, g1, lp, q);
    FillCorrect(Expand(g0, g1, lp), |lp|, q, bit, k);
  }

  /** The old value of node q does not matter once both its children are zeroed. */
  lemma ClearExpandUpdate(g0: Prf, g1: Prf, lp: seq<Block>, q: nat)
    requires q < |lp|
    ensures Clear(Expand(g0, g1, lp[q := Zero]), q) == Clear(Expand(g0, g1, lp), q)
  {
    ExpandUpdate(g0, g1, lp, q, Zero);
  }

  /** Given the full sum of the chosen side, filling recovers that child exactly. */
  lemma FillCorrect(l: seq<Block>, half: nat, q: nat, bit: bool, k: Block)
    requires |l| == 2 * half && q < half
    requires k == SideSum(l, if bit then 1 else 0, 0, half)
    ensures Fill(Clear(l, q), half, q, bit, k) == (l[2 * q + (if bit then 0 else 1) := Zero], 2 * q + (if bit then 0 else 1))
  {
    if bit {
      RecoverNode(l, 1, q, k, half);
    } else {
      RecoverNode(l, 0, q, k, half);
    }
  }

  /** The sums of level `h + 1` run over the `|Level(h)|` pairs of children. */
  lemma LevelSums(g0: Prf, g1: Prf, seed: Block, h: nat)
    ensures var lp := Level(g0, g1, seed, h);
            LeftSum(Level(g0, g1, seed, h + 1)) == SideSum(Expand(g0, g1, lp), 0, 0, |lp|) &&
            RightSum(Level(g0, g1, seed, h + 1)) == SideSum(Expand(g0, g1, lp), 1, 0, |lp|)
  {
    var lp := Level(g0, g1, seed, h);
    assert (2 * |lp|) / 2 == |lp|;
  }

  /**
   * With the sums chosen by alpha from the seed's tree, layer i of the
   * reconstruction is level i of that tree with only the node at
   * `PosOf(alpha[..i])` zeroed.
   */
  lemma {:induction false} RecCorrect(g0: Prf, g1: Prf, seed: Block, k: seq<Block>, alpha: seq<bool>, i: nat)
    requires i <= |alpha| && ChosenSums(g0, g1, seed, k, alpha)
    ensures Rec(g0, g1, k, alpha, i).1 == PosOf(alpha[..i])
    ensures Rec(g0, g1, k, alpha, i).0 == Level(g0, g1, seed, i)[PosOf(alpha[..i]) := Zero]
    decreases i
  {
    if i > 0 {
      RecCorrect(g0, g1, seed, k, alpha, i - 1);
      assert alpha[..i][..i - 1] == alpha[..i - 1];
      var lp := Level(g0, g1, seed, i - 1);
      LevelSums(g0, g1, seed, i - 1);
      assert k[i - 1] == SideSum(Expand(g0, g1, lp), if alpha[i - 1] then 1 else 0, 0, |lp|);
      LayerCorrect(g0, g1, lp, PosOf(alpha[..i - 1]), alpha[i - 1], k[i - 1]);
    }
  }

  /**
   * With both children of node q zeroed, the XOR of the known nodes of one
   * side with that side's full sum gives back the zeroed child of that side.
   */
  lemma RecoverNode(l: seq<Block>, side: nat, q: nat, k: Block, half: nat)
    requires side <= 1 && |l| == 2 * half && q < half && k == SideSum(l, side, 0, half)
    ensures var b := Clear(l, q);
            b[2 * q + side := Xor(SideSum(b, side, 0, half), k)] == l[2 * q + 1 - side := Zero]
  {
    var b := Clear(l, q);
    SideSumZeroed(l, b, side, 0, half, q);
    var x := l[2 * q + side];
    XorComm(k, x);
    XorCancel(x, k);
    assert Xor(SideSum(b, side, 0, half), k) == x;
  }

  /** The reconstructed tree equals the seed's tree except at the punctured leaf, which is zero. */
  lemma Puncture(g0: Prf, g1: Prf, seed: Block, k: seq<Block>, alpha: seq<bool>)
    requires ChosenSums(g0, g1, seed, k, alpha)
    ensures Rec(g0, g1, k, alpha, |alpha|).0 == Level(g0, g1, seed, |alpha|)[PosOf(alpha) := Zero]
    ensures forall j :: 0 <= j < Pow2(|alpha|) && j != PosOf(alpha) ==>
              Rec(g0, g1, k, alpha, |alpha|).0[j] == Level(g0, g1, seed, |alpha|)[j]
  {
    RecCorrect(g0, g1, seed, k, alpha, |alpha|);
    assert alpha[..|alpha|] == alpha;
  }

  /** The first level below the root holds the two children of the seed. */
  lemma LevelOne(g0: Prf, g1: Prf, seed: Block)
    ensures Level(g0, g1, seed, 1) == [g0(seed), g1(seed)]
  {
    ExpandAt(g0, g1, [seed], 0);
  }

  /** The children of two nodes, as the PRP writes them in one call. */
  function Expand2(g0: Prf, g1: Prf, q: seq<Block>): (c: seq<Block>)
    requires |q| == 2
  {
    [g0(q[0]), g1(q[0]), g0(q[1]), g1(q[1])]
  }

  /** The children of four nodes, as the PRP writes them in one call. */
  function Expand4(g0: Prf, g1: Prf, q: seq<Block>): (c: seq<Block>)
    requires |q| == 4
  {
    [g0(q[0]), g1(q[0]), g0(q[1]), g1(q[1]), g0(q[2]), g1(q[2]), g0(q[3]), g1(q[3])]
  }

  /** The PRP's two-node expansion is the level expansion of two nodes. */
  lemma Expand2Agrees(g0: Prf, g1: Prf, q: seq<Block>)
    requires |q| == 2
    ensures Expand2(g0, g1, q) == Expand(g0, g1, q)
  {
    ExpandPairs(g0, g1, q, Expand2(g0, g1, q));
  }

  /** The first two levels and their sums, as the generator writes them. */
  lemma TopSums(g0: Prf, g1: Prf, seed: Block)
    ensures Level(g0, g1, seed, 2) == Expand2(g0, g1, [g0(seed), g1(seed)])
    ensures LeftSum(Level(g0, g1, seed, 1)) == g0(seed) && RightSum(Level(g0, g1, seed, 1)) == g1(seed)
    ensures var l := Level(g0, g1, seed, 2);
            LeftSum(l) == Xor(l[0], l[2]) && RightSum(l) == Xor(l[1], l[3])
  {
    LevelTwo(g0, g1, seed);
    LevelOneSums(g0, g1, seed);
    LevelTwoSums(Level(g0, g1, seed, 2));
  }

  lemma LevelTwo(g0: Prf, g1: Prf, seed: Block)
    ensures Level(g0, g1, seed, 1) == [g0(seed), g1(seed)]
    ensures Level(g0, g1, seed, 2) == Expand2(g0, g1, [g0(seed), g1(seed)])
  {
    LevelOne(g0, g1, seed);
    Expand2Agrees(g0, g1, [g0(seed), g1(seed)]);
  }

  lemma LevelOneSums(g0: Prf, g1: Prf, seed: Block)
    ensures LeftSum(Level(g0, g1, seed, 1)) == g0(seed) && RightSum(Level(g0, g1, seed, 1)) == g1(seed)
  {
    LevelOne(g0, g1, seed);
    var l1 := Level(g0, g1, seed, 1);
    HalfSums(l1, 1);
    SideSumOne(l1, 0);
    SideSumOne(l1, 1);
  }

  lemma LevelTwoSums(l: seq<Block>)
    requires |l| == 4
    ensures LeftSum(l) == Xor(l[0], l[2]) && RightSum(l) == Xor(l[1], l[3])
  {
    HalfSums(l, 2);
    SideSumTwo(l, 0);
    SideSumTwo(l, 1);
  }

  /** Four pairs taken off the low end of a side sum. */
  lemma SideSumFour(s: seq<Block>, side: nat, lo: nat, hi: nat)
    requires side <= 1 && lo + 4 <= hi && 2 * hi <= |s|
    ensures SideSum(s, side, lo, hi) ==
              Xor(s[2 * lo + side], Xor(s[2 * lo + 2 + side], Xor(s[2 * lo + 4 + side],
                Xor(s[2 * lo + 6 + side], SideSum(s, side, lo + 4, hi)))))
  {
    assert SideSum(s, side, lo + 2, hi) == Xor(s[2 * lo + 4 + side], SideSum(s, side, lo + 3, hi));
  }

  /** The running sum with the four children of one side of an eight-node buffer XORed in, in order. */
  function FoldSide(acc: Block, b: seq<Block>, side: nat): Block
    requires side <= 1 && |b| == 8
  {
    Xor(Xor(Xor(Xor(acc, b[side]), b[2 + side]), b[4 + side]), b[6 + side])
  }

  /** The XOR of the children `g(p[j])` of nodes `lo..hi`, one side of a level before it is written. */
  function ChildSum(g: Prf, p: seq<Block>, lo: nat, hi: nat): Block
    requires lo <= hi <= |p|
    decreases hi - lo
  {
    if lo == hi then Zero else Xor(g(p[lo]), ChildSum(g, p, lo + 1, hi))
  }

  /** The children sums of a level are the side sums of its expansion. */
  lemma {:induction false} ChildSumSide(g0: Prf, g1: Prf, p: seq<Block>, lo: nat, hi: nat)
    requires lo <= hi <= |p|
    ensures ChildSum(g0, p, lo, hi) == SideSum(Expand(g0, g1, p), 0, lo, hi)
    ensures ChildSum(g1, p, lo, hi) == SideSum(Expand(g0, g1, p), 1, lo, hi)
    decreases hi - lo
  {
    if lo < hi {
      ChildSumSide(g0, g1, p, lo + 1, hi);
      ExpandAt(g0, g1, p, lo);
    }
  }

  /**
   * One step of a children sum: folding the children of one side of nodes
   * `i..i+4`, as the PRP writes them into an eight-node buffer, into the
   * sum of the nodes above extends that sum by those four.
   */
  lemma FoldStep(g: Prf, p: seq<Block>, side: nat, i: nat, sz: nat, acc: Block, buf: seq<Block>)
    requires side <= 1 && i + 4 <= sz <= |p| && |buf| == 8
    requires buf[side] == g(p[i]) && buf[2 + side] == g(p[i + 1])
    requires buf[4 + side] == g(p[i + 2]) && buf[6 + side] == g(p[i + 3])
    requires acc == ChildSum(g, p, i + 4, sz)
    ensures FoldSide(acc, buf, side) == ChildSum(g, p, i, sz)
  {
    assert ChildSum(g, p, i + 2, sz) == Xor(g(p[i + 2]), ChildSum(g, p, i + 3, sz));
    Xor4(acc, buf[side], buf[2 + side], buf[4 + side], buf[6 + side]);
  }

  /** The first two pairs of a side sum over four nodes. */
  lemma SideSumTwo(s: seq<Block>, side: nat)
    requires side <= 1 && |s| == 4
    ensures SideSum(s, side, 0, 2) == Xor(s[side], s[2 + side])
  {
    XorZero(s[2 + side]);
  }

  /** The sum of one node of a level of two. */
  lemma SideSumOne(s: seq<Block>, side: nat)
    requires side <= 1 && |s| == 2
    ensures SideSum(s, side, 0, 1) == s[side]
  {
    XorZero(s[side]);
  }

  /** `k0[j]` and `k1[j]` are the left and right sums of level `j + 1`, for every `j < h`. */
  ghost predicate SumsBelow(g0: Prf, g1: Prf, seed: Block, k0: seq<Block>, k1: seq<Block>, h: nat)
  {
    h <= |k0| && h <= |k1| &&
    forall j :: 0 <= j < h ==>
      k0[j] == LeftSum(Level(g0, g1, seed, j + 1)) && k1[j] == RightSum(Level(g0, g1, seed, j + 1))
  }

  /** Storing the sums of level `h + 1` at index h extends the stored sums by one level. */
  lemma SumsBelowStep(g0: Prf, g1: Prf, seed: Block, k0: seq<Block>, k1: seq<Block>, h: nat, s0: Block, s1: Block)
    requires SumsBelow(g0, g1, seed, k0, k1, h) && h < |k0| && h < |k1|
    requires s0 == LeftSum(Level(g0, g1, seed, h + 1)) && s1 == RightSum(Level(g0, g1, seed, h + 1))
    ensures SumsBelow(g0, g1, seed, k0[h := s0], k1[h := s1], h + 1)
  {
  }

  // The tree in a buffer.

  /** Writes `buf` into `tree` from index `at`; nothing else changes. */
  method CopyInto(tree: array<Block>, at: nat, buf: seq<Block>)
    requires at + |buf| <= tree.Length
    modifies tree
    ensures forall j :: 0 <= j < tree.Length ==>
              tree[j] == if at <= j < at + |buf| then buf[j - at] else old(tree[j])
  {
    forall j | at <= j < at + |buf| {
      tree[j] := buf[j - at];
    }
  }

  /** A GGM tree of a fixed depth, with the two-key PRP given as `g0` and `g1`. */
  class GgmTree {
    const g0: Prf
    const g1: Prf
    const depth: nat

    /** `new(depth)`: the PRP keys are fixed; here the PRP itself is given. */
    constructor New(depth: nat, g0: Prf, g1: Prf)
      ensures this.depth == depth && this.g0 == g0 && this.g1 == g1
    {
      this.depth := depth;
      this.g0 := g0;
      this.g1 := g1;
    }

    /**
     * Expands nodes `i..i+4` into the eight slots from `2i`, which must lie
     * above them or start at 0; returns the eight children.
     */
    method ExpandFourAt(tree: array<Block>, i: nat) returns (buf: seq<Block>)
      requires (i == 0 || i >= 4) && 2 * i + 8 <= tree.Length
      modifies tree
      ensures buf == Expand4(g0, g1, old(tree[i..i + 4]))
      ensures forall x :: 0 <= x < 8 ==> tree[2 * i + x] == buf[x]
      ensures forall j :: i <= j < i + 4 ==> tree[2 * j] == g0(old(tree[j])) && tree[2 * j + 1] == g1(old(tree[j]))
      ensures forall j :: 0 <= j < tree.Length && !(2 * i <= j < 2 * i + 8) ==> tree[j] == old(tree[j])
    {
      var q := tree[i..i + 4];
      assert q[0] == tree[i] && q[1] == tree[i + 1] && q[2] == tree[i + 2] && q[3] == tree[i + 3];
      buf := Expand4(g0, g1, q);
      CopyInto(tree, 2 * i, buf);
      assert tree[2 * i] == g0(q[0]) && tree[2 * i + 1] == g1(q[0]);
      assert tree[2 * i + 2] == g0(q[1]) && tree[2 * i + 3] == g1(q[1]);
      assert tree[2 * i + 4] == g0(q[2]) && tree[2 * i + 5] == g1(q[2]);
      assert tree[2 * i + 6] == g0(q[3]) && tree[2 * i + 7] == g1(q[3]);
      forall j | i <= j < i + 4
        ensures tree[2 * j] == g0(old(tree[j])) && tree[2 * j + 1] == g1(old(tree[j]))
      {
        assert j == i || j == i + 1 || j == i + 2 || j == i + 3;
      }
    }

    /**
     * One step of `gen`'s level loop: expands nodes `i..i+4` of the level
     * `p` into `2i..2i+8` and folds the new left and right children into
     * the running sums.
     */
    method GenFourAt(tree: array<Block>, i: nat, sz: nat, ghost p: seq<Block>, a0: Block, a1: Block) returns (s0: Block, s1: Block)
      requires (i == 0 || i >= 4) && i + 4 <= sz && 2 * sz <= tree.Length && |p| == sz
      requires forall j :: i <= j < i + 4 ==> tree[j] == p[j]
      requires a0 == ChildSum(g0, p, i + 4, sz) && a1 == ChildSum(g1, p, i + 4, sz)
      modifies tree
      ensures forall j :: i <= j < i + 4 ==> tree[2 * j] == g0(old(tree[j])) && tree[2 * j + 1] == g1(old(tree[j]))
      ensures forall j :: 0 <= j < tree.Length && !(2 * i <= j < 2 * i + 8) ==> tree[j] == old(tree[j])
      ensures s0 == ChildSum(g0, p, i, sz) && s1 == ChildSum(g1, p, i, sz)
    {
      var buf := ExpandFourAt(tree, i);
      ghost var q := old(tree[i..i + 4]);
      assert q[0] == p[i] && q[1] == p[i + 1] && q[2] == p[i + 2] && q[3] == p[i + 3];
      FoldStep(g0, p, 0, i, sz, a0, buf);
      FoldStep(g1, p, 1, i, sz, a1, buf);
      s0 := FoldSide(a0, buf, 0);
      s1 := FoldSide(a1, buf, 1);
    }

    /**
     * Expands the level of `sz` nodes held in `tree[..sz]` into `tree[..2sz]`,
     * four nodes at a time from the high end, so that no node is overwritten
     * before it is read.
     */
    method ExpandLevel(tree: array<Block>, sz: nat)
      requires 4 <= sz && sz % 4 == 0 && 2 * sz <= tree.Length
      modifies tree
      ensures tree[..2 * sz] == Expand(g0, g1, old(tree[..sz]))
      ensures forall j :: 2 * sz <= j < tree.Length ==> tree[j] == old(tree[j])
    {
      ghost var p := tree[..sz];
      var r := sz;
      ghost var c := sz / 4;
      while r > 0
        invariant 0 <= r <= sz && r == 4 * c
        invariant forall j :: 0 <= j < r ==> tree[j] == p[j]
        invariant forall j :: r <= j < sz ==> tree[2 * j] == g0(p[j]) && tree[2 * j + 1] == g1(p[j])
        invariant forall j :: 2 * sz <= j < tree.Length ==> tree[j] == old(tree[j])
      {
        var i := r - 4;
        var buf := ExpandFourAt(tree, i);
        r := i;
        c := c - 1;
      }
      ExpandPairs(g0, g1, p, tree[..2 * sz]);
    }

    /**
     * One level of `gen`: expands the level of `sz` nodes in place, four
     * nodes at a time from the high end, and sums the left and the right
     * children, which `gen` stores in `k0[h]` and `k1[h]`.
     */
    method GenLevel(tree: array<Block>, sz: nat) returns (s0: Block, s1: Block)
      requires 4 <= sz && sz % 4 == 0 && 2 * sz <= tree.Length
      modifies tree
      ensures tree[..2 * sz] == Expand(g0, g1, old(tree[..sz]))
      ensures forall j :: 2 * sz <= j < tree.Length ==> tree[j] == old(tree[j])
      ensures s0 == LeftSum(tree[..2 * sz]) && s1 == RightSum(tree[..2 * sz])
    {
      ghost var p := tree[..sz];
      s0, s1 := GenPairs(tree, sz);
      ExpandPairs(g0, g1, p, tree[..2 * sz]);
      ChildSumSide(g0, g1, p, 0, sz);
      HalfSums(tree[..2 * sz], sz);
    }

    /** The loop of one level of `gen`: every node's two children, and the sums of each side. */
    method GenPairs(tree: array<Block>, sz: nat) returns (s0: Block, s1: Block)
      requires 4 <= sz && sz % 4 == 0 && 2 * sz <= tree.Length
      modifies tree
      ensures forall j :: 0 <= j < sz ==> tree[2 * j] == g0(old(tree[j])) && tree[2 * j + 1] == g1(old(tree[j]))
      ensures forall j :: 2 * sz <= j < tree.Length ==> tree[j] == old(tree[j])
      ensures s0 == ChildSum(g0, old(tree[..sz]), 0, sz) && s1 == ChildSum(g1, old(tree[..sz]), 0, sz)
    {
      ghost var p := tree[..sz];
      s0, s1 := Zero, Zero;
      var r := sz;
      ghost var c := sz / 4;
      while r > 0
        invariant 0 <= r <= sz && r == 4 * c
        invariant s0 == ChildSum(g0, p, r, sz) && s1 == ChildSum(g1, p, r, sz)
        invariant forall j :: 0 <= j < r ==> tree[j] == p[j]
        invariant forall j :: r <= j < sz ==> tree[2 * j] == g0(p[j]) && tree[2 * j + 1] == g1(p[j])
        invariant forall j :: 2 * sz <= j < tree.Length ==> tree[j] == old(tree[j])
      {
        var i := r - 4;
        s0, s1 := GenFourAt(tree, i, sz, p, s0, s1);
        r := i;
        c := c - 1;
      }
      assert r == 0;
    }

    /**
     * The first two levels of `gen`: the children of the seed, then their
     * children, with the sums of both levels.
     */
    method GenTop(seed: Block, tree: array<Block>, k0: array<Block>, k1: array<Block>)
      requires 4 <= tree.Length && 2 <= k0.Length && 2 <= k1.Length
      requires tree != k0 && tree != k1 && k0 != k1
      modifies tree, k0, k1
      ensures tree[..4] == Level(g0, g1, seed, 2)
      ensures forall j :: 4 <= j < tree.Length ==> tree[j] == old(tree[j])
      ensures forall j :: 0 <= j < 2 ==>
                k0[j] == LeftSum(Level(g0, g1, seed, j + 1)) && k1[j] == RightSum(Level(g0, g1, seed, j + 1))
    {
      tree[0] := g0(seed);
      tree[1] := g1(seed);
      k0[0] := tree[0];
      k1[0] := tree[1];
      var buf := Expand2(g0, g1, tree[..2]);
      k0[1] := Xor(buf[0], buf[2]);
      k1[1] := Xor(buf[1], buf[3]);
      CopyInto(tree, 0, buf);
      assert tree[..4] == buf;
      TopSums(g0, g1, seed);
    }

    /**
     * `gen(seed, tree, k0, k1)`: writes the leaves of the tree grown from
     * the seed into `tree` and the left and right sums of every level below
     * the root into `k0` and `k1`.
     */
    method Gen(seed: Block, tree: array<Block>, k0: array<Block>, k1: array<Block>)
      requires depth >= 2 && tree.Length == Pow2(depth) && k0.Length == depth && k1.Length == depth
      requires tree != k0 && tree != k1 && k0 != k1
      modifies tree, k0, k1
      ensures tree[..] == Level(g0, g1, seed, depth)
      ensures SumsBelow(g0, g1, seed, k0[..], k1[..], depth)
    {
      PowMonotone(2, depth);
      GenTop(seed, tree, k0, k1);
      assert SumsBelow(g0, g1, seed, k0[..], k1[..], 2);
      for h := 2 to depth
        invariant Pow2(h) <= tree.Length
        invariant tree[..Pow2(h)] == Level(g0, g1, seed, h)
        invariant SumsBelow(g0, g1, seed, k0[..], k1[..], h)
      {
        PowMonotone(h + 1, depth);
        GenNext(seed, tree, k0, k1, h);
      }
      assert tree[..] == tree[..Pow2(depth)];
    }

    /** One turn of `gen`'s level loop: expands level h into level h + 1 and stores its two sums at index h. */
    method GenNext(seed: Block, tree: array<Block>, k0: array<Block>, k1: array<Block>, h: nat)
      requires 2 <= h < k0.Length && h < k1.Length && Pow2(h + 1) <= tree.Length
      requires tree != k0 && tree != k1 && k0 != k1
      requires tree[..Pow2(h)] == Level(g0, g1, seed, h)
      requires SumsBelow(g0, g1, seed, k0[..], k1[..], h)
      modifies tree, k0, k1
      ensures tree[..Pow2(h + 1)] == Level(g0, g1, seed, h + 1)
      ensures SumsBelow(g0, g1, seed, k0[..], k1[..], h + 1)
    {
      Pow2Quarters(h);
      var s0, s1 := GenLevel(tree, Pow2(h));
      SumsBelowStep(g0, g1, seed, k0[..], k1[..], h, s0, s1);
      ghost var ks0, ks1 := k0[..], k1[..];
      k0[h] := s0;
      k1[h] := s1;
      assert k0[..] == ks0[h := s0] && k1[..] == ks1[h := s1];
    }

    /**
     * The sum of one side of the level of `sz` nodes held in `tree[..sz]`:
     * every second node from `start`.
     */
    method SumSide(tree: array<Block>, sz: nat, start: nat) returns (sum: Block)
      requires start <= 1 && sz <= tree.Length && sz % 2 == 0
      ensures sum == SideSum(tree[..sz], start, 0, sz / 2)
    {
      sum := Zero;
      var i := start;
      ghost var j := 0;
      while i < sz
        invariant i == 2 * j + start && j <= sz / 2
        invariant sum == SideSum(tree[..sz], start, 0, j)
      {
        SideSumSnoc(tree[..sz], start, 0, j);
        sum := Xor(sum, tree[i]);
        i := i + 2;
        j := j + 1;
      }
    }

    /**
     * `reconstruct_layer(i, left_or_right, pos, k, tree)`: recovers the node
     * at `pos` of level i from the sum of the other nodes of its side and
     * `k`, then, below the last level, expands level i into level `i + 1`.
     */
    method ReconstructLayer(i: nat, leftOrRight: bool, pos: nat, k: Block, tree: array<Block>)
      requires 1 <= i <= depth && tree.Length == Pow2(depth) && pos < Pow2(i) <= tree.Length
      modifies tree
      ensures var b := old(tree[..Pow2(i)]);
              var f := b[pos := Xor(SideSum(b, if leftOrRight then 1 else 0, 0, Pow2(i - 1)), k)];
              (i == depth ==> tree[..] == f) &&
              (i < depth ==> 2 * Pow2(i) <= tree.Length && tree[..2 * Pow2(i)] == Expand(g0, g1, f))
    {
      var sz := Pow2(i);
      PowMonotone(i, depth);
      assert sz / 2 == Pow2(i - 1);
      ghost var b := tree[..sz];
      var start := if leftOrRight then 1 else 0;
      var sum := SumSide(tree, sz, start);
      tree[pos] := Xor(sum, k);
      ghost var f := tree[..sz];
      assert f == b[pos := Xor(SideSum(b, start, 0, Pow2(i - 1)), k)];
      if i == depth {
        assert tree[..] == tree[..sz];
        return;
      }
      PowMonotone(i + 1, depth);
      if sz == 2 {
        var buf := Expand2(g0, g1, tree[..2]);
        CopyInto(tree, 0, buf);
        assert tree[..4] == buf;
        Expand2Agrees(g0, g1, f);
      } else {
        assert i >= 2;
        Pow2Quarters(i);
        ExpandLevel(tree, sz);
      }
    }

    /**
     * One pass of `reconstruct`'s loop, for layer i: zeroes both children of
     * the unknown node and recovers the chosen one through
     * `reconstruct_layer`; returns the new unknown node.
     */
    method ReconstructStep(tree: array<Block>, k: seq<Block>, alpha: seq<bool>, i: nat, pos: nat) returns (next: nat)
      requires tree.Length == Pow2(depth) && |k| == depth && |alpha| == depth && 1 <= i <= depth
      requires pos == Rec(g0, g1, k, alpha, i - 1).1
      requires i >= 2 ==> Pow2(i) <= tree.Length && tree[..Pow2(i)] == Expand(g0, g1, Rec(g0, g1, k, alpha, i - 1).0)
      modifies tree
      ensures next == Rec(g0, g1, k, alpha, i).1
      ensures i < depth ==> Pow2(i + 1) <= tree.Length && tree[..Pow2(i + 1)] == Expand(g0, g1, Rec(g0, g1, k, alpha, i).0)
      ensures i == depth ==> tree[..] == Rec(g0, g1, k, alpha, depth).0
    {
      ghost var prev := Rec(g0, g1, k, alpha, i - 1);
      PowMonotone(i, depth);
      next := ZeroPair(tree, i, pos, prev.0);
      ghost var b := Clear(Expand(g0, g1, prev.0), pos);
      assert Rec(g0, g1, k, alpha, i) == Fill(b, Pow2(i - 1), pos, alpha[i - 1], k[i - 1]);
      if !alpha[i - 1] {
        ReconstructLayer(i, false, next, k[i - 1], tree);
        next := next + 1;
      } else {
        ReconstructLayer(i, true, next + 1, k[i - 1], tree);
      }
    }

    /** Zeroes both children of node `pos` of the level above, whose expansion `tree[..2^i]` holds. */
    method ZeroPair(tree: array<Block>, i: nat, pos: nat, ghost l: seq<Block>) returns (next: nat)
      requires 1 <= i && Pow2(i) <= tree.Length && |l| == Pow2(i - 1) && pos < |l|
      requires i >= 2 ==> tree[..Pow2(i)] == Expand(g0, g1, l)
      modifies tree
      ensures next == 2 * pos && tree[..Pow2(i)] == Clear(Expand(g0, g1, l), pos)
    {
      ghost var before: seq<Block> := tree[..Pow2(i)];
      next := pos * 2;
      tree[next] := Zero;
      tree[next + 1] := Zero;
      assert tree[..Pow2(i)] == before[2 * pos := Zero][2 * pos + 1 := Zero];
      if i == 1 {
        assert tree[..Pow2(i)] == [Zero, Zero];
      }
    }

    /**
     * `reconstruct(tree, k, alpha)`: rebuilds the tree layer by layer from
     * the chosen sums `k`, leaving zero at the leaf whose index bits are the
     * complements of alpha.
     */
    method Reconstruct(tree: array<Block>, k: seq<Block>, alpha: seq<bool>)
      requires tree.Length == Pow2(depth) && |k| == depth && |alpha| == depth
      modifies tree
      ensures depth == 0 ==> tree[..] == old(tree[..])
      ensures depth >= 1 ==> tree[..] == Rec(g0, g1, k, alpha, depth).0
      ensures forall seed :: depth >= 1 && ChosenSums(g0, g1, seed, k, alpha) ==>
                tree[..] == Level(g0, g1, seed, depth)[PosOf(alpha) := Zero]
    {
      var pos := 0;
      for i := 1 to depth + 1
        invariant pos == Rec(g0, g1, k, alpha, i - 1).1
        invariant 2 <= i <= depth ==> Pow2(i) <= tree.Length && tree[..Pow2(i)] == Expand(g0, g1, Rec(g0, g1, k, alpha, i - 1).0)
        invariant i == depth + 1 && depth >= 1 ==> tree[..] == Rec(g0, g1, k, alpha, depth).0
        invariant depth == 0 ==> tree[..] == old(tree[..])
      {
        pos := ReconstructStep(tree, k, alpha, i, pos);
      }
      forall seed | depth >= 1 && ChosenSums(g0, g1, seed, k, alpha)
        ensures tree[..] == Level(g0, g1, seed, depth)[PosOf(alpha) := Zero]
      {
        Puncture(g0, g1, seed, k, alpha);
      }
    }
  }
}
