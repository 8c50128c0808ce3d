/** The Merkle tree of bhwi/src/ledger/merkle.rs, against the tree hash and the
    audit paths of sections 2.1 and 2.1.1 of RFC 6962. */
module Merkle {
  import opened Common

  // ---- Specification: RFC 6962, over a list of leaf hashes ----

  /** "Let k be the largest power of two smaller than n (k < n <= 2k)." */
  function Split(n: nat): (k: nat)
    requires n >= 2
    ensures 1 <= k < n <= 2 * k
  {
    DoubleUpTo(n, 1)
  }

  function DoubleUpTo(n: nat, t: nat): (k: nat)
    requires 1 <= t < n
    ensures 1 <= k < n <= 2 * k
    decreases n - t
  {
    if n <= 2 * t then t else DoubleUpTo(n, 2 * t)
  }

  /** The exponent of `Split`. */
  function SplitExp(n: nat): (e: nat)
    requires n >= 2
    ensures Split(n) == Exp2(e)
  {
    SplitExpFrom(n, 0)
  }

  function SplitExpFrom(n: nat, e: nat): (r: nat)
    requires Exp2(e) < n
    ensures DoubleUpTo(n, Exp2(e)) == Exp2(r)
    decreases n - Exp2(e)
  {
    if n <= 2 * Exp2(e) then e
    else
      assert Exp2(e + 1) == 2 * Exp2(e);
      SplitExpFrom(n, e + 1)
  }

  /** The bounds determine the split: no other power of two meets them. */
  lemma {:induction false} SplitIsUnique(n: nat, e: nat)
    requires n >= 2 && Exp2(e) < n <= 2 * Exp2(e)
    ensures e == SplitExp(n) && Split(n) == Exp2(e)
  {
    if e < SplitExp(n) {
      Exp2Monotonic(e, SplitExp(n));
    } else if SplitExp(n) < e {
      Exp2Monotonic(SplitExp(n), e);
    }
  }

  /** The string hashed at an interior node: 0x01 || left || right. */
  function NodeBytes(left: Digest, right: Digest): (r: Bytes)
    ensures |r| == 65
  {
    [0x01] + left.raw + right.raw
  }

  /** MTH(D[lo:lo + size]): the Merkle tree hash of a range of the leaves D. */
  function Mth(h: Hash, D: seq<Digest>, lo: nat, size: nat): Digest
    requires size >= 1 && lo + size <= |D|
    decreases size
  {
    if size == 1 then D[lo]
    else
      var k := Split(size);
      h(NodeBytes(Mth(h, D, lo, k), Mth(h, D, lo + k, size - k)))
  }

  /** PATH(m, D[lo:lo + size]): the audit path of the m-th leaf of a range, nearest
      sibling first. */
  function Path(h: Hash, D: seq<Digest>, lo: nat, size: nat, m: nat): (r: seq<Digest>)
    requires lo + size <= |D| && m < size
    decreases size
  {
    if size == 1 then []
    else
      var k := Split(size);
      if m < k then Path(h, D, lo, k, m) + [Mth(h, D, lo + k, size - k)]
      else Path(h, D, lo + k, size - k, m - k) + [Mth(h, D, lo, k)]
  }

  /** The path and the hash of a range, from those of its two parts. */
  lemma PathUnfolds(h: Hash, D: seq<Digest>, lo: nat, size: nat, m: nat)
    requires lo + size <= |D| && m < size
    ensures size == 1 ==> Path(h, D, lo, size, m) == [] && Mth(h, D, lo, size) == D[lo + m]
    ensures size > 1 ==>
              var k := Split(size);
              && Path(h, D, lo, size, m) == (if m < k then Path(h, D, lo, k, m) + [Mth(h, D, lo + k, size - k)]
                                             else Path(h, D, lo + k, size - k, m - k) + [Mth(h, D, lo, k)])
              && Mth(h, D, lo, size) == h(NodeBytes(Mth(h, D, lo, k), Mth(h, D, lo + k, size - k)))
  {
    hide Split, NodeBytes;
  }

  /** A path is no longer than ceil(log2(n)): no longer than any d with n <= 2^d. */
  lemma {:induction false} PathLength(h: Hash, D: seq<Digest>, lo: nat, size: nat, m: nat, d: nat)
    requires lo + size <= |D| && m < size <= Exp2(d)
    ensures |Path(h, D, lo, size, m)| <= d
    decreases size
  {
    if size > 1 {
      var k := Split(size);
      var e := SplitExp(size);
      assert e < d by {
        if d <= e {
          Exp2Monotonic(d, e);
        }
      }
      if m < k {
        PathLength(h, D, lo, k, m, e);
      } else {
        PathLength(h, D, lo + k, size - k, m - k, e);
      }
    }
  }

  /** In a perfect tree every path has exactly that length. */
  lemma {:induction false} PerfectPath(h: Hash, D: seq<Digest>, lo: nat, e: nat, m: nat)
    requires lo + Exp2(e) <= |D| && m < Exp2(e)
    ensures |Path(h, D, lo, Exp2(e), m)| == e
    decreases e
  {
    hide Path, Mth;
    PathUnfolds(h, D, lo, Exp2(e), m);
    if e > 0 {
      var k := Exp2(e - 1);
      SplitIsUnique(Exp2(e), e - 1);
      if m < k {
        PerfectPath(h, D, lo, e - 1, m);
      } else {
        PerfectPath(h, D, lo + k, e - 1, m - k);
      }
    }
  }

  // ---- Integer helpers of the code ----

  /** Bitwise `&` on unsigned integers. */
  function BitAnd(a: nat, b: nat): nat {
    if a == 0 || b == 0 then 0
    else 2 * BitAnd(a / 2, b / 2) + (if a % 2 == 1 && b % 2 == 1 then 1 else 0)
  }

  lemma {:induction false} BitAndSelf(a: nat)
    ensures BitAnd(a, a) == a
  {
    if a > 0 {
      BitAndSelf(a / 2);
    }
  }

  lemma Exp2IsEven(e: nat)
    ensures e > 0 ==> Exp2(e) % 2 == 0
  {
  }

  predicate IsPowerOf2(n: nat)
    requires n >= 1
  {
    BitAnd(n, n - 1) == 0
  }

  /** The bit trick `n & (n - 1) == 0` decides exactly the powers of two. */
  lemma {:induction false} IsPowerOf2Decides(n: nat)
    requires n >= 1
    ensures IsPowerOf2(n) <==> exists e: nat :: n == Exp2(e)
  {
    if n == 1 {
      assert n == Exp2(0);
    } else if n % 2 == 1 {
      BitAndSelf(n / 2);
      assert BitAnd(n, n - 1) == 2 * BitAnd(n / 2, n / 2);
      forall e: nat ensures n != Exp2(e) {
        Exp2IsEven(e);
      }
    } else {
      IsPowerOf2Decides(n / 2);
      assert (n - 1) / 2 == n / 2 - 1;
      if IsPowerOf2(n) {
        var e: nat :| n / 2 == Exp2(e);
        assert n == Exp2(e + 1);
      }
      if e: nat :| n == Exp2(e) {
        assert n / 2 == Exp2(e - 1);
        var half: nat := e - 1;
        assert exists f: nat :: n / 2 == Exp2(f);
      }
    }
  }

  /** floor(log2(n)) */
  method FloorLg(n: nat) returns (r: nat)
    requires n > 0
    ensures Exp2(r) <= n < 2 * Exp2(r)
  {
    r := 0;
    var t := 1;
    while 2 * t <= n
      invariant t == Exp2(r) <= n
      decreases n - t
    {
      t := t * 2;
      r := r + 1;
    }
  }

  method Pow2(n: nat) returns (p: nat)
    ensures p == Exp2(n)
  {
    p := 1;
    for i := 0 to n
      invariant p == Exp2(i)
    {
      p := p * 2;
    }
  }

  method LargestPowerOf2LessThan(n: nat) returns (k: nat)
    requires n > 1
    ensures k == Split(n)
  {
    if n == 2 {
      return 1;
    }
    IsPowerOf2Decides(n);
    if IsPowerOf2(n) {
      k := n / 2;
      ghost var e: nat :| n == Exp2(e);
      SplitIsUnique(n, e - 1);
    } else {
      var lg := FloorLg(n);
      k := Pow2(lg);  // 1 << floor_lg(n)
      SplitIsUnique(n, lg);
    }
  }

  // ---- The code's tree ----

  datatype Tree =
    | Leaf(index: nat)
    | Node(value: Digest, left: Tree, right: Tree, height: nat)
  {
    /** Every leaf index stored in the tree is in range. */
    predicate InRange(leaves: seq<Digest>) {
      match this
      case Leaf(i) => i < |leaves|
      case Node(_, l, r, _) => l.InRange(leaves) && r.InRange(leaves)
    }

    function Value(leaves: seq<Digest>): Digest
      requires InRange(leaves)
    {
      match this
      case Leaf(i) => leaves[i]
      case Node(value, _, _, _) => value
    }

    function Height(): nat {
      match this
      case Leaf(_) => 0
      case Node(_, _, _, height) => height
    }
  }

  /** `t` is the tree over leaves[start..start + size]: RFC 6962's shape, with the
      hash of its children and the height of its left spine stored at every node. */
  ghost predicate Represents(t: Tree, h: Hash, leaves: seq<Digest>, start: nat, size: nat)
    requires size >= 1 && start + size <= |leaves|
    ensures Represents(t, h, leaves, start, size) ==> t.InRange(leaves)
  {
    match t
    case Leaf(i) => size == 1 && i == start
    case Node(value, left, right, height) =>
      size >= 2 &&
      var k := Split(size);
      && Represents(left, h, leaves, start, k)
      && Represents(right, h, leaves, start + k, size - k)
      && value == h(NodeBytes(left.Value(leaves), right.Value(leaves)))
      && height == left.Height() + 1
  }

  lemma {:induction false} RepresentsValue(t: Tree, h: Hash, leaves: seq<Digest>, start: nat, size: nat)
    requires size >= 1 && start + size <= |leaves| && Represents(t, h, leaves, start, size)
    ensures t.Value(leaves) == Mth(h, leaves, start, size)
  {
    if t.Node? {
      var k := Split(size);
      RepresentsValue(t.left, h, leaves, start, k);
      RepresentsValue(t.right, h, leaves, start + k, size - k);
    }
  }

  /** The core invariant behind `get_proof`: the left child is perfect, so the
      height stored in it is the exponent of its size. */
  lemma {:induction false} HeightOfPerfect(t: Tree, h: Hash, leaves: seq<Digest>, start: nat, e: nat)
    requires start + Exp2(e) <= |leaves| && Represents(t, h, leaves, start, Exp2(e))
    ensures t.Height() == e
    decreases e
  {
    if e > 0 {
      assert Exp2(e) >= 2;
      SplitIsUnique(Exp2(e), e - 1);
      HeightOfPerfect(t.left, h, leaves, start, e - 1);
    }
  }

  lemma {:induction false} HeightOfLeft(t: Tree, h: Hash, leaves: seq<Digest>, start: nat, size: nat)
    requires size >= 1 && start + size <= |leaves| && Represents(t, h, leaves, start, size) && t.Node?
    ensures Exp2(t.left.Height()) == Split(size)
  {
    HeightOfPerfect(t.left, h, leaves, start, SplitExp(size));
  }

  method NewTree(h: Hash, leaves: seq<Digest>, start: nat, size: nat) returns (t: Tree)
    requires size >= 1 && start + size <= |leaves|
    ensures Represents(t, h, leaves, start, size)
    decreases size
  {
    if size == 1 {
      return Leaf(start);
    }
    var leftSize := LargestPowerOf2LessThan(size);
    var left := NewTree(h, leaves, start, leftSize);
    var right := NewTree(h, leaves, start + leftSize, size - leftSize);
    var value := h(NodeBytes(left.Value(leaves), right.Value(leaves)));
    t := Node(value, left, right, left.Height() + 1);
  }

  /** `get_proof`; `Exp2` is what `Pow2` computes. */
  function GetProof(t: Tree, leaves: seq<Digest>, index: nat): seq<Digest>
    requires t.InRange(leaves)
  {
    match t
    case Leaf(_) => []
    case Node(_, left, right, _) =>
      if index < Exp2(left.Height()) then GetProof(left, leaves, index) + [right.Value(leaves)]
      else GetProof(right, leaves, index - Exp2(left.Height())) + [left.Value(leaves)]
  }

  lemma ProofUnfolds(t: Tree, leaves: seq<Digest>, index: nat)
    requires t.InRange(leaves)
    ensures t.Leaf? ==> GetProof(t, leaves, index) == []
    ensures t.Node? ==>
              var k := Exp2(t.left.Height());
              GetProof(t, leaves, index) ==
              if index < k then GetProof(t.left, leaves, index) + [t.right.Value(leaves)]
              else GetProof(t.right, leaves, index - k) + [t.left.Value(leaves)]
  {
    hide Exp2;
  }

  /** The code's proof is RFC 6962's audit path. */
  lemma {:induction false} GetProofIsPath(t: Tree, h: Hash, leaves: seq<Digest>, start: nat, size: nat, index: nat)
    requires start + size <= |leaves| && index < size && Represents(t, h, leaves, start, size)
    ensures GetProof(t, leaves, index) == Path(h, leaves, start, size, index)
  {
    hide Path, Mth, GetProof, NodeBytes, Split;
    PathUnfolds(h, leaves, start, size, index);
    ProofUnfolds(t, leaves, index);
    if t.Node? {
      var k := Split(size);
      HeightOfLeft(t, h, leaves, start, size);
      if index < k {
        GetProofIsPath(t.left, h, leaves, start, k, index);
        RepresentsValue(t.right, h, leaves, start + k, size - k);
      } else {
        GetProofIsPath(t.right, h, leaves, start + k, size - k, index - k);
        RepresentsValue(t.left, h, leaves, start, k);
      }
    }
  }

  datatype MerkleTree = MerkleTree(root: Tree, leaves: seq<Digest>) {
    ghost predicate Valid(h: Hash) {
      leaves != [] && Represents(root, h, leaves, 0, |leaves|)
    }
  }

  /** The root hash of a whole list of leaves. */
  function Root(h: Hash, leaves: seq<Digest>): Digest
    requires leaves != []
  {
    Mth(h, leaves, 0, |leaves|)
  }

  method NewMerkleTree(h: Hash, leaves: seq<Digest>) returns (tree: MerkleTree)
    requires leaves != []
    ensures tree.Valid(h) && tree.leaves == leaves
  {
    var root := NewTree(h, leaves, 0, |leaves|);
    tree := MerkleTree(root, leaves);
  }

  method RootHash(h: Hash, tree: MerkleTree) returns (root: Digest)
    requires tree.Valid(h)
    ensures root == Root(h, tree.leaves)
  {
    RepresentsValue(tree.root, h, tree.leaves, 0, |tree.leaves|);
    root := tree.root.Value(tree.leaves);
  }

  /** The index of the first leaf equal to `value`. */
  function LeafIndex(leaves: seq<Digest>, value: Digest): (r: Option<nat>)
    ensures r.Some? ==> r.value < |leaves| && leaves[r.value] == value && value !in leaves[..r.value]
    ensures r.None? ==> value !in leaves
  {
    if leaves == [] then None
    else if leaves[0] == value then Some(0)
    else
      match LeafIndex(leaves[1..], value)
      case None => None
      case Some(i) =>
        assert leaves[..i + 1] == [leaves[0]] + leaves[1..][..i];
        Some(i + 1)
  }

  method GetLeafProof(h: Hash, tree: MerkleTree, index: nat) returns (r: Option<seq<Digest>>)
    requires tree.Valid(h)
    ensures r == if index < |tree.leaves| then Some(Path(h, tree.leaves, 0, |tree.leaves|, index)) else None
  {
    if index >= |tree.leaves| {
      return None;
    }
    GetProofIsPath(tree.root, h, tree.leaves, 0, |tree.leaves|, index);
    r := Some(GetProof(tree.root, tree.leaves, index));
  }
}
