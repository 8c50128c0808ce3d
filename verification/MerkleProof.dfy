/** What a Merkle proof of bhwi/src/ledger/merkle.rs is worth to the device that
    checks it. The checker is the algorithm of section 2.1.3.2 of RFC 9162. */
module MerkleProof {
  import opened Common
  import opened Merkle

  /** Steps 2 to 5 of RFC 9162, section 2.1.3.2, with the loop as a recursion on
      the inclusion path: the root that the path leads to, if the path has the
      right length. */
  function Verify(h: Hash, fn: nat, sn: nat, r: Digest, path: seq<Digest>): Option<Digest>
    decreases |path|
  {
    if path == [] then
      if sn == 0 then Some(r) else None
    else if sn == 0 then None
    else
      var (fn', sn', r') := Advance(h, fn, sn, r, path[0]);
      Verify(h, fn', sn', r', path[1..])
  }

  /** Steps 4b and 4c: one round of the loop. */
  function Advance(h: Hash, fn: nat, sn: nat, r: Digest, p: Digest): (nat, nat, Digest) {
    if fn % 2 == 1 || fn == sn then
      var (fn', sn') := ShiftUntilOdd(fn, sn);
      (fn' / 2, sn' / 2, h(NodeBytes(p, r)))
    else
      (fn / 2, sn / 2, h(NodeBytes(r, p)))
  }

  /** "Right-shift both fn and sn equally until either LSB(fn) is set or fn is 0." */
  function ShiftUntilOdd(fn: nat, sn: nat): (nat, nat) {
    if fn % 2 == 1 || fn == 0 then (fn, sn) else ShiftUntilOdd(fn / 2, sn / 2)
  }

  function VerifyInclusion(h: Hash, index: nat, size: nat, leaf: Digest, path: seq<Digest>): Option<Digest> {
    if index >= size then None else Verify(h, index, size - 1, leaf, path)
  }

  /** The same computation by recursion on RFC 6962's tree shape. */
  function Fold(h: Hash, index: nat, size: nat, r: Digest, path: seq<Digest>): Option<Digest>
    requires index < size
    decreases size
  {
    if size == 1 then
      if path == [] then Some(r) else None
    else if path == [] then None
    else
      var k, below, sibling := Split(size), path[..|path| - 1], path[|path| - 1];
      if index < k then Combine(h, Fold(h, index, k, r, below), sibling, true)
      else Combine(h, Fold(h, index - k, size - k, r, below), sibling, false)
  }

  /** The parent of the root of a subtree, if there is one, and its sibling. */
  function Combine(h: Hash, sub: Option<Digest>, sibling: Digest, subIsLeft: bool): Option<Digest> {
    match sub
    case None => None
    case Some(value) => Some(h(if subIsLeft then NodeBytes(value, sibling) else NodeBytes(sibling, value)))
  }

  lemma FoldShort(h: Hash, index: nat, size: nat, r: Digest, path: seq<Digest>)
    requires index < size && (size == 1 || path == [])
    ensures Fold(h, index, size, r, path) == if size == 1 && path == [] then Some(r) else None
  {
  }

  lemma VerifyShort(h: Hash, index: nat, size: nat, r: Digest, path: seq<Digest>)
    requires index < size && (size == 1 || path == [])
    ensures VerifyInclusion(h, index, size, r, path) == if size == 1 && path == [] then Some(r) else None
  {
  }

  lemma FoldStep(h: Hash, index: nat, size: nat, r: Digest, below: seq<Digest>, sibling: Digest)
    requires index < size && size > 1
    ensures var k := Split(size);
            Fold(h, index, size, r, below + [sibling]) ==
            if index < k then Combine(h, Fold(h, index, k, r, below), sibling, true)
            else Combine(h, Fold(h, index - k, size - k, r, below), sibling, false)
  {
    assert (below + [sibling])[..|below|] == below;
  }

  /** Checking in a perfect left subtree, seen from the whole tree. */
  lemma {:induction false} VerifyLeft(h: Hash, e: nat, fn: nat, sn: nat, r: Digest, path: seq<Digest>, last: Digest)
    requires fn < Exp2(e) <= sn < 2 * Exp2(e)
    ensures Verify(h, fn, sn, r, path + [last]) == Combine(h, Verify(h, fn, Exp2(e) - 1, r, path), last, true)
  {
    hide NodeBytes;
    var whole := path + [last];
    if path == [] {
      assert whole[1..] == [];
    } else {
      assert whole[0] == path[0] && whole[1..] == path[1..] + [last];
      if e > 0 {
        var next := if fn % 2 == 1 then h(NodeBytes(path[0], r)) else h(NodeBytes(r, path[0]));
        assert (Exp2(e) - 1) / 2 == Exp2(e - 1) - 1;
        VerifyLeft(h, e - 1, fn / 2, sn / 2, next, path[1..], last);
      }
    }
  }

  /** Two numbers that differ by 2^e shift alike while the smaller one is not 0. */
  lemma {:induction false} ShiftWithOffset(e: nat, fn: nat) returns (e': nat)
    requires 0 < fn < Exp2(e)
    ensures var (low, _) := ShiftUntilOdd(fn, fn);
            && ShiftUntilOdd(fn, fn) == (low, low)
            && low % 2 == 1 && low < Exp2(e') && e' > 0
            && ShiftUntilOdd(fn + Exp2(e), fn + Exp2(e)) == (low + Exp2(e'), low + Exp2(e'))
  {
    if fn % 2 == 1 {
      e' := e;
    } else {
      assert fn + Exp2(e) == 2 * (fn / 2 + Exp2(e - 1));
      e' := ShiftWithOffset(e - 1, fn / 2);
    }
  }

  /** ... and so does a whole round. */
  lemma AdvanceWithOffset(h: Hash, e: nat, fn: nat, sn: nat, r: Digest, p: Digest) returns (e': nat)
    requires fn <= sn && 0 < sn < Exp2(e)
    ensures var (fn', sn', r') := Advance(h, fn, sn, r, p);
            && fn' <= sn' < Exp2(e')
            && Advance(h, fn + Exp2(e), sn + Exp2(e), r, p) == (fn' + Exp2(e'), sn' + Exp2(e'), r')
  {
    hide ShiftUntilOdd, NodeBytes, Exp2;
    Halves(e, fn, sn);
    Halves(e, sn, sn);
    if fn == sn {
      e' := ShiftWithOffset(e, fn);
      Halves(e', ShiftUntilOdd(fn, fn).0, ShiftUntilOdd(fn, fn).0);
      e' := e' - 1;
    } else {
      e' := e - 1;
      if fn % 2 == 1 {
        OddStays(fn, sn);
        OddStays(fn + Exp2(e), sn + Exp2(e));
      }
    }
  }

  lemma Halves(e: nat, n: nat, below: nat)
    requires 0 < below < Exp2(e)
    ensures e > 0 && Exp2(e) == 2 * Exp2(e - 1)
    ensures (n + Exp2(e)) / 2 == n / 2 + Exp2(e - 1) && (n + Exp2(e)) % 2 == n % 2
  {
  }

  lemma OddStays(fn: nat, sn: nat)
    requires fn % 2 == 1
    ensures ShiftUntilOdd(fn, sn) == (fn, sn)
  {
  }

  lemma {:induction false} ShiftExp2(e: nat)
    ensures ShiftUntilOdd(Exp2(e), Exp2(e)) == (1, 1)
  {
    if e > 0 {
      ShiftExp2(e - 1);
    }
  }

  /** Checking in a right subtree of at most 2^e leaves, seen from the whole tree. */
  lemma {:induction false} VerifyRight(h: Hash, e: nat, fn: nat, sn: nat, r: Digest, path: seq<Digest>, last: Digest)
    requires fn <= sn < Exp2(e)
    ensures Verify(h, fn + Exp2(e), sn + Exp2(e), r, path + [last]) ==
            Combine(h, Verify(h, fn, sn, r, path), last, false)
    decreases |path|
  {
    hide Exp2, ShiftUntilOdd, NodeBytes;
    var whole := path + [last];
    if sn == 0 {
      ShiftExp2(e);
      assert Advance(h, Exp2(e), Exp2(e), r, whole[0]) == (0, 0, h(NodeBytes(whole[0], r)));
      hide Advance;
      assert whole[1..] == [] <==> path == [];
    } else {
      var e' := AdvanceWithOffset(h, e, fn, sn, r, whole[0]);
      var (fn', sn', r') := Advance(h, fn, sn, r, whole[0]);
      hide Advance;
      if path == [] {
        assert whole[1..] == [];
      } else {
        assert whole[1..] == path[1..] + [last];
        VerifyRight(h, e', fn', sn', r', path[1..], last);
      }
    }
  }

  /** RFC 9162's bit-twiddling loop is the fold over RFC 6962's tree, for every
      path, right or wrong. */
  lemma {:induction false} VerifyIsFold(h: Hash, index: nat, size: nat, leaf: Digest, path: seq<Digest>)
    requires index < size
    ensures VerifyInclusion(h, index, size, leaf, path) == Fold(h, index, size, leaf, path)
    decreases size
  {
    hide Split, Exp2, Fold, Verify, Combine;
    if size == 1 || path == [] {
      FoldShort(h, index, size, leaf, path);
      VerifyShort(h, index, size, leaf, path);
    } else {
      var k, below, sibling := Split(size), path[..|path| - 1], path[|path| - 1];
      var e := SplitExp(size);
      assert path == below + [sibling];
      FoldStep(h, index, size, leaf, below, sibling);
      if index < k {
        VerifyIsFold(h, index, k, leaf, below);
        VerifyLeft(h, e, index, size - 1, leaf, below, sibling);
      } else {
        VerifyIsFold(h, index - k, size - k, leaf, below);
        VerifyRight(h, e, index - k, size - k - 1, leaf, below, sibling);
      }
    }
  }

  lemma {:induction false} FoldComplete(h: Hash, D: seq<Digest>, lo: nat, size: nat, m: nat)
    requires lo + size <= |D| && m < size
    ensures Fold(h, m, size, D[lo + m], Path(h, D, lo, size, m)) == Some(Mth(h, D, lo, size))
    decreases size
  {
    hide Split, Fold, NodeBytes, Path, Mth;
    PathUnfolds(h, D, lo, size, m);
    if size == 1 {
      FoldShort(h, m, size, D[lo + m], []);
    } else {
      var k := Split(size);
      if m < k {
        var below, sibling := Path(h, D, lo, k, m), Mth(h, D, lo + k, size - k);
        FoldComplete(h, D, lo, k, m);
        FoldStep(h, m, size, D[lo + m], below, sibling);
      } else {
        var below, sibling := Path(h, D, lo + k, size - k, m - k), Mth(h, D, lo, k);
        FoldComplete(h, D, lo + k, size - k, m - k);
        FoldStep(h, m, size, D[lo + m], below, sibling);
      }
    }
  }

  /** Completeness: the proof of every leaf of every tree is accepted. */
  lemma {:induction false} ProofIsAccepted(h: Hash, D: seq<Digest>, m: nat)
    requires m < |D|
    ensures VerifyInclusion(h, m, |D|, D[m], Path(h, D, 0, |D|, m)) == Some(Root(h, D))
  {
    VerifyIsFold(h, m, |D|, D[m], Path(h, D, 0, |D|, m));
    FoldComplete(h, D, 0, |D|, m);
  }

  /** The strings hashed at the interior nodes over a range of leaves. */
  ghost function NodeStrings(h: Hash, D: seq<Digest>, lo: nat, size: nat): set<Bytes>
    requires size >= 1 && lo + size <= |D|
    decreases size
  {
    if size == 1 then {}
    else
      var k := Split(size);
      {NodeBytes(Mth(h, D, lo, k), Mth(h, D, lo + k, size - k))}
      + NodeStrings(h, D, lo, k) + NodeStrings(h, D, lo + k, size - k)
  }

  /** The strings hashed while folding a path. */
  ghost function FoldStrings(h: Hash, index: nat, size: nat, r: Digest, path: seq<Digest>): set<Bytes>
    requires index < size
    decreases size
  {
    if size == 1 || path == [] then {}
    else
      var k, below, sibling := Split(size), path[..|path| - 1], path[|path| - 1];
      if index < k then
        FoldStrings(h, index, k, r, below) +
        match Fold(h, index, k, r, below)
        case None => {}
        case Some(left) => {NodeBytes(left, sibling)}
      else
        FoldStrings(h, index - k, size - k, r, below) +
        match Fold(h, index - k, size - k, r, below)
        case None => {}
        case Some(right) => {NodeBytes(sibling, right)}
  }

  lemma NodeBytesInjective(a: Digest, b: Digest, c: Digest, d: Digest)
    requires NodeBytes(a, b) == NodeBytes(c, d)
    ensures a == c && b == d
  {
    assert NodeBytes(a, b)[1..33] == a.raw && NodeBytes(a, b)[33..] == b.raw;
    assert NodeBytes(c, d)[1..33] == c.raw && NodeBytes(c, d)[33..] == d.raw;
  }

  lemma NodeStep(h: Hash, D: seq<Digest>, lo: nat, size: nat, strings: set<Bytes>)
    requires size > 1 && lo + size <= |D| && NodeStrings(h, D, lo, size) <= strings
    ensures var k := Split(size);
            var node := NodeBytes(Mth(h, D, lo, k), Mth(h, D, lo + k, size - k));
            && node in strings && h(node) == Mth(h, D, lo, size)
            && NodeStrings(h, D, lo, k) <= strings && NodeStrings(h, D, lo + k, size - k) <= strings
  {
  }

  lemma FoldStringsStep(h: Hash, m: nat, size: nat, r: Digest, below: seq<Digest>, sibling: Digest, strings: set<Bytes>)
    requires m < size && size > 1 && Fold(h, m, size, r, below + [sibling]).Some?
    requires FoldStrings(h, m, size, r, below + [sibling]) <= strings
    ensures var k := Split(size);
            if m < k then
              && FoldStrings(h, m, k, r, below) <= strings
              && Fold(h, m, k, r, below).Some?
              && NodeBytes(Fold(h, m, k, r, below).value, sibling) in strings
            else
              && FoldStrings(h, m - k, size - k, r, below) <= strings
              && Fold(h, m - k, size - k, r, below).Some?
              && NodeBytes(sibling, Fold(h, m - k, size - k, r, below).value) in strings
  {
    assert (below + [sibling])[..|below|] == below;
  }

  lemma {:induction false} FoldSound(h: Hash, D: seq<Digest>, lo: nat, size: nat, m: nat, leaf: Digest,
                                     path: seq<Digest>, strings: set<Bytes>)
    requires lo + size <= |D| && m < size
    requires Fold(h, m, size, leaf, path) == Some(Mth(h, D, lo, size))
    requires NodeStrings(h, D, lo, size) <= strings && FoldStrings(h, m, size, leaf, path) <= strings
    ensures (leaf == D[lo + m] && path == Path(h, D, lo, size, m)) || ClashIn(h, strings)
    decreases size
  {
    hide Split, Fold, FoldStrings, NodeStrings, NodeBytes;
    if size == 1 || path == [] {
      FoldShort(h, m, size, leaf, path);
    } else {
      hide Mth, ClashIn;
      var k, below, sibling := Split(size), path[..|path| - 1], path[|path| - 1];
      var left, right := Mth(h, D, lo, k), Mth(h, D, lo + k, size - k);
      assert path == below + [sibling];
      FoldStep(h, m, size, leaf, below, sibling);
      FoldStringsStep(h, m, size, leaf, below, sibling, strings);
      NodeStep(h, D, lo, size, strings);
      if m < k {
        var sub := Fold(h, m, k, leaf, below).value;
        ClashOf(h, strings, NodeBytes(sub, sibling), NodeBytes(left, right));
        if !ClashIn(h, strings) {
          NodeBytesInjective(sub, sibling, left, right);
          FoldSound(h, D, lo, k, m, leaf, below, strings);
        }
      } else {
        var sub := Fold(h, m - k, size - k, leaf, below).value;
        ClashOf(h, strings, NodeBytes(sibling, sub), NodeBytes(left, right));
        if !ClashIn(h, strings) {
          NodeBytesInjective(sibling, sub, left, right);
          FoldSound(h, D, lo + k, size - k, m - k, leaf, below, strings);
        }
      }
    }
  }

  /** Soundness: a leaf and a path accepted at position `m` against the root of D
      are the leaf and the audit path of D, unless two of the strings hashed on the
      way collide. */
  lemma {:induction false} AcceptedIsGenuine(h: Hash, D: seq<Digest>, m: nat, leaf: Digest, path: seq<Digest>)
    requires D != []
    requires VerifyInclusion(h, m, |D|, leaf, path) == Some(Root(h, D))
    ensures m < |D| && ((leaf == D[m] && path == Path(h, D, 0, |D|, m)) ||
            ClashIn(h, NodeStrings(h, D, 0, |D|) + FoldStrings(h, m, |D|, leaf, path)))
  {
    VerifyIsFold(h, m, |D|, leaf, path);
    FoldSound(h, D, 0, |D|, m, leaf, path, NodeStrings(h, D, 0, |D|) + FoldStrings(h, m, |D|, leaf, path));
  }

  // ---- The root binds the list of elements ----

  /** The preimage of a leaf: 0x00 || element. */
  function LeafBytes(element: Bytes): Bytes {
    [0x00] + element
  }

  lemma LeafBytesInjective(a: Bytes, b: Bytes)
    ensures LeafBytes(a) == LeafBytes(b) <==> a == b
  {
    assert LeafBytes(a)[1..] == a && LeafBytes(b)[1..] == b;
  }

  /** Domain separation: no leaf string is a node string. */
  lemma LeafIsNoNode(element: Bytes)
    ensures forall left, right :: LeafBytes(element) != NodeBytes(left, right)
  {
    forall left, right ensures LeafBytes(element) != NodeBytes(left, right) {
      assert LeafBytes(element)[0] == 0x00 && NodeBytes(left, right)[0] == 0x01;
    }
  }

  function LeafHashes(h: Hash, elements: seq<Bytes>): (r: seq<Digest>)
    ensures |r| == |elements|
    ensures forall i :: 0 <= i < |r| ==> r[i] == h(LeafBytes(elements[i]))
  {
    seq(|elements|, i requires 0 <= i < |elements| => h(LeafBytes(elements[i])))
  }

  function ListRoot(h: Hash, elements: seq<Bytes>): Digest
    requires elements != []
  {
    Root(h, LeafHashes(h, elements))
  }

  /** Every string hashed to build the tree of a list. */
  ghost function ListStrings(h: Hash, elements: seq<Bytes>): set<Bytes>
    requires elements != []
  {
    (set x | x in elements :: LeafBytes(x)) + NodeStrings(h, LeafHashes(h, elements), 0, |elements|)
  }

  lemma {:induction false} MthBinds(h: Hash, xs: seq<Bytes>, ys: seq<Bytes>, X: seq<Digest>, Y: seq<Digest>,
                                    lx: nat, nx: nat, ly: nat, ny: nat, strings: set<Bytes>)
    requires X == LeafHashes(h, xs) && Y == LeafHashes(h, ys)
    requires 1 <= nx && lx + nx <= |xs| && 1 <= ny && ly + ny <= |ys|
    requires Mth(h, X, lx, nx) == Mth(h, Y, ly, ny)
    requires forall x :: x in xs || x in ys ==> LeafBytes(x) in strings
    requires NodeStrings(h, X, lx, nx) <= strings && NodeStrings(h, Y, ly, ny) <= strings
    ensures xs[lx..lx + nx] == ys[ly..ly + ny] || ClashIn(h, strings)
    decreases nx
  {
    hide Split, Mth, NodeStrings, NodeBytes, ClashIn, LeafHashes;
    var sx := LastHashed(h, xs, X, lx, nx, strings);
    var sy := LastHashed(h, ys, Y, ly, ny, strings);
    ClashOf(h, strings, sx, sy);
    if ClashIn(h, strings) {
    } else if nx == 1 || ny == 1 {
      LeafBytesInjective(xs[lx], ys[ly]);
      LeafIsNoNode(if nx == 1 then xs[lx] else ys[ly]);
    } else {
      var k, l := Split(nx), Split(ny);
      NodeBytesInjective(Mth(h, X, lx, k), Mth(h, X, lx + k, nx - k), Mth(h, Y, ly, l), Mth(h, Y, ly + l, ny - l));
      MthBinds(h, xs, ys, X, Y, lx, k, ly, l, strings);
      MthBinds(h, xs, ys, X, Y, lx + k, nx - k, ly + l, ny - l, strings);
      SliceJoin(xs, lx, k, nx);
      SliceJoin(ys, ly, l, ny);
    }
  }

  /** The string whose hash is the tree hash of a range. */
  lemma LastHashed(h: Hash, xs: seq<Bytes>, X: seq<Digest>, lo: nat, size: nat, strings: set<Bytes>) returns (s: Bytes)
    requires X == LeafHashes(h, xs) && 1 <= size && lo + size <= |xs|
    requires LeafBytes(xs[lo]) in strings && NodeStrings(h, X, lo, size) <= strings
    ensures s in strings && h(s) == Mth(h, X, lo, size)
    ensures size == 1 ==> s == LeafBytes(xs[lo])
    ensures size > 1 ==>
              var k := Split(size);
              && s == NodeBytes(Mth(h, X, lo, k), Mth(h, X, lo + k, size - k))
              && NodeStrings(h, X, lo, k) <= strings && NodeStrings(h, X, lo + k, size - k) <= strings
  {
    hide Split;
    if size == 1 {
      s := LeafBytes(xs[lo]);
    } else {
      var k := Split(size);
      s := NodeBytes(Mth(h, X, lo, k), Mth(h, X, lo + k, size - k));
      NodeStep(h, X, lo, size, strings);
    }
  }

  lemma SliceJoin(s: seq<Bytes>, lo: nat, k: nat, size: nat)
    requires k <= size && lo + size <= |s|
    ensures s[lo..lo + size] == s[lo..lo + k] + s[lo + k..lo + k + (size - k)]
  {
  }

  /** Two lists of elements, of any two lengths, with one and the same root are
      equal, unless two of the strings hashed to build their trees collide. */
  lemma {:induction false} RootBindsList(h: Hash, xs: seq<Bytes>, ys: seq<Bytes>)
    requires xs != [] && ys != [] && ListRoot(h, xs) == ListRoot(h, ys)
    ensures xs == ys || ClashIn(h, ListStrings(h, xs) + ListStrings(h, ys))
  {
    MthBinds(h, xs, ys, LeafHashes(h, xs), LeafHashes(h, ys), 0, |xs|, 0, |ys|, ListStrings(h, xs) + ListStrings(h, ys));
    assert xs[0..|xs|] == xs && ys[0..|ys|] == ys;
  }

  // ---- the root, on the elements alone ----

  /** The tree hash of a range is that of the range on its own. */
  lemma {:induction false} MthOfRange(h: Hash, D: seq<Digest>, lo: nat, size: nat, start: nat, end: nat)
    requires size >= 1 && start <= lo && lo + size <= end <= |D|
    ensures Mth(h, D[start..end], lo - start, size) == Mth(h, D, lo, size)
    decreases size
  {
    if size == 1 {
      assert D[start..end][lo - start] == D[lo];
    } else {
      var k := Split(size);
      MthOfRange(h, D, lo, k, start, end);
      MthOfRange(h, D, lo + k, size - k, start, end);
    }
  }

  /** The root of a list is its tree hash by section 2.1 of RFC 6962, down to the bytes that are
      hashed: 0x00 and the element, or 0x01 and the roots of the first 2^e elements and of the
      others, where 2^e is the largest power of two below the length. */
  lemma {:induction false} RootIsTreeHash(h: Hash, xs: seq<Bytes>, e: nat)
    requires xs != []
    ensures |xs| == 1 ==> ListRoot(h, xs) == h([0x00] + xs[0])
    ensures Exp2(e) < |xs| <= 2 * Exp2(e) ==>
              ListRoot(h, xs) == h([0x01] + ListRoot(h, xs[..Exp2(e)]).raw + ListRoot(h, xs[Exp2(e)..]).raw)
  {
    hide LeafHashes, Exp2;
    var D := LeafHashes(h, xs);
    if Exp2(e) < |xs| <= 2 * Exp2(e) {
      var k := Exp2(e);
      SplitIsUnique(|xs|, e);
      hide Split;
      MthOfRange(h, D, 0, k, 0, k);
      MthOfRange(h, D, k, |xs| - k, k, |xs|);
      assert LeafHashes(h, xs[..k]) == D[0..k];
      assert LeafHashes(h, xs[k..]) == D[k..|xs|];
    }
  }
}
