/** The root over a fan-out's sibling chains: a bottom-up loop that promotes an odd node, the recursive
    tree it computes, and how tightly the root binds the siblings.
    `sha` stands for SHA-256 in lower-case hex over encoded text. */
module SiblingMerkleRoot {
  import opened Digests
  import opened Separators
  import opened Sequences

  const UNIT_SEPARATOR: char := 0x1F as char

  datatype MerkleRoot = MerkleRoot(rootHash: string, treeHeight: int, leafCount: int)

  /** The text hashed for a parent node, and for a leaf. */
  function Joined(left: string, right: string): string {
    left + [UNIT_SEPARATOR] + right
  }

  function MerkleParent(sha: string -> string, left: string, right: string): string {
    sha(Joined(left, right))
  }

  function Leaves(sha: string -> string, parentActionId: string, tids: seq<string>): (ls: seq<string>)
    ensures |ls| == |tids| && forall i | 0 <= i < |tids| :: ls[i] == sha(Joined(parentActionId, tids[i]))
  {
    seq(|tids|, i requires 0 <= i < |tids| => sha(Joined(parentActionId, tids[i])))
  }

  // ---------------------------------------------------------------- the recursive tree

  /** The largest power of two strictly below `n`. */
  function Split(n: nat): (k: nat)
    requires n >= 2
    ensures 1 <= k < n <= 2 * k
  {
    if n == 2 then 1 else 2 * Split((n + 1) / 2)
  }

  predicate IsPowerOfTwo(k: nat) {
    k == 1 || (k > 1 && k % 2 == 0 && IsPowerOfTwo(k / 2))
  }

  /** The tree that splits its leaves at the largest power of two below their number
      (the shape of section 2.1 of RFC 6962, without that document's node prefixes). */
  function TreeRoot(sha: string -> string, leaves: seq<string>): string
    requires leaves != []
    decreases |leaves|
  {
    if |leaves| == 1 then leaves[0]
    else
      var k := Split(|leaves|);
      MerkleParent(sha, TreeRoot(sha, leaves[..k]), TreeRoot(sha, leaves[k..]))
  }

  /** Every text hashed for an inner node of that tree. */
  function NodeTexts(sha: string -> string, leaves: seq<string>): multiset<string>
    requires leaves != []
    decreases |leaves|
  {
    if |leaves| == 1 then multiset{}
    else
      var k := Split(|leaves|);
      multiset{Joined(TreeRoot(sha, leaves[..k]), TreeRoot(sha, leaves[k..]))}
      + NodeTexts(sha, leaves[..k]) + NodeTexts(sha, leaves[k..])
  }

  function LeafTexts(parentActionId: string, tids: seq<string>): multiset<string> {
    if tids == [] then multiset{}
    else LeafTexts(parentActionId, tids[..|tids| - 1]) + multiset{Joined(parentActionId, tids[|tids| - 1])}
  }

  function Depth(n: nat): nat
    requires n >= 1
  {
    if n == 1 then 0
    else
      var l, r := Depth(Split(n)), Depth(n - Split(n));
      1 + if l >= r then l else r
  }

  function Pow2(h: nat): nat {
    if h == 0 then 1 else 2 * Pow2(h - 1)
  }

  lemma {:induction false} SplitIsPowerOfTwo(n: nat)
    requires n >= 2
    ensures IsPowerOfTwo(Split(n))
  {
    if n > 2 { SplitIsPowerOfTwo((n + 1) / 2); }
  }

  /** Between `k` and `2k` there is one power of two to split at. */
  lemma {:induction false} SplitUnique(n: nat, k: nat)
    requires n >= 2 && IsPowerOfTwo(k) && k < n <= 2 * k
    ensures Split(n) == k
  {
    if n > 2 { SplitUnique((n + 1) / 2, k / 2); }
  }

  // ---------------------------------------------------------------- one level of the loop

  /** Pairs hashed left to right, an odd last node carried up unchanged. */
  function LevelUp(sha: string -> string, level: seq<string>): (nxt: seq<string>)
    ensures |nxt| == (|level| + 1) / 2
    decreases |level|
  {
    if |level| <= 1 then level
    else [MerkleParent(sha, level[0], level[1])] + LevelUp(sha, level[2..])
  }

  function LevelTexts(level: seq<string>): multiset<string>
    decreases |level|
  {
    if |level| <= 1 then multiset{}
    else multiset{Joined(level[0], level[1])} + LevelTexts(level[2..])
  }

  lemma {:induction false} LevelUpConcat(sha: string -> string, a: seq<string>, b: seq<string>)
    requires |a| % 2 == 0
    ensures LevelUp(sha, a + b) == LevelUp(sha, a) + LevelUp(sha, b)
    ensures LevelTexts(a + b) == LevelTexts(a) + LevelTexts(b)
    decreases |a|
  {
    hide *;
    if a == [] {
      assert a + b == b;
      NoLevel(sha);
    } else {
      assert (a + b)[2..] == a[2..] + b && (a + b)[0] == a[0] && (a + b)[1] == a[1];
      UnfoldLevel(sha, a + b);
      UnfoldLevel(sha, a);
      LevelUpConcat(sha, a[2..], b);
      assert [MerkleParent(sha, a[0], a[1])] + (LevelUp(sha, a[2..]) + LevelUp(sha, b))
          == [MerkleParent(sha, a[0], a[1])] + LevelUp(sha, a[2..]) + LevelUp(sha, b);
      assert multiset{Joined(a[0], a[1])} + (LevelTexts(a[2..]) + LevelTexts(b))
          == multiset{Joined(a[0], a[1])} + LevelTexts(a[2..]) + LevelTexts(b);
    }
  }

  lemma NoLevel(sha: string -> string)
    ensures LevelUp(sha, []) == [] && LevelTexts([]) == multiset{}
  {
  }

  lemma UnfoldLevel(sha: string -> string, level: seq<string>)
    requires |level| >= 2
    ensures LevelUp(sha, level) == [MerkleParent(sha, level[0], level[1])] + LevelUp(sha, level[2..])
    ensures LevelTexts(level) == multiset{Joined(level[0], level[1])} + LevelTexts(level[2..])
  {
    hide MerkleParent;
    hide Joined;
  }

  lemma UnfoldTree(sha: string -> string, leaves: seq<string>, k: nat)
    requires |leaves| >= 2 && k == Split(|leaves|)
    ensures TreeRoot(sha, leaves) == sha(Joined(TreeRoot(sha, leaves[..k]), TreeRoot(sha, leaves[k..])))
    ensures NodeTexts(sha, leaves)
            == multiset{Joined(TreeRoot(sha, leaves[..k]), TreeRoot(sha, leaves[k..]))}
               + NodeTexts(sha, leaves[..k]) + NodeTexts(sha, leaves[k..])
  {
  }

  lemma SplitHalves(n: nat)
    requires n > 2
    ensures Split(n) == 2 * Split((n + 1) / 2)
  {
  }

  lemma Bags(node: string, n: multiset<string>, m: multiset<string>, a: multiset<string>, b: multiset<string>,
             x: multiset<string>, y: multiset<string>)
    requires n == a + x && m == b + y
    ensures multiset{node} + n + m == (a + b) + (multiset{node} + x + y)
  {
  }

  lemma LevelUpOfOne(sha: string -> string, level: seq<string>)
    requires |level| == 1
    ensures LevelUp(sha, level) == level && LevelTexts(level) == multiset{}
  {
  }

  /** Hashing one level leaves the recursive root alone and spends exactly that level's share of the
      tree's inner nodes. */
  lemma {:induction false} LevelUpKeepsTree(sha: string -> string, level: seq<string>)
    requires |level| >= 2
    ensures TreeRoot(sha, LevelUp(sha, level)) == TreeRoot(sha, level)
    ensures NodeTexts(sha, level) == LevelTexts(level) + NodeTexts(sha, LevelUp(sha, level))
    decreases |level|
  {
    hide *;
    var n := |level|;
    if n == 2 {
      PairLevel(sha, level);
    } else {
      var k := Split(n);
      SplitHalves(n);
      var l, r := level[..k], level[k..];
      var up := LevelUp(sha, level);
      assert level == l + r;
      LevelUpConcat(sha, l, r);
      assert up[..k / 2] == LevelUp(sha, l) && up[k / 2..] == LevelUp(sha, r);
      LevelUpKeepsTree(sha, l);
      if |r| >= 2 {
        LevelUpKeepsTree(sha, r);
      } else {
        LevelUpOfOne(sha, r);
      }
      UnfoldTree(sha, level, k);
      UnfoldTree(sha, up, k / 2);
      assert Split(|up|) == k / 2 && TreeRoot(sha, up) == TreeRoot(sha, level);
      Bags(Joined(TreeRoot(sha, l), TreeRoot(sha, r)), NodeTexts(sha, l), NodeTexts(sha, r),
           LevelTexts(l), LevelTexts(r), NodeTexts(sha, LevelUp(sha, l)), NodeTexts(sha, LevelUp(sha, r)));
    }
  }

  lemma PairLevel(sha: string -> string, level: seq<string>)
    requires |level| == 2
    ensures TreeRoot(sha, LevelUp(sha, level)) == TreeRoot(sha, level)
    ensures NodeTexts(sha, level) == LevelTexts(level) + NodeTexts(sha, LevelUp(sha, level))
  {
    assert level[2..] == [] && level[..1] == [level[0]] && level[1..] == [level[1]];
    UnfoldTree(sha, level, 1);
  }

  lemma {:induction false} NodeCount(sha: string -> string, leaves: seq<string>)
    requires leaves != []
    ensures |NodeTexts(sha, leaves)| == |leaves| - 1
    decreases |leaves|
  {
    if |leaves| > 1 {
      var k := Split(|leaves|);
      NodeCount(sha, leaves[..k]);
      NodeCount(sha, leaves[k..]);
    }
  }

  lemma {:induction false} LeafCount(parentActionId: string, tids: seq<string>)
    ensures |LeafTexts(parentActionId, tids)| == |tids|
  {
    if tids != [] { LeafCount(parentActionId, tids[..|tids| - 1]); }
  }

  // ---------------------------------------------------------------- height

  /** One level halves the tree, rounding up. */
  lemma {:induction false} DepthHalves(n: nat)
    requires n >= 2
    ensures Depth(n) == 1 + Depth((n + 1) / 2)
  {
    hide Depth;
    if n == 2 {
      DepthOfTwo();
    } else {
      var k, m := Split(n), (n + 1) / 2;
      SplitHalves(n);
      hide Split;
      var j := Split(m);
      assert k == 2 * j && (k + 1) / 2 == j && (n - k + 1) / 2 == m - j;
      DepthHalves(k);
      UnfoldDepth(n);
      UnfoldDepth(m);
      assert Depth(k) == 1 + Depth(j);
      if n - k == 1 {
        DepthOfOne();
        assert m - j == 1;
      } else {
        DepthHalves(n - k);
        assert Depth(n - k) == 1 + Depth(m - j);
      }
    }
  }

  lemma DepthOfOne()
    ensures Depth(1) == 0
  {
  }

  lemma DepthOfTwo()
    ensures Depth(2) == 1 + Depth(1)
  {
    assert Split(2) == 1;
  }

  lemma UnfoldDepth(n: nat)
    requires n >= 2
    ensures Depth(n) == 1 + if Depth(Split(n)) >= Depth(n - Split(n)) then Depth(Split(n)) else Depth(n - Split(n))
  {
  }

  lemma {:induction false} DepthBounds(n: nat)
    requires n >= 1
    ensures n <= Pow2(Depth(n)) && (n > 1 ==> Pow2(Depth(n) - 1) < n)
  {
    hide *;
    DepthOfOne();
    if n == 1 {
      Pow2Unfold(0);
    } else {
      var k := Split(n);
      var l, r := Depth(k), Depth(n - k);
      UnfoldDepth(n);
      Pow2Unfold(Depth(n));
      SplitIsPowerOfTwo(n);
      DepthOfPower(k);
      DepthBounds(n - k);
      if l < r { Pow2Monotone(l, r - 1); }
    }
  }

  lemma Pow2Unfold(h: nat)
    ensures Pow2(h) == if h == 0 then 1 else 2 * Pow2(h - 1)
  {
  }

  lemma {:induction false} DepthOfPower(k: nat)
    requires IsPowerOfTwo(k)
    ensures Pow2(Depth(k)) == k
  {
    hide *;
    HalfPower(k);
    if k == 1 {
      DepthOfOne();
      Pow2Unfold(0);
    } else {
      DepthHalves(k);
      DepthOfPower(k / 2);
      Pow2Unfold(Depth(k));
    }
  }

  lemma HalfPower(k: nat)
    requires IsPowerOfTwo(k)
    ensures k >= 1 && (k > 1 ==> IsPowerOfTwo(k / 2) && k == 2 * (k / 2) && (k + 1) / 2 == k / 2)
  {
  }

  lemma {:induction false} Pow2Monotone(a: nat, b: nat)
    requires a <= b
    ensures Pow2(a) <= Pow2(b)
  {
    if a < b { Pow2Monotone(a, b - 1); }
  }

  // ---------------------------------------------------------------- the construction

  method HashLeaves(sha: string -> string, parentActionId: string, tids: seq<string>)
    returns (leaves: seq<string>, ghost hashed: multiset<string>)
    ensures leaves == Leaves(sha, parentActionId, tids) && hashed == LeafTexts(parentActionId, tids)
  {
    leaves, hashed := [], multiset{};
    for i := 0 to |tids|
      invariant leaves == Leaves(sha, parentActionId, tids[..i])
      invariant hashed == LeafTexts(parentActionId, tids[..i])
    {
      leaves := leaves + [sha(Joined(parentActionId, tids[i]))];
      hashed := hashed + multiset{Joined(parentActionId, tids[i])};
      assert tids[..i + 1][..i] == tids[..i];
    }
    assert tids[..|tids|] == tids;
  }

  method HashLevel(sha: string -> string, level: seq<string>) returns (nxt: seq<string>, ghost hashed: multiset<string>)
    ensures nxt == LevelUp(sha, level) && hashed == LevelTexts(level)
  {
    hide LevelUp;
    hide LevelTexts;
    hide MerkleParent;
    hide Joined;
    nxt, hashed := [], multiset{};
    var i := 0;
    ghost var rest := level;
    while i < |level|
      invariant 0 <= i <= |level| + 1
      invariant rest == if i <= |level| then level[i..] else []
      invariant nxt + LevelUp(sha, rest) == LevelUp(sha, level)
      invariant hashed + LevelTexts(rest) == LevelTexts(level)
    {
      if i + 1 < |level| {
        UnfoldLevel(sha, rest);
        assert rest[2..] == level[i + 2..];
        ConcatAssociates(nxt, [MerkleParent(sha, rest[0], rest[1])], LevelUp(sha, rest[2..]));
        RegroupBags(hashed, multiset{Joined(rest[0], rest[1])}, LevelTexts(rest[2..]));
        nxt := nxt + [MerkleParent(sha, level[i], level[i + 1])];
        hashed := hashed + multiset{Joined(level[i], level[i + 1])};
        rest := rest[2..];
      } else {
        LevelUpOfOne(sha, rest);
        NoLevel(sha);
        assert rest == [level[i]];
        nxt := nxt + [level[i]];
        rest := [];
      }
      i := i + 2;
    }
    NoLevel(sha);
  }

  lemma RegroupBags(a: multiset<string>, b: multiset<string>, c: multiset<string>)
    ensures a + (b + c) == a + b + c
  {
  }

  lemma OneLeaf(sha: string -> string, level: seq<string>)
    requires |level| == 1
    ensures TreeRoot(sha, level) == level[0] && NodeTexts(sha, level) == multiset{} && Depth(1) == 0
  {
  }

  /** The loop computes the recursive tree's root and depth; `hashed` is the bag of every text it hashes. */
  method ConstructSiblingLedgerRoot(sha: string -> string, parentActionId: string, tids: seq<string>)
    returns (root: MerkleRoot, ghost hashed: multiset<string>)
    ensures root.leafCount == |tids|
    ensures tids == [] ==> root.rootHash == sha("") && root.treeHeight == 0 && hashed == multiset{""}
    ensures tids != [] ==>
              var leaves := Leaves(sha, parentActionId, tids);
              && root.rootHash == TreeRoot(sha, leaves)
              && root.treeHeight == Depth(|tids|)
              && hashed == LeafTexts(parentActionId, tids) + NodeTexts(sha, leaves)
  {
    var leaves;
    hide *;
    leaves, hashed := HashLeaves(sha, parentActionId, tids);
    var leafCount := |leaves|;
    if leafCount == 0 {
      return MerkleRoot(sha(""), 0, 0), multiset{""};
    }
    var height, level := 0, leaves;
    ghost var target := hashed + NodeTexts(sha, leaves);
    while |level| > 1
      invariant level != []
      invariant TreeRoot(sha, level) == TreeRoot(sha, leaves)
      invariant height + Depth(|level|) == Depth(|leaves|)
      invariant hashed + NodeTexts(sha, level) == target
      decreases |level|
    {
      var nxt;
      ghost var spent;
      nxt, spent := HashLevel(sha, level);
      LevelUpKeepsTree(sha, level);
      DepthHalves(|level|);
      RegroupBags(hashed, spent, NodeTexts(sha, nxt));
      hashed := hashed + spent;
      level := nxt;
      height := height + 1;
    }
    OneLeaf(sha, level);
    root := MerkleRoot(level[0], height, leafCount);
  }

  /** `n` leaves cost `n` leaf hashes and `n - 1` parent hashes, and the reported height is the least
      one whose full tree holds them. */
  lemma HashesAndHeight(sha: string -> string, parentActionId: string, tids: seq<string>)
    requires tids != []
    ensures |LeafTexts(parentActionId, tids) + NodeTexts(sha, Leaves(sha, parentActionId, tids))| == 2 * |tids| - 1
    ensures |NodeTexts(sha, Leaves(sha, parentActionId, tids))| == |tids| - 1
    ensures |tids| <= Pow2(Depth(|tids|)) && (|tids| > 1 ==> Pow2(Depth(|tids|) - 1) < |tids|)
  {
    hide *;
    LeafCount(parentActionId, tids);
    NodeCount(sha, Leaves(sha, parentActionId, tids));
    DepthBounds(|tids|);
  }

  // ---------------------------------------------------------------- binding

  /** Digests hold no unit separator (they are hex). */
  ghost predicate DigestsSeparatorFree(sha: string -> string) {
    forall s :: Free(UNIT_SEPARATOR, sha(s))
  }

  /** Joining is unambiguous when both first parts are separator-free, or when they are the same. */
  lemma JoinedInjective(a: string, x: string, b: string, y: string)
    requires Joined(a, x) == Joined(b, y)
    requires (Free(UNIT_SEPARATOR, a) && Free(UNIT_SEPARATOR, b)) || a == b
    ensures a == b && x == y
  {
    HeadsAgree(UNIT_SEPARATOR, a, x, b, y);
  }

  /** A colliding pair whose members come from two given bags of hashed texts. */
  ghost predicate CollisionBetween(sha: string -> string, xs: multiset<string>, ys: multiset<string>) {
    exists a, b :: a in xs && b in ys && Collide(sha, a, b)
  }

  lemma CollisionWidens(sha: string -> string, xs: multiset<string>, ys: multiset<string>,
                        us: multiset<string>, vs: multiset<string>)
    requires CollisionBetween(sha, xs, ys) && xs <= us && ys <= vs
    ensures CollisionBetween(sha, us, vs)
  {
    var a, b :| a in xs && b in ys && Collide(sha, a, b);
    assert a in us && b in vs;
  }

  lemma TreeRootSeparatorFree(sha: string -> string, ls: seq<string>)
    requires ls != [] && DigestsSeparatorFree(sha) && AllFree(UNIT_SEPARATOR, ls)
    ensures Free(UNIT_SEPARATOR, TreeRoot(sha, ls))
  {
  }

  lemma RootsCollide(sha: string -> string, xs: seq<string>, ys: seq<string>, a: string, b: string)
    requires xs != [] && ys != []
    requires a in NodeTexts(sha, xs) && b in NodeTexts(sha, ys) && a != b && sha(a) == sha(b)
    ensures CollisionBetween(sha, NodeTexts(sha, xs), NodeTexts(sha, ys))
  {
    hide NodeTexts;
    assert Collide(sha, a, b);
  }

  lemma TreeOfOne(sha: string -> string, xs: seq<string>)
    requires |xs| == 1
    ensures xs == [TreeRoot(sha, xs)]
  {
  }

  lemma SlicesFree(ls: seq<string>, k: nat)
    requires k <= |ls| && AllFree(UNIT_SEPARATOR, ls)
    ensures AllFree(UNIT_SEPARATOR, ls[..k]) && AllFree(UNIT_SEPARATOR, ls[k..])
  {
  }

  lemma {:induction false} TreeBinds(sha: string -> string, xs: seq<string>, ys: seq<string>)
    requires DigestsSeparatorFree(sha) && AllFree(UNIT_SEPARATOR, xs) && AllFree(UNIT_SEPARATOR, ys)
    requires xs != [] && |xs| == |ys| && TreeRoot(sha, xs) == TreeRoot(sha, ys)
    ensures xs == ys || CollisionBetween(sha, NodeTexts(sha, xs), NodeTexts(sha, ys))
    decreases |xs|
  {
    hide *;
    if |xs| == 1 {
      TreeOfOne(sha, xs);
      TreeOfOne(sha, ys);
    } else {
      var k := Split(|xs|);
      var xl, xr, yl, yr := xs[..k], xs[k..], ys[..k], ys[k..];
      ForkBinds(sha, xs, ys, k);
      SlicesFree(xs, k);
      SlicesFree(ys, k);
      if !CollisionBetween(sha, NodeTexts(sha, xs), NodeTexts(sha, ys)) {
        TreeBinds(sha, xl, yl);
        TreeBinds(sha, xr, yr);
        HalvesBind(sha, xs, ys, k);
      }
    }
  }

  /** Equal roots over a fork: the halves' roots agree, or the two node texts collide. */
  lemma ForkBinds(sha: string -> string, xs: seq<string>, ys: seq<string>, k: nat)
    requires DigestsSeparatorFree(sha) && AllFree(UNIT_SEPARATOR, xs) && AllFree(UNIT_SEPARATOR, ys)
    requires |xs| == |ys| >= 2 && k == Split(|xs|) && TreeRoot(sha, xs) == TreeRoot(sha, ys)
    ensures CollisionBetween(sha, NodeTexts(sha, xs), NodeTexts(sha, ys))
            || (TreeRoot(sha, xs[..k]) == TreeRoot(sha, ys[..k]) && TreeRoot(sha, xs[k..]) == TreeRoot(sha, ys[k..]))
  {
    hide *;
    UnfoldTree(sha, xs, k);
    UnfoldTree(sha, ys, k);
    NodeTextsParts(sha, xs, k);
    NodeTextsParts(sha, ys, k);
    SlicesFree(xs, k);
    SlicesFree(ys, k);
    var a := Joined(TreeRoot(sha, xs[..k]), TreeRoot(sha, xs[k..]));
    var b := Joined(TreeRoot(sha, ys[..k]), TreeRoot(sha, ys[k..]));
    if a != b {
      RootsCollide(sha, xs, ys, a, b);
    } else {
      TreeRootSeparatorFree(sha, xs[..k]);
      TreeRootSeparatorFree(sha, ys[..k]);
      JoinedInjective(TreeRoot(sha, xs[..k]), TreeRoot(sha, xs[k..]), TreeRoot(sha, ys[..k]), TreeRoot(sha, ys[k..]));
    }
  }

  lemma NodeTextsParts(sha: string -> string, leaves: seq<string>, k: nat)
    requires |leaves| >= 2 && k == Split(|leaves|)
    ensures NodeTexts(sha, leaves[..k]) <= NodeTexts(sha, leaves)
    ensures NodeTexts(sha, leaves[k..]) <= NodeTexts(sha, leaves)
    ensures Joined(TreeRoot(sha, leaves[..k]), TreeRoot(sha, leaves[k..])) in NodeTexts(sha, leaves)
  {
    UnfoldTree(sha, leaves, k);
    hide *;
  }

  lemma HalvesBind(sha: string -> string, xs: seq<string>, ys: seq<string>, k: nat)
    requires |xs| == |ys| >= 2 && k == Split(|xs|)
    requires xs[..k] == ys[..k] || CollisionBetween(sha, NodeTexts(sha, xs[..k]), NodeTexts(sha, ys[..k]))
    requires xs[k..] == ys[k..] || CollisionBetween(sha, NodeTexts(sha, xs[k..]), NodeTexts(sha, ys[k..]))
    ensures xs == ys || CollisionBetween(sha, NodeTexts(sha, xs), NodeTexts(sha, ys))
  {
    hide *;
    NodeTextsParts(sha, xs, k);
    NodeTextsParts(sha, ys, k);
    assert xs == xs[..k] + xs[k..] && ys == ys[..k] + ys[k..];
    if xs[..k] != ys[..k] {
      CollisionWidens(sha, NodeTexts(sha, xs[..k]), NodeTexts(sha, ys[..k]), NodeTexts(sha, xs), NodeTexts(sha, ys));
    } else if xs[k..] != ys[k..] {
      CollisionWidens(sha, NodeTexts(sha, xs[k..]), NodeTexts(sha, ys[k..]), NodeTexts(sha, xs), NodeTexts(sha, ys));
    }
  }

  lemma {:induction false} LeafTextIn(parentActionId: string, tids: seq<string>, i: nat)
    requires i < |tids|
    ensures Joined(parentActionId, tids[i]) in LeafTexts(parentActionId, tids)
  {
    if i < |tids| - 1 { LeafTextIn(parentActionId, tids[..|tids| - 1], i); }
  }

  lemma LeavesBind(sha: string -> string, parentActionId: string, xs: seq<string>, ys: seq<string>)
    requires xs != ys && Leaves(sha, parentActionId, xs) == Leaves(sha, parentActionId, ys)
    ensures CollisionBetween(sha, LeafTexts(parentActionId, xs), LeafTexts(parentActionId, ys))
  {
    hide LeafTexts;
    hide Joined;
    var lx, ly := Leaves(sha, parentActionId, xs), Leaves(sha, parentActionId, ys);
    assert |xs| == |lx| == |ly| == |ys|;
    var i :| 0 <= i < |xs| && xs[i] != ys[i];
    assert lx[i] == ly[i];
    LeafTextIn(parentActionId, xs, i);
    LeafTextIn(parentActionId, ys, i);
    if Joined(parentActionId, xs[i]) == Joined(parentActionId, ys[i]) {
      JoinedInjective(parentActionId, xs[i], parentActionId, ys[i]);
    }
    assert Collide(sha, Joined(parentActionId, xs[i]), Joined(parentActionId, ys[i]));
  }

  /** Same parent, same number of siblings, same root: the same siblings in the same order, or two of
      the texts actually hashed for the two roots collide. */
  lemma RootBindsSiblings(sha: string -> string, parentActionId: string, xs: seq<string>, ys: seq<string>)
    requires DigestsSeparatorFree(sha) && xs != [] && |xs| == |ys|
    requires TreeRoot(sha, Leaves(sha, parentActionId, xs)) == TreeRoot(sha, Leaves(sha, parentActionId, ys))
    ensures xs == ys
            || CollisionBetween(sha, LeafTexts(parentActionId, xs) + NodeTexts(sha, Leaves(sha, parentActionId, xs)),
                                LeafTexts(parentActionId, ys) + NodeTexts(sha, Leaves(sha, parentActionId, ys)))
  {
    hide TreeRoot;
    hide NodeTexts;
    hide LeafTexts;
    hide CollisionBetween;
    var lx, ly := Leaves(sha, parentActionId, xs), Leaves(sha, parentActionId, ys);
    var tx, ty := LeafTexts(parentActionId, xs), LeafTexts(parentActionId, ys);
    TreeBinds(sha, lx, ly);
    if lx != ly {
      CollisionWidens(sha, NodeTexts(sha, lx), NodeTexts(sha, ly), tx + NodeTexts(sha, lx), ty + NodeTexts(sha, ly));
    } else if xs != ys {
      LeavesBind(sha, parentActionId, xs, ys);
      CollisionWidens(sha, tx, ty, tx + NodeTexts(sha, lx), ty + NodeTexts(sha, ly));
    }
  }

  // ---------------------------------------------------------------- the hashed texts written out

  /** The leaf of a sibling is the digest of the parent id, a unit separator and that sibling. */
  lemma LeafIs(sha: string -> string, parentActionId: string, tids: seq<string>, i: nat)
    requires i < |tids|
    ensures |Leaves(sha, parentActionId, tids)| == |tids|
    ensures Leaves(sha, parentActionId, tids)[i] == sha(parentActionId + [0x1F as char] + tids[i])
  {
  }

  lemma LeavesSplit(sha: string -> string, parentActionId: string, tids: seq<string>, k: nat)
    requires k <= |tids|
    ensures Leaves(sha, parentActionId, tids)[..k] == Leaves(sha, parentActionId, tids[..k])
    ensures Leaves(sha, parentActionId, tids)[k..] == Leaves(sha, parentActionId, tids[k..])
  {
    hide Joined;
  }

  function RootOf(sha: string -> string, parentActionId: string, tids: seq<string>): string
    requires tids != []
  {
    TreeRoot(sha, Leaves(sha, parentActionId, tids))
  }

  /** One sibling's leaf is the root.  More are split at the power of two that leaves the first part no
      smaller than the rest, and the root is the digest of the first part's root, a unit separator and the
      root of the rest. */
  lemma RootIs(sha: string -> string, parentActionId: string, tids: seq<string>, k: nat)
    requires |tids| == 1 || (IsPowerOfTwo(k) && k < |tids| <= 2 * k)
    ensures |tids| == 1 ==> RootOf(sha, parentActionId, tids) == sha(parentActionId + [0x1F as char] + tids[0])
    ensures |tids| > 1 ==>
              && 0 < k < |tids|
              && RootOf(sha, parentActionId, tids)
                 == sha(RootOf(sha, parentActionId, tids[..k]) + [0x1F as char]
                        + RootOf(sha, parentActionId, tids[k..]))
  {
    hide Joined;
    hide TreeRoot;
    hide Leaves;
    hide Split;
    hide IsPowerOfTwo;
    var leaves := Leaves(sha, parentActionId, tids);
    if |tids| == 1 {
      OneLeaf(sha, leaves);
      LeafIs(sha, parentActionId, tids, 0);
    } else {
      PowerIsPositive(k);
      SplitUnique(|tids|, k);
      UnfoldTree(sha, leaves, k);
      LeavesSplit(sha, parentActionId, tids, k);
      JoinedIs(TreeRoot(sha, leaves[..k]), TreeRoot(sha, leaves[k..]));
    }
  }

  lemma PowerIsPositive(k: nat)
    requires IsPowerOfTwo(k)
    ensures k >= 1
  {
  }

  lemma JoinedIs(left: string, right: string)
    ensures Joined(left, right) == left + [0x1F as char] + right
  {
  }

  /** The odd sibling of three is carried up: its own leaf stands beside the node of the other two. */
  lemma OddSiblingCarriedUp(sha: string -> string, p: string, a: string, b: string, c: string)
    ensures var sep := [0x1F as char];
            RootOf(sha, p, [a, b, c])
            == sha(sha(sha(p + sep + a) + sep + sha(p + sep + b)) + sep + sha(p + sep + c))
  {
    hide *;
    var three, two := [a, b, c], [a, b];
    assert three[..2] == two && three[2..] == [c] && two[..1] == [a] && two[1..] == [b];
    SmallPowers();
    RootIs(sha, p, three, 2);
    RootIs(sha, p, two, 1);
    RootIs(sha, p, [a], 0);
    RootIs(sha, p, [b], 0);
    RootIs(sha, p, [c], 0);
  }

  lemma SmallPowers()
    ensures IsPowerOfTwo(1) && IsPowerOfTwo(2)
  {
  }

  /** Each sibling's text, after the parent id and a unit separator. */
  function UnderParent(parentActionId: string, tids: seq<string>): (texts: seq<string>)
    ensures |texts| == |tids|
    ensures forall i | 0 <= i < |tids| :: texts[i] == parentActionId + [0x1F as char] + tids[i]
  {
    seq(|tids|, i requires 0 <= i < |tids| => parentActionId + [0x1F as char] + tids[i])
  }

  /** The texts hashed for the leaves, one for each sibling. */
  lemma {:induction false} LeafTextsAre(parentActionId: string, tids: seq<string>)
    ensures LeafTexts(parentActionId, tids) == multiset(UnderParent(parentActionId, tids))
  {
    if tids != [] {
      var (front, t) := (tids[..|tids| - 1], tids[|tids| - 1]);
      LeafTextsAre(parentActionId, front);
      JoinedIs(parentActionId, t);
      assert UnderParent(parentActionId, tids)
          == UnderParent(parentActionId, front) + [parentActionId + [0x1F as char] + t];
      hide Joined;
    }
  }

  /** The texts hashed for the inner nodes: two roots each, set off by a unit separator. */
  lemma NodeTextsAre(sha: string -> string, leaves: seq<string>, k: nat)
    requires |leaves| >= 2 && IsPowerOfTwo(k) && k < |leaves| <= 2 * k
    ensures NodeTexts(sha, leaves)
         == multiset{TreeRoot(sha, leaves[..k]) + [0x1F as char] + TreeRoot(sha, leaves[k..])}
            + NodeTexts(sha, leaves[..k]) + NodeTexts(sha, leaves[k..])
  {
    hide *;
    PowerIsPositive(k);
    SplitUnique(|leaves|, k);
    UnfoldTree(sha, leaves, k);
    JoinedIs(TreeRoot(sha, leaves[..k]), TreeRoot(sha, leaves[k..]));
  }

  // ---------------------------------------------------------------- the fan-out close entry

  datatype TopologyPattern =
    | SingleThreadedLinear | OrchestratorWorkers | DecentralizedHandoff
    | HierarchicalDelegation | EvaluatorOptimizer | Parallelization

  datatype CascadeDecision = Completed | CascadeCancelled | PausedOnFailure

  datatype ParentFanoutCloseEntry = ParentFanoutCloseEntry(
    actionId: string, fanoutTopology: TopologyPattern, siblingLedgerRoot: MerkleRoot,
    cascadeDecision: CascadeDecision, timestamp: string, priorEventHash: string)

  method ConstructParentFanoutCloseEntry(
    sha: string -> string, parentActionId: string, topology: TopologyPattern, tids: seq<string>,
    decision: CascadeDecision, timestamp: string, priorEventHash: string)
    returns (entry: ParentFanoutCloseEntry)
    ensures entry.actionId == parentActionId && entry.fanoutTopology == topology
    ensures entry.cascadeDecision == decision && entry.timestamp == timestamp && entry.priorEventHash == priorEventHash
    ensures entry.siblingLedgerRoot.leafCount == |tids|
    ensures tids != [] ==> entry.siblingLedgerRoot.rootHash == TreeRoot(sha, Leaves(sha, parentActionId, tids))
                           && entry.siblingLedgerRoot.treeHeight == Depth(|tids|)
    ensures tids == [] ==> entry.siblingLedgerRoot == MerkleRoot(sha(""), 0, 0)
  {
    var root, _ := ConstructSiblingLedgerRoot(sha, parentActionId, tids);
    entry := ParentFanoutCloseEntry(parentActionId, topology, root, decision, timestamp, priorEventHash);
  }
}
