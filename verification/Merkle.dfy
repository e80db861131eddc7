/** The Merkle tree of until/merkle: construction, proof paths and their validation. The hash
    is any function on byte strings; a Go nil node is None. */
module Merkle {
  import opened Bytes
  import opened Options

  datatype Node =
    | Leaf(data: bytes, root: bytes)
    | Branch(left: Node, right: Node, root: bytes)

  datatype ProofElem = ProofElem(isLeft: bool, nodeRoot: bytes, siblingRoot: bytes)

  type Hash = bytes -> bytes

  // ---------------------------------------------------------------- the split point

  /** Go's & on non-negative integers, bit by bit. */
  function BitAnd(a: nat, b: nat): nat
    decreases a
  {
    if a == 0 then 0 else 2 * BitAnd(a / 2, b / 2) + (a % 2) * (b % 2)
  }

  lemma {:induction false} BitAndSelf(a: nat)
    ensures BitAnd(a, a) == a
  {
    if a != 0 {
      BitAndSelf(a / 2);
      assert (a % 2) * (a % 2) == a % 2;
    }
  }

  /** n & (n-1) drops the lowest set bit, so it is smaller than n. */
  lemma {:induction false} ClearLowestBit(n: nat)
    requires n > 0
    ensures BitAnd(n, n - 1) == if n % 2 == 1 then n - 1 else 2 * BitAnd(n / 2, n / 2 - 1)
    ensures BitAnd(n, n - 1) < n
  {
    if n % 2 == 1 {
      BitAndSelf(n / 2);
    } else {
      ClearLowestBit(n / 2);
    }
  }

  function PowerOfTwo0(n: nat): nat
    requires n > 0
    decreases n
  {
    ClearLowestBit(n);
    if BitAnd(n, n - 1) == 0 then n else PowerOfTwo0(BitAnd(n, n - 1))
  }

  function PowerOfTwo(n: nat): nat
    requires n > 0
  {
    if BitAnd(n, n - 1) == 0 then n / 2 else PowerOfTwo0(n)
  }

  ghost predicate IsPowerOfTwo(p: nat) {
    exists k: nat :: p == Power(2, k)
  }

  /** k is the largest power of two strictly below n: the split rule of RFC 6962, section 2.1. */
  ghost predicate IsSplitPoint(n: nat, k: nat) {
    IsPowerOfTwo(k) && k < n <= 2 * k
  }

  /** The value of the highest set bit of n. */
  ghost function TopBit(n: nat): nat
    requires n > 0
  {
    if n == 1 then 1 else 2 * TopBit(n / 2)
  }

  lemma {:induction false} TopBitIsPower(n: nat)
    requires n > 0
    ensures IsPowerOfTwo(TopBit(n)) && TopBit(n) <= n < 2 * TopBit(n)
  {
    if n == 1 {
      assert TopBit(n) == Power(2, 0);
    } else {
      TopBitIsPower(n / 2);
      var k: nat :| TopBit(n / 2) == Power(2, k);
      assert TopBit(n) == Power(2, k + 1);
    }
  }

  lemma {:induction false} ClearKeepsTopBit(n: nat)
    requires n > 0
    ensures BitAnd(n, n - 1) == 0 ==> n == TopBit(n)
    ensures BitAnd(n, n - 1) != 0 ==> TopBit(BitAnd(n, n - 1)) == TopBit(n)
  {
    ClearLowestBit(n);
    if n % 2 == 1 {
      assert n > 1 ==> TopBit(n - 1) == 2 * TopBit((n - 1) / 2) && (n - 1) / 2 == n / 2;
    } else {
      var m := n / 2;
      ClearKeepsTopBit(m);
      var b := BitAnd(m, m - 1);
      assert BitAnd(n, n - 1) == 2 * b;
      assert b > 0 ==> TopBit(2 * b) == 2 * TopBit(b);
    }
  }

  lemma {:induction false} PowerOfTwo0IsTopBit(n: nat)
    requires n > 0
    ensures PowerOfTwo0(n) == TopBit(n)
    decreases n
  {
    ClearLowestBit(n);
    ClearKeepsTopBit(n);
    if BitAnd(n, n - 1) != 0 {
      PowerOfTwo0IsTopBit(BitAnd(n, n - 1));
    }
  }

  lemma {:induction false} PowersApart(j: nat, k: nat)
    requires Power(2, j) < Power(2, k)
    ensures 2 * Power(2, j) <= Power(2, k)
    decreases k
  {
    PowerPositive(2, j);
    if j > 0 {
      PowersApart(j - 1, k - 1);
    }
  }

  lemma SplitPointIsUnique(n: nat, j: nat, k: nat)
    requires IsSplitPoint(n, j) && IsSplitPoint(n, k)
    ensures j == k
  {
    var a: nat :| j == Power(2, a);
    var b: nat :| k == Power(2, b);
    if j < k {
      PowersApart(a, b);
    } else if k < j {
      PowersApart(b, a);
    }
  }

  lemma TopBitSplits(n: nat)
    requires n >= 2
    ensures IsSplitPoint(n, PowerOfTwo(n))
  {
    ClearKeepsTopBit(n);
    if BitAnd(n, n - 1) == 0 {
      TopBitIsPower(n / 2);
      assert n == 2 * TopBit(n / 2);
    } else {
      PowerOfTwo0IsTopBit(n);
      TopBitIsPower(n);
      assert n != TopBit(n) by {
        if n == TopBit(n) {
          PowerClears(n);
          assert false;
        }
      }
    }
  }

  lemma {:induction false} PowerClears(n: nat)
    requires n > 0 && n == TopBit(n)
    ensures BitAnd(n, n - 1) == 0
  {
    ClearLowestBit(n);
    if n > 1 {
      PowerClears(n / 2);
    }
  }

  /** The bit trick finds the largest power of two strictly below n, for every n >= 2. */
  lemma PowerOfTwoIsSplitPoint(n: nat)
    requires n >= 2
    ensures IsSplitPoint(n, PowerOfTwo(n))
    ensures forall k: nat :: IsSplitPoint(n, k) ==> k == PowerOfTwo(n)
  {
    TopBitSplits(n);
    forall k: nat | IsSplitPoint(n, k) ensures k == PowerOfTwo(n) {
      SplitPointIsUnique(n, k, PowerOfTwo(n));
    }
  }

  // ---------------------------------------------------------------- construction

  function MkLeaf(h: Hash, data: bytes): Option<Node> {
    if data == [] then None else Some(Leaf(data, h(data)))
  }

  function MkBranch(h: Hash, l: Option<Node>, r: Option<Node>): Option<Node> {
    if l.None? || r.None? then None
    else Some(Branch(l.value, r.value, h(l.value.root + r.value.root)))
  }

  function MkMerkleTreeRoot(h: Hash, data: seq<bytes>): Option<Node>
    requires data != []
    decreases |data|
  {
    if |data| == 1 then MkLeaf(h, data[0])
    else
      PowerOfTwoIsSplitPoint(|data|);
      var i := PowerOfTwo(|data|);
      MkBranch(h, MkMerkleTreeRoot(h, data[..i]), MkMerkleTreeRoot(h, data[i..]))
  }

  function New(h: Hash, data: seq<bytes>): Option<Node> {
    if data == [] then None else MkMerkleTreeRoot(h, data)
  }

  function Leaves(t: Node): seq<bytes> {
    match t
    case Leaf(d, _) => [d]
    case Branch(l, r, _) => Leaves(l) + Leaves(r)
  }

  /** Every stored digest is the one its position asks for. */
  ghost predicate WellHashed(h: Hash, t: Node) {
    match t
    case Leaf(d, root) => root == h(d)
    case Branch(l, r, root) => root == h(l.root + r.root) && WellHashed(h, l) && WellHashed(h, r)
  }

  /** The tree hash as a recursive definition over the items, with the RFC's split rule. */
  ghost function TreeHash(h: Hash, items: seq<bytes>): bytes
    requires items != []
    decreases |items|
  {
    if |items| == 1 then h(items[0])
    else
      PowerOfTwoIsSplitPoint(|items|);
      var k: nat :| IsSplitPoint(|items|, k);
      h(TreeHash(h, items[..k]) + TreeHash(h, items[k..]))
  }

  ghost predicate NoEmptyItem(items: seq<bytes>) {
    forall i :: 0 <= i < |items| ==> items[i] != []
  }

  lemma NoEmptyItemSplit(items: seq<bytes>, i: nat)
    requires i <= |items|
    ensures items == items[..i] + items[i..]
    ensures NoEmptyItem(items) <==> NoEmptyItem(items[..i]) && NoEmptyItem(items[i..])
  {
    var l, r := items[..i], items[i..];
    assert forall j :: 0 <= j < i ==> l[j] == items[j];
    assert forall j :: i <= j < |items| ==> r[j - i] == items[j];
  }

  lemma TreeHashSplits(h: Hash, items: seq<bytes>)
    requires |items| > 1
    ensures var i := PowerOfTwo(|items|);
            0 < i < |items| && TreeHash(h, items) == h(TreeHash(h, items[..i]) + TreeHash(h, items[i..]))
  {
    PowerOfTwoIsSplitPoint(|items|);
  }

  /** Construction succeeds exactly on lists of non-empty items; then the leaves in order are
      the items and the root is their tree hash. */
  lemma {:induction false} Construction(h: Hash, items: seq<bytes>)
    requires items != []
    ensures MkMerkleTreeRoot(h, items).Some? <==> NoEmptyItem(items)
    ensures NoEmptyItem(items) ==>
              var t := MkMerkleTreeRoot(h, items).value;
              Leaves(t) == items && WellHashed(h, t) && t.root == TreeHash(h, items)
    decreases |items|
  {
    if |items| > 1 {
      TreeHashSplits(h, items);
      var i := PowerOfTwo(|items|);
      Construction(h, items[..i]);
      Construction(h, items[i..]);
      NoEmptyItemSplit(items, i);
    }
  }

  // ---------------------------------------------------------------- proofs

  function LeftElem(t: Node): ProofElem
    requires t.Branch?
  {
    ProofElem(true, t.left.root, t.right.root)
  }

  function RightElem(t: Node): ProofElem
    requires t.Branch?
  {
    ProofElem(false, t.right.root, t.left.root)
  }

  /** One path for every leaf whose digest is `target`, one after the other. */
  function ConstructPath(proof: seq<ProofElem>, t: Node, target: bytes): seq<ProofElem>
    decreases t
  {
    match t
    case Leaf(_, root) => if root == target then proof else []
    case Branch(l, r, _) =>
      ConstructPath(proof + [LeftElem(t)], l, target) + ConstructPath(proof + [RightElem(t)], r, target)
  }

  function Step(h: Hash, e: ProofElem): bytes {
    h(StepInput(e))
  }

  function StepInput(e: ProofElem): bytes {
    if e.isLeft then e.nodeRoot + e.siblingRoot else e.siblingRoot + e.nodeRoot
  }

  function Validate(h: Hash, proof: seq<ProofElem>, root: bytes, leaf: bytes): bool
    decreases |proof|
  {
    if proof == [] then leaf == root
    else
      var e := proof[|proof| - 1];
      e.nodeRoot == leaf && Validate(h, proof[..|proof| - 1], root, Step(h, e))
  }

  datatype Verdict = Panics | Answer(found: bool)

  /** Asking for an empty item makes Go dereference a nil node. */
  function VerifyNode(h: Hash, t: Node, d: bytes): Verdict {
    match MkLeaf(h, d)
    case None => Panics
    case Some(node) => Answer(Validate(h, ConstructPath([], t, node.root), t.root, node.root))
  }

  // ---------------------------------------------------------------- what the hash must give

  ghost function HashedIn(t: Node): set<bytes> {
    match t
    case Leaf(d, _) => {d}
    case Branch(l, r, _) => {l.root + r.root} + HashedIn(l) + HashedIn(r)
  }

  /** No two of the strings in question share a digest (a hash to fixed-size digests cannot be
      injective on all strings). */
  ghost predicate CollisionFree(h: Hash, inputs: set<bytes>) {
    forall a, b :: a in inputs && b in inputs && h(a) == h(b) ==> a == b
  }

  ghost predicate DigestSize(h: Hash, size: nat) {
    forall x :: |h(x)| == size
  }

  ghost function Matches(t: Node, target: bytes): nat {
    match t
    case Leaf(_, root) => if root == target then 1 else 0
    case Branch(l, r, _) => Matches(l, target) + Matches(r, target)
  }

  lemma {:induction false} NoMatchNoPath(proof: seq<ProofElem>, t: Node, target: bytes)
    requires Matches(t, target) == 0
    ensures ConstructPath(proof, t, target) == []
    decreases t
  {
    if t.Branch? {
      NoMatchNoPath(proof + [LeftElem(t)], t.left, target);
      NoMatchNoPath(proof + [RightElem(t)], t.right, target);
    }
  }

  /** Validation of a concatenated path goes through the end of its last part. */
  lemma {:induction false} ValidateConcat(h: Hash, front: seq<ProofElem>, way: seq<ProofElem>,
                                          root: bytes, mid: bytes, leaf: bytes)
    requires Validate(h, way, mid, leaf)
    ensures Validate(h, front + way, root, leaf) == Validate(h, front, root, mid)
    decreases |way|
  {
    if way == [] {
      assert front + way == front;
    } else {
      var e := way[|way| - 1];
      ValidateConcat(h, front, way[..|way| - 1], root, mid, Step(h, e));
      assert (front + way)[..|front + way| - 1] == front + way[..|way| - 1];
    }
  }

  lemma OneStepUp(h: Hash, t: Node, e: ProofElem, way: seq<ProofElem>, target: bytes)
    requires t.Branch? && WellHashed(h, t) && (e == LeftElem(t) || e == RightElem(t))
    requires Validate(h, way, e.nodeRoot, target)
    ensures Validate(h, [e] + way, t.root, target)
  {
    ValidateConcat(h, [e], way, t.root, e.nodeRoot, target);
    assert [e][..0] == [];
  }

  ghost predicate EndsAt(path: seq<ProofElem>, target: bytes) {
    path != [] && path[|path| - 1].nodeRoot == target
  }

  /** With at least one match, the path ends with the way to the last match, which validation
      climbs up to t; before it stand the ways to the other matches, if any. */
  lemma {:induction false} PathClimbs(h: Hash, proof: seq<ProofElem>, t: Node, target: bytes)
    returns (others: seq<ProofElem>, way: seq<ProofElem>)
    requires WellHashed(h, t) && Matches(t, target) > 0
    requires proof == [] || EndsAt(proof, t.root)
    ensures ConstructPath(proof, t, target) == others + proof + way
    ensures Validate(h, way, t.root, target)
    ensures proof + way == [] || EndsAt(proof + way, target)
    ensures Matches(t, target) == 1 ==> others == []
    ensures Matches(t, target) > 1 ==> EndsAt(others, target)
    decreases t, 1
  {
    if t.Leaf? {
      others, way := [], [];
    } else {
      var el, er := LeftElem(t), RightElem(t);
      var lpath := ConstructPath(proof + [el], t.left, target);
      if Matches(t.right, target) == 0 {
        NoMatchNoPath(proof + [er], t.right, target);
        var w;
        others, w := PathClimbs(h, proof + [el], t.left, target);
        way := [el] + w;
        OneStepUp(h, t, el, w, target);
        Regroup([], others, proof, el, w);
      } else {
        var o, w := PathClimbs(h, proof + [er], t.right, target);
        if Matches(t.left, target) == 0 {
          NoMatchNoPath(proof + [el], t.left, target);
        } else {
          LastMatchEnds(h, proof + [el], t.left, target);
        }
        others := lpath + o;
        way := [er] + w;
        OneStepUp(h, t, er, w, target);
        Regroup(lpath, o, proof, er, w);
      }
    }
  }

  lemma Regroup(a: seq<ProofElem>, o: seq<ProofElem>, proof: seq<ProofElem>, e: ProofElem, w: seq<ProofElem>)
    ensures a + (o + (proof + [e]) + w) == (a + o) + proof + ([e] + w)
    ensures (o + (proof + [e]) + w) + [] == o + proof + ([e] + w)
    ensures proof + [e] + w == proof + ([e] + w)
  {
  }

  lemma {:induction false} LastMatchEnds(h: Hash, proof: seq<ProofElem>, t: Node, target: bytes)
    requires WellHashed(h, t) && Matches(t, target) > 0
    requires EndsAt(proof, t.root)
    ensures EndsAt(ConstructPath(proof, t, target), target)
    decreases t, 2
  {
    var o, w := PathClimbs(h, proof, t, target);
    assert o + proof + w == o + (proof + w);
  }

  // ---------------------------------------------------------------- completeness and soundness

  lemma {:induction false} MatchesAreOccurrences(h: Hash, t: Node, d: bytes)
    requires WellHashed(h, t) && CollisionFree(h, {d} + HashedIn(t))
    ensures Matches(t, h(d)) == multiset(Leaves(t))[d]
  {
    if t.Branch? {
      MatchesAreOccurrences(h, t.left, d);
      MatchesAreOccurrences(h, t.right, d);
    } else {
      assert t.data in HashedIn(t);
    }
  }

  lemma {:induction false} RootSize(h: Hash, size: nat, t: Node)
    requires WellHashed(h, t) && DigestSize(h, size)
    ensures |t.root| == size
  {
  }

  /** What the root of a branch is the digest of. */
  predicate IsRootInput(t: Node, d: bytes) {
    t.Branch? && d == t.left.root + t.right.root
  }

  lemma RootInputIff(h: Hash, t: Node, d: bytes)
    requires WellHashed(h, t) && t.Branch? && CollisionFree(h, {d} + HashedIn(t))
    ensures h(d) == t.root <==> IsRootInput(t, d)
  {
    assert t.left.root + t.right.root in HashedIn(t);
  }

  lemma ValidIffOneMatch(h: Hash, t: Node, x: bytes)
    requires WellHashed(h, t) && (t.Branch? ==> x != t.root)
    ensures Validate(h, ConstructPath([], t, x), t.root, x) <==> Matches(t, x) == 1
  {
    if Matches(t, x) == 0 {
      NoMatchNoPath([], t, x);
    } else {
      var others, way := PathClimbs(h, [], t, x);
      assert others + [] + way == others + way;
      ValidateConcat(h, others, way, t.root, t.root, x);
    }
  }

  /** Looking for the root itself, every part of the path leads back to where it began. */
  lemma {:induction false} RootAlwaysValid(h: Hash, proof: seq<ProofElem>, t: Node, x: bytes)
    requires WellHashed(h, t) && Validate(h, proof, x, t.root)
    ensures Validate(h, ConstructPath(proof, t, x), x, x)
    decreases t
  {
    if t.Branch? {
      OneStepDown(h, proof, t, LeftElem(t), x);
      OneStepDown(h, proof, t, RightElem(t), x);
      RootAlwaysValid(h, proof + [LeftElem(t)], t.left, x);
      RootAlwaysValid(h, proof + [RightElem(t)], t.right, x);
      ValidateConcat(h, ConstructPath(proof + [LeftElem(t)], t.left, x),
                     ConstructPath(proof + [RightElem(t)], t.right, x), x, x, x);
    }
  }

  lemma OneStepDown(h: Hash, proof: seq<ProofElem>, t: Node, e: ProofElem, root: bytes)
    requires t.Branch? && WellHashed(h, t) && (e == LeftElem(t) || e == RightElem(t))
    requires Validate(h, proof, root, t.root)
    ensures Validate(h, proof + [e], root, e.nodeRoot)
  {
    assert (proof + [e])[..|proof|] == proof;
  }

  /** VerifyNode answers yes exactly for the strings that occur once among the items - the paths of
      two equal items are glued together and do not validate - and for the two digests under the
      root put together. */
  lemma VerifyNodeIffOnce(h: Hash, t: Node, d: bytes)
    requires WellHashed(h, t) && CollisionFree(h, {d} + HashedIn(t))
    ensures VerifyNode(h, t, d) ==
            if d == [] then Panics else Answer(multiset(Leaves(t))[d] == 1 || IsRootInput(t, d))
  {
    if d != [] {
      MatchesAreOccurrences(h, t, d);
      if t.Branch? {
        RootInputIff(h, t, d);
      }
      if IsRootInput(t, d) {
        RootAlwaysValid(h, [], t, t.root);
      } else {
        ValidIffOneMatch(h, t, h(d));
      }
    }
  }

  /** For pairwise distinct items that is membership, but for those two digests. */
  lemma VerifyNodeIffMember(h: Hash, items: seq<bytes>, t: Node, d: bytes)
    requires New(h, items) == Some(t)
    requires forall i, j :: 0 <= i < j < |items| ==> items[i] != items[j]
    requires CollisionFree(h, {d} + HashedIn(t))
    ensures VerifyNode(h, t, d) == if d == [] then Panics else Answer(d in items || IsRootInput(t, d))
  {
    Construction(h, items);
    VerifyNodeIffOnce(h, t, d);
    OccursOnce(items, d);
  }

  lemma {:induction false} OccursOnce(items: seq<bytes>, d: bytes)
    requires forall i, j :: 0 <= i < j < |items| ==> items[i] != items[j]
    ensures multiset(items)[d] == if d in items then 1 else 0
  {
    if items != [] {
      OccursOnce(items[1..], d);
      assert items == [items[0]] + items[1..];
    }
  }

  ghost function PathInputs(path: seq<ProofElem>): set<bytes> {
    set i | 0 <= i < |path| :: StepInput(path[i])
  }

  lemma {:induction false} ValidateHead(h: Hash, e: ProofElem, rest: seq<ProofElem>, root: bytes, leaf: bytes)
    ensures Validate(h, [e] + rest, root, leaf)
       <==> Validate(h, rest, e.nodeRoot, leaf) && Step(h, e) == root
    decreases |rest|
  {
    var path := [e] + rest;
    if rest == [] {
      assert path[..0] == [];
    } else {
      var last := rest[|rest| - 1];
      assert path[..|path| - 1] == [e] + rest[..|rest| - 1];
      ValidateHead(h, e, rest[..|rest| - 1], root, Step(h, last));
    }
  }

  lemma {:induction false} ValidRootIsDigest(h: Hash, size: nat, path: seq<ProofElem>, root: bytes, d: bytes)
    requires DigestSize(h, size) && Validate(h, path, root, h(d))
    ensures |root| == size
  {
    if path != [] {
      assert path == [path[0]] + path[1..];
      ValidateHead(h, path[0], path[1..], root, h(d));
    }
  }

  /** No step of the path hashes the very bytes of an item: the digests of leaves and of branches
      can be told apart. */
  ghost predicate StepsApart(path: seq<ProofElem>, t: Node) {
    forall i :: 0 <= i < |path| ==> StepInput(path[i]) !in Leaves(t)
  }

  /** A path element that reaches the root of t steps up from one of its two children. */
  lemma StepFromChild(h: Hash, size: nat, t: Node, e: ProofElem)
    requires WellHashed(h, t) && DigestSize(h, size) && StepInput(e) !in Leaves(t)
    requires CollisionFree(h, {StepInput(e)} + HashedIn(t))
    requires |e.nodeRoot| == size && Step(h, e) == t.root
    ensures t.Branch? && e.nodeRoot == if e.isLeft then t.left.root else t.right.root
  {
    if t.Branch? {
      RootSize(h, size, t.left);
      RootSize(h, size, t.right);
      var s := t.left.root + t.right.root;
      assert s in HashedIn(t);
      assert StepInput(e)[..size] == s[..size] && StepInput(e)[size..] == s[size..];
    } else {
      LeafIsNoStep(h, t, e);
    }
  }

  lemma LeafIsNoStep(h: Hash, t: Node, e: ProofElem)
    requires t.Leaf? && WellHashed(h, t) && StepInput(e) !in Leaves(t)
    requires CollisionFree(h, {StepInput(e)} + HashedIn(t))
    ensures Step(h, e) != t.root
  {
    assert t.data in HashedIn(t) && Leaves(t)[0] == t.data;
  }

  lemma StepsApartBelow(t: Node, next: Node, path: seq<ProofElem>)
    requires t.Branch? && next in {t.left, t.right} && path != [] && StepsApart(path, t)
    ensures StepsApart(path[1..], next)
  {
    forall i | 0 <= i < |path| - 1 ensures StepInput(path[1..][i]) !in Leaves(next) {
      assert StepInput(path[i + 1]) !in Leaves(t);
    }
  }

  lemma RootIsHashed(h: Hash, t: Node, d: bytes)
    requires WellHashed(h, t) && CollisionFree(h, {d} + HashedIn(t)) && h(d) == t.root
    ensures d in HashedIn(t)
  {
    if t.Leaf? {
      assert t.data in HashedIn(t);
    } else {
      assert t.left.root + t.right.root in HashedIn(t);
    }
  }

  /** Whatever path is supplied, with siblings of any length: as long as its steps cannot be taken
      for items, only what the tree itself has hashed validates - an item, or the two digests under
      a branch. */
  lemma {:induction false} ValidateSound(h: Hash, size: nat, t: Node, path: seq<ProofElem>, d: bytes)
    requires WellHashed(h, t) && DigestSize(h, size) && StepsApart(path, t)
    requires CollisionFree(h, {d} + HashedIn(t) + PathInputs(path))
    requires Validate(h, path, t.root, h(d))
    ensures d in HashedIn(t)
    decreases |path|
  {
    if path == [] {
      NarrowCollisions(h, {d} + HashedIn(t) + PathInputs(path), {d} + HashedIn(t));
      RootIsHashed(h, t, d);
    } else {
      var e, rest := path[0], path[1..];
      assert path == [e] + rest;
      ValidateHead(h, e, rest, t.root, h(d));
      ValidRootIsDigest(h, size, rest, e.nodeRoot, d);
      assert StepInput(e) in PathInputs(path);
      StepFromChild(h, size, t, e);
      var next := if e.isLeft then t.left else t.right;
      StepsApartBelow(t, next, path);
      FewerInputs(t, path, d);
      NarrowCollisions(h, {d} + HashedIn(t) + PathInputs(path), {d} + HashedIn(next) + PathInputs(rest));
      ValidateSound(h, size, next, rest, d);
    }
  }

  /** What the tree has hashed is an item or as long as two digests. */
  lemma {:induction false} HashedIsItemOrPair(h: Hash, size: nat, t: Node, d: bytes)
    requires WellHashed(h, t) && DigestSize(h, size) && d in HashedIn(t)
    ensures d in Leaves(t) || |d| == 2 * size
  {
    if t.Branch? {
      RootSize(h, size, t.left);
      RootSize(h, size, t.right);
      if d in HashedIn(t.left) {
        HashedIsItemOrPair(h, size, t.left, d);
      } else if d in HashedIn(t.right) {
        HashedIsItemOrPair(h, size, t.right, d);
      }
    }
  }

  /** And all of it does validate, with the right path. */
  lemma {:induction false} HashedValidates(h: Hash, t: Node, d: bytes) returns (path: seq<ProofElem>)
    requires WellHashed(h, t) && d in HashedIn(t)
    ensures Validate(h, path, t.root, h(d))
  {
    path := [];
    if t.Branch? && d != t.left.root + t.right.root {
      if d in HashedIn(t.left) {
        var way := HashedValidates(h, t.left, d);
        OneStepUp(h, t, LeftElem(t), way, h(d));
        path := [LeftElem(t)] + way;
      } else {
        var way := HashedValidates(h, t.right, d);
        OneStepUp(h, t, RightElem(t), way, h(d));
        path := [RightElem(t)] + way;
      }
    }
  }

  /** Without telling steps from items it fails: one item that begins with the digest of d, and d
      validates in its tree. */
  lemma ForgedPath(h: Hash, d: bytes, s: bytes, item: bytes)
    requires item == h(d) + s && item != []
    ensures New(h, [item]) == Some(Leaf(item, h(item))) && Leaves(Leaf(item, h(item))) == [item]
    ensures Validate(h, [ProofElem(true, h(d), s)], h(item), h(d))
  {
    assert [ProofElem(true, h(d), s)][..0] == [];
  }

  lemma FewerInputs(t: Node, path: seq<ProofElem>, d: bytes)
    requires t.Branch? && path != []
    ensures PathInputs(path[1..]) <= PathInputs(path)
    ensures HashedIn(t.left) <= HashedIn(t) && HashedIn(t.right) <= HashedIn(t)
  {
    forall x | x in PathInputs(path[1..]) ensures x in PathInputs(path) {
      var i :| 0 <= i < |path| - 1 && x == StepInput(path[1..][i]);
      assert path[i + 1] == path[1..][i];
    }
  }

  lemma NarrowCollisions(h: Hash, big: set<bytes>, small: set<bytes>)
    requires CollisionFree(h, big) && small <= big
    ensures CollisionFree(h, small)
  {
  }
}
