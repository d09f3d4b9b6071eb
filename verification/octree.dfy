/** The low-memory octree itself: a root branch held in place, its three
    counters and its depth configuration, with the recursive walks that
    create, find and delete leaves and that write and read the binary
    streams. Every walk is proved against the value-level definitions in
    OctreeNodes and OctreeCodec. */
module LowMemOctree {
  import opened Util
  import opened OctreeKeys
  import opened OctreeNodes
  import opened OctreeCodec

  // ---------------------------------------------------------------------
  // Bookkeeping for children built one slot at a time

  lemma KidsSnocCounts<D>(kids: seq<Node<D>>, c: Node<D>)
    ensures Leaves(Branch(kids + [c])) == Leaves(Branch(kids)) + Leaves(c)
    ensures Branches(Branch(kids + [c])) == Branches(Branch(kids)) + Branches(c)
  {
    var ks := kids + [c];
    var l := seq(|kids|, j requires 0 <= j < |kids| => Leaves(kids[j]));
    var l' := seq(|ks|, j requires 0 <= j < |ks| => Leaves(ks[j]));
    assert l' == l + [Leaves(c)];
    SumSnoc(l, Leaves(c));
    var b := seq(|kids|, j requires 0 <= j < |kids| => Branches(kids[j]));
    var b' := seq(|ks|, j requires 0 <= j < |ks| => Branches(ks[j]));
    assert b' == b + [Branches(c)];
    SumSnoc(b, Branches(c));
  }

  lemma PartsSnoc<D>(kids: seq<Node<D>>, c: Node<D>)
    ensures StructureParts(kids + [c]) == StructureParts(kids) + [EncodeStructure(c)]
    ensures DataParts(kids + [c]) == DataParts(kids) + [EncodeData(c)]
  {
  }

  /** Appending a child's records extends the output by that child. */
  lemma OutputSnoc<D>(out: seq<D>, kids: seq<Node<D>>, c: Node<D>)
    ensures (out + Concat(DataParts(kids))) + EncodeData(c) == out + Concat(DataParts(kids + [c]))
  {
    PartsSnoc(kids, c);
    ConcatSnoc(DataParts(kids), EncodeData(c));
  }

  /** Output holding the first i parts, extended by part i, holds the
      first i + 1 parts. */
  lemma PrefixSnoc<T>(base: seq<T>, parts: seq<seq<T>>, i: nat)
    requires i < |parts|
    ensures (base + Concat(parts[..i])) + parts[i] == base + Concat(parts[..i + 1])
  {
    assert parts[..i + 1] == parts[..i] + [parts[i]];
    ConcatSnoc(parts[..i], parts[i]);
  }

  // ---------------------------------------------------------------------
  // Walks that change nothing

  /** The child-scan loop at the end of deleteLeafRecursive: true as soon as
      one of the eight slots holds a child. */
  method BranchOccupied<D>(n: Node<D>) returns (b: bool)
    requires n.Branch? && |n.kids| == 8
    ensures b <==> Occupied(n)
  {
    b := false;
    var i := 0;
    while i < 8
      invariant 0 <= i <= 8
      invariant !b ==> forall j :: 0 <= j < i ==> n.kids[j] == Empty
      invariant b ==> Occupied(n)
    {
      b := n.kids[i] != Empty;
      if b {
        break;
      }
      i := i + 1;
    }
  }

  /** findLeafRecursive: follow the key's octants from mask down to 1; stop
      with nothing at the first absent slot. */
  method FindLeafRec<D>(n: Node<D>, k: Key, mask: nat) returns (r: Option<seq<D>>)
    requires Shaped(n, mask)
    ensures r == Find(n, k, mask)
    decreases mask
  {
    var i := ChildIdx(k, mask);
    var kid := n.kids[i];
    if mask > 1 {
      r := None;
      if kid != Empty {
        r := FindLeafRec(kid, k, mask / 2);
      }
    } else {
      r := if kid != Empty then Some(kid.data) else None;
    }
  }

  /** serializeTreeRecursive: the branch's occupancy byte, then every child
      branch's bytes in index order; the key is pushed before and popped
      after each existing child, so it comes back unchanged. */
  method SerializeTreeRec<D>(n: Node<D>, ghost mask: nat, key: Key, out: seq<bv8>) returns (o: seq<bv8>, key': Key)
    requires Shaped(n, mask)
    ensures o == out + EncodeStructure(n) && key' == key
    decreases mask
  {
    var kids := n.kids;
    var sp := StructureParts(kids);
    o := out + [Pattern(kids)];
    key' := key;
    for i := 0 to 8
      invariant key' == key
      invariant o == out + [Pattern(kids)] + Concat(sp[..i])
    {
      ghost var o0 := o;
      if kids[i] != Empty {
        key' := PushBranch(key', i);
        if kids[i].Branch? {
          o, key' := SerializeTreeRec(kids[i], mask / 2, key', o);
        }
        PushPop(key, i);
        key' := PopBranch(key');
      }
      assert sp[i] == EncodeStructure(kids[i]) && o0 + [] == o0;
      assert o == o0 + sp[i];
      PrefixSnoc(out + [Pattern(kids)], sp, i);
    }
    assert sp[..8] == sp;
  }

  /** serializeTreeRecursive with a data vector: the structure bytes as
      above, and every leaf's records (serializeLeafCallback) in the same
      order. */
  method SerializeTreeDataRec<D>(n: Node<D>, ghost mask: nat, key: Key, out: seq<bv8>, data: seq<D>)
    returns (o: seq<bv8>, data': seq<D>, key': Key)
    requires Shaped(n, mask)
    ensures o == out + EncodeStructure(n) && data' == data + EncodeData(n) && key' == key
    decreases mask
  {
    var kids := n.kids;
    var sp, dp := StructureParts(kids), DataParts(kids);
    o := out + [Pattern(kids)];
    data' := data;
    key' := key;
    for i := 0 to 8
      invariant key' == key
      invariant o == out + [Pattern(kids)] + Concat(sp[..i])
      invariant data' == data + Concat(dp[..i])
    {
      ghost var o0, d0 := o, data';
      if kids[i] != Empty {
        key' := PushBranch(key', i);
        if kids[i].Branch? {
          o, data', key' := SerializeTreeDataRec(kids[i], mask / 2, key', o, data');
        } else {
          data' := data' + kids[i].data;
        }
        PushPop(key, i);
        key' := PopBranch(key');
      }
      assert sp[i] == EncodeStructure(kids[i]) && dp[i] == EncodeData(kids[i]);
      assert o0 + [] == o0 && d0 + [] == d0;
      assert o == o0 + sp[i] && data' == d0 + dp[i];
      PrefixSnoc(out + [Pattern(kids)], sp, i);
      PrefixSnoc(data, dp, i);
    }
    assert sp[..8] == sp && dp[..8] == dp;
  }

  /** serializeLeafsRecursive: every leaf's records in pre-order, without
      structure bytes. */
  method SerializeLeafsRec<D>(n: Node<D>, ghost mask: nat, key: Key, data: seq<D>) returns (data': seq<D>, key': Key)
    requires Shaped(n, mask)
    ensures data' == data + EncodeData(n) && key' == key
    decreases mask
  {
    var kids := n.kids;
    var dp := DataParts(kids);
    data' := data;
    key' := key;
    for i := 0 to 8
      invariant key' == key
      invariant data' == data + Concat(dp[..i])
    {
      ghost var d0 := data';
      if kids[i] != Empty {
        key' := PushBranch(key', i);
        if kids[i].Branch? {
          data', key' := SerializeLeafsRec(kids[i], mask / 2, key', data');
        } else {
          data' := data' + kids[i].data;
        }
        PushPop(key, i);
        key' := PopBranch(key');
      }
      assert dp[i] == EncodeData(kids[i]) && d0 + [] == d0;
      assert data' == d0 + dp[i];
      PrefixSnoc(data, dp, i);
    }
    assert dp[..8] == dp;
  }

  /** deserializeLeafCallback with a data vector: take the leading records
      whose key is the leaf's; when none matches, take exactly one record.
      None when that one record would be read past the end. */
  method DeserializeLeafCallback<D>(ds: seq<D>, k: Key, keyOf: D -> Option<Key>) returns (r: Option<(seq<D>, seq<D>)>)
    ensures r == Consume(ds, k, keyOf)
    ensures r.Some? ==> r.value.0 + r.value.1 == ds && |r.value.0| >= 1
    ensures r.Some? ==> (forall j :: 0 <= j < |r.value.0| ==> keyOf(r.value.0[j]) == Some(k))
                        || (|r.value.0| == 1 && keyOf(ds[0]) != Some(k))
    ensures r.None? <==> ds == []
  {
    var i := 0;
    while i < |ds| && keyOf(ds[i]) == Some(k)
      invariant 0 <= i <= |ds|
      invariant forall j :: 0 <= j < i ==> keyOf(ds[j]) == Some(k)
    {
      i := i + 1;
    }
    MatchCountIs(ds, k, keyOf, i);
    var keyBased := i > 0;
    if !keyBased {
      if i == |ds| {
        return None;
      }
      i := 1;
      assert ds[..i] == [ds[0]];
    }
    r := Some((ds[..i], ds[i..]));
  }

  /** A run of i matching records ended by the end or by a mismatch is the
      whole matching run. */
  lemma {:induction false} MatchCountIs<D>(ds: seq<D>, k: Key, keyOf: D -> Option<Key>, i: nat)
    requires i <= |ds| && forall j :: 0 <= j < i ==> keyOf(ds[j]) == Some(k)
    requires i < |ds| ==> keyOf(ds[i]) != Some(k)
    ensures MatchCount(ds, k, keyOf) == i
    decreases i
  {
    if i > 0 {
      MatchCountIs(ds[1..], k, keyOf, i - 1);
    }
  }

  // ---------------------------------------------------------------------
  // The decoders' partial results, children 0..i-1 already built

  function Prepend<D>(ks: seq<Node<D>>, t: Option<(seq<Node<D>>, seq<bv8>)>): Option<(seq<Node<D>>, seq<bv8>)>
  {
    match t
    case None => None
    case Some((a, rest)) => Some((ks + a, rest))
  }

  function PrependData<D>(ks: seq<Node<D>>, t: Option<(seq<Node<D>>, seq<bv8>, seq<D>)>)
    : Option<(seq<Node<D>>, seq<bv8>, seq<D>)>
  {
    match t
    case None => None
    case Some((a, rest, drest)) => Some((ks + a, rest, drest))
  }

  lemma PrependNil<D>(t: Option<(seq<Node<D>>, seq<bv8>)>, u: Option<(seq<Node<D>>, seq<bv8>, seq<D>)>)
    ensures Prepend([], t) == t && PrependData([], u) == u
  {
    if t.Some? {
      assert [] + t.value.0 == t.value.0;
    }
    if u.Some? {
      assert [] + u.value.0 == u.value.0;
    }
  }

  lemma PrependSnoc<D>(ks: seq<Node<D>>, c: Node<D>, t: Option<(seq<Node<D>>, seq<bv8>)>)
    ensures Prepend(ks, Prepend([c], t)) == Prepend(ks + [c], t)
  {
    if t.Some? {
      assert ks + ([c] + t.value.0) == (ks + [c]) + t.value.0;
    }
  }

  lemma PrependDataSnoc<D>(ks: seq<Node<D>>, c: Node<D>, t: Option<(seq<Node<D>>, seq<bv8>, seq<D>)>)
    ensures PrependData(ks, PrependData([c], t)) == PrependData(ks + [c], t)
  {
    if t.Some? {
      assert ks + ([c] + t.value.0) == (ks + [c]) + t.value.0;
    }
  }

  /** One child of the key-initialised decoder, read off in terms of the
      remaining children. */
  lemma GenKidStep<D>(bits: bv8, s: seq<bv8>, mask: nat, key: Key, gen: Key -> Option<D>, i: nat,
                      c: Node<D>, s': seq<bv8>)
    requires i < 8
    requires !HasBit(bits, i) ==> c == Empty && s' == s
    requires HasBit(bits, i) && mask > 1 ==> DecodeGen(s, mask / 2, PushBranch(key, i), gen) == Some((c, s'))
    requires HasBit(bits, i) && mask <= 1 ==> c == Leaf(GenData(gen, PushBranch(key, i))) && s' == s
    ensures DecodeGenKids(bits, s, mask, key, gen, i) == Prepend([c], DecodeGenKids(bits, s', mask, key, gen, i + 1))
  {
  }

  /** One child of the data-consuming decoder, likewise. */
  lemma DataKidStep<D>(bits: bv8, s: seq<bv8>, ds: seq<D>, mask: nat, key: Key, keyOf: D -> Option<Key>, i: nat,
                       c: Node<D>, s': seq<bv8>, ds': seq<D>)
    requires i < 8
    requires !HasBit(bits, i) ==> c == Empty && s' == s && ds' == ds
    requires HasBit(bits, i) && mask > 1 ==> DecodeData(s, ds, mask / 2, PushBranch(key, i), keyOf) == Some((c, s', ds'))
    requires HasBit(bits, i) && mask <= 1 ==>
               c.Leaf? && Consume(ds, PushBranch(key, i), keyOf) == Some((c.data, ds')) && s' == s
    ensures DecodeDataKids(bits, s, ds, mask, key, keyOf, i)
            == PrependData([c], DecodeDataKids(bits, s', ds', mask, key, keyOf, i + 1))
  {
  }

  // ---------------------------------------------------------------------
  // The tree

  class OctreeLowMem<D> {
    /** The root branch; never removed, cleared by deleteTree. */
    var root: Node<D>
    var leafCount: int
    var branchCount: int
    var objectCount: int
    /** The bit of the key coordinates read at the root's level. */
    var depthMask: nat
    var octreeDepth: nat
    var maxKey: Key

    /** The root is a branch of the configured depth and the branch counter
        counts the tree's branches (the root included). removeLeaf keeps
        this even where it miscounts the leaves. */
    ghost predicate Consistent()
      reads this
    {
      Shaped(root, depthMask) && branchCount == Branches(root)
    }

    /** Consistent, and the leaf counter counts the tree's leaves. */
    ghost predicate Valid()
      reads this
    {
      Consistent() && leafCount == Leaves(root)
    }

    /** An empty root, zero counters but for the root branch, no depth. */
    constructor ()
      ensures Valid() && root == EmptyBranch()
      ensures leafCount == 0 && branchCount == 1 && objectCount == 0
      ensures depthMask == 0 && octreeDepth == 0 && maxKey == Key(0, 0, 0)
    {
      root := EmptyBranch();
      leafCount := 0;
      branchCount := 1;
      objectCount := 0;
      depthMask := 0;
      octreeDepth := 0;
      maxKey := Key(0, 0, 0);
      EmptyBranchCounts<D>();
    }

    /** setTreeDepth: the root reads bit depth - 1 and keys range over
        0 .. 2^depth - 1 on every axis. An empty tree stays consistent with
        the new depth. */
    method SetTreeDepth(depth: nat)
      requires depth > 0
      modifies this`octreeDepth, this`depthMask, this`maxKey
      ensures octreeDepth == depth && depthMask == Pow2(depth - 1)
      ensures maxKey == Key(Pow2(depth) - 1, Pow2(depth) - 1, Pow2(depth) - 1)
      ensures IsPow2(depthMask) && 2 * depthMask == maxKey.x + 1
      ensures old(Valid() && !Occupied(root)) ==> Valid()
    {
      octreeDepth := depth;
      depthMask := Pow2(depth - 1);
      maxKey := Key(Pow2(depth) - 1, Pow2(depth) - 1, Pow2(depth) - 1);
      if Shaped(root, old(depthMask)) && !Occupied(root) {
        assert root == EmptyBranch();
        PathDepthEmpty<D>(Key(0, 0, 0), depthMask);
      }
    }

    /** setMaxVoxelIndex: the depth is the ceiling log2 of maxVoxelIndex,
        capped at maxDepth, and at least one level, so that (below the cap)
        keys 0 .. maxVoxelIndex - 1 fit; maxVoxelIndex itself need not. */
    method SetMaxVoxelIndex(maxVoxelIndex: nat, maxDepth: nat)
      requires maxVoxelIndex > 0 && maxDepth > 0
      modifies this`depthMask
      ensures depthMask == Pow2(MaxVoxelDepth(maxVoxelIndex, maxDepth) - 1)
      ensures maxVoxelIndex <= Pow2(maxDepth) ==> 2 * depthMask >= maxVoxelIndex
      ensures maxVoxelIndex > 1 && maxVoxelIndex <= Pow2(maxDepth) ==> depthMask < maxVoxelIndex
      ensures old(Valid() && !Occupied(root)) ==> Valid()
    {
      var treeDepth := MaxVoxelDepth(maxVoxelIndex, maxDepth);
      depthMask := Pow2(treeDepth - 1);
      CeilLog2Bounds(maxVoxelIndex);
      if maxVoxelIndex <= Pow2(maxDepth) && CeilLog2(maxVoxelIndex) > maxDepth {
        Pow2Monotone(CeilLog2(maxVoxelIndex) - 1, maxDepth);
      }
      if Shaped(root, old(depthMask)) && !Occupied(root) {
        assert root == EmptyBranch();
        PathDepthEmpty<D>(Key(0, 0, 0), depthMask);
      }
    }

    /** add: create the leaf at (x, y, z) with the branches leading to it
        and append the record; one more object whatever existed before. */
    method Add(x: nat, y: nat, z: nat, v: D)
      requires Consistent()
      modifies this`root, this`leafCount, this`branchCount, this`objectCount
      ensures Consistent() && (old(Valid()) ==> Valid())
      ensures root == Insert(old(root), Key(x, y, z), depthMask, v)
      ensures objectCount == old(objectCount) + 1
      ensures leafCount == old(leafCount) + (if Find(old(root), Key(x, y, z), depthMask).None? then 1 else 0)
      ensures Find(root, Key(x, y, z), depthMask) == Some(DataAt(old(root), Key(x, y, z), depthMask) + [v])
      ensures forall k :: !SamePath(Key(x, y, z), k, depthMask) ==> Find(root, k, depthMask) == Find(old(root), k, depthMask)
    {
      var k := Key(x, y, z);
      ghost var r0 := root;
      root := CreateLeafRec(root, k, depthMask, v);
      objectCount := objectCount + 1;
      LeavesInsert(r0, k, depthMask, v);
      BranchesInsert(r0, k, depthMask, v);
      SamePathRefl(k, depthMask);
      FindInsert(r0, k, k, depthMask, v);
      forall k2 | !SamePath(k, k2, depthMask)
        ensures Find(root, k2, depthMask) == Find(r0, k2, depthMask)
      {
        FindInsert(r0, k, k2, depthMask, v);
      }
    }

    /** createLeafRecursive, followed by the returned leaf's setData: a
        missing branch is created (and counted) only above leaf level, a
        missing leaf (counted) only at leaf level, existing nodes reused. */
    method CreateLeafRec(n: Node<D>, k: Key, mask: nat, v: D) returns (r: Node<D>)
      requires Shaped(n, mask)
      modifies this`leafCount, this`branchCount
      ensures r == Insert(n, k, mask, v)
      ensures leafCount == old(leafCount) + (if Find(n, k, mask).None? then 1 else 0)
      ensures branchCount == old(branchCount) + BranchLevels(mask) - PathDepth(n, k, mask)
      decreases mask
    {
      var i := ChildIdx(k, mask);
      var kid := n.kids[i];
      if mask > 1 {
        var child := kid;
        if kid == Empty {
          child := EmptyBranch();
          branchCount := branchCount + 1;
          PathDepthEmpty<D>(k, mask / 2);
          EmptyBranchCounts<D>();
          FindUnoccupied(child, k, mask / 2);
        }
        var c := CreateLeafRec(child, k, mask / 2, v);
        r := Branch(n.kids[i := c]);
      } else {
        if kid == Empty {
          leafCount := leafCount + 1;
          assert [] + [v] == [v];
          r := Branch(n.kids[i := Leaf([v])]);
        } else {
          r := Branch(n.kids[i := Leaf(kid.data + [v])]);
        }
      }
    }

    /** get: whether (x, y, z) has a leaf, and the leaf's most recent
        record when it holds one. */
    method Get(x: nat, y: nat, z: nat) returns (found: bool, data: Option<D>)
      requires Shaped(root, depthMask)
      ensures found <==> Find(root, Key(x, y, z), depthMask).Some?
      ensures data.Some? <==> found && DataAt(root, Key(x, y, z), depthMask) != []
      ensures data.Some? ==> data.value == Last(DataAt(root, Key(x, y, z), depthMask))
    {
      var leaf := FindLeafRec(root, Key(x, y, z), depthMask);
      found := leaf.Some?;
      data := None;
      if leaf.Some? && leaf.value != [] {
        data := Some(leaf.value[|leaf.value| - 1]);
      }
    }

    /** existLeaf: whether (x, y, z) has a leaf. */
    method ExistLeaf(x: nat, y: nat, z: nat) returns (b: bool)
      requires Shaped(root, depthMask)
      ensures b <==> Find(root, Key(x, y, z), depthMask).Some?
    {
      var leaf := FindLeafRec(root, Key(x, y, z), depthMask);
      b := leaf.Some?;
    }

    /** removeLeaf: clear the leaf slot of (x, y, z) and prune the branches
        left without children. The leaf counter drops whenever the branch
        above the slot exists, whether or not the slot held a leaf. */
    method RemoveLeaf(x: nat, y: nat, z: nat)
      requires Consistent()
      modifies this`root, this`leafCount, this`branchCount
      ensures root == Delete(old(root), Key(x, y, z), depthMask)
      ensures Consistent()
      ensures leafCount == old(leafCount) - (if ParentExists(old(root), Key(x, y, z), depthMask) then 1 else 0)
      ensures Find(root, Key(x, y, z), depthMask).None?
      ensures forall k :: !SamePath(Key(x, y, z), k, depthMask) ==> Find(root, k, depthMask) == Find(old(root), k, depthMask)
      ensures old(Valid() && Find(root, Key(x, y, z), depthMask).Some?) ==> Valid()
      ensures (old(Valid()) && Find(old(root), Key(x, y, z), depthMask).None?
               && ParentExists(old(root), Key(x, y, z), depthMask)) ==> leafCount == Leaves(root) - 1
    {
      var k := Key(x, y, z);
      ghost var r0 := root;
      var occupied;
      root, occupied := DeleteLeafRec(root, k, depthMask);
      SamePathRefl(k, depthMask);
      FindDelete(r0, k, k, depthMask);
      forall k2 | !SamePath(k, k2, depthMask)
        ensures Find(root, k2, depthMask) == Find(r0, k2, depthMask)
      {
        FindDelete(r0, k, k2, depthMask);
      }
      LeavesDelete(r0, k, depthMask);
      if Find(r0, k, depthMask).Some? {
        FindParent(r0, k, depthMask);
      }
    }

    /** deleteLeafRecursive: clear the leaf slot (counting one leaf less),
        unlink every child branch the deletion leaves childless (counting
        one branch less each), and report whether this branch still has a
        child. */
    method DeleteLeafRec(n: Node<D>, k: Key, mask: nat) returns (r: Node<D>, occupied: bool)
      requires Shaped(n, mask)
      modifies this`leafCount, this`branchCount
      ensures r == Delete(n, k, mask) && (occupied <==> Occupied(r))
      ensures leafCount == old(leafCount) - (if ParentExists(n, k, mask) then 1 else 0)
      ensures branchCount == old(branchCount) - (Branches(n) - Branches(r))
      decreases mask
    {
      var i := ChildIdx(k, mask);
      var kid := n.kids[i];
      r := n;
      if mask > 1 {
        if kid != Empty {
          var c, occ := DeleteLeafRec(kid, k, mask / 2);
          if !occ {
            UnoccupiedCounts(c);
            branchCount := branchCount - 1;
            r := Branch(n.kids[i := Empty]);
            BranchesUpdate(n.kids, i, Empty);
          } else {
            r := Branch(n.kids[i := c]);
            BranchesUpdate(n.kids, i, c);
          }
        }
      } else {
        leafCount := leafCount - 1;
        r := Branch(n.kids[i := Empty]);
        BranchesUpdate(n.kids, i, Empty);
      }
      occupied := BranchOccupied(r);
    }

    /** deleteTree: drop every child of the root and reset the counters. */
    method DeleteTree()
      modifies this`root, this`leafCount, this`branchCount, this`objectCount
      ensures root == EmptyBranch() && leafCount == 0 && branchCount == 1 && objectCount == 0
      ensures Valid()
      ensures forall k :: Find(root, k, depthMask).None?
    {
      root := EmptyBranch();
      leafCount := 0;
      branchCount := 1;
      objectCount := 0;
      EmptyBranchCounts<D>();
      PathDepthEmpty<D>(Key(0, 0, 0), depthMask);
      forall k ensures Find(root, k, depthMask).None? {
        FindUnoccupied(root, k, depthMask);
      }
    }

    /** serializeTree: one occupancy byte per branch, pre-order. */
    method SerializeTree() returns (bytes: seq<bv8>)
      requires Consistent()
      ensures bytes == EncodeStructure(root) && |bytes| == branchCount
    {
      var key;
      bytes, key := SerializeTreeRec(root, depthMask, Key(0, 0, 0), []);
      EncodeStructureLength(root);
    }

    /** serializeTree with a data vector: the structure bytes and every
        leaf's records, both in pre-order. */
    method SerializeTreeWithData() returns (bytes: seq<bv8>, data: seq<D>)
      requires Consistent()
      ensures bytes == EncodeStructure(root) && data == EncodeData(root) && |bytes| == branchCount
    {
      var key;
      bytes, data, key := SerializeTreeDataRec(root, depthMask, Key(0, 0, 0), [], []);
      EncodeStructureLength(root);
    }

    /** serializeLeafs: every leaf's records in pre-order. */
    method SerializeLeafs() returns (data: seq<D>)
      requires Shaped(root, depthMask)
      ensures data == EncodeData(root)
    {
      var key;
      data, key := SerializeLeafsRec(root, depthMask, Key(0, 0, 0), []);
    }

    /** deserializeTreeRecursive: read this branch's byte, then build its
        children in index order: a branch (counted) read recursively above
        leaf level, a leaf (counted) initialised from its key at leaf level. */
    method DeserializeTreeRec(s: seq<bv8>, mask: nat, key: Key, gen: Key -> Option<D>)
      returns (r: Option<(Node<D>, seq<bv8>)>)
      modifies this`leafCount, this`branchCount
      ensures r == DecodeGen(s, mask, key, gen)
      ensures r.Some? ==> leafCount == old(leafCount) + Leaves(r.value.0)
                          && branchCount == old(branchCount) + Branches(r.value.0) - 1
      decreases mask, |s|
    {
      if |s| == 0 {
        return None;
      }
      var bits := s[0];
      var rest := s[1..];
      var kids: seq<Node<D>> := [];
      var k := key;
      PrependNil<D>(DecodeGenKids(bits, rest, mask, key, gen, 0), None);
      for i := 0 to 8
        invariant |kids| == i && k == key
        invariant DecodeGenKids(bits, s[1..], mask, key, gen, 0) == Prepend(kids, DecodeGenKids(bits, rest, mask, key, gen, i))
        invariant leafCount == old(leafCount) + Leaves(Branch(kids))
        invariant branchCount == old(branchCount) + Branches(Branch(kids)) - 1
      {
        var c: Node<D> := Empty;
        var rest0 := rest;
        if HasBit(bits, i) {
          k := PushBranch(k, i);
          if mask > 1 {
            branchCount := branchCount + 1;
            var d := DeserializeTreeRec(rest, mask / 2, k, gen);
            if d.None? {
              assert DecodeGenKids(bits, rest, mask, key, gen, i) == None;
              return None;
            }
            c := d.value.0;
            rest := d.value.1;
          } else {
            var data := DeserializeLeafGen(k, gen);
            leafCount := leafCount + 1;
            c := Leaf(data);
          }
          PushPop(key, i);
          k := PopBranch(k);
        }
        GenKidStep(bits, rest0, mask, key, gen, i, c, rest);
        PrependSnoc(kids, c, DecodeGenKids(bits, rest, mask, key, gen, i + 1));
        KidsSnocCounts(kids, c);
        kids := kids + [c];
      }
      assert kids + [] == kids;
      r := Some((Branch(kids), rest));
    }

    /** deserializeTreeRecursive with a data vector: as above, with every
        leaf taking its records from the front of the vector. The key is
        popped after occupied children only (the corrected placement). */
    method DeserializeTreeDataRec(s: seq<bv8>, ds: seq<D>, mask: nat, key: Key, keyOf: D -> Option<Key>)
      returns (r: Option<(Node<D>, seq<bv8>, seq<D>)>)
      modifies this`leafCount, this`branchCount
      ensures r == DecodeData(s, ds, mask, key, keyOf)
      ensures r.Some? ==> leafCount == old(leafCount) + Leaves(r.value.0)
                          && branchCount == old(branchCount) + Branches(r.value.0) - 1
      decreases mask, |s|
    {
      if |s| == 0 {
        return None;
      }
      var bits := s[0];
      var rest := s[1..];
      var drest := ds;
      var kids: seq<Node<D>> := [];
      var k := key;
      PrependNil<D>(None, DecodeDataKids(bits, rest, drest, mask, key, keyOf, 0));
      for i := 0 to 8
        invariant |kids| == i && k == key
        invariant DecodeDataKids(bits, s[1..], ds, mask, key, keyOf, 0)
                  == PrependData(kids, DecodeDataKids(bits, rest, drest, mask, key, keyOf, i))
        invariant leafCount == old(leafCount) + Leaves(Branch(kids))
        invariant branchCount == old(branchCount) + Branches(Branch(kids)) - 1
      {
        var c: Node<D> := Empty;
        var rest0, drest0 := rest, drest;
        if HasBit(bits, i) {
          k := PushBranch(k, i);
          if mask > 1 {
            branchCount := branchCount + 1;
            var d := DeserializeTreeDataRec(rest, drest, mask / 2, k, keyOf);
            if d.None? {
              assert DecodeDataKids(bits, rest, drest, mask, key, keyOf, i) == None;
              return None;
            }
            c := d.value.0;
            rest := d.value.1;
            drest := d.value.2;
          } else {
            var t := DeserializeLeafCallback(drest, k, keyOf);
            if t.None? {
              assert DecodeDataKids(bits, rest, drest, mask, key, keyOf, i) == None;
              return None;
            }
            c := Leaf(t.value.0);
            drest := t.value.1;
            leafCount := leafCount + 1;
          }
          PushPop(key, i);
          k := PopBranch(k);
        }
        DataKidStep(bits, rest0, drest0, mask, key, keyOf, i, c, rest, drest);
        PrependDataSnoc(kids, c, DecodeDataKids(bits, rest, drest, mask, key, keyOf, i + 1));
        KidsSnocCounts(kids, c);
        kids := kids + [c];
      }
      assert kids + [] == kids;
      r := Some((Branch(kids), rest, drest));
    }

    /** deserializeTreeAndOutputLeafDataRecursive: the key-initialised
        decoder that also appends every generated record to `out`. */
    method DeserializeTreeOutputRec(s: seq<bv8>, mask: nat, key: Key, gen: Key -> Option<D>, out: seq<D>)
      returns (r: Option<(Node<D>, seq<bv8>)>, out': seq<D>)
      modifies this`leafCount, this`branchCount
      ensures r == DecodeGen(s, mask, key, gen)
      ensures r.Some? ==> out' == out + EncodeData(r.value.0)
                          && leafCount == old(leafCount) + Leaves(r.value.0)
                          && branchCount == old(branchCount) + Branches(r.value.0) - 1
      decreases mask, |s|
    {
      out' := out;
      if |s| == 0 {
        return None, out';
      }
      var bits := s[0];
      var rest := s[1..];
      var kids: seq<Node<D>> := [];
      var k := key;
      PrependNil<D>(DecodeGenKids(bits, rest, mask, key, gen, 0), None);
      for i := 0 to 8
        invariant |kids| == i && k == key
        invariant DecodeGenKids(bits, s[1..], mask, key, gen, 0) == Prepend(kids, DecodeGenKids(bits, rest, mask, key, gen, i))
        invariant out' == out + Concat(DataParts(kids))
        invariant leafCount == old(leafCount) + Leaves(Branch(kids))
        invariant branchCount == old(branchCount) + Branches(Branch(kids)) - 1
      {
        var c: Node<D> := Empty;
        var rest0 := rest;
        ghost var out0 := out';
        if HasBit(bits, i) {
          k := PushBranch(k, i);
          if mask > 1 {
            branchCount := branchCount + 1;
            var d;
            d, out' := DeserializeTreeOutputRec(rest, mask / 2, k, gen, out');
            if d.None? {
              assert DecodeGenKids(bits, rest, mask, key, gen, i) == None;
              return None, out';
            }
            c := d.value.0;
            rest := d.value.1;
          } else {
            var data := DeserializeLeafGen(k, gen);
            out' := out' + data;
            leafCount := leafCount + 1;
            c := Leaf(data);
          }
          PushPop(key, i);
          k := PopBranch(k);
        }
        GenKidStep(bits, rest0, mask, key, gen, i, c, rest);
        PrependSnoc(kids, c, DecodeGenKids(bits, rest, mask, key, gen, i + 1));
        KidsSnocCounts(kids, c);
        assert out' == out0 + EncodeData(c);
        OutputSnoc(out, kids, c);
        kids := kids + [c];
      }
      assert kids + [] == kids;
      r := Some((Branch(kids), rest));
    }

    /** deserializeTree: clear the tree, rebuild it from the structure
        bytes at the configured depth with generated leaf data, and count
        one object per leaf. */
    method DeserializeTree(bytes: seq<bv8>, gen: Key -> Option<D>) returns (ok: bool)
      modifies this`root, this`leafCount, this`branchCount, this`objectCount
      ensures var d := DecodeGen(bytes, depthMask, Key(0, 0, 0), gen);
              ok == d.Some? && (ok ==> root == d.value.0)
      ensures Valid() && (ok ==> objectCount == leafCount)
    {
      DeleteTree();
      var d := DeserializeTreeRec(bytes, depthMask, Key(0, 0, 0), gen);
      ok := d.Some?;
      if ok {
        root := d.value.0;
        objectCount := leafCount;
        EmptyBranchCounts<D>();
      } else {
        DeleteTree();
      }
    }

    /** deserializeTree with a data vector: rebuild the tree, leaves taking
        their records from the vector; one object per record. */
    method DeserializeTreeWithData(bytes: seq<bv8>, data: seq<D>, keyOf: D -> Option<Key>) returns (ok: bool)
      modifies this`root, this`leafCount, this`branchCount, this`objectCount
      ensures var d := DecodeData(bytes, data, depthMask, Key(0, 0, 0), keyOf);
              ok == d.Some? && (ok ==> root == d.value.0 && objectCount == |data|)
      ensures Valid()
    {
      DeleteTree();
      var d := DeserializeTreeDataRec(bytes, data, depthMask, Key(0, 0, 0), keyOf);
      ok := d.Some?;
      if ok {
        root := d.value.0;
        objectCount := |data|;
        EmptyBranchCounts<D>();
      } else {
        DeleteTree();
      }
    }

    /** deserializeTreeAndOutputLeafData: rebuild with generated leaf data,
        append every generated record to the vector, one object per entry
        of the vector. */
    method DeserializeTreeAndOutputLeafData(bytes: seq<bv8>, data: seq<D>, gen: Key -> Option<D>)
      returns (ok: bool, data': seq<D>)
      modifies this`root, this`leafCount, this`branchCount, this`objectCount
      ensures var d := DecodeGen(bytes, depthMask, Key(0, 0, 0), gen);
              ok == d.Some? && (ok ==> root == d.value.0 && data' == data + EncodeData(root) && objectCount == |data'|)
      ensures Valid()
    {
      DeleteTree();
      var d;
      d, data' := DeserializeTreeOutputRec(bytes, depthMask, Key(0, 0, 0), gen, data);
      ok := d.Some?;
      if ok {
        root := d.value.0;
        objectCount := |data'|;
        EmptyBranchCounts<D>();
      } else {
        DeleteTree();
      }
    }
  }

  /** deserializeLeafCallback with a generator: the new leaf holds the
      generated record, or nothing when the generator declines. */
  method DeserializeLeafGen<D>(k: Key, gen: Key -> Option<D>) returns (data: seq<D>)
    ensures data == GenData(gen, k)
    ensures |data| <= 1 && (data != [] <==> gen(k).Some?)
  {
    var g := gen(k);
    data := [];
    if g.Some? {
      data := [g.value];
    }
  }

  /** The depth setMaxVoxelIndex computes: the ceiling log2 of the index,
      capped at maxDepth, with the one-level floor. */
  function MaxVoxelDepth(maxVoxelIndex: nat, maxDepth: nat): (d: nat)
    requires maxVoxelIndex > 0
    ensures d >= 1 && (maxDepth >= 1 ==> d <= maxDepth)
    ensures d == 1 || d == maxDepth || d == CeilLog2(maxVoxelIndex)
  {
    var bits := CeilLog2(maxVoxelIndex);
    var capped := if bits < maxDepth then bits else maxDepth;
    if capped < 1 then 1 else capped
  }

  /** The shift count setMaxVoxelIndex computes as written: the depth is
      floored at 0, not 1, and `treeDepth - 1` is taken in 32-bit unsigned
      arithmetic. */
  function MaxVoxelShiftAsWritten(maxVoxelIndex: nat, maxDepth: nat): (shift: nat)
    requires maxVoxelIndex > 0
    ensures shift < 0x1_0000_0000
  {
    var bits := CeilLog2(maxVoxelIndex);
    var treeDepth := if bits < maxDepth then bits else maxDepth;
    (treeDepth - 1) % 0x1_0000_0000
  }

  /** With a single voxel index the written shift count wraps to 2^32 - 1,
      far beyond the 32-bit width of the shifted value. */
  lemma MaxVoxelOneAsWritten(maxDepth: nat)
    ensures MaxVoxelShiftAsWritten(1, maxDepth) == 0xFFFF_FFFF
    ensures MaxVoxelShiftAsWritten(1, maxDepth) >= 32
  {
  }

  /** With the one-level floor, the depth is within the cap and 2^depth
      keys cover every index below maxVoxelIndex. */
  lemma MaxVoxelDepthBounds(maxVoxelIndex: nat, maxDepth: nat)
    requires maxVoxelIndex > 0 && maxDepth > 0 && maxVoxelIndex <= Pow2(maxDepth)
    ensures 1 <= MaxVoxelDepth(maxVoxelIndex, maxDepth) <= maxDepth
    ensures Pow2(MaxVoxelDepth(maxVoxelIndex, maxDepth)) >= maxVoxelIndex
  {
    CeilLog2Bounds(maxVoxelIndex);
    if CeilLog2(maxVoxelIndex) > maxDepth {
      Pow2Monotone(CeilLog2(maxVoxelIndex) - 1, maxDepth);
    }
    if CeilLog2(maxVoxelIndex) == 0 {
      assert Pow2(1) == 2;
    }
  }

  /** The removeLeaf quirk is reachable: in a one-level tree with a leaf in
      slot 0, removing the absent voxel (1, 0, 0) finds its parent (the
      root), so the counter drops to 0 while the tree keeps its one leaf. */
  lemma RemoveMissingMiscounts<D>(v: D)
    ensures var n: Node<D> := Branch([Leaf([v]), Empty, Empty, Empty, Empty, Empty, Empty, Empty]);
            Shaped(n, 1) && Leaves(n) == 1
            && ParentExists(n, Key(1, 0, 0), 1) && Find(n, Key(1, 0, 0), 1).None?
            && Leaves(Delete(n, Key(1, 0, 0), 1)) == Leaves(n)
  {
    var n: Node<D> := Branch([Leaf([v]), Empty, Empty, Empty, Empty, Empty, Empty, Empty]);
    var e := EmptyBranch<D>().kids;
    assert n == Branch(e[0 := Leaf([v])]);
    EmptyBranchCounts<D>();
    LeavesUpdate(e, 0, Leaf([v]));
    assert ChildIdx(Key(1, 0, 0), 1) == 4;
    LeavesDelete(n, Key(1, 0, 0), 1);
  }

  function Last<D>(s: seq<D>): D
    requires s != []
  {
    s[|s| - 1]
  }

  lemma {:induction false} Pow2Monotone(a: nat, b: nat)
    requires b <= a
    ensures Pow2(b) <= Pow2(a)
    decreases a
  {
    if b < a {
      Pow2Monotone(a - 1, b);
      assert Pow2(a) == 2 * Pow2(a - 1);
    }
  }

  lemma {:induction false} SamePathRefl(k: Key, mask: nat)
    ensures SamePath(k, k, mask)
    decreases mask
  {
    if mask > 1 {
      SamePathRefl(k, mask / 2);
    }
  }

  /** A leaf at the key means every branch above it exists. */
  lemma {:induction false} FindParent<D>(n: Node<D>, k: Key, mask: nat)
    requires Shaped(n, mask) && Find(n, k, mask).Some?
    ensures ParentExists(n, k, mask)
    decreases mask
  {
    if mask > 1 {
      FindParent(n.kids[ChildIdx(k, mask)], k, mask / 2);
    }
  }
}
