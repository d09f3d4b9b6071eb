/** The value-level meaning of the octree's binary codec: the structure
    stream (one occupancy byte per branch, depth-first pre-order, children
    in index order 0..7), the leaf-data stream in the same order, and the
    three decoders that replay the walk against a depth mask. */
module OctreeCodec {
  import opened Util
  import opened OctreeKeys
  import opened OctreeNodes

  // ---------------------------------------------------------------------
  // Occupancy bytes

  /** `nodeBits & (1 << i)`: octant i is marked occupied. */
  predicate HasBit(b: bv8, i: nat)
    requires i < 8
  {
    b & ((1 as bv8) << i) != 0
  }

  /** The occupancy byte of the first j slots. */
  function PatternUpTo<D>(kids: seq<Node<D>>, j: nat): bv8
    requires j <= 8 && j <= |kids|
  {
    if j == 0 then 0
    else PatternUpTo(kids, j - 1) | (if kids[j - 1] != Empty then (1 as bv8) << (j - 1) else 0)
  }

  /** getBranchBitPattern: bit i set iff child i exists. */
  function Pattern<D>(kids: seq<Node<D>>): (b: bv8)
    ensures |kids| == 8 ==> forall i :: 0 <= i < 8 ==> (HasBit(b, i) <==> kids[i] != Empty)
  {
    var j := if |kids| < 8 then |kids| else 8;
    if |kids| == 8 then
      forall i | 0 <= i < 8 ensures HasBit(PatternUpTo(kids, 8), i) <==> kids[i] != Empty {
        PatternUpToBit(kids, 8, i);
      }
      PatternUpTo(kids, j)
    else PatternUpTo(kids, j)
  }

  lemma BitOr(x: bv8, y: bv8, i: nat)
    requires i < 8
    ensures HasBit(x | y, i) <==> HasBit(x, i) || HasBit(y, i)
  {
  }

  lemma SingleBit(a: nat, i: nat)
    requires a < 8 && i < 8
    ensures HasBit((1 as bv8) << a, i) <==> a == i
  {
  }

  /** Or-ing in octant a's bit, when that octant is occupied, sets bit a
      and leaves every other bit as it was. */
  lemma OrOctant(x: bv8, a: nat, occupied: bool, i: nat)
    requires a < 8 && i < 8
    ensures HasBit(x | (if occupied then (1 as bv8) << a else 0), i) <==> HasBit(x, i) || (occupied && a == i)
  {
    var y: bv8 := if occupied then (1 as bv8) << a else 0;
    BitOr(x, y, i);
    if occupied {
      SingleBit(a, i);
    } else {
      assert !HasBit(y, i);
    }
  }

  /** One more slot adds its own bit, if occupied, and keeps the others. */
  lemma PatternUpToStep<D>(kids: seq<Node<D>>, j: nat, i: nat)
    requires 0 < j <= 8 && j <= |kids| && i < 8
    ensures HasBit(PatternUpTo(kids, j), i) <==> HasBit(PatternUpTo(kids, j - 1), i) || (kids[j - 1] != Empty && j - 1 == i)
  {
    var x := PatternUpTo(kids, j - 1);
    var y: bv8 := if kids[j - 1] != Empty then (1 as bv8) << (j - 1) else 0;
    assert PatternUpTo(kids, j) == x | y;
    OrOctant(x, j - 1, kids[j - 1] != Empty, i);
  }

  lemma {:induction false} PatternUpToBit<D>(kids: seq<Node<D>>, j: nat, i: nat)
    requires j <= 8 && j <= |kids| && i < 8
    ensures HasBit(PatternUpTo(kids, j), i) <==> i < j && kids[i] != Empty
  {
    if j > 0 {
      PatternUpToBit(kids, j - 1, i);
      PatternUpToStep(kids, j, i);
    } else {
      assert !HasBit(0, i);
    }
  }

  // ---------------------------------------------------------------------
  // Encoders

  /** Structure stream: the branch's occupancy byte, then the streams of its
      child branches in index order; leaves add no byte. */
  function EncodeStructure<D>(n: Node<D>): seq<bv8>
    decreases n, 1
  {
    match n
    case Empty => []
    case Leaf(_) => []
    case Branch(kids) => [Pattern(kids)] + Concat(StructureParts(kids))
  }

  function StructureParts<D>(kids: seq<Node<D>>): seq<seq<bv8>>
    decreases kids, 0
  {
    seq(|kids|, i requires 0 <= i < |kids| => EncodeStructure(kids[i]))
  }

  /** Data stream: every leaf's data vector, in the same pre-order. */
  function EncodeData<D>(n: Node<D>): seq<D>
    decreases n, 1
  {
    match n
    case Empty => []
    case Leaf(d) => d
    case Branch(kids) => Concat(DataParts(kids))
  }

  function DataParts<D>(kids: seq<Node<D>>): seq<seq<D>>
    decreases kids, 0
  {
    seq(|kids|, i requires 0 <= i < |kids| => EncodeData(kids[i]))
  }

  /** One structure byte per branch. */
  lemma {:induction false} EncodeStructureLength<D>(n: Node<D>)
    ensures |EncodeStructure(n)| == Branches(n)
  {
    if n.Branch? {
      var kids := n.kids;
      var parts := StructureParts(kids);
      ConcatLength(parts);
      var lens := seq(|parts|, i requires 0 <= i < |parts| => |parts[i]|);
      var counts := seq(|kids|, i requires 0 <= i < |kids| => Branches(kids[i]));
      forall i | 0 <= i < |kids| ensures lens[i] == counts[i] {
        EncodeStructureLength(kids[i]);
      }
      assert lens == counts;
    }
  }

  // ---------------------------------------------------------------------
  // Decoder 1 and 3: leaves are initialised by a key -> data generator

  /** genDataTByOctreeKey, seen as a leaf's initial data vector. */
  function GenData<D>(gen: Key -> Option<D>, k: Key): seq<D>
  {
    match gen(k)
    case None => []
    case Some(d) => [d]
  }

  /** Decode one branch at `mask` whose key is `key`: read its occupancy
      byte, then its children. None when the stream runs out. */
  function DecodeGen<D>(s: seq<bv8>, mask: nat, key: Key, gen: Key -> Option<D>): (r: Option<(Node<D>, seq<bv8>)>)
    ensures r.Some? ==> Shaped(r.value.0, mask) && |r.value.1| < |s|
    decreases mask, 9
  {
    if |s| == 0 then None
    else
      match DecodeGenKids(s[0], s[1..], mask, key, gen, 0)
      case None => None
      case Some((kids, rest)) => Some((Branch(kids), rest))
  }

  /** Children i..7 of a branch whose occupancy byte is `bits`. */
  function DecodeGenKids<D>(bits: bv8, s: seq<bv8>, mask: nat, key: Key, gen: Key -> Option<D>, i: nat)
    : (r: Option<(seq<Node<D>>, seq<bv8>)>)
    requires i <= 8
    ensures r.Some? ==> |r.value.0| == 8 - i && |r.value.1| <= |s|
    ensures r.Some? ==> forall j :: 0 <= j < 8 - i ==>
              var c := r.value.0[j];
              c == Empty || (if mask > 1 then c.Branch? && Shaped(c, mask / 2) else c.Leaf?)
    decreases mask, 8 - i
  {
    if i == 8 then Some(([], s))
    else if !HasBit(bits, i) then
      match DecodeGenKids(bits, s, mask, key, gen, i + 1)
      case None => None
      case Some((ks, rest)) => Some(([Empty] + ks, rest))
    else if mask > 1 then
      match DecodeGen(s, mask / 2, PushBranch(key, i), gen)
      case None => None
      case Some((c, s1)) =>
        match DecodeGenKids(bits, s1, mask, key, gen, i + 1)
        case None => None
        case Some((ks, rest)) => Some(([c] + ks, rest))
    else
      match DecodeGenKids(bits, s, mask, key, gen, i + 1)
      case None => None
      case Some((ks, rest)) => Some(([Leaf(GenData(gen, PushBranch(key, i)))] + ks, rest))
  }

  // ---------------------------------------------------------------------
  // Decoder 2: leaves consume the data vector

  /** Number of leading records whose derived key is k. */
  function MatchCount<D>(ds: seq<D>, k: Key, keyOf: D -> Option<Key>): (c: nat)
    ensures c <= |ds|
    ensures forall j :: 0 <= j < c ==> keyOf(ds[j]) == Some(k)
    ensures c < |ds| ==> keyOf(ds[c]) != Some(k)
  {
    if ds == [] || keyOf(ds[0]) != Some(k) then 0 else 1 + MatchCount(ds[1..], k, keyOf)
  }

  /** deserializeLeafCallback with a data vector: the records taken by the
      leaf at key k and the records left. Key-based: the leading records
      whose key is k; positional fallback: exactly one record. None when the
      fallback meets the end of the vector. */
  function Consume<D>(ds: seq<D>, k: Key, keyOf: D -> Option<Key>): (r: Option<(seq<D>, seq<D>)>)
    ensures r.None? <==> ds == []
    ensures r.Some? ==> r.value.0 != [] && r.value.0 + r.value.1 == ds
    ensures r.Some? && keyOf(ds[0]) == Some(k) ==> forall j :: 0 <= j < |r.value.0| ==> keyOf(r.value.0[j]) == Some(k)
  {
    var c := MatchCount(ds, k, keyOf);
    if c > 0 then Some((ds[..c], ds[c..]))
    else if ds == [] then None
    else Some(([ds[0]], ds[1..]))
  }

  /** Decode one branch, with the data vector consumed leaf by leaf; the key
      is pushed and popped around every occupied child. */
  function DecodeData<D>(s: seq<bv8>, ds: seq<D>, mask: nat, key: Key, keyOf: D -> Option<Key>)
    : (r: Option<(Node<D>, seq<bv8>, seq<D>)>)
    ensures r.Some? ==> Shaped(r.value.0, mask) && |r.value.1| < |s| && |r.value.2| <= |ds|
    decreases mask, 9
  {
    if |s| == 0 then None
    else
      match DecodeDataKids(s[0], s[1..], ds, mask, key, keyOf, 0)
      case None => None
      case Some((kids, rest, drest)) => Some((Branch(kids), rest, drest))
  }

  function DecodeDataKids<D>(bits: bv8, s: seq<bv8>, ds: seq<D>, mask: nat, key: Key, keyOf: D -> Option<Key>, i: nat)
    : (r: Option<(seq<Node<D>>, seq<bv8>, seq<D>)>)
    requires i <= 8
    ensures r.Some? ==> |r.value.0| == 8 - i && |r.value.1| <= |s| && |r.value.2| <= |ds|
    ensures r.Some? ==> forall j :: 0 <= j < 8 - i ==>
              var c := r.value.0[j];
              c == Empty || (if mask > 1 then c.Branch? && Shaped(c, mask / 2) else c.Leaf?)
    decreases mask, 8 - i
  {
    if i == 8 then Some(([], s, ds))
    else if !HasBit(bits, i) then
      match DecodeDataKids(bits, s, ds, mask, key, keyOf, i + 1)
      case None => None
      case Some((ks, rest, drest)) => Some(([Empty] + ks, rest, drest))
    else if mask > 1 then
      match DecodeData(s, ds, mask / 2, PushBranch(key, i), keyOf)
      case None => None
      case Some((c, s1, ds1)) =>
        match DecodeDataKids(bits, s1, ds1, mask, key, keyOf, i + 1)
        case None => None
        case Some((ks, rest, drest)) => Some(([c] + ks, rest, drest))
    else
      match Consume(ds, PushBranch(key, i), keyOf)
      case None => None
      case Some((taken, ds1)) =>
        match DecodeDataKids(bits, s, ds1, mask, key, keyOf, i + 1)
        case None => None
        case Some((ks, rest, drest)) => Some(([Leaf(taken)] + ks, rest, drest))
  }

  /** The same decoder as the source writes it: the key is popped after
      every child index, occupied or not, so the key handed to the leaf
      callback drifts. The final key is returned because the caller's key
      is shared by reference. */
  function DecodeDataAsWritten<D>(s: seq<bv8>, ds: seq<D>, mask: nat, key: Key, keyOf: D -> Option<Key>)
    : (r: Option<(Node<D>, seq<bv8>, seq<D>, Key)>)
    ensures r.Some? ==> |r.value.1| < |s|
    decreases mask, 9
  {
    if |s| == 0 then None
    else
      match DecodeDataAsWrittenKids(s[0], s[1..], ds, mask, key, keyOf, 0)
      case None => None
      case Some((kids, rest, drest, k)) => Some((Branch(kids), rest, drest, k))
  }

  function DecodeDataAsWrittenKids<D>(bits: bv8, s: seq<bv8>, ds: seq<D>, mask: nat, key: Key,
                                      keyOf: D -> Option<Key>, i: nat)
    : (r: Option<(seq<Node<D>>, seq<bv8>, seq<D>, Key)>)
    requires i <= 8
    ensures r.Some? ==> |r.value.0| == 8 - i && |r.value.1| <= |s|
    decreases mask, 8 - i
  {
    if i == 8 then Some(([], s, ds, key))
    else if !HasBit(bits, i) then
      match DecodeDataAsWrittenKids(bits, s, ds, mask, PopBranch(key), keyOf, i + 1)
      case None => None
      case Some((ks, rest, drest, k)) => Some(([Empty] + ks, rest, drest, k))
    else if mask > 1 then
      match DecodeDataAsWritten(s, ds, mask / 2, PushBranch(key, i), keyOf)
      case None => None
      case Some((c, s1, ds1, k1)) =>
        match DecodeDataAsWrittenKids(bits, s1, ds1, mask, PopBranch(k1), keyOf, i + 1)
        case None => None
        case Some((ks, rest, drest, k)) => Some(([c] + ks, rest, drest, k))
    else
      match Consume(ds, PushBranch(key, i), keyOf)
      case None => None
      case Some((taken, ds1)) =>
        match DecodeDataAsWrittenKids(bits, s, ds1, mask, key, keyOf, i + 1)
        case None => None
        case Some((ks, rest, drest, k)) => Some(([Leaf(taken)] + ks, rest, drest, k))
  }
}

/** What the codec promises: decoding the encoder's output at the encoder's
    depth rebuilds the same occupied voxels, with matching counters. */
module OctreeCodecProofs {
  import opened Util
  import opened OctreeKeys
  import opened OctreeNodes
  import opened OctreeCodec

  /** Same branches and leaves in the same slots; leaf data may differ. */
  ghost predicate SameShape<D>(a: Node<D>, b: Node<D>)
  {
    match (a, b)
    case (Empty, Empty) => true
    case (Leaf(_), Leaf(_)) => true
    case (Branch(ka), Branch(kb)) => |ka| == |kb| && forall i :: 0 <= i < |ka| ==> SameShape(ka[i], kb[i])
    case _ => false
  }

  /** Every leaf holds what the generator gives for the leaf's key. */
  ghost predicate Generated<D>(r: Node<D>, key: Key, gen: Key -> Option<D>)
    decreases r, 0
  {
    r.Branch? && forall i :: 0 <= i < |r.kids| && i < 8 ==> KidGenerated(r.kids[i], PushBranch(key, i), gen)
  }

  ghost predicate KidGenerated<D>(c: Node<D>, key: Key, gen: Key -> Option<D>)
    decreases c, 1
  {
    (c.Leaf? ==> c.data == GenData(gen, key)) && (c.Branch? ==> Generated(c, key, gen))
  }

  lemma ConcatFrom<T>(parts: seq<seq<T>>, i: nat)
    requires i < |parts|
    ensures Concat(parts[i..]) == parts[i] + Concat(parts[i + 1..])
  {
    ConcatCons(parts[i..]);
    assert parts[i..][1..] == parts[i + 1..];
  }

  /** Round trip of the structure stream (decoders 1 and 3): the bytes of a
      tree, followed by anything, decode to a tree of the same shape whose
      leaves hold the generated data, and exactly the tree's bytes are read. */
  lemma {:induction false} StructureRoundTrip<D>(n: Node<D>, mask: nat, key: Key, gen: Key -> Option<D>, rest: seq<bv8>)
    requires Shaped(n, mask)
    ensures var d := DecodeGen(EncodeStructure(n) + rest, mask, key, gen);
            d.Some? && d.value.1 == rest && SameShape(d.value.0, n) && Generated(d.value.0, key, gen)
    decreases mask, 9
  {
    var kids := n.kids;
    var s := EncodeStructure(n) + rest;
    assert s[0] == Pattern(kids);
    assert s[1..] == Concat(StructureParts(kids)[0..]) + rest;
    StructureKidsRoundTrip(kids, mask, key, gen, 0, rest);
    var ks := KidsDecode(kids, mask, key, gen, 0, rest).value.0;
    assert forall j :: 0 <= j < 8 ==> SameShape(ks[j], kids[j]) && KidGenerated(ks[j], PushBranch(key, j), gen);
  }

  /** The decoded children ks stand for kids[i..]: same shapes, generated leaves. */
  ghost predicate KidsMatch<D>(ks: seq<Node<D>>, kids: seq<Node<D>>, i: nat, key: Key, gen: Key -> Option<D>)
    requires i <= 8 && |kids| == 8
  {
    |ks| == 8 - i &&
    forall j :: 0 <= j < 8 - i ==> SameShape(ks[j], kids[i + j]) && KidGenerated(ks[j], PushBranch(key, i + j), gen)
  }

  lemma KidsMatchCons<D>(c: Node<D>, ks: seq<Node<D>>, kids: seq<Node<D>>, i: nat, key: Key, gen: Key -> Option<D>)
    requires i < 8 && |kids| == 8 && KidsMatch(ks, kids, i + 1, key, gen)
    requires SameShape(c, kids[i]) && KidGenerated(c, PushBranch(key, i), gen)
    ensures KidsMatch([c] + ks, kids, i, key, gen)
  {
    var r := [c] + ks;
    forall j | 0 <= j < 8 - i
      ensures SameShape(r[j], kids[i + j]) && KidGenerated(r[j], PushBranch(key, i + j), gen)
    {
      if j > 0 {
        assert r[j] == ks[j - 1];
      }
    }
  }

  /** One step of the children decoder, for an unoccupied octant. */
  lemma GenKidsStepEmpty<D>(bits: bv8, s: seq<bv8>, mask: nat, key: Key, gen: Key -> Option<D>, i: nat)
    requires i < 8 && !HasBit(bits, i)
    ensures var t := DecodeGenKids(bits, s, mask, key, gen, i + 1);
            t.Some? ==> DecodeGenKids(bits, s, mask, key, gen, i) == Some(([Empty] + t.value.0, t.value.1))
  {
  }

  /** One step of the children decoder, for an occupied octant above the leaves. */
  lemma GenKidsStepBranch<D>(bits: bv8, s: seq<bv8>, mask: nat, key: Key, gen: Key -> Option<D>, i: nat)
    requires i < 8 && HasBit(bits, i) && mask > 1
    ensures var c := DecodeGen(s, mask / 2, PushBranch(key, i), gen);
            c.Some? ==>
              var t := DecodeGenKids(bits, c.value.1, mask, key, gen, i + 1);
              t.Some? ==> DecodeGenKids(bits, s, mask, key, gen, i) == Some(([c.value.0] + t.value.0, t.value.1))
  {
  }

  /** One step of the children decoder, for a leaf octant. */
  lemma GenKidsStepLeaf<D>(bits: bv8, s: seq<bv8>, mask: nat, key: Key, gen: Key -> Option<D>, i: nat)
    requires i < 8 && HasBit(bits, i) && mask <= 1
    ensures var t := DecodeGenKids(bits, s, mask, key, gen, i + 1);
            t.Some? ==> DecodeGenKids(bits, s, mask, key, gen, i)
                        == Some(([Leaf(GenData(gen, PushBranch(key, i)))] + t.value.0, t.value.1))
  {
  }

  /** The decoded children i..7 for the stream of kids[i..] followed by rest. */
  function KidsDecode<D>(kids: seq<Node<D>>, mask: nat, key: Key, gen: Key -> Option<D>, i: nat, rest: seq<bv8>)
    : Option<(seq<Node<D>>, seq<bv8>)>
    requires i <= 8 && |kids| == 8
  {
    DecodeGenKids(Pattern(kids), Concat(StructureParts(kids)[i..]) + rest, mask, key, gen, i)
  }

  ghost predicate KidsRoundTrip<D>(kids: seq<Node<D>>, mask: nat, key: Key, gen: Key -> Option<D>, i: nat, rest: seq<bv8>)
    requires i <= 8 && |kids| == 8
  {
    var d := KidsDecode(kids, mask, key, gen, i, rest);
    d.Some? && d.value.1 == rest && KidsMatch(d.value.0, kids, i, key, gen)
  }

  lemma {:induction false} StructureKidsRoundTrip<D>(kids: seq<Node<D>>, mask: nat, key: Key, gen: Key -> Option<D>,
                                                    i: nat, rest: seq<bv8>)
    requires Shaped(Branch(kids), mask) && i <= 8
    ensures KidsRoundTrip(kids, mask, key, gen, i, rest)
    decreases mask, 8 - i
  {
    if i == 8 {
      assert StructureParts(kids)[i..] == [];
    } else {
      StructureKidsRoundTrip(kids, mask, key, gen, i + 1, rest);
      var kid := kids[i];
      if kid == Empty {
        KidEmptyStep(kids, mask, key, gen, i, rest);
      } else if mask > 1 {
        var tail := Concat(StructureParts(kids)[i + 1..]) + rest;
        StructureRoundTrip(kid, mask / 2, PushBranch(key, i), gen, tail);
        KidBranchStep(kids, mask, key, gen, i, rest);
      } else {
        KidLeafStep(kids, mask, key, gen, i, rest);
      }
    }
  }

  lemma KidEmptyStep<D>(kids: seq<Node<D>>, mask: nat, key: Key, gen: Key -> Option<D>, i: nat, rest: seq<bv8>)
    requires Shaped(Branch(kids), mask) && i < 8 && kids[i] == Empty
    requires KidsRoundTrip(kids, mask, key, gen, i + 1, rest)
    ensures KidsRoundTrip(kids, mask, key, gen, i, rest)
  {
    var parts := StructureParts(kids);
    ConcatFrom(parts, i);
    var tail := Concat(parts[i + 1..]) + rest;
    assert parts[i] == EncodeStructure(kids[i]) == [];
    assert Concat(parts[i..]) + rest == tail;
    var t := KidsDecode(kids, mask, key, gen, i + 1, rest);
    GenKidsStepEmpty(Pattern(kids), tail, mask, key, gen, i);
    KidsMatchCons(Empty, t.value.0, kids, i, key, gen);
  }

  lemma KidBranchStep<D>(kids: seq<Node<D>>, mask: nat, key: Key, gen: Key -> Option<D>, i: nat, rest: seq<bv8>)
    requires Shaped(Branch(kids), mask) && i < 8 && kids[i] != Empty && mask > 1
    requires KidsRoundTrip(kids, mask, key, gen, i + 1, rest)
    requires var d := DecodeGen(EncodeStructure(kids[i]) + (Concat(StructureParts(kids)[i + 1..]) + rest),
                                mask / 2, PushBranch(key, i), gen);
             d.Some? && d.value.1 == Concat(StructureParts(kids)[i + 1..]) + rest &&
             SameShape(d.value.0, kids[i]) && Generated(d.value.0, PushBranch(key, i), gen)
    ensures KidsRoundTrip(kids, mask, key, gen, i, rest)
  {
    var tail := Concat(StructureParts(kids)[i + 1..]) + rest;
    var s := Concat(StructureParts(kids)[i..]) + rest;
    KidStructureStream(kids, i, rest);
    var d := DecodeGen(s, mask / 2, PushBranch(key, i), gen);
    var t := KidsDecode(kids, mask, key, gen, i + 1, rest);
    assert t == DecodeGenKids(Pattern(kids), d.value.1, mask, key, gen, i + 1);
    GenKidsStepBranch(Pattern(kids), s, mask, key, gen, i);
    KidsMatchCons(d.value.0, t.value.0, kids, i, key, gen);
  }

  lemma KidLeafStep<D>(kids: seq<Node<D>>, mask: nat, key: Key, gen: Key -> Option<D>, i: nat, rest: seq<bv8>)
    requires Shaped(Branch(kids), mask) && i < 8 && kids[i] != Empty && mask <= 1
    requires KidsRoundTrip(kids, mask, key, gen, i + 1, rest)
    ensures KidsRoundTrip(kids, mask, key, gen, i, rest)
  {
    var parts := StructureParts(kids);
    ConcatFrom(parts, i);
    var tail := Concat(parts[i + 1..]) + rest;
    assert kids[i].Leaf?;
    assert parts[i] == EncodeStructure(kids[i]) == [];
    assert Concat(parts[i..]) + rest == tail;
    var t := KidsDecode(kids, mask, key, gen, i + 1, rest);
    GenKidsStepLeaf(Pattern(kids), tail, mask, key, gen, i);
    KidsMatchCons(Leaf(GenData(gen, PushBranch(key, i))), t.value.0, kids, i, key, gen);
  }

  /** Trees of the same shape have leaves at the same keys. */
  lemma {:induction false} SameShapeFind<D>(a: Node<D>, b: Node<D>, k: Key, mask: nat)
    requires Shaped(a, mask) && Shaped(b, mask) && SameShape(a, b)
    ensures Find(a, k, mask).Some? <==> Find(b, k, mask).Some?
    decreases mask
  {
    var i := ChildIdx(k, mask);
    assert SameShape(a.kids[i], b.kids[i]);
    if mask > 1 && a.kids[i] != Empty {
      SameShapeFind(a.kids[i], b.kids[i], k, mask / 2);
    }
  }

  /** Trees of the same shape have the same number of leaves and branches. */
  lemma {:induction false} SameShapeCounts<D>(a: Node<D>, b: Node<D>)
    requires SameShape(a, b)
    ensures Leaves(a) == Leaves(b) && Branches(a) == Branches(b)
  {
    if a.Branch? {
      var n := |a.kids|;
      forall i | 0 <= i < n ensures Leaves(a.kids[i]) == Leaves(b.kids[i]) && Branches(a.kids[i]) == Branches(b.kids[i]) {
        SameShapeCounts(a.kids[i], b.kids[i]);
      }
      assert seq(n, i requires 0 <= i < n => Leaves(a.kids[i])) == seq(n, i requires 0 <= i < n => Leaves(b.kids[i]));
      assert seq(n, i requires 0 <= i < n => Branches(a.kids[i])) == seq(n, i requires 0 <= i < n => Branches(b.kids[i]));
    }
  }

  /** The round trip at the root, stated as the source's callers see it:
      decoding the structure stream of the tree at the same depth mask
      finds a leaf at exactly the keys where the original has one, and the
      rebuilt tree has the original's leaf and branch counts. */
  lemma StructureRoundTripKeys<D>(n: Node<D>, mask: nat, gen: Key -> Option<D>, k: Key)
    requires Shaped(n, mask)
    ensures var d := DecodeGen(EncodeStructure(n), mask, Key(0, 0, 0), gen);
            && d.Some? && d.value.1 == []
            && (Find(d.value.0, k, mask).Some? <==> Find(n, k, mask).Some?)
            && Leaves(d.value.0) == Leaves(n) && Branches(d.value.0) == Branches(n)
  {
    StructureRoundTrip(n, mask, Key(0, 0, 0), gen, []);
    assert EncodeStructure(n) + [] == EncodeStructure(n);
    var d := DecodeGen(EncodeStructure(n), mask, Key(0, 0, 0), gen);
    SameShapeFind(d.value.0, n, k, mask);
    SameShapeCounts(d.value.0, n);
  }

  // ---------------------------------------------------------------------
  // Round trip of structure and data (decoder 2, as corrected)

  /** What a leaf's records must look like for the leaf callback to hand
      them back: a non-empty run of records whose derived key is the leaf's
      key, or a single record with no derivable key (positional fallback). */
  ghost predicate LeafRecordsOk<D>(d: seq<D>, q: Key, keyOf: D -> Option<Key>)
  {
    (|d| > 0 && forall j :: 0 <= j < |d| ==> keyOf(d[j]) == Some(q))
    || (|d| == 1 && keyOf(d[0]).None?)
  }

  /** Every leaf below the branch n (key `key`, depth mask `mask`) holds
      records that belong to it. */
  ghost predicate KeyedLeaves<D>(n: Node<D>, mask: nat, key: Key, keyOf: D -> Option<Key>)
    decreases n, 0
  {
    n.Branch? && forall i :: 0 <= i < |n.kids| && i < 8 ==> KidKeyed(n.kids[i], mask, PushBranch(key, i), keyOf)
  }

  ghost predicate KidKeyed<D>(c: Node<D>, mask: nat, q: Key, keyOf: D -> Option<Key>)
    decreases c, 1
  {
    match c
    case Empty => true
    case Leaf(d) => LeafRecordsOk(d, q, keyOf)
    case Branch(_) => KeyedLeaves(c, mask / 2, q, keyOf)
  }

  /** Every record with a derivable key lies below q, lv levels up. */
  ghost predicate RecordsAt<D>(ds: seq<D>, q: Key, lv: nat, keyOf: D -> Option<Key>)
  {
    forall j :: 0 <= j < |ds| ==> keyOf(ds[j]).None? || Shift(keyOf(ds[j]).value, lv) == q
  }

  /** The first record, if any, does not lie below q, lv levels up. */
  ghost predicate HeadAvoids<D>(ds: seq<D>, q: Key, lv: nat, keyOf: D -> Option<Key>)
  {
    ds == [] || keyOf(ds[0]).None? || Shift(keyOf(ds[0]).value, lv) != q
  }

  lemma {:induction false} DataKeys<D>(n: Node<D>, mask: nat, key: Key, keyOf: D -> Option<Key>)
    requires Shaped(n, mask) && KeyedLeaves(n, mask, key, keyOf)
    ensures RecordsAt(EncodeData(n), key, BranchLevels(mask) + 1, keyOf)
    decreases mask, 1
  {
    var kids := n.kids;
    var parts := DataParts(kids);
    var lv := BranchLevels(mask);
    forall j | 0 <= j < |Concat(parts)|
      ensures keyOf(Concat(parts)[j]).None? || Shift(keyOf(Concat(parts)[j]).value, lv + 1) == key
    {
      ConcatElem(parts, j);
      var p, q :| 0 <= p < |parts| && 0 <= q < |parts[p]| && Concat(parts)[j] == parts[p][q];
      KidDataKeys(kids, mask, key, keyOf, p);
      var r := parts[p][q];
      if keyOf(r).Some? {
        ShiftSucc(keyOf(r).value, lv);
      }
    }
  }

  lemma {:induction false} KidDataKeys<D>(kids: seq<Node<D>>, mask: nat, key: Key, keyOf: D -> Option<Key>, i: nat)
    requires Shaped(Branch(kids), mask) && KeyedLeaves(Branch(kids), mask, key, keyOf) && i < 8
    ensures RecordsAt(EncodeData(kids[i]), PushBranch(key, i), BranchLevels(mask), keyOf)
    decreases mask, 0
  {
    var kid := kids[i];
    assert KidKeyed(kid, mask, PushBranch(key, i), keyOf);
    if kid.Branch? {
      DataKeys(kid, mask / 2, PushBranch(key, i), keyOf);
    }
  }

  /** What follows child i's records never lies below child i. */
  lemma FollowAvoids<D>(kids: seq<Node<D>>, mask: nat, key: Key, keyOf: D -> Option<Key>, i: nat, rd: seq<D>)
    requires Shaped(Branch(kids), mask) && KeyedLeaves(Branch(kids), mask, key, keyOf) && i < 8
    requires HeadAvoids(rd, key, BranchLevels(mask) + 1, keyOf)
    ensures HeadAvoids(Concat(DataParts(kids)[i + 1..]) + rd, PushBranch(key, i), BranchLevels(mask), keyOf)
  {
    var lv := BranchLevels(mask);
    var later := DataParts(kids)[i + 1..];
    var c := Concat(later);
    if c == [] {
      assert c + rd == rd;
      if rd != [] && keyOf(rd[0]).Some? {
        ShiftSucc(keyOf(rd[0]).value, lv);
      }
    } else {
      assert (c + rd)[0] == c[0];
      ConcatElem(later, 0);
      var p, q :| 0 <= p < |later| && 0 <= q < |later[p]| && c[0] == later[p][q];
      KidDataKeys(kids, mask, key, keyOf, i + 1 + p);
      assert later[p] == EncodeData(kids[i + 1 + p]);
      PushBranchInjective(key, i, i + 1 + p);
    }
  }

  /** A run of records with key k, then a record without it: all of the run matches. */
  lemma {:induction false} MatchRun<D>(a: seq<D>, b: seq<D>, k: Key, keyOf: D -> Option<Key>)
    requires forall j :: 0 <= j < |a| ==> keyOf(a[j]) == Some(k)
    requires b == [] || keyOf(b[0]) != Some(k)
    ensures MatchCount(a + b, k, keyOf) == |a|
  {
    if a == [] {
      assert a + b == b;
    } else {
      assert (a + b)[1..] == a[1..] + b;
      MatchRun(a[1..], b, k, keyOf);
    }
  }

  /** The leaf callback takes back exactly the leaf's records. */
  lemma ConsumeLeaf<D>(d: seq<D>, rd: seq<D>, q: Key, keyOf: D -> Option<Key>)
    requires LeafRecordsOk(d, q, keyOf) && HeadAvoids(rd, q, 0, keyOf)
    ensures Consume(d + rd, q, keyOf) == Some((d, rd))
  {
    if |d| > 0 && forall j :: 0 <= j < |d| ==> keyOf(d[j]) == Some(q) {
      MatchRun(d, rd, q, keyOf);
      assert (d + rd)[..|d|] == d;
      assert (d + rd)[|d|..] == rd;
    } else {
      assert (d + rd)[0] == d[0];
      assert (d + rd)[1..] == rd;
      assert d == [d[0]];
    }
  }

  function DataKidsDecode<D>(kids: seq<Node<D>>, mask: nat, key: Key, keyOf: D -> Option<Key>, i: nat,
                             rs: seq<bv8>, rd: seq<D>): Option<(seq<Node<D>>, seq<bv8>, seq<D>)>
    requires i <= 8 && |kids| == 8
  {
    DecodeDataKids(Pattern(kids), Concat(StructureParts(kids)[i..]) + rs, Concat(DataParts(kids)[i..]) + rd,
                   mask, key, keyOf, i)
  }

  /** Round trip of both streams: a tree whose leaves hold their own
      records decodes, structure and data together, back to itself, and
      exactly its bytes and records are read. */
  lemma {:induction false} DataRoundTrip<D>(n: Node<D>, mask: nat, key: Key, keyOf: D -> Option<Key>,
                                            rs: seq<bv8>, rd: seq<D>)
    requires Shaped(n, mask) && KeyedLeaves(n, mask, key, keyOf)
    requires HeadAvoids(rd, key, BranchLevels(mask) + 1, keyOf)
    ensures DecodeData(EncodeStructure(n) + rs, EncodeData(n) + rd, mask, key, keyOf) == Some((n, rs, rd))
    decreases mask, 9
  {
    var kids := n.kids;
    var s := EncodeStructure(n) + rs;
    assert s[0] == Pattern(kids);
    assert s[1..] == Concat(StructureParts(kids)[0..]) + rs;
    assert EncodeData(n) + rd == Concat(DataParts(kids)[0..]) + rd;
    DataKidsRoundTrip(kids, mask, key, keyOf, 0, rs, rd);
    assert kids[0..] == kids;
  }

  lemma {:induction false} DataKidsRoundTrip<D>(kids: seq<Node<D>>, mask: nat, key: Key, keyOf: D -> Option<Key>,
                                                i: nat, rs: seq<bv8>, rd: seq<D>)
    requires Shaped(Branch(kids), mask) && KeyedLeaves(Branch(kids), mask, key, keyOf) && i <= 8
    requires HeadAvoids(rd, key, BranchLevels(mask) + 1, keyOf)
    ensures DataKidsDecode(kids, mask, key, keyOf, i, rs, rd) == Some((kids[i..], rs, rd))
    decreases mask, 8 - i, 1
  {
    if i == 8 {
      assert StructureParts(kids)[i..] == [];
      assert DataParts(kids)[i..] == [];
      assert kids[i..] == [];
      assert Concat<bv8>([]) + rs == rs;
      assert Concat<D>([]) + rd == rd;
    } else {
      DataKidsRoundTrip(kids, mask, key, keyOf, i + 1, rs, rd);
      if kids[i] == Empty {
        DataKidEmpty(kids, mask, key, keyOf, i, rs, rd);
      } else {
        DataKidOccupied(kids, mask, key, keyOf, i, rs, rd);
      }
    }
  }

  /** One occupied child decodes back to itself in front of the children
      after it. */
  lemma {:induction false} DataKidOccupied<D>(kids: seq<Node<D>>, mask: nat, key: Key, keyOf: D -> Option<Key>,
                                              i: nat, rs: seq<bv8>, rd: seq<D>)
    requires Shaped(Branch(kids), mask) && KeyedLeaves(Branch(kids), mask, key, keyOf) && i < 8 && kids[i] != Empty
    requires HeadAvoids(rd, key, BranchLevels(mask) + 1, keyOf)
    requires DataKidsDecode(kids, mask, key, keyOf, i + 1, rs, rd) == Some((kids[i + 1..], rs, rd))
    ensures DataKidsDecode(kids, mask, key, keyOf, i, rs, rd) == Some((kids[i..], rs, rd))
    decreases mask, 8 - i, 0
  {
    var kid := kids[i];
    FollowAvoids(kids, mask, key, keyOf, i, rd);
    var ts := Concat(StructureParts(kids)[i + 1..]) + rs;
    var td := Concat(DataParts(kids)[i + 1..]) + rd;
    assert KidKeyed(kid, mask, PushBranch(key, i), keyOf);
    if mask > 1 {
      DataRoundTrip(kid, mask / 2, PushBranch(key, i), keyOf, ts, td);
      DataKidBranch(kids, mask, key, keyOf, i, rs, rd);
    } else {
      ConsumeLeaf(kid.data, td, PushBranch(key, i), keyOf);
      DataKidLeaf(kids, mask, key, keyOf, i, rs, rd);
    }
  }

  lemma DataKidsStepEmpty<D>(bits: bv8, s: seq<bv8>, ds: seq<D>, mask: nat, key: Key, keyOf: D -> Option<Key>,
                             i: nat, ks: seq<Node<D>>, rest: seq<bv8>, drest: seq<D>)
    requires i < 8 && !HasBit(bits, i)
    requires DecodeDataKids(bits, s, ds, mask, key, keyOf, i + 1) == Some((ks, rest, drest))
    ensures DecodeDataKids(bits, s, ds, mask, key, keyOf, i) == Some(([Empty] + ks, rest, drest))
  {
  }

  lemma DataKidsStepBranch<D>(bits: bv8, s: seq<bv8>, ds: seq<D>, mask: nat, key: Key, keyOf: D -> Option<Key>,
                              i: nat, c: Node<D>, s1: seq<bv8>, ds1: seq<D>, ks: seq<Node<D>>, rest: seq<bv8>, drest: seq<D>)
    requires i < 8 && HasBit(bits, i) && mask > 1
    requires DecodeData(s, ds, mask / 2, PushBranch(key, i), keyOf) == Some((c, s1, ds1))
    requires DecodeDataKids(bits, s1, ds1, mask, key, keyOf, i + 1) == Some((ks, rest, drest))
    ensures DecodeDataKids(bits, s, ds, mask, key, keyOf, i) == Some(([c] + ks, rest, drest))
  {
  }

  lemma DataKidsStepLeaf<D>(bits: bv8, s: seq<bv8>, d: seq<D>, td: seq<D>, mask: nat, key: Key,
                            keyOf: D -> Option<Key>, i: nat, ks: seq<Node<D>>, rest: seq<bv8>, drest: seq<D>)
    requires i < 8 && HasBit(bits, i) && mask <= 1
    requires Consume(d + td, PushBranch(key, i), keyOf) == Some((d, td))
    requires DecodeDataKids(bits, s, td, mask, key, keyOf, i + 1) == Some((ks, rest, drest))
    ensures DecodeDataKids(bits, s, d + td, mask, key, keyOf, i) == Some(([Leaf(d)] + ks, rest, drest))
  {
  }

  lemma SliceCons<T>(s: seq<T>, i: nat)
    requires i < |s|
    ensures s[i..] == [s[i]] + s[i + 1..]
  {
  }

  lemma AppendAssoc<T>(a: seq<T>, b: seq<T>, c: seq<T>)
    ensures (a + b) + c == a + (b + c)
  {
  }

  /** Child i's part of the structure stream, then the parts of the children after it. */
  lemma KidStructureStream<D>(kids: seq<Node<D>>, i: nat, rs: seq<bv8>)
    requires i < |kids|
    ensures Concat(StructureParts(kids)[i..]) + rs == EncodeStructure(kids[i]) + (Concat(StructureParts(kids)[i + 1..]) + rs)
  {
    var sp := StructureParts(kids);
    ConcatFrom(sp, i);
    AppendAssoc(sp[i], Concat(sp[i + 1..]), rs);
  }

  /** Child i's part of the data stream, then the parts of the children after it. */
  lemma KidDataStream<D>(kids: seq<Node<D>>, i: nat, rd: seq<D>)
    requires i < |kids|
    ensures Concat(DataParts(kids)[i..]) + rd == EncodeData(kids[i]) + (Concat(DataParts(kids)[i + 1..]) + rd)
  {
    var dp := DataParts(kids);
    ConcatFrom(dp, i);
    AppendAssoc(dp[i], Concat(dp[i + 1..]), rd);
  }

  lemma DataKidEmpty<D>(kids: seq<Node<D>>, mask: nat, key: Key, keyOf: D -> Option<Key>, i: nat, rs: seq<bv8>, rd: seq<D>)
    requires |kids| == 8 && i < 8 && kids[i] == Empty
    requires DataKidsDecode(kids, mask, key, keyOf, i + 1, rs, rd) == Some((kids[i + 1..], rs, rd))
    ensures DataKidsDecode(kids, mask, key, keyOf, i, rs, rd) == Some((kids[i..], rs, rd))
  {
    KidStructureStream(kids, i, rs);
    KidDataStream(kids, i, rd);
    var ts := Concat(StructureParts(kids)[i + 1..]) + rs;
    var td := Concat(DataParts(kids)[i + 1..]) + rd;
    assert EncodeStructure(kids[i]) + ts == ts;
    assert EncodeData(kids[i]) + td == td;
    DataKidsStepEmpty(Pattern(kids), ts, td, mask, key, keyOf, i, kids[i + 1..], rs, rd);
    SliceCons(kids, i);
  }

  lemma DataKidBranch<D>(kids: seq<Node<D>>, mask: nat, key: Key, keyOf: D -> Option<Key>, i: nat, rs: seq<bv8>, rd: seq<D>)
    requires |kids| == 8 && i < 8 && kids[i] != Empty && mask > 1
    requires DataKidsDecode(kids, mask, key, keyOf, i + 1, rs, rd) == Some((kids[i + 1..], rs, rd))
    requires var ts := Concat(StructureParts(kids)[i + 1..]) + rs;
             var td := Concat(DataParts(kids)[i + 1..]) + rd;
             DecodeData(EncodeStructure(kids[i]) + ts, EncodeData(kids[i]) + td, mask / 2, PushBranch(key, i), keyOf)
             == Some((kids[i], ts, td))
    ensures DataKidsDecode(kids, mask, key, keyOf, i, rs, rd) == Some((kids[i..], rs, rd))
  {
    KidStructureStream(kids, i, rs);
    KidDataStream(kids, i, rd);
    var ts := Concat(StructureParts(kids)[i + 1..]) + rs;
    var td := Concat(DataParts(kids)[i + 1..]) + rd;
    DataKidsStepBranch(Pattern(kids), EncodeStructure(kids[i]) + ts, EncodeData(kids[i]) + td, mask, key, keyOf, i,
                       kids[i], ts, td, kids[i + 1..], rs, rd);
    SliceCons(kids, i);
  }

  lemma DataKidLeaf<D>(kids: seq<Node<D>>, mask: nat, key: Key, keyOf: D -> Option<Key>, i: nat, rs: seq<bv8>, rd: seq<D>)
    requires |kids| == 8 && i < 8 && kids[i].Leaf? && mask <= 1
    requires DataKidsDecode(kids, mask, key, keyOf, i + 1, rs, rd) == Some((kids[i + 1..], rs, rd))
    requires var td := Concat(DataParts(kids)[i + 1..]) + rd;
             Consume(kids[i].data + td, PushBranch(key, i), keyOf) == Some((kids[i].data, td))
    ensures DataKidsDecode(kids, mask, key, keyOf, i, rs, rd) == Some((kids[i..], rs, rd))
  {
    KidStructureStream(kids, i, rs);
    KidDataStream(kids, i, rd);
    var ts := Concat(StructureParts(kids)[i + 1..]) + rs;
    var td := Concat(DataParts(kids)[i + 1..]) + rd;
    assert EncodeStructure(kids[i]) + ts == ts;
    DataKidsStepLeaf(Pattern(kids), ts, kids[i].data, td, mask, key, keyOf, i, kids[i + 1..], rs, rd);
    SliceCons(kids, i);
  }

  /** The round trip at the root: serializeTree with data, then
      deserializeTree with that data, rebuilds the same tree. */
  lemma DataRoundTripRoot<D>(n: Node<D>, mask: nat, keyOf: D -> Option<Key>)
    requires Shaped(n, mask) && KeyedLeaves(n, mask, Key(0, 0, 0), keyOf)
    ensures DecodeData(EncodeStructure(n), EncodeData(n), mask, Key(0, 0, 0), keyOf) == Some((n, [], []))
  {
    DataRoundTrip(n, mask, Key(0, 0, 0), keyOf, [], []);
    assert EncodeStructure(n) + [] == EncodeStructure(n);
    assert EncodeData(n) + [] == EncodeData(n);
  }
}

/** The data decoder as the source writes it loses records. */
module OctreeCodecFindings {
  import opened Util
  import opened OctreeKeys
  import opened OctreeNodes
  import opened OctreeCodec
  import opened OctreeCodecProofs

  function SelfKey(k: Key): Option<Key>
  {
    Some(k)
  }

  function Empties<D>(n: nat): (r: seq<Node<D>>)
    ensures |r| == n && forall j :: 0 <= j < n ==> r[j] == Empty
  {
    seq(n, _ => Empty)
  }

  /** Eight children, all empty but child j. */
  function OneKid<D>(j: nat, c: Node<D>): (r: seq<Node<D>>)
    requires j < 8
    ensures |r| == 8 && r[j] == c && forall i :: 0 <= i < 8 && i != j ==> r[i] == Empty
  {
    Empties(8)[j := c]
  }

  /** The empty children before j, then c, then the empty ones after it. */
  lemma OneKidSplit<D>(j: nat, c: Node<D>)
    requires j < 8
    ensures Empties(j) + ([c] + Empties(7 - j)) == OneKid(j, c)
  {
    var l := Empties<D>(j) + ([c] + Empties(7 - j));
    assert |l| == 8;
    forall i | 0 <= i < 8 ensures l[i] == OneKid(j, c)[i] {
      if i > j {
        assert l[i] == Empties<D>(7 - j)[i - j - 1];
      }
    }
  }

  /** A tree of depth 2 holding the single voxel k = (1, 3, 2), reached through
      octant 3 of the root and octant 6 of its child, with the records ds. */
  function TwoLevelTree(k: Key, ds: seq<Key>): Node<Key>
  {
    Branch(OneKid(3, Branch(OneKid(6, Leaf(ds)))))
  }

  /** The streams of eight children with only child j present are child j's. */
  lemma OneKidStreams<D>(j: nat, c: Node<D>)
    requires j < 8
    ensures Concat(StructureParts(OneKid(j, c))) == EncodeStructure(c)
    ensures Concat(DataParts(OneKid(j, c))) == EncodeData(c)
  {
    var kids := OneKid(j, c);
    var sp, dp := StructureParts(kids), DataParts(kids);
    forall i | 0 <= i < 8 && i != j ensures sp[i] == [] && dp[i] == [] {
      assert kids[i] == Empty;
      assert sp[i] == EncodeStructure(kids[i]);
      assert dp[i] == EncodeData(kids[i]);
    }
    ConcatOnly(sp, j);
    ConcatOnly(dp, j);
  }

  lemma BitsOf64()
    ensures !HasBit(64, 0) && !HasBit(64, 1) && !HasBit(64, 2) && !HasBit(64, 3)
    ensures !HasBit(64, 4) && !HasBit(64, 5) && HasBit(64, 6) && !HasBit(64, 7)
  {
  }

  lemma BitsOf8()
    ensures !HasBit(8, 0) && !HasBit(8, 1) && !HasBit(8, 2) && HasBit(8, 3)
    ensures !HasBit(8, 4) && !HasBit(8, 5) && !HasBit(8, 6) && !HasBit(8, 7)
  {
  }

  /** The occupancy byte of eight children with only child j present. */
  lemma PatternOneKid<D>(j: nat, c: Node<D>, b: bv8)
    requires j < 8 && c != Empty
    requires forall i :: 0 <= i < 8 ==> (HasBit(b, i) <==> i == j)
    ensures Pattern(OneKid(j, c)) == b
  {
    var p := Pattern(OneKid(j, c));
    assert HasBit(p, 0) == HasBit(b, 0) && HasBit(p, 1) == HasBit(b, 1);
    assert HasBit(p, 2) == HasBit(b, 2) && HasBit(p, 3) == HasBit(b, 3);
    assert HasBit(p, 4) == HasBit(b, 4) && HasBit(p, 5) == HasBit(b, 5);
    assert HasBit(p, 6) == HasBit(b, 6) && HasBit(p, 7) == HasBit(b, 7);
  }

  /** The serializers' output for that tree. */
  lemma TwoLevelTreeEncoding(k: Key, ds: seq<Key>)
    ensures EncodeStructure(TwoLevelTree(k, ds)) == [8, 64]
    ensures EncodeData(TwoLevelTree(k, ds)) == ds
  {
    var inner := Branch(OneKid(6, Leaf(ds)));
    var n := TwoLevelTree(k, ds);
    OneKidStreams(6, Leaf(ds));
    OneKidStreams(3, inner);
    BitsOf64();
    PatternOneKid(6, Leaf(ds), 64);
    BitsOf8();
    PatternOneKid(3, inner, 8);
  }

  lemma AsWrittenStepEmpty<D>(bits: bv8, s: seq<bv8>, ds: seq<D>, mask: nat, key: Key, keyOf: D -> Option<Key>,
                              i: nat, ks: seq<Node<D>>, rest: seq<bv8>, drest: seq<D>, k: Key)
    requires i < 8 && !HasBit(bits, i)
    requires DecodeDataAsWrittenKids(bits, s, ds, mask, PopBranch(key), keyOf, i + 1) == Some((ks, rest, drest, k))
    ensures DecodeDataAsWrittenKids(bits, s, ds, mask, key, keyOf, i) == Some(([Empty] + ks, rest, drest, k))
  {
  }

  lemma AsWrittenStepLeaf<D>(bits: bv8, s: seq<bv8>, ds: seq<D>, mask: nat, key: Key, keyOf: D -> Option<Key>,
                             i: nat, taken: seq<D>, ds1: seq<D>, ks: seq<Node<D>>, rest: seq<bv8>, drest: seq<D>, k: Key)
    requires i < 8 && HasBit(bits, i) && mask <= 1
    requires Consume(ds, PushBranch(key, i), keyOf) == Some((taken, ds1))
    requires DecodeDataAsWrittenKids(bits, s, ds1, mask, key, keyOf, i + 1) == Some((ks, rest, drest, k))
    ensures DecodeDataAsWrittenKids(bits, s, ds, mask, key, keyOf, i) == Some(([Leaf(taken)] + ks, rest, drest, k))
  {
  }

  lemma AsWrittenStepBranch<D>(bits: bv8, s: seq<bv8>, ds: seq<D>, mask: nat, key: Key, keyOf: D -> Option<Key>,
                               i: nat, c: Node<D>, s1: seq<bv8>, ds1: seq<D>, k1: Key,
                               ks: seq<Node<D>>, rest: seq<bv8>, drest: seq<D>, k: Key)
    requires i < 8 && HasBit(bits, i) && mask > 1
    requires DecodeDataAsWritten(s, ds, mask / 2, PushBranch(key, i), keyOf) == Some((c, s1, ds1, k1))
    requires DecodeDataAsWrittenKids(bits, s1, ds1, mask, PopBranch(k1), keyOf, i + 1) == Some((ks, rest, drest, k))
    ensures DecodeDataAsWrittenKids(bits, s, ds, mask, key, keyOf, i) == Some(([c] + ks, rest, drest, k))
  {
  }

  /** Keys are equal when their coordinates are. */
  lemma KeyEq(a: Key, b: Key)
    requires a.x == b.x && a.y == b.y && a.z == b.z
    ensures a == b
  {
  }

  predicate IsZero(z: Key)
  {
    z.x == 0 && z.y == 0 && z.z == 0
  }

  /** The example's voxel: octant 3 of the root, then octant 6 below it;
      from the zero key that is (1, 3, 2). */
  function Voxel(z: Key): Key
  {
    PushBranch(PushBranch(z, 3), 6)
  }

  /** The keys along the example's path: popping undoes each push, zero pops
      to itself, and octant 6 straight below zero is not the voxel. */
  lemma TwoLevelPath(k: Key, z: Key)
    requires k == Voxel(z) && IsZero(z)
    ensures var q := PushBranch(z, 3);
            PopBranch(q) == z && PopBranch(z) == z && PushBranch(q, 6) == k && PushBranch(z, 6) != k
  {
    var q := PushBranch(z, 3);
    assert q.x == 0 && q.y == 1 && q.z == 1;
    PopToZero(q, z);
    PopToZero(z, z);
    assert k.y == 3 && PushBranch(z, 6).y == 1;
  }

  lemma PopToZero(q: Key, z: Key)
    requires q.x <= 1 && q.y <= 1 && q.z <= 1 && IsZero(z)
    ensures PopBranch(q) == z
  {
    KeyEq(PopBranch(q), z);
  }

  /** From index i on no octant is occupied: the key, once zero, stays zero. */
  lemma {:induction false} AsWrittenEmptyRun<D>(bits: bv8, s: seq<bv8>, ds: seq<D>, mask: nat, keyOf: D -> Option<Key>,
                                                i: nat, z: Key)
    requires i <= 8 && IsZero(z) && forall j :: i <= j < 8 ==> !HasBit(bits, j)
    ensures DecodeDataAsWrittenKids(bits, s, ds, mask, z, keyOf, i) == Some((Empties(8 - i), s, ds, z))
    decreases 8 - i
  {
    if i < 8 {
      AsWrittenEmptyRun(bits, s, ds, mask, keyOf, i + 1, z);
      KeyEq(PopBranch(z), z);
      AsWrittenStepEmpty(bits, s, ds, mask, z, keyOf, i, Empties(8 - (i + 1)), s, ds, z);
      assert [Empty] + Empties<D>(8 - (i + 1)) == Empties(8 - i);
    }
  }

  /** Leaves 0..i-1 empty in front of ks. */
  lemma EmptiesPrefix<D>(i: nat, ks: seq<Node<D>>)
    ensures [Empty] + (Empties(i) + ks) == Empties(i + 1) + ks
  {
  }

  /** The wrong leaf key: below zero, octant 6 is (1, 1, 0), not the voxel,
      so the key-based callback finds no match and takes one record. */
  lemma AsWrittenLeafKey(k: Key, z: Key)
    requires k == Voxel(z) && IsZero(z)
    ensures Consume([k, k], PushBranch(z, 6), SelfKey) == Some(([k], [k]))
  {
    TwoLevelPath(k, z);
    assert SelfKey(k) != Some(PushBranch(z, 6));
    assert MatchCount([k, k], PushBranch(z, 6), SelfKey) == 0;
  }

  /** Octants j..i-1 unoccupied in front of ks: the first pop takes the key
      to zero, where it stays. */
  lemma {:induction false} AsWrittenEmptyPrefix<D>(bits: bv8, s: seq<bv8>, ds: seq<D>, mask: nat, keyOf: D -> Option<Key>,
                                                   j: nat, i: nat, key: Key, z: Key,
                                                   ks: seq<Node<D>>, rest: seq<bv8>, drest: seq<D>, k: Key)
    requires j <= i <= 8 && IsZero(z) && PopBranch(key) == z && (j == i ==> key == z)
    requires forall t :: j <= t < i ==> !HasBit(bits, t)
    requires DecodeDataAsWrittenKids(bits, s, ds, mask, z, keyOf, i) == Some((ks, rest, drest, k))
    ensures DecodeDataAsWrittenKids(bits, s, ds, mask, key, keyOf, j) == Some((Empties(i - j) + ks, rest, drest, k))
    decreases i - j
  {
    if j == i {
      assert Empties<D>(0) + ks == ks;
    } else {
      PopToZero(z, z);
      AsWrittenEmptyPrefix(bits, s, ds, mask, keyOf, j + 1, i, z, z, ks, rest, drest, k);
      AsWrittenStepEmpty(bits, s, ds, mask, key, keyOf, j, Empties(i - (j + 1)) + ks, rest, drest, k);
      EmptiesPrefix(i - (j + 1), ks);
    }
  }

  /** The child branch of the example, decoded as written: octants 0..5 pop
      the key (0, 1, 1) down to zero, so the leaf callback at octant 6 sees
      (1, 1, 0) and takes one record by position. */
  lemma AsWrittenChild(k: Key, z: Key)
    requires k == Voxel(z) && IsZero(z)
    ensures DecodeDataAsWritten([64], [k, k], 1, PushBranch(z, 3), SelfKey)
            == Some((Branch(OneKid(6, Leaf([k]))), [], [k], z))
  {
    var q := PushBranch(z, 3);
    var none: seq<bv8> := [];
    TwoLevelPath(k, z);
    BitsOf64();
    AsWrittenEmptyRun(64, none, [k], 1, SelfKey, 7, z);
    AsWrittenLeafKey(k, z);
    var t := [Leaf([k])] + Empties(1);
    AsWrittenStepLeaf(64, none, [k, k], 1, z, SelfKey, 6, [k], [k], Empties(1), none, [k], z);
    AsWrittenEmptyPrefix(64, none, [k, k], 1, SelfKey, 0, 6, q, z, t, none, [k], z);
    OneKidSplit(6, Leaf([k]));
    assert [64 as bv8][1..] == none;
  }

  /** A branch byte with only octant j set, at zero and above leaf level:
      as written, the children decode to that one child branch, provided it
      decodes and hands back the zero key. */
  lemma AsWrittenOnlyBranch<D>(j: nat, bits: bv8, s: seq<bv8>, ds: seq<D>, mask: nat, keyOf: D -> Option<Key>,
                               z: Key, c: Node<D>, ds1: seq<D>)
    requires j < 8 && IsZero(z) && mask > 1
    requires forall t :: 0 <= t < 8 ==> (HasBit(bits, t) <==> t == j)
    requires DecodeDataAsWritten(s, ds, mask / 2, PushBranch(z, j), keyOf) == Some((c, [], ds1, z))
    ensures DecodeDataAsWrittenKids(bits, s, ds, mask, z, keyOf, 0) == Some((OneKid(j, c), [], ds1, z))
  {
    var none: seq<bv8> := [];
    PopToZero(z, z);
    AsWrittenEmptyRun(bits, none, ds1, mask, keyOf, j + 1, z);
    var t := [c] + Empties(8 - (j + 1));
    AsWrittenStepBranch(bits, s, ds, mask, z, keyOf, j, c, none, ds1, z, Empties(8 - (j + 1)), none, ds1, z);
    AsWrittenEmptyPrefix(bits, s, ds, mask, keyOf, 0, j, z, z, t, none, ds1, z);
    OneKidSplit(j, c);
  }

  /** The root's children in the example, decoded as written. */
  lemma AsWrittenRootKids(k: Key, z: Key)
    requires k == Voxel(z) && IsZero(z)
    ensures DecodeDataAsWrittenKids(8, [64], [k, k], 2, z, SelfKey, 0)
            == Some((OneKid(3, Branch(OneKid(6, Leaf([k])))), [], [k], z))
  {
    AsWrittenChild(k, z);
    BitsOf8();
    AsWrittenOnlyBranch(3, 8, [64], [k, k], 2, SelfKey, z, Branch(OneKid(6, Leaf([k]))), [k]);
  }

  /** The root of the example, decoded as written. */
  lemma AsWrittenRoot(k: Key, z: Key)
    requires k == Voxel(z) && IsZero(z)
    ensures DecodeDataAsWritten([8, 64], [k, k], 2, z, SelfKey)
            == Some((Branch(OneKid(3, Branch(OneKid(6, Leaf([k]))))), [], [k], z))
  {
    AsWrittenRootKids(k, z);
    assert [8 as bv8, 64][1..] == [64];
  }

  /** As written, the serialized tree with two records at voxel (1, 3, 2)
      comes back with one record in that leaf and the other left unread. */
  lemma AsWrittenCounterexample(k: Key, z: Key)
    requires k == Voxel(z) && IsZero(z)
    ensures EncodeStructure(TwoLevelTree(k, [k, k])) == [8, 64] && EncodeData(TwoLevelTree(k, [k, k])) == [k, k]
    ensures var w := DecodeDataAsWritten([8, 64], [k, k], 2, z, SelfKey);
            w.Some? && w.value.0 != TwoLevelTree(k, [k, k]) && w.value.2 == [k]
  {
    TwoLevelTreeEncoding(k, [k, k]);
    AsWrittenRoot(k, z);
    assert TwoLevelTree(k, [k, k]).kids[3].kids[6] == Leaf([k, k]);
  }

  lemma TwoLevelTreeShaped(k: Key, ds: seq<Key>)
    ensures Shaped(TwoLevelTree(k, ds), 2)
  {
    assert Shaped(Branch(OneKid(6, Leaf(ds))), 1);
  }

  /** A branch with one child is keyed when that child is. */
  lemma KeyedOneKid(j: nat, c: Node<Key>, mask: nat, key: Key)
    requires j < 8 && KidKeyed(c, mask, PushBranch(key, j), SelfKey)
    ensures KeyedLeaves(Branch(OneKid(j, c)), mask, key, SelfKey)
  {
    var kids := OneKid(j, c);
    forall i | 0 <= i < 8 ensures KidKeyed(kids[i], mask, PushBranch(key, i), SelfKey) {
      if i != j {
        assert kids[i] == Empty;
      }
    }
  }

  lemma TwoLevelTreeKeyed(k: Key, z: Key)
    requires k == Voxel(z) && IsZero(z)
    ensures KeyedLeaves(TwoLevelTree(k, [k, k]), 2, z, SelfKey)
  {
    var q := PushBranch(z, 3);
    TwoLevelPath(k, z);
    KeyedOneKid(6, Leaf([k, k]), 1, q);
    KeyedOneKid(3, Branch(OneKid(6, Leaf([k, k]))), 2, z);
  }

  /** With push and pop balanced, the same streams give the tree back. */
  lemma CorrectedDecodesTwoLevelTree(k: Key, z: Key)
    requires k == Voxel(z) && IsZero(z)
    ensures DecodeData([8, 64], [k, k], 2, z, SelfKey) == Some((TwoLevelTree(k, [k, k]), [], []))
  {
    TwoLevelTreeEncoding(k, [k, k]);
    TwoLevelTreeShaped(k, [k, k]);
    TwoLevelTreeKeyed(k, z);
    DataRoundTripRoot(TwoLevelTree(k, [k, k]), 2, SelfKey);
  }
}
