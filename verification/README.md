# Low-memory octree, PLY header bookkeeping and label colours

This project is a Dafny model of three parts of the Point Cloud Library.

**The low-memory octree** (`OctreeLowMemBase`) maps integer voxel keys
(x, y, z) to leaf data.
- **Descent.** Each level takes one bit of each coordinate, selected by a
  depth mask that halves at every level. The bits form a child index with
  x at bit 2, y at bit 1 and z at bit 0.
- **Counters.** Branches and leaves are created lazily, and three counters
  track them: leaves, branches and added objects.
- **Removal.** Removing a leaf prunes every branch that becomes childless,
  except the root.
- **Serialisation.** The tree serialises to one occupancy byte per branch,
  in depth-first pre-order with children 0..7. The leaf data can follow in
  the same order.
- **Deserialisation.** There are three decoders:
  - structure only, with leaf data taken from a key→data generator;
  - structure plus a data vector, consumed key by key with a positional
    fallback;
  - structure plus a generator, where the generated data is also emitted.

**The PLY reader's header bookkeeping** covers:
- type names;
- the capacity of list-count types;
- the byte size of each property;
- the record size of an element, kept in step with its properties;
- the byte offset of a named property inside a record, and of a named
  element inside the body.

**The people-detection label colouring** covers:
- the fixed 32-colour table;
- colouring a label image into an RGB buffer, and a label cloud into a
  colour cloud;
- the RGBA table prepared for the device, with red and blue swapped.

Layout:
- `util.dfy`: powers of two, integer ceiling log2, sums and concatenation.
- `octree_key.dfy`: the key, its child index and `pushBranch`/`popBranch`.
- `octree_node.dfy`: the tree as a value (`Empty | Leaf | Branch` of eight
  children). Holds the specification functions `Find`, `Insert` and
  `Delete`, and the counter lemmas.
- `octree_codec.dfy`: the byte/data encodings and the three decoders as
  functions, their round-trip proofs, and the decoder finding.
- `octree.dfy`: the class `OctreeLowMem`, whose methods update the root and
  the counters in place and are proved against those functions. Also holds
  the recursive walks with their `for childIdx in 0..7` loops.
- `ply.dfy`: type lookup, properties, and the classes `Element` and
  `Parser`.
- `colormap.dfy`: the colour table, the colouring loops and the device
  table.

Collaborators the source calls but does not define are parameters:
- `genOctreeKeyForDataT` is `keyOf: D -> Option<Key>`.
- `genDataTByOctreeKey` is `gen: Key -> Option<D>`.
- `pcl::getFieldSize` is `fieldSize: int -> nat`.

The datatype codes of `sensor_msgs::PointField` are not part of this model.
The standard values INT8=1 … FLOAT64=8 are used instead.

## Model

| member | source | states |
|---|---|---|
| OctreeKeys.ChildIdx | octree/include/pcl/octree/impl/octree_lowmemory_base.hpp:307-310 | the child index is below 8, and its bits 2, 1 and 0 are the x, y and z bits selected by the mask |
| OctreeKeys.PushPop | octree/include/pcl/octree/impl/octree_lowmemory_base.hpp:481-513 | pushing child i and then popping restores the key; the pushed key's lowest bits select child i |
| OctreeKeys.PushBranchInjective | octree/include/pcl/octree/impl/octree_lowmemory_base.hpp:481-513 | different children of a branch get different keys |
| OctreeNodes.EmptyBranch | octree/include/pcl/octree/impl/octree_lowmemory_base.hpp:174-185 | a fresh root has eight empty child slots |
| OctreeNodes.EmptyBranchCounts | octree/include/pcl/octree/impl/octree_lowmemory_base.hpp:174-185 | the cleared tree has 0 leaves, 1 branch (the root) and no child |
| OctreeNodes.Find | octree/include/pcl/octree/impl/octree_lowmemory_base.hpp:365-399 | the records of the leaf on the key's path, or nothing at the first absent slot; characterised against insertion and deletion by `FindInsert` and `FindDelete` |
| OctreeNodes.Insert | octree/include/pcl/octree/impl/octree_lowmemory_base.hpp:298-361 | creates the missing branches and leaf on the key's path and appends the record; the result keeps the shape the mask allows |
| OctreeNodes.Delete | octree/include/pcl/octree/impl/octree_lowmemory_base.hpp:403-461 | clears the key's leaf slot and unlinks childless branches on the path; the result keeps the shape the mask allows |
| OctreeNodes.FindInsert | octree/include/pcl/octree/impl/octree_lowmemory_base.hpp:298-361 | after inserting v at k, the leaf on k's path holds its old data plus v; every other path is unchanged |
| OctreeNodes.LeavesInsert | octree/include/pcl/octree/impl/octree_lowmemory_base.hpp:340-346 | the leaf count grows by one exactly when no leaf existed at k |
| OctreeNodes.BranchesInsert | octree/include/pcl/octree/impl/octree_lowmemory_base.hpp:312-324 | the branches created are the levels below the root minus the part of k's path that already existed |
| OctreeNodes.CompactInsert | octree/include/pcl/octree/impl/octree_lowmemory_base.hpp:298-361 | insertion leaves no childless branch below the root |
| OctreeNodes.FindUnoccupied | octree/include/pcl/octree/impl/octree_lowmemory_base.hpp:365-399 | a tree whose root has no child holds no leaf |
| OctreeNodes.FindDelete | octree/include/pcl/octree/impl/octree_lowmemory_base.hpp:403-461 | after deletion nothing is on k's path; every other path is unchanged |
| OctreeNodes.LeavesDelete | octree/include/pcl/octree/impl/octree_lowmemory_base.hpp:403-461 | the leaf count drops by one exactly when a leaf existed at k |
| OctreeNodes.BranchesDelete | octree/include/pcl/octree/impl/octree_lowmemory_base.hpp:425-440 | deletion only removes branches |
| OctreeNodes.CompactDelete | octree/include/pcl/octree/impl/octree_lowmemory_base.hpp:425-440 | every branch that becomes childless is pruned, so none is left below the root |
| OctreeNodes.DeleteMissing | octree/include/pcl/octree/impl/octree_lowmemory_base.hpp:403-461 | on a pruned tree, deleting a key with no leaf changes nothing |
| OctreeNodes.DeleteOnlyLeaf | octree/include/pcl/octree/impl/octree_lowmemory_base.hpp:403-461 | deleting the only leaf leaves just the root branch, with no child |
| OctreeCodec.Pattern | octree/include/pcl/octree/impl/octree_lowmemory_base.hpp:475-478 | bit i of a branch's occupancy byte is set iff child i exists |
| OctreeCodec.EncodeStructure | octree/include/pcl/octree/impl/octree_lowmemory_base.hpp:466-516 | the occupancy byte of each branch in pre-order, children 0..7; its length and round trip are `EncodeStructureLength` and `StructureRoundTrip` |
| OctreeCodec.EncodeData | octree/include/pcl/octree/impl/octree_lowmemory_base.hpp:520-570 | the leaf records in the same pre-order; decoded back by `DataRoundTrip` |
| OctreeCodec.EncodeStructureLength | octree/include/pcl/octree/impl/octree_lowmemory_base.hpp:466-516 | the structure stream holds exactly one byte per branch |
| OctreeCodec.DecodeGen | octree/include/pcl/octree/impl/octree_lowmemory_base.hpp:620-675 | a decoded subtree has the shape the mask allows and consumes at least its own byte |
| OctreeCodec.DecodeGenKids | octree/include/pcl/octree/impl/octree_lowmemory_base.hpp:633-673 | children i..7 decode to 8-i slots, each empty, a shaped branch above leaf level or a leaf at it |
| OctreeCodec.MatchCount | octree/include/pcl/octree/impl/octree_lowmemory_base.hpp:828-834 | the run of leading records whose key is the leaf's key, and the next record's key differs |
| OctreeCodec.Consume | octree/include/pcl/octree/impl/octree_lowmemory_base.hpp:818-842 | the leaf callback on a data vector fails iff the vector is empty; otherwise it splits the vector into a non-empty head taken by the leaf and the rest, and when the first record is keyed to the leaf every record taken is |
| OctreeCodec.DecodeData | octree/include/pcl/octree/impl/octree_lowmemory_base.hpp:679-738 | the data-vector decoder with push and pop balanced yields a shaped tree and consumes input |
| OctreeCodec.DecodeDataAsWritten | octree/include/pcl/octree/impl/octree_lowmemory_base.hpp:696-737 | the data-vector decoder with `popBranch` after every child index, occupied or not; whenever it succeeds it has read at least the root's byte |
| OctreeCodecProofs.StructureRoundTrip | octree/include/pcl/octree/impl/octree_lowmemory_base.hpp:466-516 | decoding a tree's bytes followed by anything gives a tree of the same shape, with generated leaf data, and leaves exactly the rest |
| OctreeCodecProofs.StructureRoundTripKeys | octree/include/pcl/octree/impl/octree_lowmemory_base.hpp:234-248 | at the same depth, decoding the encoder's bytes rebuilds the same set of occupied keys and the same counts |
| OctreeCodecProofs.SameShapeFind | octree/include/pcl/octree/impl/octree_lowmemory_base.hpp:365-399 | trees of the same shape have leaves at the same keys |
| OctreeCodecProofs.SameShapeCounts | octree/include/pcl/octree/impl/octree_lowmemory_base.hpp:234-248 | trees of the same shape have the same leaf and branch counts |
| OctreeCodecProofs.DataRoundTrip | octree/include/pcl/octree/impl/octree_lowmemory_base.hpp:520-570 | when each leaf's records carry its key, decoding structure and data gives the same tree back and reads exactly its bytes and records |
| OctreeCodecProofs.DataRoundTripRoot | octree/include/pcl/octree/impl/octree_lowmemory_base.hpp:252-274 | the whole-tree data round trip from the root key |
| OctreeCodecFindings.TwoLevelTreeEncoding | octree/include/pcl/octree/impl/octree_lowmemory_base.hpp:520-570 | the tree with one leaf at voxel (1, 3, 2) encodes to the bytes [8, 64] and its records |
| OctreeCodecFindings.AsWrittenCounterexample | octree/include/pcl/octree/impl/octree_lowmemory_base.hpp:733-736 | as written, those streams decode to a different tree and leave one record unread |
| OctreeCodecFindings.CorrectedDecodesTwoLevelTree | octree/include/pcl/octree/impl/octree_lowmemory_base.hpp:696-737 | with push and pop balanced, the same streams give the tree back |
| LowMemOctree.BranchOccupied | octree/include/pcl/octree/impl/octree_lowmemory_base.hpp:450-458 | the child scan returns true iff the branch still has a child |
| LowMemOctree.FindLeafRec | octree/include/pcl/octree/impl/octree_lowmemory_base.hpp:365-399 | the walk returns the leaf on the key's path, or nothing as soon as a branch is missing |
| LowMemOctree.SerializeTreeRec | octree/include/pcl/octree/impl/octree_lowmemory_base.hpp:466-516 | appends the subtree's pre-order occupancy bytes and gives the key back unchanged |
| LowMemOctree.SerializeTreeDataRec | octree/include/pcl/octree/impl/octree_lowmemory_base.hpp:520-570 | appends the occupancy bytes and, through the leaf callback of lines 810-814, the leaf data in the same order; key unchanged |
| LowMemOctree.SerializeLeafsRec | octree/include/pcl/octree/impl/octree_lowmemory_base.hpp:574-616 | appends the leaf data in pre-order; key unchanged |
| LowMemOctree.DeserializeLeafCallback | octree/include/pcl/octree/impl/octree_lowmemory_base.hpp:818-842 | takes the run of records keyed to the leaf, or exactly one record when the first does not match; the rest is returned; fails only on an exhausted vector |
| LowMemOctree.DeserializeLeafGen | octree/include/pcl/octree/impl/octree_lowmemory_base.hpp:846-855 | the new leaf holds the generated record, if the generator produced one |
| LowMemOctree.OctreeLowMem.constructor | octree/include/pcl/octree/impl/octree_lowmemory_base.hpp:57-67 | an empty root, 0 leaves, 1 branch, 0 objects, depth 0 |
| LowMemOctree.OctreeLowMem.SetTreeDepth | octree/include/pcl/octree/impl/octree_lowmemory_base.hpp:97-109 | depth d > 0 gives mask 2^(d-1) and maximum key 2^d - 1 on each axis |
| LowMemOctree.OctreeLowMem.SetMaxVoxelIndex | octree/include/pcl/octree/impl/octree_lowmemory_base.hpp:80-93 | the mask is 2^(depth-1), with depth the capped ceiling log2 of the index (at least 1); below the cap, 2^depth keys cover every index below the one given |
| LowMemOctree.OctreeLowMem.Add | octree/include/pcl/octree/impl/octree_lowmemory_base.hpp:113-123 | needs only a shaped tree with an exact branch count; the tree is the insertion of v at the key; the object count grows by exactly one; the leaf count grows iff the leaf was new; other keys unchanged; the branch count stays exact, and the leaf count stays exact if it was |
| LowMemOctree.OctreeLowMem.CreateLeafRec | octree/include/pcl/octree/impl/octree_lowmemory_base.hpp:298-361 | result is the insertion; branches are created only where missing, the leaf only when absent; counters grow by exactly what was created |
| LowMemOctree.OctreeLowMem.Get | octree/include/pcl/octree/impl/octree_lowmemory_base.hpp:127-146 | on any shaped tree, whatever the counters: true iff a leaf exists at the key, and the leaf's (last stored) record when it has one |
| LowMemOctree.OctreeLowMem.ExistLeaf | octree/include/pcl/octree/impl/octree_lowmemory_base.hpp:150-158 | on any shaped tree, whatever the counters: true iff a leaf exists at the key |
| LowMemOctree.OctreeLowMem.RemoveLeaf | octree/include/pcl/octree/impl/octree_lowmemory_base.hpp:162-170 | needs only a shaped tree with an exact branch count; the tree is the deletion at the key; the branch count stays exact; the leaf count drops iff the key's parent branch existed, so removing a missing voxel under an existing branch leaves it one below the tree's leaves; nothing is left at the key; other keys unchanged |
| LowMemOctree.OctreeLowMem.DeleteLeafRec | octree/include/pcl/octree/impl/octree_lowmemory_base.hpp:403-461 | result is the deletion; the flag is true iff the branch still has a child; the branch count drops by the pruned branches, the leaf count by one iff the parent existed |
| LowMemOctree.OctreeLowMem.DeleteTree | octree/include/pcl/octree/impl/octree_lowmemory_base.hpp:174-185 | empty root; counters reset to 0, 1 and 0; no key has a leaf |
| LowMemOctree.OctreeLowMem.SerializeTree | octree/include/pcl/octree/impl/octree_lowmemory_base.hpp:189-199 | needs a shaped tree and an exact branch count only: the structure encoding of the tree, one byte per counted branch |
| LowMemOctree.OctreeLowMem.SerializeTreeWithData | octree/include/pcl/octree/impl/octree_lowmemory_base.hpp:203-216 | needs a shaped tree and an exact branch count only: the structure and data encodings of the tree |
| LowMemOctree.OctreeLowMem.SerializeLeafs | octree/include/pcl/octree/impl/octree_lowmemory_base.hpp:220-230 | on any shaped tree: the data encoding of the tree |
| LowMemOctree.OctreeLowMem.DeserializeTreeRec | octree/include/pcl/octree/impl/octree_lowmemory_base.hpp:620-675 | returns the structure decoding; the leaf count grows by the decoded leaves and the branch count by the decoded branches below this one |
| LowMemOctree.OctreeLowMem.DeserializeTreeDataRec | octree/include/pcl/octree/impl/octree_lowmemory_base.hpp:679-738 | returns the corrected data decoding; the leaf count grows by the decoded leaves and the branch count by the decoded branches below this one |
| LowMemOctree.OctreeLowMem.DeserializeTreeOutputRec | octree/include/pcl/octree/impl/octree_lowmemory_base.hpp:742-799 | returns the structure decoding and, through the callback of lines 859-871, emits the generated records in pre-order |
| LowMemOctree.OctreeLowMem.DeserializeTree | octree/include/pcl/octree/impl/octree_lowmemory_base.hpp:234-248 | succeeds iff the bytes decode at the configured mask from the root key; then the tree is the decoded one and the object count equals the leaf count; the counters stay exact either way |
| LowMemOctree.OctreeLowMem.DeserializeTreeWithData | octree/include/pcl/octree/impl/octree_lowmemory_base.hpp:252-274 | clears, rebuilds from bytes and data, and sets the object count to the data vector's size |
| LowMemOctree.OctreeLowMem.DeserializeTreeAndOutputLeafData | octree/include/pcl/octree/impl/octree_lowmemory_base.hpp:278-294 | clears, rebuilds, appends the generated records to the vector, and sets the object count to its size |
| LowMemOctree.MaxVoxelShiftAsWritten | octree/include/pcl/octree/impl/octree_lowmemory_base.hpp:86-92 | the shift count as written is an unsigned 32-bit value |
| LowMemOctree.MaxVoxelOneAsWritten | octree/include/pcl/octree/impl/octree_lowmemory_base.hpp:86-92 | for index 1 the shift count wraps to 0xFFFFFFFF, which is at least 32 |
| LowMemOctree.MaxVoxelDepthBounds | octree/include/pcl/octree/impl/octree_lowmemory_base.hpp:86-89 | the corrected depth is between 1 and the cap, and 2^depth is at least the index, so keys 0 .. index - 1 fit |
| LowMemOctree.FindParent | octree/include/pcl/octree/impl/octree_lowmemory_base.hpp:441-447 | a key that has a leaf has its parent branch |
| LowMemOctree.RemoveMissingMiscounts | octree/include/pcl/octree/impl/octree_lowmemory_base.hpp:441-447 | in a one-level tree with one leaf, the absent voxel (1, 0, 0) has its parent branch and no leaf, and deleting it keeps the leaf, so `removeLeaf` leaves the leaf counter one below the tree's leaves |
| LowMemOctree.MaxVoxelDepth | octree/include/pcl/octree/impl/octree_lowmemory_base.hpp:86-89 | the depth is at least 1, at most the cap, and otherwise the ceiling log2 of the index |
| Util.CeilLog2Bounds | octree/include/pcl/octree/impl/octree_lowmemory_base.hpp:87-89 | the integer ceiling log2 is the least e with 2^e at least n |
| Ply.TypeFromTypeName | io/include/pcl/io/ply.h:106-127 | every name maps to one of the eight scalar types, -1 or -2; which one is `TypeFromTypeNameCases` |
| Ply.TypeFromTypeNameCases | io/include/pcl/io/ply.h:106-127 | a name maps to a scalar type iff it is one of the eight names; to -1 iff it is "list"; to -2 otherwise |
| Ply.TypeNamesRoundTrip | io/include/pcl/io/ply.h:106-127 | each scalar type's name maps back to that type |
| Ply.MaximumCapacity | io/include/pcl/io/ply.h:129-142 | 255, 65535 and 2^32-1 for the unsigned 8-, 16- and 32-bit count types; 0 for any other type |
| Ply.NewProperty | io/include/pcl/io/ply.h:151-156 | a scalar property's size is one value of its type |
| Ply.NewListProperty | io/include/pcl/io/ply.h:163-168 | a list property's size is its count plus the maximum number of items the count type allows |
| Ply.CountFromByte | io/include/pcl/io/ply.h:178-190 | the count read from the first byte fits the count type; a byte below 0x80 is the same count for every unsigned count type, and a uchar count is the byte itself |
| Ply.SetSizeAsWritten | io/include/pcl/io/ply.h:170-194 | set_size as written keeps the property a list with the same name, count type and item type; its size is exhibited by `SetSizeAsWrittenWrong` |
| Ply.SetSize | io/include/pcl/io/ply.h:170-194 | the size becomes the count followed by that many items of the item type |
| Ply.SetSizeWithinCapacity | io/include/pcl/io/ply.h:163-194 | a list's actual size never exceeds the size the constructor reserved |
| Ply.SetSizeAsWrittenWrong | io/include/pcl/io/ply.h:178-190 | a uchar-counted list of three doubles is sized 4 bytes as written, 25 as intended |
| Ply.ListPositions | io/include/pcl/io/ply.h:241-248 | the recorded positions are exactly the positions of list properties |
| Ply.FirstIndex | io/include/pcl/io/ply.h:211-220 | the index of the first occurrence of a name, with no earlier one; none iff the name does not occur; used over property names here and over element names at lines 295-304 |
| Ply.PropertyNames | io/include/pcl/io/ply.h:211-220 | the names of the properties, position by position |
| Ply.Element.constructor | io/include/pcl/io/ply.h:203-204 | a named element with its count, no properties and size 0 |
| Ply.Element.PushProperty | io/include/pcl/io/ply.h:233-239 | appends the property, grows the record size by its size, returns the new count; keeps the record size equal to the sum of the property sizes |
| Ply.Element.PushListProperty | io/include/pcl/io/ply.h:241-248 | also records the new position as a list position, so has_list_properties holds; same size bookkeeping |
| Ply.Element.HasListProperties | io/include/pcl/io/ply.h:250 | whether any list position is recorded; what that means for the properties is `HasListPropertiesMeans` |
| Ply.Element.HasListPropertiesMeans | io/include/pcl/io/ply.h:250 | has_list_properties holds iff some property is a list |
| Ply.Element.Lookup | io/include/pcl/io/ply.h:211-231 | the first property with the name, or nothing iff none has it; the element is unchanged |
| Ply.Element.OffsetBefore | io/include/pcl/io/ply.h:252-264 | the sum of the sizes before the first property with the name, or (size_t)-1 when there is none |
| Ply.Element.UpdateOffset | io/include/pcl/io/ply.h:266-272 | the record size becomes the sum of the property sizes, which after pushes alone is the value already kept |
| Ply.Element.SetListSize | io/include/pcl/io/ply.h:170-194 | set_size through the element's shared reference, with the intended size of `SetSize`: the property's size changes, the list positions stay valid, and the record size is not recomputed |
| Ply.ElementNames | io/include/pcl/io/ply.h:295-304 | the names of the elements, position by position |
| Ply.Parser.constructor | io/include/pcl/io/ply.h:288 | no elements and no last element |
| Ply.Parser.PushElement | io/include/pcl/io/ply.h:317-322 | appends a fresh empty element, makes it the last one, returns the new count |
| Ply.Parser.PushProperty | io/include/pcl/io/ply.h:324-327 | the last element gains the scalar property, with its size bookkeeping |
| Ply.Parser.PushListProperty | io/include/pcl/io/ply.h:329-332 | the last element gains the list property, with its size and position bookkeeping |
| Ply.Parser.Lookup | io/include/pcl/io/ply.h:295-315 | the first element with the name, or null iff none has it |
| Ply.Parser.OffsetBefore | io/include/pcl/io/ply.h:334-346 | the sum of record size × record count before the first element with the name, or (size_t)-1 when there is none |
| ColorMap.LutLength | gpu/people/src/colormap.cpp:82-118 | the colour count is the table's byte count / 3, which is 32, and a label's three bytes lie in the table iff the label is below it |
| ColorMap.GetLColor | gpu/people/src/colormap.cpp:8-16 | the colour of label l is the bytes 3l, 3l+1 and 3l+2 of the table |
| ColorMap.LowByte | gpu/people/src/colormap.cpp:18-21 | the 32-bit label converted to unsigned char is its value modulo 256 |
| ColorMap.GetLColorOfPoint | gpu/people/src/colormap.cpp:18-21 | the colour of a label point is the colour of its label's low byte |
| ColorMap.ColourPixels | gpu/people/src/colormap.cpp:23-33 | for any table of 32 colours: pixel pi's three bytes are the table bytes of its label, and nothing past 3·W·H is written |
| ColorMap.ColorLMap | gpu/people/src/colormap.cpp:23-33 | c[3pi+k] = LUT[3·l[pi]+k], so each pixel holds getLColor of its label; no other byte of c changes |
| ColorMap.ColorLMapCloud | gpu/people/src/colormap.cpp:35-43 | the output has the input's size, width and height, and point i is getLColor of label point i |
| ColorMap.SwapColours | gpu/people/src/colormap.cpp:45-56 | for any table of 32 colours: entry i has r, g, b = bytes 3i+2, 3i+1, 3i and a = 255 |
| ColorMap.BuildColorMap | gpu/people/src/colormap.cpp:45-58 | 32 entries; entry i is getLColor(i) with red and blue exchanged and alpha 255 |
| ColorMap.ForDevice | gpu/people/src/colormap.cpp:52-55 | the device colour: red and blue exchanged, alpha 255; `BuildColorMap` proves every uploaded entry is `ForDevice` of its label's colour |

## Left out

- Node allocation and freeing, the unused branch and leaf pools, and the
  destructor. The tree is a value. A node allocated for a decoded child is
  modelled as part of the result.
- The bodies of `branchHasChild`, `getBranchBitPattern`,
  `createBranchChild` and the leaf container are not part of this model.
  They are modelled as eight child slots, where bit i of the pattern is set
  iff child i exists. A leaf holds a sequence of records; `setData`
  appends, and `getData` yields the last record, or all of them in order
  for serialisation.
- The header's `add(key, data)`, `findLeaf`, `removeLeaf(key)` and
  `existLeaf(key)` overloads are not part of this model. The coordinate
  overloads call the same recursions and are modelled through them.
- Counters and keys are unbounded. The 32-bit wrap of `unsigned int`
  counters and coordinates is not modelled. Neither are keys beyond
  `maxKey`: their high bits are simply not looked at.
- `OCT_MAXTREEDEPTH` is the parameter `maxDepth` of `SetMaxVoxelIndex`.
  The floating-point `ceil(Log2(x))` is the integer ceiling log2.
- SetMaxVoxelIndex: models the corrected depth, which is at least one
  level (see Findings). Like the source, it sets only the depth mask, not
  the depth or the maximum key.
- A byte stream or data vector that runs out is a decoding failure
  (`None`); the source reads past the end. In that case the
  `Deserialize*` methods leave an empty tree. A data vector with records
  left over is accepted, as in the source.
- RemoveLeaf: the exact leaf count (`Valid()`) is preserved only when a
  leaf existed at the key. Removing a missing voxel whose parent branch
  exists still decrements the leaf count, as the source does at lines
  444-447 (`RemoveMissingMiscounts`). The shape and the branch count
  (`Consistent()`) are always preserved. No operation needs the exact leaf
  count, so every method stays callable after such a removal.
- DeserializeTreeDataRec and DeserializeTreeWithData follow the corrected
  decoder, where the key is popped only after an occupied child. The as-written
  decoder is `DecodeDataAsWritten` (see Findings).
- `getEndianess` and the raw `new` heap ownership in the PLY header are
  not modelled. Properties are values held in a sequence, and elements are
  objects. The list positions are indices, not vector iterators, so their
  invalidation when `properties_` grows is not modelled.
- `is_list_property`, the `Format`/`Flags` enums and `CAMERA_SIZE` are not
  modelled.
- Ply.Parser.PushProperty: requires a last element. The source
  dereferences a null `last_element_` when no element was pushed.
- Ply.Parser.PushListProperty: requires a last element, for the same
  reason.
- Ply.Element.OffsetBefore and Ply.Parser.OffsetBefore: sums are unbounded.
  The wrap of `size_t` arithmetic is not modelled, beyond the
  `(size_t)-1` result.
- Ply.Element.SetListSize: applies the corrected `SetSize` of the set_size
  finding, not the count-type product the source computes; the as-written
  size is `SetSizeAsWritten`. For a uchar-counted list of doubles with
  count byte 3 the source sets 4 bytes where the model sets 25.
- Ply.SetSize: reads the count from the first byte only, as the source
  does. `char` is taken as signed, so a count byte of 0x80 or more becomes
  a large value for 16- and 32-bit count types. The `int`/`unsigned`
  width of the product is not modelled.
- `colorizeLabels`, `colorizeMixedLabels` and the `color_map.upload`
  transfer run on the GPU and are not modelled. `BuildColorMap` returns the
  array that would be uploaded.
- `trees::Label` is not part of this model; it is taken as one unsigned
  byte per pixel. The alpha byte that `getLColor` leaves unset is not
  modelled.
- ColorMap.ColorLMap: `W * H` is unbounded; the `int` overflow of the
  pixel count is not modelled. Labels must be below 32, or the source
  reads outside the table.

## Findings

| source | as written | input that shows it | evidently intended | confidence | as-written member | corrected member |
|---|---|---|---|---|---|---|
| octree/include/pcl/octree/impl/octree_lowmemory_base.hpp:733-736 | the data-vector decoder calls `popBranch` after every child index, occupied or not, so the key drifts away from the path | depth 2, one leaf at voxel (1, 3, 2) holding two records keyed to it; the encoder gives bytes [8, 64] and the two records | pop only after a pushed child, as the other two decoders and all encoders do, so the tree comes back | high (not executed) | OctreeCodecFindings.AsWrittenCounterexample | OctreeCodecProofs.DataRoundTrip |
| io/include/pcl/io/ply.h:178-190 | `set_size` multiplies the count by the size of the count type | a uchar-counted list of three doubles is sized 1 + 3·1 = 4 bytes | multiply by the size of the item type: 1 + 3·8 = 25 bytes; `Ply.Element.SetListSize` uses this | high (not executed) | Ply.SetSizeAsWrittenWrong | Ply.SetSizeWithinCapacity |
| octree/include/pcl/octree/impl/octree_lowmemory_base.hpp:87-92 | for index 1, `ceil(Log2(1))` is 0, so the tree depth is 0 and the shift count `treeDepth - 1` wraps to 0xFFFFFFFF | `setMaxVoxelIndex(1)` | a tree of at least one level, with depth mask 1 | medium (not executed) | LowMemOctree.MaxVoxelOneAsWritten | LowMemOctree.OctreeLowMem.SetMaxVoxelIndex |
