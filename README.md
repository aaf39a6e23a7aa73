# voxo-trace octree/DAG builder and shader preprocessor, in Dafny

This project models two parts of voxo-trace, a voxel ray-marching renderer:

- **The sparse voxel DAG builder and attribute baker** (`src/asset/oct_dag.rs`).
  - `OctDag::new_test` checks the depth and pushes the root node. It then fills the root's eight octants with `fill_oct`.
  - `fill_oct` does the following for each cell:
    - picks the scene volume with the smallest distance at the cell's position;
    - rescales that distance by the level size;
    - classifies the cell as a leaf, an interior cell or an empty cell.
  - A leaf gets its material's colour and a packed unit direction.
  - An interior cell fills its eight children recursively. It then deduplicates the candidate node against the nodes already built at its depth, which turns the octree into a DAG. Last, it bakes the children's attributes: a density taken from a fixed compare-exchange network, and density-weighted colour and direction averages.
  - Around the builder sit pure helpers:
    - the big-endian byte codec;
    - the float-to-byte codec;
    - the preset scenes, distance volumes and colour bakers.
- **The shader text preprocessor** (`src/render/shader_processing.rs`). It cuts the shader source at every `/*` and reads each section's id, the text before its first `*/`. It replaces `/*ID*/fallback/**/` markers whose id is defined, using an is-opened flag.

## Files and modules

| File | Module | Contents |
|---|---|---|
| `wrappers.dfy` | `Wrappers` | `Option`, `Result` |
| `codec.dfy` | `Codec` | `u8`/`u32`, `pack_u8_u32`/`unpack_u8_u32`, `Float` (finite, ±infinity, NaN), division, the saturating `as u8`, `pack_f32_u32`/`unpack_f32_u32` |
| `octants.dfy` | `Octants` | constants, `OCTANT_LIST`, `Octant`, `Node`, `Octant::new`, `Node::new` |
| `scene.dfy` | `Volumes`, `Colours`, `Presets` | `VolumeType::new`, `ColourType::new`, `TestDagType::new` |
| `dedup.dfy` | `Dedup` | the slot-matching closure and the `find` over a dedup list |
| `network.dfy` | `SortingNetwork` | the `filter` closure, the four stages of the network on an array, the accumulated density |
| `aggregation.dfy` | `Aggregation` | the density-weighted accumulation loop and the two packs after it |
| `builder.dfy` | `OctDagBuilder` | the class `OctDag`: `new_test`, `fill_oct` and its parts, with the graph invariant |
| `shader.dfy` | `ShaderProcessing` | `split`, `split_once`, the definition map and `shader_preprocessor` |

### How the source maps into Dafny

- **Integers.** `u8` and `u32` are integer subtypes. Packing is a place-value sum of the shifted bytes, and unpacking is division and remainder; the fields are disjoint, so this is exact.
- **Floats.** `f32` arithmetic is modelled over `real`. Only the values that reach a cast are wrapped in `Float` (finite, +∞, −∞, NaN), so that Rust's saturating `as u8` can be stated exactly (NaN and −∞ give 0; +∞ and anything at or above 255 give 255). This captures the two divisions by zero of `fill_oct`:
  - 0/0 gives NaN, which packs to byte 0;
  - x/0 with x positive gives +∞, which packs to 255.
- **Children.** A child index is `Child = Null | Ref(index)`. `Null` is the source's `NULL_INDEX` sentinel.
- **The graph.** `OctDag` is a class whose `nodes: seq<Node>` the methods extend. The per-depth dedup lists (`level_list`) are threaded in and out of the methods as `seq<seq<nat>>`, the way `&mut Vec<Vec<u32>>` is passed down the recursion.
- **Loops.** Each loop of the source is a `while`/`for` loop in a method. Most are proved against a function:
  - the volume selection;
  - the slot comparison and the `find`;
  - the four network stages on an `array<Octant>`;
  - the accumulation over the eight children;
  - the preprocessor's section loop.

  The root loop of `new_test` and the children loop of `fill_oct` are proved slot by slot against `FilledAs`, the facts a cell's kind fixes.
- **Foreign code.** `f32::sqrt` (and with it `Vec3::length`) is a parameter `sqrt: real -> real`. The distance evaluation is passed to the builder as an `Evaluator`; `SceneEvaluator` is the source's `VolumeType::new` at the grid's full size.
- **Panics.** The panics of `new_test` and `TestDagType::new` become `Err` results.

## Model

| member | source | states |
|---|---|---|
| Codec.Decompose | src/asset/oct_dag.rs:369-374 | the four bytes read by shift-and-mask recombine into the word by place value (byte 0 most significant) |
| Codec.PackU8Ends | src/asset/oct_dag.rs:375-380 | the first byte ends in the top 8 bits of the word, the last byte in the bottom 8 |
| Codec.UnpackU8 | src/asset/oct_dag.rs:369-374 | the bytes unpacked from a word pack back to that word |
| Codec.UnpackPackU8 | src/asset/oct_dag.rs:369-380 | unpacking a packed 4-tuple of bytes gives the tuple back |
| Codec.QuotSpec | src/asset/oct_dag.rs:135-137 | float division: a finite quotient for a non-zero divisor; NaN exactly for 0/0; +∞ or −∞ for a non-zero value over 0 |
| Codec.CastU8Spec | src/asset/oct_dag.rs:367 | the `as u8` cast truncates toward zero inside [0, 255], saturates to 255 at and above 255 and on +∞, and gives 0 at or below 0, on −∞ and on NaN |
| Codec.UnpackPackFloats | src/asset/oct_dag.rs:366-368 | the bytes of `pack_f32_u32` are the saturating casts of each channel times 255, in channel order |
| Codec.UnpackF32 | src/asset/oct_dag.rs:361-364 | every decoded channel lies in [0, 1] |
| Codec.PackUnpackF32 | src/asset/oct_dag.rs:361-368 | decoding a word and encoding the result gives the same word |
| Codec.ByteRoundTrip | src/asset/oct_dag.rs:363-367 | a byte divided by 255 and multiplied back casts to the same byte |
| Codec.ChannelWithin | src/asset/oct_dag.rs:361-368 | a channel in [0, 1] comes back rounded down by less than 1/255 (1.0 comes back exactly) |
| Codec.PackUnpackF32Within | src/asset/oct_dag.rs:361-368 | encoding then decoding a vector with channels in [0, 1] loses less than 1/255 per channel and never rounds up |
| Codec.PackHalfExample | src/asset/oct_dag.rs:366-368 | (1, 0, 0.5, 1) packs to the bytes (255, 0, 127, 255) and decodes with 0.5 lowered to 127/255 |
| Octants.NewOctant | src/asset/oct_dag.rs:388-392 | `Octant::new` has no child and zero colour, normal and extra words |
| Octants.NewNode | src/asset/oct_dag.rs:382-386 | `Node::new` is eight new octants |
| Octants.OctantListBits | src/asset/oct_dag.rs:6-18 | direction i of `OCTANT_LIST` is +1 on x exactly when bit `POSITIVE_X` of i is set, and −1 otherwise; likewise for y and z |
| Volumes.PerimeterAtSpec | src/asset/oct_dag.rs:270-291 | the perimeter distance is `max_level_size − max(\|x\|,\|y\|,\|z\|) − 1`; its direction is the unit axis of the largest coordinate, with a tie going to x before y before z |
| Volumes.PlaneAtSpec | src/asset/oct_dag.rs:296-300 | the plane distance is `(x + y)/10 + max_level_size − z`, which is positive exactly below the plane; the direction is (1, 1, 10) |
| Volumes.PillarAtSpec | src/asset/oct_dag.rs:292-295 | for a positive grid size and a square root that is one, the pillar distance is negative exactly inside the cylinder (x + m/2)² + z² < (0.2·m)², zero exactly on it, and never below −0.2·m; the direction is the raw offset (x + m/2, y, z) |
| Colours.DivTruncSpec | src/asset/oct_dag.rs:315-317 | Rust's `/` on `i32` truncates toward zero, for negative dividends too |
| Colours.TiledChannelSpec | src/asset/oct_dag.rs:311-317 | a coordinate c in [−m, m) is wrapped to m + c when negative; the channel is the tiled value times 255 over m, rounded down, and stays below 255 |
| Colours.ScaledBelow255 | src/asset/oct_dag.rs:315-317 | t·255/m fits a byte for t in [0, m] and is below 255 for t below m |
| Colours.GradientRedSpec | src/asset/oct_dag.rs:326 | for z ≥ 0 the red byte is z·255/m rounded down; for z < 0 it is the byte whose two's-complement negation is −z·255/m rounded down (the `as u8` wrap) |
| Colours.GradientRedBelow | src/asset/oct_dag.rs:326 | for negative z the negated red byte is the truncated quotient −z·255/m |
| Colours.NegatedByteWraps | src/asset/oct_dag.rs:326 | casting −q to `u8` wraps to 256 − q, whose negation mod 256 is q |
| Colours.WallColour | src/asset/oct_dag.rs:339-350 | red exactly when \|x\| is the largest coordinate (ties to x); green when \|y\| beats \|x\| and is not beaten by \|z\|; blue only when \|z\| is strictly the largest |
| Colours.WallConstants | src/asset/oct_dag.rs:341-348 | the packed wall colours are red 0xFF0000FF, green 0x00FF00FF and blue 0x0000FFFF |
| Colours.ColourOfSpec | src/asset/oct_dag.rs:304-353 | every material returns an octant without child and with zero normal and extra; the bytes of each material's colour: tiled channels with alpha 255; the red gradient with green = blue = 50 and alpha 255; clear blue (25, 25, 127, 2); one of the three wall colours |
| Colours.ClearBlueBytes | src/asset/oct_dag.rs:334-338 | (0.1, 0.1, 0.5, 0.01) packs to the bytes (25, 25, 127, 2) |
| Colours.WallsExample | src/asset/oct_dag.rs:339-350 | at (5, 2, 1) the wall is red |
| Colours.SpectrumExample | src/asset/oct_dag.rs:307-322 | at (2, −1, 3) with size 4 the spectrum bytes are (127, 191, 191, 255) |
| Presets.SceneOf | src/asset/oct_dag.rs:249-265 | the preset succeeds exactly at or above its minimum depth (2 for Box, 4 for Pillar); Box is the perimeter with wall colours; Pillar is the perimeter with the tiled spectrum, the plane with the red gradient and the pillar in clear blue |
| Dedup.SameNode | src/asset/oct_dag.rs:150-163 | the slot loop answers true exactly when every slot matches: a null candidate slot needs a null existing slot of equal colour, a child slot needs the same child |
| Dedup.FindMatch | src/asset/oct_dag.rs:150-164 | `find` returns nothing exactly when no listed node matches; otherwise the first matching entry of the list in insertion order |
| Dedup.MatchesReflexive | src/asset/oct_dag.rs:152-162 | every node matches its own slots |
| Dedup.MatchesSymmetric | src/asset/oct_dag.rs:152-162 | the slot match is symmetric between two nodes |
| Dedup.MatchesTransitive | src/asset/oct_dag.rs:152-162 | two nodes that match the same candidate match each other |
| Dedup.SharedIndex | src/asset/oct_dag.rs:150-173 | in a dedup list of pairwise distinct nodes, at most one entry matches a candidate |
| Dedup.MatchIgnoresNormals | src/asset/oct_dag.rs:152-162 | changing a slot's normal or extra word never changes a match, nor does changing the colour of a slot with a child |
| Dedup.LeafNormalsMerged | src/asset/oct_dag.rs:152-162 | two different leaf nodes that differ only in their normals are merged |
| SortingNetwork.CompareExchangeOrders | src/asset/oct_dag.rs:182-188 | after `filter(a, b)` the density at a is at most the density at b; the two entries are kept or swapped, nothing else moves, and the whole is a permutation |
| SortingNetwork.StagePair | src/asset/oct_dag.rs:190-200 | every compare-exchange of the four stages names two distinct positions below 8 |
| SortingNetwork.NetworkChain | src/asset/oct_dag.rs:189-200 | the network is the ten compare-exchanges (0,1) (2,3) (4,5) (6,7) (0,2) (4,6) (1,3) (5,7) (2,3) (6,7) in this order |
| SortingNetwork.AccumulatedFrame | src/asset/oct_dag.rs:199-202 | the density accumulated over the first n halves reads only those halves |
| SortingNetwork.Filter | src/asset/oct_dag.rs:182-188 | the array after `filter(a, b)` is the compare-exchange of the array before |
| SortingNetwork.RunStage | src/asset/oct_dag.rs:190-198 | one of the first three loops leaves the array as the stage's compare-exchanges in order |
| SortingNetwork.NetworkDensity | src/asset/oct_dag.rs:189-202 | the network run on a copy accumulates the densities at positions 2, 3, 6 and 7 of the network's output, each over 255 |
| SortingNetwork.CompareExchangeInHalf | src/asset/oct_dag.rs:182-198 | a compare-exchange inside one half permutes each half on its own |
| SortingNetwork.PermutationStep | src/asset/oct_dag.rs:182-198 | such a compare-exchange permutes the whole array and each half |
| SortingNetwork.NetworkPermutes | src/asset/oct_dag.rs:189-202 | the network's output is a permutation of the node's octants, and of each half |
| SortingNetwork.DensityStep | src/asset/oct_dag.rs:182-188 | a compare-exchange puts the smaller density at a and the larger at b and changes nothing else |
| SortingNetwork.StageHalf | src/asset/oct_dag.rs:190-200 | on the densities of one half, each stage acts as its four-element compare-exchange |
| SortingNetwork.NetworkHalf | src/asset/oct_dag.rs:189-200 | the densities of each half after the network are the four-element network of that half's densities |
| SortingNetwork.Net4Extremes | src/asset/oct_dag.rs:189-200 | the four-element network puts its minimum first and its maximum last |
| SortingNetwork.HalfBetween | src/asset/oct_dag.rs:189-200 | bounds on the four densities of a half hold at each of its positions |
| SortingNetwork.NetworkExtremes | src/asset/oct_dag.rs:189-200 | each half's minimum density ends at positions 0 and 4, its maximum at 3 and 7 |
| SortingNetwork.NetworkSecondNotSorted | src/asset/oct_dag.rs:199-202 | position 2 need not hold the second largest density: densities (0, 5, 1, 2) come out as 0, 2, 1, 5 |
| SortingNetwork.Net4Max | src/asset/oct_dag.rs:189-200 | the last position of a half holds a density at least each of that half's inputs |
| SortingNetwork.SortedDensityBounds | src/asset/oct_dag.rs:199-202 | the accumulated density is at least each child's density over 255 and at most 4 |
| Aggregation.Aggregate | src/asset/oct_dag.rs:204-219 | the accumulation loop and the two packs give the density-weighted average colour and the density-weighted average direction with the network density |
| Aggregation.ColourStep | src/asset/oct_dag.rs:205-212 | each pass adds the child's colour channels times its density to the four colour sums |
| Aggregation.NormalStep | src/asset/oct_dag.rs:205-216 | each pass adds the child's direction channels times its density to the three direction sums |
| Aggregation.SumStep | src/asset/oct_dag.rs:205-208 | each pass adds the child's density to the total |
| Aggregation.ChannelStep | src/asset/oct_dag.rs:205-216 | each pass adds one channel times the density to that channel's sum |
| Aggregation.ZeroSumZeroDot | src/asset/oct_dag.rs:205-217 | a zero total density means every child's density is zero, and so is every weighted sum |
| Aggregation.ZeroSum | src/asset/oct_dag.rs:205-208 | all densities zero gives a zero total |
| Aggregation.SumNonNegative | src/asset/oct_dag.rs:205-208 | the total density is never negative |
| Aggregation.DotWithin | src/asset/oct_dag.rs:205-217 | a weighted sum of values in [0, 1] lies between 0 and the total weight |
| Aggregation.UniformDot | src/asset/oct_dag.rs:205-217 | if every child has the same channel value, the weighted sum is that value times the total |
| Aggregation.UnpackAllUnit | src/asset/oct_dag.rs:206-207 | every unpacked channel of every child is in [0, 1] |
| Aggregation.WeightIsDensity | src/asset/oct_dag.rs:207-208 | a child's weight is its density byte over 255 |
| Aggregation.ZeroTotalZeroSums | src/asset/oct_dag.rs:204-217 | a zero total means every child's density byte is 0 and every weighted sum is 0 |
| Aggregation.WeightedSumWithin | src/asset/oct_dag.rs:204-217 | every weighted sum lies between 0 and the total density |
| Aggregation.UnitPick | src/asset/oct_dag.rs:206-207 | every picked channel is in [0, 1] and every weight is non-negative |
| Aggregation.UniformColourKept | src/asset/oct_dag.rs:204-218 | children of one colour with some density average to that colour |
| Aggregation.UniformAverage | src/asset/oct_dag.rs:218-219 | a channel shared by all children is its own average when the total is positive |
| Aggregation.UniformQuot | src/asset/oct_dag.rs:218-219 | the same, for the unpacked children |
| Aggregation.Cancel | src/asset/oct_dag.rs:218-219 | dividing v·t by a non-zero t gives v |
| Aggregation.ZeroDensityBlack | src/asset/oct_dag.rs:218-219 | children without density give colour 0 and a zero direction: the 0/0 NaNs cast to byte 0 |
| Aggregation.AverageWithinUnit | src/asset/oct_dag.rs:218-219 | with a positive total every average lies in [0, 1] |
| Aggregation.DensityByte | src/asset/oct_dag.rs:199-219 | the packed density byte is the sum of the four network density bytes, saturated at 255 |
| OctDagBuilder.FirstMinimumSpec | src/asset/oct_dag.rs:116-124 | the selected distance is the smallest, and every volume listed before it is strictly larger (the first minimum wins) |
| OctDagBuilder.OctDag.SelectVolume | src/asset/oct_dag.rs:116-124 | the selection loop returns the first volume of smallest distance, with its evaluation |
| OctDagBuilder.ClassifyEnds | src/asset/oct_dag.rs:128-143 | a cell is empty exactly when its rescaled distance is above 1; interior exactly below the last depth with distance in [−1, 1]; never interior at the last depth |
| OctDagBuilder.ClassifyMonotone | src/asset/oct_dag.rs:128-143 | a larger distance never gives a fuller kind (leaf, then interior, then empty) |
| OctDagBuilder.LeafChannel | src/asset/oct_dag.rs:134-141 | one direction channel divided by the length and packed is the quantised ratio for a positive length, and 255 or 0 by sign for a zero length |
| OctDagBuilder.PackedDirection | src/asset/oct_dag.rs:134-141 | the three direction bytes of a leaf are the quantised direction over its length (saturated by sign when the length is zero), and its density byte is 255 |
| OctDagBuilder.LeafNormalSpec | src/asset/oct_dag.rs:134-141 | the same for the evaluated volume, with the length `sqrt(y² + z² + w²)` |
| OctDagBuilder.LeafOctantSpec | src/asset/oct_dag.rs:130-142 | a leaf octant has no child, extra 0, its material's colour at the cell, and full density 255 |
| OctDagBuilder.MaxNewNodesClosed | src/asset/oct_dag.rs:143-173 | the bound on appended nodes is a full octree's node count, (8^h − 1)/7 |
| OctDagBuilder.LevelsOkAppend | src/asset/oct_dag.rs:168-171 | appending a node keeps every dedup list valid |
| OctDagBuilder.LevelsOkPush | src/asset/oct_dag.rs:168-171 | appending a node that matches nothing at its depth and recording it there keeps the lists valid and free of duplicates |
| OctDagBuilder.SetRootOctant | src/asset/oct_dag.rs:92-95 | writing a root octant that names an existing non-root node keeps the graph acyclic and the dedup lists valid |
| OctDagBuilder.OctDag.constructor | src/asset/oct_dag.rs:85 | a new graph has no nodes |
| OctDagBuilder.OctDag.NewTest | src/asset/oct_dag.rs:80-98 | fails exactly for a depth above 16 (checked first) or below the preset's minimum; otherwise an acyclic graph of at most 1 + 8 + … + 8^(depth−1) nodes whose root octants are filled as their cells' kinds require; an interior root octant names a non-root node that matches its eight children, each filled as its own cell at depth 2 |
| OctDagBuilder.OctDag.FillRoot | src/asset/oct_dag.rs:86-95 | the root loop fills all eight root octants at the half-size corners, keeps the graph acyclic and the node bound; each interior root octant names a node matching its children, each filled as its own cell at depth 2 |
| OctDagBuilder.OctDag.FillRootOctant | src/asset/oct_dag.rs:92-95 | one root octant is filled, the other root octants and every earlier non-root node are unchanged, and the graph stays acyclic within the node bound; if the octant is interior, its node matches the returned children, each filled as its own cell at depth 2 |
| OctDagBuilder.RootChildBuiltKept | src/asset/oct_dag.rs:92-95 | later root octants, which only append nodes and rewrite the root, keep what an earlier root octant's node says about its children |
| OctDagBuilder.OctDag.FillOct | src/asset/oct_dag.rs:101-222 | `fill_oct` only appends nodes (at most a full octree's worth below its depth), keeps the graph acyclic and the dedup lists valid, and returns an empty octant, a leaf octant or an octant naming an earlier node, as the cell's kind requires; leaves and empty cells change nothing; for an interior cell it also returns the eight children, each filled as its own cell one depth down, and the node it names matches them |
| OctDagBuilder.OctDag.BuildInterior | src/asset/oct_dag.rs:143-219 | an interior cell's eight children are each filled as their own cell one depth down; the cell names a node of its depth's dedup list that matches them, and carries their average colour and direction with the network density |
| OctDagBuilder.OctDag.FillChildren | src/asset/oct_dag.rs:144-148 | the eight recursive calls fill each child at its offset, only append nodes, and name only existing non-root nodes |
| OctDagBuilder.OctDag.FillChild | src/asset/oct_dag.rs:146-147 | one recursive call fills child i at `pos + OCTANT_LIST[i]·next_level_size` and leaves the other slots as they were |
| OctDagBuilder.OctDag.Deduplicate | src/asset/oct_dag.rs:150-173 | if a node at this depth matches, its index is reused and nothing changes; otherwise exactly this node is appended and its index is pushed onto the depth's list |
| OctDagBuilder.OctDag.Attributes | src/asset/oct_dag.rs:182-219 | the network density and the aggregation give the average colour, and the average direction with the network density |
| ShaderProcessing.JoinSplit | src/render/shader_processing.rs:30 | joining the pieces of `split` with the delimiter gives the text back |
| ShaderProcessing.SplitPiecesFree | src/render/shader_processing.rs:30 | no piece of `split` contains the delimiter |
| ShaderProcessing.SplitOnceSpec | src/render/shader_processing.rs:32 | `split_once` finds nothing exactly when the delimiter does not occur; otherwise the text is the part before, the delimiter and the part after, and the part before contains no delimiter |
| ShaderProcessing.ConcatSplit | src/render/shader_processing.rs:30 | the pieces of `split` put together are the text with every delimiter deleted |
| ShaderProcessing.BuildMapKeys | src/render/shader_processing.rs:24 | a name is in the definition map exactly when some definition carries it |
| ShaderProcessing.BuildMapLast | src/render/shader_processing.rs:24 | a name maps to the value of its last definition |
| ShaderProcessing.PartsSpec | src/render/shader_processing.rs:32 | a section with `*/` is its id, `*/` and its back part, and the id holds no `*/`; a section without `*/` is its own id with an empty back part |
| ShaderProcessing.ShaderPreprocessor | src/render/shader_processing.rs:21-53 | the loop over the sections with the is-opened flag computes the section-by-section rewriting of the source |
| ShaderProcessing.UndefinedCopies | src/render/shader_processing.rs:42-48 | while no id is defined, the flag stays closed and each section is copied as it is |
| ShaderProcessing.NoDefinitionsStrips | src/render/shader_processing.rs:30-48 | with no definitions the output is the source with every `/*` deleted |
| ShaderProcessing.SingleSection | src/render/shader_processing.rs:30-48 | a source without `/*` is kept as it is, unless its id is a defined name, which replaces it |
| ShaderProcessing.OpenClosedByBareSection | src/render/shader_processing.rs:32-45 | while a marker is open, a section without `*/` whose text is not a defined name closes it and contributes nothing |
| ShaderProcessing.MarkerReplaced | src/render/shader_processing.rs:33-46 | from a closed state, a defined marker section followed by a `*/rest` section emits the definition (`None` as empty text) and then rest, and closes the flag |
| ShaderProcessing.PartsAfterId | src/render/shader_processing.rs:32 | the id of `id*/back` is id when id holds no `*/` |
| ShaderProcessing.SplitAtFirstOpen | src/render/shader_processing.rs:30 | text free of `/*`, then `/*`, then more: the first section is the free text |
| ShaderProcessing.SplitWithout | src/render/shader_processing.rs:30 | text without the delimiter is a single piece |
| ShaderProcessing.MarkerSections | src/render/shader_processing.rs:30 | `pre/*ID*/fallback/**/post` splits into pre, the marker with its fallback, and `*/post` |
| ShaderProcessing.DefinedMarker | src/render/shader_processing.rs:30-52 | a defined marker and its fallback become the definition; the text around it is kept |
| ShaderProcessing.UndefinedMarker | src/render/shader_processing.rs:30-52 | an undefined marker is kept with its id and fallback, but both of its `/*` openers are lost |

## Left out

- GPU setup, pipelines, buffers, windowing, input, the camera and file reading: wgpu, winit and I/O plumbing with no logic to prove.
- The `map_constants!` macro and the `println!` of the definition map: text formatting and console output.
- `print_structure` and `print_size`: diagnostics that only print.
- `Octant::difference`: its body is `todo!()`.
- The unused `NewNode`, `Volume`, `NewOctant` and `Dag` structs: nothing uses them.
- The byte layout of the node array handed to the GPU (`shader_structs.rs`): an unsafe reinterpretation with no behaviour.
- Exact `f32` rounding: sums, products, quotients and the square root are exact reals. So the model does not capture a channel that rounds across a byte boundary in `f32`.
- `f32::sqrt` and `Vec3::length`: a parameter `sqrt`. Only `Volumes.PillarAtSpec` takes, as a precondition, that it is a square root on non-negative reals.
- OctDagBuilder.OctDag.FillOct: does not state the interior cell's attribute averages itself. They are stated on `OctDagBuilder.OctDag.BuildInterior`, which `FillOct` calls for every interior cell, for the same octant and the same children that `FillOct` returns. Keeping them off `FillOct`'s contract keeps the proofs of its callers small.
- OctDagBuilder.OctDag.FillRoot: does not state that the graph has at most 8^d nodes at each depth d, only the total bound.
- OctDagBuilder.OctDag.NewTest: node indices are unbounded naturals. The source stores them in a `u32`, and a graph near the full bound for depth 16 (about 4·10^13 nodes) would not fit; the model does not capture that wrap-around.
- Dedup compares neither normals nor the colours of slots with a child (`Dedup.MatchIgnoresNormals`, `Dedup.LeafNormalsMerged`). Leaves that differ only in direction are merged. The graph then keeps the first node's leaf directions, while the parent octant's averages come from the new candidate's children. This is the source's behaviour and is modelled as written.
- The last network stage compares positions (2, 3) and (6, 7) again, which were already ordered. Position 2 is therefore not always the second-largest density of its half (`SortingNetwork.NetworkSecondNotSorted`). The density accumulates the two upper positions of each half as written.
- ShaderProcessing.SplitOn: models Rust's `split` for one non-empty delimiter (leftmost, non-overlapping matches), not the general `Pattern` machinery. `split_once` is the first of those matches.
- ShaderProcessing.BuildMap: `HashMap::from_iter` is modelled by inserting the definitions in order into a map. Hashing and iteration order play no part in the preprocessor.
