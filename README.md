# hako core, modelled in Dafny

This project models the core components of the hako collection and proves
properties about them:

- **The voxel engine** (`mc/src`):
  - the block types and the world-to-chunk coordinate mapping;
  - the chunk: its terrain fill and its greedy mesher, which turns the block
    grid into merged quads with one colour and one normal each;
  - the world: a map of chunks with a one-entry lookup cache and the mesh
    rebuilds an edit triggers;
  - the player's collision box, collision test and survival movement;
  - the DDA ray caster;
  - Perlin noise with fractal Brownian motion (fbm).
- **The falling-sand sandbox** (`sandbox/src/main.c`): the brush and the four
  sweeps of a physics step (sand and water, smoke, fire, fire spread).
- **The bump arena** (`arena/arena.hpp`): blocks, `std::align`, reset, the
  destructor and moves.
- **The single-owner smart pointer** (`std/unique.h`): ownership, disposal with
  the right deleter, release, reset, swap, moves and comparisons.
- **The COCO class-name reader** of the YOLO demo (`yolocpp/main.cpp`,
  `ReadCocoYaml`).
- **Three Qt widgets**: the live line chart, the round progress button and the
  dial gauge. Their state logic is modelled; their painting is not.

The files:

| file | module | what it holds |
|---|---|---|
| `wrappers.dfy` | `Wrappers` | the `Option` type |
| `blocks.dfy` | `Blocks` | block types, constants, chunk coordinates |
| `chunk.dfy` | `ChunkMesh` | the `Chunk` class: terrain and greedy mesher |
| `world.dfy` | `Worlds` | the `World` class |
| `player.dfy` | `PlayerPhysics` | the `Player` class and the step functions |
| `raycast.dfy` | `Raycasting` | the DDA cast |
| `perlin.dfy` | `Perlin` | the permutation table, noise and fbm |
| `sandbox.dfy` | `Sandbox` | the grid rules and the in-place sweeps |
| `arena.dfy` | `Arenas` | the `Arena` class |
| `unique.dfy` | `UniquePtrs` | the `UniquePtr` class and the disposal log |
| `cocoyaml.dfy` | `CocoYaml` | the class-name reader |
| `linechart.dfy` | `LineCharts` | the `DynamicLineChart` widget |
| `circularbutton.dfy` | `CircularButtons` | the `CircularButton` widget and its wave |
| `cargauge.dfy` | `CarGauges` | the `CarGauge` widget |

How the models are shaped:

- Code that updates objects in place is modelled as classes whose methods
  carry `modifies` clauses. Each method's ensures give its new state,
  either through a specification function (the mesher, the sandbox sweeps,
  the cast, fbm) or field by field (release, swap and reset of the smart
  pointer, the arena's reset, the mode toggle, the widgets' event handlers).
  Examples:
  - the chunk's block grid is an `array3`;
  - the sandbox's cells are an `array2`;
  - the arena, the smart pointer and the widgets are classes.
- Pure code is modelled as functions, and lemmas state its properties.
- Quantities are modelled as follows:
  - addresses are integers, and 0 is the null pointer;
  - floating-point quantities are exact reals;
  - random numbers are an oracle parameter;
  - the heap's choice of a block address is a parameter;
  - a file's contents are a parameter: an `Option` of its lines.

## Model

| member | source | states |
|---|---|---|
| Blocks.TruncDiv | mc/src/World/World.cpp:13-14 | C++ division truncates toward zero: bounds the quotient from either side for non-negative and negative dividends |
| Blocks.ChunkOf | mc/src/World/World.cpp:13-14 | the chunk coordinate computed by the two-branch formula is the chunk whose cells [c*32, c*32+32) hold x |
| Blocks.LocalOf | mc/src/World/World.cpp:18-19 | the local index lies in [0, 32) and rebuilds x together with the chunk coordinate |
| Blocks.ChunkOfIsFloorDivision | mc/src/World/World.cpp:13-19 | the mapping is floor division, on negative coordinates too |
| Blocks.ChunkLocalIsBijective | mc/src/World/World.cpp:13-19 | (chunk, local) determines the world coordinate and the other way round |
| Blocks.MinusOneMapsToLastCellOfChunkMinusOne | mc/src/World/World.cpp:13-19 | world x = -1 is local cell 31 of chunk -1 |
| ChunkMesh.SlicePos | mc/src/World/Chunk.cpp:88-99 | the cell of a slice has coordinate s on the sweep axis, i on u = axis+1 and j on v = axis+2 |
| ChunkMesh.Opacity | mc/src/World/Chunk.cpp:103-106 | air, water and the solid types form three occlusion classes |
| ChunkMesh.FaceType | mc/src/World/Chunk.cpp:108-117 | a face exists exactly where the two cells differ in occlusion class, and it takes the type of the more opaque one |
| ChunkMesh.FaceTypeSymmetric | mc/src/World/Chunk.cpp:108-117 | the classification does not depend on which side of the slice a cell is on |
| ChunkMesh.FaceTypeTable | mc/src/World/Chunk.cpp:108-117 | the nine-way branch case by case: solid-solid, equal types and water-water give no face; solid beats air and water; water beats air |
| ChunkMesh.GuardedFace | mc/src/World/Chunk.cpp:100-117 | the guarded reads of b1 and b2 stay inside the grid and give the face of the slice, with cells outside the chunk reading as air |
| ChunkMesh.FillMask | mc/src/World/Chunk.cpp:96-121 | after the loops every mask cell holds the face type of its slice cell |
| ChunkMesh.MergeMask | mc/src/World/Chunk.cpp:123-154 | the greedy merge leaves the mask all air, and its rectangles partition the non-air cells: each is in bounds and uniform, no two overlap, and every non-air cell is covered; each rectangle is the greedy one given those before it (it starts at the first pending cell in row-major order and can grow neither wider nor taller) |
| ChunkMesh.GrowRect | mc/src/World/Chunk.cpp:129-138 | the width and height loops give a non-empty, in-bounds rectangle that holds only the start cell's type, and it is maximal: the cell right of its first row is at the edge or of another type, and the row above it is at the edge or holds another type under its width |
| ChunkMesh.GreedyNext | mc/src/World/Chunk.cpp:125-140 | a rectangle grown at the scan position, with everything before it cleared, extends the greedy property by one rectangle |
| ChunkMesh.ClearRect | mc/src/World/Chunk.cpp:148-150 | clearing the rectangle keeps the merge invariant with the rectangle appended and changes no other cell |
| ChunkMesh.SliceMask | mc/src/World/Chunk.cpp:96-121 | the mask of slice s as a value: cell (i, j) is the face of that slice cell |
| ChunkMesh.SnapshotIsSliceMask | mc/src/World/Chunk.cpp:96-121 | a filled mask buffer holds exactly the slice mask |
| ChunkMesh.GetColor | mc/src/World/Chunk.cpp:176-187 | grass is green exactly on an upward face and brown otherwise; magenta exactly for air, the type without an entry |
| ChunkMesh.ColorIgnoresFaceExceptGrass | mc/src/World/Chunk.cpp:176-187 | every type but grass has one colour whatever the axis and face side |
| ChunkMesh.QuadShape | mc/src/World/Chunk.cpp:161-174 | pushQuad appends six vertices, two triangles sharing v0 and v2, with one colour and a normal of +1 or -1 on the sweep axis |
| ChunkMesh.Quad | mc/src/World/Chunk.cpp:161-174 | a quad is six vertices whose fourth repeats the third and whose sixth repeats the first |
| ChunkMesh.BackCell | mc/src/World/Chunk.cpp:140-144 | the back-face test reads the cell behind the quad on the sweep axis, and air when that cell is outside the chunk |
| ChunkMesh.BackIndexAsWrittenLeavesChunk | mc/src/World/Chunk.cpp:140-144 | the guard as written, on x only, lets the y sweep read cell (0, -1, 0), which is outside the chunk |
| ChunkMesh.BackReadInChunk | mc/src/World/Chunk.cpp:140-144 | guarded on the sweep axis, the read stays inside the chunk for every quad corner the mesher can emit |
| ChunkMesh.AxisPartsEach | mc/src/World/Chunk.cpp:96-155 | the recorded partitions of a sweep hold exactly when every slice's entry is the greedy partition of that slice's mask |
| ChunkMesh.AxisPartsGives | mc/src/World/Chunk.cpp:96-155 | a recorded sweep makes every slice's entry the greedy partition of that slice's mask |
| ChunkMesh.AxisPartsFrom | mc/src/World/Chunk.cpp:96-155 | entries that are each the greedy partition of their slice's mask form a recorded sweep |
| ChunkMesh.SliceQuadsAreQuads | mc/src/World/Chunk.cpp:146 | a slice emits six vertices per rectangle, as whole quads |
| ChunkMesh.AxisMeshIsQuads | mc/src/World/Chunk.cpp:96-155 | a sweep's output is a list of whole quads |
| ChunkMesh.MeshIsQuads | mc/src/World/Chunk.cpp:85-159 | the whole mesh is a list of whole quads: six vertices each, one colour each and an axis normal each |
| ChunkMesh.ClampHeight | mc/src/World/Chunk.cpp:30-32 | the column height is clamped into [1, 63] and kept when already inside |
| ChunkMesh.ColumnProfile | mc/src/World/Chunk.cpp:34-42 | a column is solid exactly up to its surface; water fills from above the surface up to level 20; air lies above both; grass lies exactly on a surface at or above the water level, and dirt lies below the surface or on a lower one |
| ChunkMesh.TerrainEmitsBottomCornerQuad | mc/src/World/Chunk.cpp:22-45 | every generated chunk has a dirt bottom layer, so the first y slice emits a rectangle at corner (0, 0), the one the as-written back-face guard mishandles |
| ChunkMesh.SweepAxis | mc/src/World/Chunk.cpp:87-155 | one axis sweep appends the quads of every slice from -1 to the axis size - 1, and each slice's rectangles are the greedy partition of its mask: a partition whose every rectangle starts at the first unmerged cell in row-major order and is grown as wide, then as high, as the mask allows |
| ChunkMesh.SweepSlice | mc/src/World/Chunk.cpp:96-154 | fill, merge and emit: the slice's rectangles partition its mask, each is the one the greedy scan grows after the ones before it, and their quads are appended in order |
| ChunkMesh.EmitQuads | mc/src/World/Chunk.cpp:140-146 | each rectangle's quad is appended with its back-face test |
| ChunkMesh.SweepNext | mc/src/World/Chunk.cpp:96-154 | one more slice extends the sweep's recorded greedy partitions by one, and the output by exactly that slice's quads |
| ChunkMesh.GreedyMesh | mc/src/World/Chunk.cpp:85-159 | the mesh is the concatenation of the three axis sweeps, each slice merged into its greedy partition, and it is a list of whole quads |
| ChunkMesh.Chunk.constructor | mc/src/World/Chunk.cpp:4-14 | the origin is (32x, 0, 32z), the grid holds the terrain, and the mesh is the greedy mesh of that grid (every slice merged into its greedy partition) and is marked dirty |
| ChunkMesh.Chunk.GenerateTerrain | mc/src/World/Chunk.cpp:22-45 | every column holds the profile of its clamped height |
| ChunkMesh.Chunk.BuildGreedyMesh | mc/src/World/Chunk.cpp:85-159 | the mesh becomes the x, y and z sweeps of the current grid, every slice merged into its greedy partition, made of whole quads, and the chunk becomes dirty |
| ChunkMesh.Chunk.Rebuild | mc/src/World/Chunk.cpp:79-81 | a rebuild request, run to completion, makes the mesh the greedy mesh of the current grid again, and the chunk dirty |
| ChunkMesh.Chunk.Update | mc/src/World/Chunk.cpp:47-70 | a dirty chunk with an empty mesh gets index count 0 and stays dirty; a dirty chunk with a mesh hands over its vertex count, clears the mesh and becomes clean; a clean chunk is unchanged |
| Worlds.EdgeNeighbours | mc/src/World/World.cpp:56-59 | only present chunks are asked to rebuild |
| Worlds.EdgeNeighboursExactly | mc/src/World/World.cpp:56-59 | a neighbour is asked exactly when it is present and the edit lies on the edge it shares; at most two are asked, each at most once |
| Worlds.MakeChunk | mc/src/World/World.cpp:6 | a new chunk at (x, z) holds the terrain of the shared height field |
| Worlds.World.constructor | mc/src/World/World.cpp:3 | an empty map, an empty cache (null chunk, coordinates -999999) and no rebuild requests |
| Worlds.World.GetBlock | mc/src/World/World.cpp:9-37 | the cached lookup returns what a map-only lookup returns: air out of the height range or in a missing chunk; the cache moves only after a successful map lookup |
| Worlds.World.SetBlock | mc/src/World/World.cpp:39-61 | out of range or in a missing chunk nothing changes; otherwise exactly one cell changes, and the edited chunk and then its present edge neighbours are asked to rebuild |
| Worlds.World.StoreCell | mc/src/World/World.cpp:51 | the store into the owning chunk makes the block at (x, y, z) the new type and leaves every other world position as it was |
| Worlds.World.RequestRebuilds | mc/src/World/World.cpp:56-59 | the rebuild log grows by exactly the present edge neighbours, and no block changes |
| Worlds.World.UpdateChunkMesh | mc/src/World/World.cpp:63-68 | a rebuild request is logged exactly when the chunk is present |
| Worlds.World.AddChunk | mc/src/World/World.cpp:5-7 | the chunk at (x, z) is created or replaced, other chunks stay, and the cache never refers to a chunk outside the map |
| Worlds.World.AddChunkAsWritten | mc/src/World/World.cpp:5-7 | replacing the cached chunk leaves the cache referring to a chunk that is no longer in the map |
| PlayerPhysics.GetAABB | mc/src/Physics/Player.cpp:11-16 | the box is 0.6 wide on x and z, centred on the position, and 1.8 tall from the feet up |
| PlayerPhysics.CheckCollision | mc/src/Physics/Player.cpp:90-109 | true exactly when some cell in the box's floor range on every axis is solid |
| PlayerPhysics.LaunchJumpRule | mc/src/Physics/Player.cpp:38-62 | a jump needs the input and ground: the vertical speed becomes 9 and the player is airborne; otherwise gravity lowers it by 28·dt |
| PlayerPhysics.LaunchOverwritesHorizontal | mc/src/Physics/Player.cpp:55-56 | the horizontal velocity is the walk direction times 6, whatever it was before |
| PlayerPhysics.NoInputNoHorizontalMotion | mc/src/Physics/Player.cpp:47-87 | without horizontal input the body neither moves horizontally nor keeps horizontal speed |
| PlayerPhysics.StepAxisOutcomes | mc/src/Physics/Player.cpp:64-87 | on each axis in y, x, z order the full displacement is committed, or the coordinate is kept and that speed zeroed when the moved box would collide |
| PlayerPhysics.StepGroundedRule | mc/src/Physics/Player.cpp:68-74 | grounded after a step exactly when the vertical move was blocked and was downward or started grounded; a clear vertical move leaves the player airborne |
| PlayerPhysics.StepKeepsBodyClear | mc/src/Physics/Player.cpp:64-87 | a body clear of solid blocks stays clear after a step |
| PlayerPhysics.MoveY | mc/src/Physics/Player.cpp:67-75 | the vertical move with its collision test |
| PlayerPhysics.MoveX | mc/src/Physics/Player.cpp:77-81 | the move along x with its collision test |
| PlayerPhysics.MoveZ | mc/src/Physics/Player.cpp:83-87 | the move along z with its collision test |
| PlayerPhysics.Launch | mc/src/Physics/Player.cpp:47-62 | before the collision pass the position is unchanged, and the body leaves the ground exactly when it jumps while grounded |
| PlayerPhysics.ResolveY | mc/src/Physics/Player.cpp:67-75 | x and z are untouched; either the body moves by the y step into free space, keeps its vertical velocity and is airborne, or it stays with vertical velocity and step zeroed; it lands only when it was grounded or moving down |
| PlayerPhysics.ResolveX | mc/src/Physics/Player.cpp:77-81 | y, z and the ground flag are untouched; the body moves by the x step into free space, or stays with x velocity and step zeroed |
| PlayerPhysics.ResolveZ | mc/src/Physics/Player.cpp:83-87 | x, y and the ground flag are untouched; the body moves by the z step into free space, or stays with z velocity and step zeroed |
| PlayerPhysics.SurvivalStep | mc/src/Physics/Player.cpp:36-88 | a survival step either leaves the body where it was or ends in a position that does not collide |
| PlayerPhysics.FlyTo | mc/src/Physics/Player.cpp:21-28 | with no key held the spectator camera stays put |
| PlayerPhysics.Player.constructor | mc/src/Physics/Player.hpp:11-25 | a new player stands at the given position in spectator mode, at rest and not grounded |
| PlayerPhysics.Player.ToggleMode | mc/src/Physics/Player.cpp:5-9 | the mode flips and the velocity becomes zero; nothing else changes |
| PlayerPhysics.Player.HandleSurvivalMovement | mc/src/Physics/Player.cpp:36-88 | the fields become the survival step of the old body |
| PlayerPhysics.Player.Update | mc/src/Physics/Player.cpp:18-33 | a spectator flies the camera 15·dt per held input and the player follows it; in survival the body steps and the camera sits 1.6 above the feet |
| PlayerPhysics.FlyOppositeInputsCancel | mc/src/Physics/Player.cpp:21-28 | opposite flight inputs cancel |
| Raycasting.CellOf | mc/src/Math/Raycast.hpp:16 | the start cell is the floor of each coordinate |
| Raycasting.ChooseAxis | mc/src/Math/Raycast.hpp:41-53 | x is taken only when its crossing is strictly nearest; y wins an x-y tie; z wins every tie with z |
| Raycasting.InitialDist | mc/src/Math/Raycast.hpp:17-29 | from a start inside cell p, the first face crossing on an axis lies within one cell's width tDelta |
| Raycasting.AxisInit | mc/src/Math/Raycast.hpp:17-29 | the initial distances place the start at parameter 0 inside its cell, with the next face at dist |
| Raycasting.AxisAdvance | mc/src/Math/Raycast.hpp:43-51 | a step moves p by the sign and dist by tDelta, and keeps the per-axis invariant |
| Raycasting.AxisTouch | mc/src/Math/Raycast.hpp:34-53 | under the invariant the ray point lies in the cell's slab on that axis |
| Raycasting.RayTouch | mc/src/Math/Raycast.hpp:34-53 | every tested cell is touched by the ray at the parameter recorded for it |
| Raycasting.GapStep | mc/src/Math/Raycast.hpp:34 | each step lowers the measure that bounds the remaining crossings, so the loop ends |
| Raycasting.WalkExtend | mc/src/Math/Raycast.hpp:34-54 | the tested cells form a walk of face-adjacent steps in the direction of travel with non-decreasing parameters |
| Raycasting.StepKeepsRay | mc/src/Math/Raycast.hpp:40-53 | a step along the chosen axis keeps the invariant on all three axes, moves one cell in the direction of travel, never moves the parameter back, and lowers the termination measure |
| Raycasting.StepLowersMeasure | mc/src/Math/Raycast.hpp:34-53 | each step lowers a measure bounded below, so the loop ends for every maxDist |
| Raycasting.AxisLater | mc/src/Math/Raycast.hpp:40-53 | on an axis that is not stepped, the invariant holds at any later parameter up to that axis's crossing |
| Raycasting.RayStays | mc/src/Math/Raycast.hpp:40-53 | until the nearest face crossing the ray stays in the current cell |
| Raycasting.SlabConvex | mc/src/Math/Raycast.hpp:34-53 | a coordinate of the ray inside a unit slab at two parameters is inside it at every parameter between |
| Raycasting.TouchesBetween | mc/src/Math/Raycast.hpp:34-53 | a cell holding the ray at two parameters holds it at every parameter between |
| Raycasting.CoversSnoc | mc/src/Math/Raycast.hpp:36-44 | appending the cell entered at the last crossing keeps the tested cells covering the ray |
| Raycasting.CoversStretch | mc/src/Math/Raycast.hpp:40-53 | the cell tested last covers the ray up to the next face crossing |
| Raycasting.ProbeAt | mc/src/Math/Raycast.hpp:34-53 | every parameter between the first probe and the end of a covering walk lies in a cell tested no later |
| Raycasting.ClearWalk | mc/src/Math/Raycast.hpp:34-55 | a walk whose earlier cells are clear leaves the ray in clear tested cells before the hit parameter, or before maxDist on a miss |
| Raycasting.WalkedStep | mc/src/Math/Raycast.hpp:36-53 | a clear cell joins the walk, and the step chosen leads to the next cell to test |
| Raycasting.WalkedHit | mc/src/Math/Raycast.hpp:36-38 | a solid cell ends the walk with a hit: earlier cells clear, entry face a unit axis, and the ray clear before its parameter |
| Raycasting.WalkedMiss | mc/src/Math/Raycast.hpp:34-55 | a walk that reaches maxDist has tested no cell exactly when maxDist <= 0, and leaves the ray clear before maxDist |
| Raycasting.Advance | mc/src/Math/Raycast.hpp:40-53 | one step moves along the axis ChooseAxis picks (x only when strictly nearest, y when strictly below z, z on every tie with z), sets the parameter to that axis's crossing, grows that crossing by one cell, records the entry face as minus the step, keeps the invariant and lowers the termination measure |
| Raycasting.Cast | mc/src/Math/Raycast.hpp:15-56 | the tested cells are a DDA walk from the start cell that the ray touches below maxDist; a hit is the first solid cell, with its entry face and its parameter; a miss returns (false, 0, 0, maxDist); and at every parameter in [0, distance) the ray lies in a tested cell holding no solid block, so no solid block is skipped |
| Perlin.Iota | mc/src/Math/PerlinNoise.cpp:10 | the table starts as 0..255 |
| Perlin.PermutationRange | mc/src/Math/PerlinNoise.cpp:7-16 | a permutation of 0..n-1 holds exactly the values of that range |
| Perlin.SwapKeepsMultiset | mc/src/Math/PerlinNoise.cpp:13 | each shuffle swap keeps the multiset of entries |
| Perlin.Fade | mc/src/Math/PerlinNoise.cpp:18-21 | the fade curve maps 0 to 0 and 1 to 1, and [0, 1] into [0, 1] |
| Perlin.FadeInUnit | mc/src/Math/PerlinNoise.cpp:18-21 | 6t^5 - 15t^4 + 10t^3 lies in [0, 1] for t in [0, 1] |
| Perlin.Lerp | mc/src/Math/PerlinNoise.cpp:23-25 | interpolation gives a at 0 and b at 1, and lies between a and b for t in [0, 1] |
| Perlin.Grad | mc/src/Math/PerlinNoise.cpp:27-33 | for offsets in [-1, 1] the gradient term lies in [-2, 2] |
| Perlin.FadeEndpoints | mc/src/Math/PerlinNoise.cpp:18-21 | the fade curve fixes 0, 1 and 1/2 |
| Perlin.LerpEndpoints | mc/src/Math/PerlinNoise.cpp:23-25 | interpolation returns a at 0 and b at 1, and a constant for equal ends |
| Perlin.GradMatchesTable | mc/src/Math/PerlinNoise.cpp:27-33 | the bit tricks compute the dot product with a table gradient, and every gradient is a cube-edge direction |
| Perlin.GradTableCoversEdges | mc/src/Math/PerlinNoise.cpp:27-33 | all twelve cube edges occur among the gradients |
| Perlin.GradAtCorner | mc/src/Math/PerlinNoise.cpp:27-33 | the gradient term vanishes at its own corner |
| Perlin.BlendAtCorners | mc/src/Math/PerlinNoise.cpp:56-59 | trilinear interpolation returns each corner's value at that corner |
| Perlin.Hashes | mc/src/Math/PerlinNoise.cpp:52-53 | the hash indices and their successors stay inside the doubled table of 512 entries |
| Perlin.NoiseVanishesAtLattice | mc/src/Math/PerlinNoise.cpp:35-60 | noise is zero at every integer lattice point |
| Perlin.Noise | mc/src/Math/PerlinNoise.cpp:35-60 | noise lies in [-2, 2] everywhere |
| Perlin.PerlinNoise.constructor | mc/src/Math/PerlinNoise.cpp:7-16 | the first half of the table is a permutation of 0..255 and the second half copies it |
| Perlin.FillIdentity | mc/src/Math/PerlinNoise.cpp:10 | after the iota fill the first half of the table is a permutation of 0..255 |
| Perlin.Shuffle | mc/src/Math/PerlinNoise.cpp:12-13 | the shuffle's swaps keep the first half a permutation of 0..255, whatever the random choices |
| Perlin.CopyUpper | mc/src/Math/PerlinNoise.cpp:15 | after the copy the table is a noise table (second half equal to the first, every entry in 0..255) and the first half is unchanged as a permutation |
| Perlin.PowPositive | mc/src/Math/PerlinNoise.cpp:71 | every amplitude is positive for a positive persistence |
| Perlin.AmplitudeSumPositive | mc/src/Math/PerlinNoise.cpp:66-75 | with at least one octave the normaliser is at least 1 |
| Perlin.WeightedSumBound | mc/src/Math/PerlinNoise.cpp:68-73 | samples in [-1, 1] give an octave sum within plus or minus the amplitude sum |
| Perlin.OctaveBound | mc/src/Math/PerlinNoise.cpp:69 | a sample in [-1, 1] scaled by amplitude a lies in [-a, a], so one more octave widens the bound on the sum by exactly its amplitude |
| Perlin.NormalisedSumBound | mc/src/Math/PerlinNoise.cpp:75 | the normalised octave sum lies in [-1, 1] |
| Perlin.Samples | mc/src/Math/PerlinNoise.cpp:68-73 | one sample per octave, octave k at frequency lacunarity^k |
| Perlin.FbmOf | mc/src/Math/PerlinNoise.cpp:62-76 | the loop computes the octave sum divided by the amplitude sum; with no octaves the result is 0/0, None here |
| Perlin.OctaveStep | mc/src/Math/PerlinNoise.cpp:69 | adding one octave's sample times the amplitude extends the weighted sum by that octave |
| Perlin.WeightsStep | mc/src/Math/PerlinNoise.cpp:70-72 | the amplitude sum grows by the amplitude, and amplitude and frequency become the next powers of persistence and lacunarity |
| Perlin.PerlinNoise.Fbm | mc/src/Math/PerlinNoise.cpp:62-76 | fbm over this table's noise |
| Perlin.WeightedSumSnoc | mc/src/Math/PerlinNoise.cpp:69 | one more octave adds its sample times persistence^k |
| Perlin.SamplesStep | mc/src/Math/PerlinNoise.cpp:68-73 | the octave sum grows by the next octave's weighted sample |
| Perlin.SamplesInRange | mc/src/Math/PerlinNoise.cpp:68-73 | a field bounded by 1 gives samples bounded by 1 |
| Perlin.FbmInRange | mc/src/Math/PerlinNoise.cpp:62-76 | fbm stays in [-1, 1] whenever the noise does |
| Sandbox.PutCells | sandbox/src/main.c:80-81 | writing one cell changes that cell to the value written and leaves every other cell as it was |
| Sandbox.Random | sandbox/src/main.c:161 | GetRandomValue(lo, hi) yields a value in [lo, hi], and every value of that range can be drawn |
| Sandbox.Half | sandbox/src/main.c:24-25 | C's size / 2, truncating toward zero, for either sign |
| Sandbox.InBrush | sandbox/src/main.c:24-25 | for a non-negative size the offsets lie in [-(size/2), size/2) on both axes; a brush of size 1 or less paints nothing |
| Sandbox.Paint | sandbox/src/main.c:31-38 | the brush writes its type, except that fire catches only on sand or stone (and fire stays fire) |
| Sandbox.PlacePixels | sandbox/src/main.c:23-42 | exactly the in-grid cells of the brush square [-size/2, size/2) are painted; every other cell is unchanged |
| Sandbox.Spill | sandbox/src/main.c:88-103 | a sideways move onto the next row: both sides free picks a side at random, one side free takes it, neither leaves the grid as it was |
| Sandbox.SandRule | sandbox/src/main.c:77-106 | the sand branch: fall, sink through water, or slide diagonally |
| Sandbox.WaterRule | sandbox/src/main.c:108-153 | the water branch: quench fire below, fall, flow diagonally, or spread sideways |
| Sandbox.OpenDirs | sandbox/src/main.c:183-191 | the collected escape directions are in order and each leads to an empty in-grid cell |
| Sandbox.SmokeRule | sandbox/src/main.c:160-198 | the smoke branch: vanish, rise, or escape |
| Sandbox.SmokeRiseRule | sandbox/src/main.c:166-181 | rising smoke drifts diagonally when drawn and free, otherwise goes straight up |
| Sandbox.EscapeDir | sandbox/src/main.c:192-193 | the chosen escape direction is open |
| Sandbox.SmokeEscapeRule | sandbox/src/main.c:182-197 | blocked smoke moves through the chosen open direction, or stays when none is open |
| Sandbox.EscapeTakes | sandbox/src/main.c:192-195 | with at least one open direction, the escape is the move through the direction picked from the open ones |
| Sandbox.EscapeThroughOpen | sandbox/src/main.c:182-197 | with at least one open direction, the smoke ends in an empty in-grid cell one step up, diagonally up or sideways, and only that cell and its own change |
| Sandbox.FireRule | sandbox/src/main.c:205-225 | the fire branch: unsupported fire becomes smoke, supported fire becomes smoke on a draw of 0 |
| Sandbox.SpreadRule | sandbox/src/main.c:232-253 | the spread branch |
| Sandbox.CellRule | sandbox/src/main.c:74-255 | the update one sweep makes at one cell |
| Sandbox.RowAt | sandbox/src/main.c:75-76 | sand and water go bottom-up, the other sweeps top-down; every visited row is in the grid |
| Sandbox.RowSweep | sandbox/src/main.c:76-154 | one row, left to right |
| Sandbox.Rows | sandbox/src/main.c:75-155 | the rows of a sweep in its order |
| Sandbox.Step | sandbox/src/main.c:71-256 | the four sweeps in order |
| Sandbox.SandFallsIntoEmpty | sandbox/src/main.c:79-82 | sand above an empty cell falls into it, and nothing else changes |
| Sandbox.SandSinksThroughWater | sandbox/src/main.c:83-86 | sand above water swaps with it, and nothing else changes |
| Sandbox.SandRuleSwaps | sandbox/src/main.c:77-106 | the sand rule swaps the sand cell with an empty or water cell below it or diagonally below it, or changes nothing; it never enters stone or fire |
| Sandbox.WaterQuenchesFire | sandbox/src/main.c:109-112 | water directly above fire empties both cells, and nothing else changes |
| Sandbox.UnsupportedFireBecomesSmoke | sandbox/src/main.c:206-220 | fire with neither sand nor stone below, off the bottom row, becomes smoke; on the bottom row it changes only on a draw of 0 |
| Sandbox.SpreadIgnitesOnlyNextToFire | sandbox/src/main.c:232-253 | only the visited sand or stone cell can change, only to fire, and it ignites exactly when it is next to fire and its draw is 0 |
| Sandbox.SmokeMovesIntoEmptyNeighbour | sandbox/src/main.c:160-198 | smoke vanishes, moves one step into an empty neighbour above or beside it, or stays |
| Sandbox.SmokeRiseMoves | sandbox/src/main.c:166-181 | rising smoke moves into an empty cell one step up |
| Sandbox.SmokeEscapeMoves | sandbox/src/main.c:182-197 | escaping smoke moves into an empty neighbour or stays |
| Sandbox.CellKeeps | sandbox/src/main.c:74-255 | no cell update moves or creates stone; only sand and stone catch fire |
| Sandbox.WaterKeepsStone | sandbox/src/main.c:108-153 | the water rule never writes stone cells |
| Sandbox.SpillIntoEmpty | sandbox/src/main.c:88-150 | spilling into empty cells keeps every stone where it is |
| Sandbox.RowSweepKeeps | sandbox/src/main.c:76 | a row sweep keeps its sweep's relation |
| Sandbox.RowsKeep | sandbox/src/main.c:75 | a whole sweep keeps its relation |
| Sandbox.StepKeepsStone | sandbox/src/main.c:71-256 | over a physics step stone never moves and is never created; a stone cell ends as stone or fire |
| Sandbox.SpillStep | sandbox/src/main.c:88-103 | the in-place sideways move is Spill on the grid |
| Sandbox.SandStep | sandbox/src/main.c:77-106 | the in-place sand branch is SandRule on the grid |
| Sandbox.WaterStep | sandbox/src/main.c:108-153 | the in-place water branch is WaterRule on the grid |
| Sandbox.CollectOpen | sandbox/src/main.c:183-191 | the four-slot buffer holds the open directions in order |
| Sandbox.IsOpen | sandbox/src/main.c:185-188 | a direction is open exactly when its neighbour lies in the grid and is empty |
| Sandbox.SmokeStep | sandbox/src/main.c:160-198 | the in-place smoke branch is SmokeRule on the grid |
| Sandbox.SmokeRise | sandbox/src/main.c:166-181 | the in-place rise is SmokeRiseRule |
| Sandbox.SmokeEscape | sandbox/src/main.c:182-197 | the in-place escape is SmokeEscapeRule |
| Sandbox.EscapeStep | sandbox/src/main.c:193-195 | the in-place move through the picked direction is SmokeEscapeRule on the grid |
| Sandbox.FireStep | sandbox/src/main.c:205-225 | the in-place fire branch is FireRule |
| Sandbox.ScanForFire | sandbox/src/main.c:234-246 | the neighbour scan finds fire exactly when one of the eight neighbours is in-grid fire |
| Sandbox.SpreadStep | sandbox/src/main.c:232-253 | the in-place spread branch is SpreadRule |
| Sandbox.UpdateCell | sandbox/src/main.c:77-253 | one cell of a sweep on the array |
| Sandbox.SweepRow | sandbox/src/main.c:76-154 | one row of a sweep on the array is RowSweep |
| Sandbox.RunPass | sandbox/src/main.c:75-155 | one sweep on the array is Rows |
| Sandbox.PhysicsStep | sandbox/src/main.c:71-256 | a physics step on the array is Step, so StepKeepsStone holds of it |
| Arenas.PowerOfTwoIsLowestBit | arena/arena.hpp:12-14 | x & (x-1) == 0 with x != 0 holds exactly when x is its own lowest set bit |
| Arenas.PowerOfTwoDoubles | arena/arena.hpp:12-14 | doubling a power of two without overflow gives a power of two |
| Arenas.CheckAddOverflow | arena/arena.hpp:16-22 | a sum that is returned never exceeds SIZE_MAX |
| Arenas.CheckAddOverflowMatchesWrap | arena/arena.hpp:16-22 | the check fails exactly when 64-bit addition would wrap, and otherwise returns the exact sum |
| Arenas.AlignUp | arena/arena.hpp:104-106 | the padded address is aligned and lies within one alignment of the pointer |
| Arenas.AlignUpIsLeast | arena/arena.hpp:104-106 | no aligned address lies between the pointer and the padded one |
| Arenas.Align | arena/arena.hpp:104-106 | std::align succeeds exactly when some aligned address fits the request in the space; on success it returns the least such address and shrinks the space by the padding |
| Arenas.AlignedBlockFits | arena/arena.hpp:107-116 | a fresh, aligned block fits any request no larger than the block, so the assertion after the second std::align holds |
| Arenas.NewBlockKeepsConsistent | arena/arena.hpp:144-149 | appending a fresh block keeps the arena's invariant |
| Arenas.BumpKeepsConsistent | arena/arena.hpp:118-119 | bumping past a new allocation keeps the invariant: the allocation lies inside its block and apart from every other live one |
| Arenas.Arena.Capacity | arena/arena.hpp:139-141 | the capacity is never negative and is zero exactly when no block is held |
| Arenas.Arena.Used | arena/arena.hpp:135-137 | the used bytes are the sum of the live allocation sizes |
| Arenas.Arena.constructor | arena/arena.hpp:42-48 | the block size is max(requested, 1), and the arena holds one block, is empty, and bumps from the block's start |
| Arenas.Arena.Default | arena/arena.hpp:42-48 | the default-constructed arena uses the 4096-byte block size and starts empty on one block |
| Arenas.Arena.AllocateBlock | arena/arena.hpp:144-149 | the new block is appended and the bump pointer runs over it |
| Arenas.Arena.Allocate | arena/arena.hpp:93-123 | the result is non-null and aligned, lies inside the current block and apart from every live allocation, and used grows by size; a new block is taken exactly when the current one cannot hold the request |
| Arenas.Arena.AllocateDefault | arena/arena.hpp:93 | allocation with the default alignment of max_align_t gives a positive address that is a multiple of 16 and keeps the arena valid |
| Arenas.DefaultAlignmentIsPowerOfTwo | arena/arena.hpp:93-95 | the default alignment, 16, passes the power-of-two check |
| Arenas.Arena.Bump | arena/arena.hpp:118-119 | recording a request that fits between the bump pointer and the block end keeps the arena consistent, moves the pointer past it, adds its size to the used bytes and leaves the blocks alone |
| Arenas.Arena.Reset | arena/arena.hpp:125-133 | with a block held, bump again from the first block with nothing live; with none, nothing changes |
| Arenas.Arena.Destroy | arena/arena.hpp:50-57 | every block is freed once, in order, and the pointers become null |
| Arenas.Arena.Moved | arena/arena.hpp:62-73 | the new arena takes everything over and the source holds nothing |
| Arenas.Arena.MoveAssign | arena/arena.hpp:75-91 | self-assignment changes nothing (blocks, bump pointer and end, used bytes, block size, the current block and the live objects all stay); otherwise the old blocks are freed and the source's state is taken over |
| UniquePtrs.DisposalOf | std/unique.h:155-161 | giving up a pointer disposes of it once with the deleter, and never disposes of nullptr |
| UniquePtrs.Equal | std/unique.h:299-302 | a pointer equals itself, and equal pointers are both null or both non-null |
| UniquePtrs.NotEqual | std/unique.h:304-307 | unequal pointers are distinct objects and not both null |
| UniquePtrs.EqualsNull | std/unique.h:309-317 | a pointer compares equal to nullptr exactly when it holds address 0 |
| UniquePtrs.UniquePtr.Null | std/unique.h:61-65 | nothing is held, with the default deleter (delete[] in the array form) |
| UniquePtrs.UniquePtr.Own | std/unique.h:67-76 | the pointer and deleter are held, and the pointer tests true exactly when it is non-null |
| UniquePtrs.UniquePtr.Moved | std/unique.h:78-88 | the pointer and deleter move over, the source becomes null, and nothing is disposed of |
| UniquePtrs.UniquePtr.Release | std/unique.h:149-153 | the held pointer is returned and nullptr is left, without disposal |
| UniquePtrs.UniquePtr.Reset | std/unique.h:155-161 | the new pointer is held and the old one is disposed of once with the current deleter |
| UniquePtrs.UniquePtr.AssignNull | std/unique.h:114-117 | the held pointer is disposed of and nothing is held |
| UniquePtrs.UniquePtr.Swap | std/unique.h:163-168 | the pointers and the deleters are exchanged |
| UniquePtrs.UniquePtr.MoveAssign | std/unique.h:94-102 | self-assignment changes nothing; otherwise the old pointer is disposed of with the old deleter, the source's pointer and deleter are taken over, and the source is left null with its deleter kept |
| UniquePtrs.UniquePtr.MoveAssignFrom | std/unique.h:104-111 | the converting assignment does the same without a self check, leaving the source null with its deleter kept |
| UniquePtrs.UniquePtr.Destroy | std/unique.h:119-123 | the deleter runs once on a held pointer and never on nullptr |
| UniquePtrs.NullComparisonsAgree | std/unique.h:299-327 | comparing with nullptr agrees with comparing against an empty pointer, and != negates == |
| UniquePtrs.MoveThenDestroyBoth | std/unique.h:78-123 | a pointer moved into another and then both destroyed is disposed of exactly once |
| UniquePtrs.SwapThenDestroyBoth | std/unique.h:163-168 | after a swap each pointer is disposed of once, by the deleter that came with it |
| UniquePtrs.ReleaseThenDestroy | std/unique.h:149-153 | a released pointer is not disposed of by the destructor |
| CocoYaml.NamesKeyHasColon | yolocpp/main.cpp:225-229 | a line holding `names:` holds a colon, so it never ends the scan |
| CocoYaml.LastNamesBefore | yolocpp/main.cpp:225-228 | the start is one past the last `names:` line seen, or 0 when there is none |
| CocoYaml.FirstTerminatorFrom | yolocpp/main.cpp:229-233 | the end is the first colon-free line after a `names:` line, or 0 when there is none |
| CocoYaml.SectionShape | yolocpp/main.cpp:221-234 | the lines between start and end all hold a colon and no key; an unterminated section ends nowhere |
| CocoYaml.LastNamesBeforeGrows | yolocpp/main.cpp:225-228 | once a `names:` line has been seen, the start stays past it |
| CocoYaml.FirstIndex | yolocpp/main.cpp:242 | the first colon: no earlier character is a colon |
| CocoYaml.RemainderSplitsAtFirstColon | yolocpp/main.cpp:242-243 | the name is exactly what follows the first colon |
| CocoYaml.Remainder | yolocpp/main.cpp:242-243 | a line with a colon is its colon-free prefix, the colon and the name; a line without one is kept whole |
| CocoYaml.RemaindersOf | yolocpp/main.cpp:238-245 | one name per entry line, in order |
| CocoYaml.ScanSection | yolocpp/main.cpp:221-234 | the scan loop finds exactly the declared start and end |
| CocoYaml.ExtractNames | yolocpp/main.cpp:237-245 | the extraction loop gives the names of lines [start, end), or nothing when end <= start |
| CocoYaml.Detector.constructor | yolocpp/main.cpp:247 | a detector starts with no class names |
| CocoYaml.ReadCocoYaml | yolocpp/main.cpp:203-248 | an unopenable file gives 1 and leaves the class names alone; otherwise 0 and the class names of the file |
| CocoYaml.NoKeyWithoutLateColon | yolocpp/main.cpp:225 | a line whose colons all lie in its first five characters cannot hold the key |
| CocoYaml.TypicalFile | yolocpp/main.cpp:203-248 | the usual layout yields [" person", " bicycle"], with the blank after each colon kept |
| CocoYaml.TypicalSection | yolocpp/main.cpp:221-234 | in the usual layout the section runs from line 2 up to the blank line 4 |
| CocoYaml.UnterminatedSectionYieldsNothing | yolocpp/main.cpp:221-245 | a section that runs to the last line yields no names at all |
| CocoYaml.PersonEntry | yolocpp/main.cpp:242-243 | `  0: person` yields ` person` |
| CocoYaml.BicycleEntry | yolocpp/main.cpp:242-243 | `  1: bicycle` yields ` bicycle` |
| LineCharts.ThemeFallback | qt/dynamic_line_chart.py:42 | the stored theme name is the one asked for when it is known, and "blue" otherwise |
| LineCharts.ThemeNamesRoundTrip | qt/dynamic_line_chart.py:11-43 | every theme is selected by its own name |
| LineCharts.Percent | qt/dynamic_line_chart.py:58 | the value is clamped into [0, 100] and kept when already inside |
| LineCharts.Window | qt/dynamic_line_chart.py:59-62 | the window holds the last min(n, max(max_points, 0)) values |
| LineCharts.Capacity | qt/dynamic_line_chart.py:61-62 | the most values the list keeps after a pop is max_points when that is positive and 0 otherwise, never less than max_points |
| LineCharts.DynamicLineChart.constructor | qt/dynamic_line_chart.py:7-52 | the theme falls back to blue, the list is empty and the value is 0 |
| LineCharts.DynamicLineChart.AddDataPoint | qt/dynamic_line_chart.py:57-65 | the clamped value is appended; the oldest is dropped once the list exceeds max_points; the list stays the window of the values added, and the current value is the clamped one |
| LineCharts.DynamicLineChart.ClearData | qt/dynamic_line_chart.py:67-70 | the list is emptied and the value becomes 0 |
| LineCharts.WindowSnoc | qt/dynamic_line_chart.py:59-62 | one append followed by at most one pop(0) moves the window by one value |
| LineCharts.PointsBounded | qt/dynamic_line_chart.py:57-62 | the list never holds more than max_points values, and each is a percentage |
| CircularButtons.Palette | qt/circular_button.py:100-101 | a name gets the blue colours exactly when it is not green, pink or purple |
| CircularButtons.NextOffset | qt/circular_button.py:50-53 | an offset in [0, 35] stays there, and wraps to 0 exactly from 35 |
| CircularButtons.ModSucc | qt/circular_button.py:50-53 | the successor modulo 36 wraps from 35 to 0 and otherwise adds one |
| CircularButtons.OffsetCycles | qt/circular_button.py:43-53 | the wave offset after n frames is n mod 36 and stays in [0, 35] |
| CircularButtons.WaveEffect.constructor | qt/circular_button.py:44-48 | the wave starts at offset 0 |
| CircularButtons.WaveEffect.Update | qt/circular_button.py:50-53 | the offset grows by 1 and wraps to 0 past the wavelength |
| CircularButtons.Percent | qt/circular_button.py:138 | the value is clamped into [0, 100] |
| CircularButtons.StepInterval | qt/circular_button.py:129-130 | the timer period is the floor of duration/100 |
| CircularButtons.CircularButton.constructor | qt/circular_button.py:78-98 | not hovered, not pressed, progress 0, idle, no timer, the palette of the theme |
| CircularButtons.CircularButton.UpdateWave | qt/circular_button.py:115-117 | one wave frame |
| CircularButtons.CircularButton.StartProgress | qt/circular_button.py:119-122 | the operation runs from 0 and the timers are untouched |
| CircularButtons.CircularButton.StartAutoProgress | qt/circular_button.py:124-134 | a new timer with period duration // 100 is held and starts firing, and a timer held before keeps firing unheld |
| CircularButtons.CircularButton.StartAutoProgressStoppingPrevious | qt/circular_button.py:124-134 | with the held timer stopped first, only the new timer fires, and every firing timer stays held |
| CircularButtons.CircularButton.SetProgressValue | qt/circular_button.py:136-142 | ignored when idle; otherwise the clamped value is shown, and reaching 100 ends the operation and shows 0 |
| CircularButtons.CircularButton.AutoProgressStep | qt/circular_button.py:144-151 | a tick adds one percent; at 100 it stops and drops the held timer and ends the operation; the tick fails exactly when no timer is held at that point, and a failing tick leaves the run flag, the held timer and the live timers as they were (so the orphan fails again on its next tick); it cannot fail while every firing timer is held |
| CircularButtons.CircularButton.FinishProgress | qt/circular_button.py:153-157 | the held timer is stopped and dropped, and the operation ends with the display back at 0; hover, press and the timer counter are unchanged |
| CircularButtons.CircularButton.SetHovered | qt/circular_button.py:289-297 | enter and leave set the hover flag and nothing else: the held timer, the live timers and the timer counter are unchanged, and validity is kept |
| CircularButtons.CircularButton.MousePress | qt/circular_button.py:299-303 | a left press arms the click; the held timer, the live timers and the timer counter are unchanged, and validity is kept |
| CircularButtons.CircularButton.MouseRelease | qt/circular_button.py:305-309 | a click is emitted exactly on a left release after a left press, and it disarms; the held timer, the live timers and the timer counter are unchanged, and validity is kept |
| CircularButtons.PressReleaseRelease | qt/circular_button.py:299-309 | one press and two releases click once |
| CircularButtons.HoverDuringAutoProgress | qt/circular_button.py:289-309 | hovering, pressing and releasing during an automatic run leave its held timer able to tick without failure |
| CircularButtons.DoubleAutoStartFails | qt/circular_button.py:124-151 | two automatic starts in a row end in a failing tick of the orphaned timer |
| CarGauges.ThemeFallback | qt/car_gauge.py:51 | the stored theme name is the one asked for when it is known, and "classic" otherwise |
| CarGauges.Clamp | qt/car_gauge.py:66 | max(min, min(max, v)) lies in the range when the range is the right way round, and is the minimum when it is not |
| CarGauges.Eased | qt/car_gauge.py:72-78 | a tick never overshoots: the needle ends between where it was and the target |
| CarGauges.EasedMovesToward | qt/car_gauge.py:72-78 | a tick either snaps to the target or leaves nine tenths of the distance |
| CarGauges.DistanceShrinks | qt/car_gauge.py:72-78 | after n ticks the needle is on target or the distance has shrunk by a factor of at least 1 + n/9 |
| CarGauges.TickShrinks | qt/car_gauge.py:72-78 | one more tick keeps the bound: on target, or the distance times 1 + (k+1)/9 is at most the starting distance |
| CarGauges.NeedleSettles | qt/car_gauge.py:72-78 | the animation ends: after 90·distance + 1 ticks the needle is on target |
| CarGauges.CarGauge.constructor | qt/car_gauge.py:8-63 | the theme falls back to classic, the needle and target start at the minimum, and the timer is idle |
| CarGauges.CarGauge.SetValue | qt/car_gauge.py:65-70 | the target becomes the clamped value, and the timer runs and is started only when idle |
| CarGauges.CarGauge.AnimateNeedle | qt/car_gauge.py:72-80 | the needle eases toward the target, snapping and stopping the timer within 0.1; it stays on the dial |
| CarGauges.CarGauge.NeedleAngle | qt/car_gauge.py:164-169 | the angle lies in [-150, 150]: -150 at the minimum or on an empty range, and 150 at the maximum |
| CarGauges.NeedleAngleMonotone | qt/car_gauge.py:164-169 | a higher needle value never gives a smaller angle |

## Left out

- OpenGL buffers, drawing and the async mesh task are left out. Chunk.update's GL calls and Chunk.render are not modelled. A rebuild runs to completion at once, so the model has no concurrency.
- Camera, Frustum and Shader are not part of this model, and neither is the engine's main loop in mc/src/main.cpp.
- Terrain height: the conversion of the fbm value to a column height (a double, then an int) is not modelled. ChunkMesh.Chunk.GenerateTerrain takes the height field as a function parameter and models only the clamp and the column profile.
- The default_random_engine shuffle: Perlin.PerlinNoise.constructor takes the swap choices as an oracle sequence. It proves the permutation property whatever the choices.
- Perlin.FbmInRange assumes that the noise lies in [-1, 1]. The range of improved noise itself is not proved.
- Perlin.Noise: only the bound [-2, 2] is proved. The header of mc/src/Math/PerlinNoise.hpp promises -1.0 to 1.0, which needs the geometry of the twelve gradient directions and is not proved here.
- Raycasting.Cast requires every direction component to be non-zero. The source divides by zero there and relies on IEEE infinities.
- PlayerPhysics.Player.HandleSurvivalMovement takes the normalised horizontal walk direction as a parameter. The `glm::normalize` of the camera vectors and of the input sum is not modelled, because it needs square roots.
- Console output in toggleMode is left out.
- The greedy merge can join a front face and a back face of the same type into one quad. The model keeps that behaviour, but proves nothing about face orientation.
- The sandbox's window, key and mouse input, drawing and frame timer are left out. Only place_pixels and the physics step are modelled. Sandbox.Random takes an oracle draw, used as it is when it lies in [lo, hi] and replaced by lo otherwise, so there is no distribution.
- ThreadSafeArena and MutexLock are left out. Their locking does nothing in a single-threaded model.
- Arenas.Arena.Allocate: the contract is stated weaker than the source in two ways:
  - `used_bytes_` and the bump pointer are unbounded integers, so a size_t wrap is not modelled;
  - the alignment must be a power of two and a fresh block must hold the request. The source only asserts both.
- Arenas.Arena.Moved models a moved-from `std::vector` as empty.
- The unique_ptr pointer-type helpers, `operator*`, `operator->`, `get_deleter` and the array `operator[]` are left out. The element type and the deleter type exist only at compile time, except for the deleter's identity, which the model keeps.
- CocoYaml.ReadCocoYaml receives the file as its lines. Splitting by getline and the file system are not modelled. The YOLO inference, OpenCV and the rest of yolocpp/main.cpp are not part of this model.
- Qt painting, fonts, the repaint timers and the window geometry are left out of all three widgets. The line chart's update_animation and the button's set_initial_text only schedule repaints.
- CircularButtons.CircularButton.StartAutoProgress: a negative period starts no timer, which is an assumption about QTimer.
- CarGauges: the dial's scale drawing is left out. Values are reals, not Python floats.
- The Python default arguments are not modelled as defaults: the theme, max_points and label of DynamicLineChart, the theme of CircularButton, the theme, minimum and maximum of CarGauge, and duration_ms = 3000 of start_auto_progress. Every model operation takes these values explicitly, so a call with the defaults is the call with those values.

## Findings

| source | as written | input that shows it | evidently intended | confidence | as-written member | corrected member |
|---|---|---|---|---|---|---|
| mc/src/World/Chunk.cpp:141-143 | the back-face test guards the index `rx + dx[0] >= 0`, which is the x component only, whatever the sweep axis | the y sweep: slice -1 yields a quad at x = (0, 0, 0), so the test reads `blocks[0][-1][0]`, outside the chunk; every generated chunk emits such a quad | guard the component on the sweep axis and read air outside the chunk | not executed | ChunkMesh.BackIndexAsWrittenLeavesChunk | ChunkMesh.BackCell |
| mc/src/World/World.cpp:5-7 | `addChunk` replaces the chunk's unique_ptr and does not touch the lookup cache | getBlock at a cell of chunk (0, 0), then addChunk(0, 0) again: the cache still points at the destroyed chunk, and the next getBlock in that chunk reads freed memory | drop the cache entry when the cached chunk is replaced | not executed | Worlds.World.AddChunkAsWritten | Worlds.World.AddChunk |
| qt/circular_button.py:124-151 | start_auto_progress overwrites `_auto_progress_timer` without stopping the timer it held | start_auto_progress() twice: the second timer reaches 100 and is dropped, and the orphaned first timer's next tick calls `.stop()` on None, which raises AttributeError | stop the held timer before making a new one, as finish_progress does | not executed | CircularButtons.DoubleAutoStartFails | CircularButtons.CircularButton.StartAutoProgressStoppingPrevious |
