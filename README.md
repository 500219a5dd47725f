# Arena entities: dome lattice, player movement, ground

This project models three entities of a browser physics arena.

- **Dome wall.** The wall builds its collision shape as a convex polyhedron. The shape is a lattice of `s + 1` latitude rings by `s + 1` longitude divisions, with two triangles per lattice cell. The model keeps the integer bookkeeping of that construction: the row-major numbering of vertices, the four corners of each cell, and the two faces per cell. Each vertex is represented by its lattice pair `(ring, division)` instead of its coordinates. The segment count `s` is a parameter.
- **Player.** The player is a box mesh driven by a dynamic body.
  - Five keyboard flags are set by keydown and cleared by keyup.
  - A velocity rule reads the flags. On the x axis A beats D, on the z axis W beats S, and Space sets the jump speed.
  - Each frame the player copies the body's transform into the mesh, recomputes the six sides of its box around the mesh position, and then steers the body.
- **Ground.** The ground is a cylindrical slab on a static body. Each frame it copies the body's transform into the mesh and recomputes its top and bottom.

The modules follow the source files:

- `Physics` (physics.dfy) holds the shared values: vectors, quaternions, centred spans and the physics body.
- `Wall` (wall.dfy) models `src/classes/wall.ts`.
- `PlayerMovement` (player.dfy) models `src/classes/player.ts`.
- `GroundSlab` (ground.dfy) models `src/classes/ground.ts`.

Positions and extents are exact reals. Quaternions are only ever copied.

The player and the ground are classes whose methods say, in their `modifies` frames, exactly which fields they write. Their sizes (`width`, `height`, `depth`, `radius`) and the ground's `color` are `const` fields. The source assigns them once, in the constructor, so "no method changes them" holds by construction.

Facts about the code that shape the model:

- `Wall.createBody` reads `settings.wall.segmentCount`, but the settings object has no `wall` entry. As written, `src/classes/wall.ts:34` therefore throws a `TypeError`, and the loops at lines 39-60 never run. The model describes `createBody` for a segment count supplied by the caller.
- `createBody` never checks `segmentCount >= 1`. The integer bookkeeping is total, so the model has no precondition. With `s = 0` it yields one vertex and no faces.
- The player's speed 3 and jump speed 10 are the constants of `player.ts`. The settings values (speed 1) are never read there.
- `player.ts` has no ground probe, and `settings.player.jumpRaycastRange` is never read. Space always sets the y velocity (`JumpAfterSpace`).
- Distinct lattice pairs are not always distinct points. Ring 0 has latitude angle 0, so all its divisions are the pole (0, 0, r). Division s has longitude angle 2π, so it repeats division 0 up to rounding. The first triangle of every ring-0 cell thus has two coincident corners. `VerticesDistinctInRange` and `FaceCorners` speak of lattice pairs only.

## Model

| member | source | states |
|---|---|---|
| Wall.CreateBody | src/classes/wall.ts:32-60 | The two loop nests build exactly the row-major lattice `DomeVertices(s)`, with (s+1)² entries, and the face list `DomeFaces(s)`, with 2·s² faces. |
| Wall.VertexAtIndex | src/classes/wall.ts:39-48 | Ring i, division j (0 ≤ i, j ≤ s) is the vertex at index i·(s+1)+j, and that index is in range. |
| Wall.VerticesDistinctInRange | src/classes/wall.ts:39-48 | Every vertex is a lattice pair with ring and division at most s, and no pair occurs twice. |
| Wall.VertexOrder | src/classes/wall.ts:39-48 | Vertex indices compare as their (ring, division) pairs do lexicographically, in both directions. |
| Wall.CornerIndices | src/classes/wall.ts:53-56 | For cell (i, j): v2 = v1+1, v3 = v1+(s+1) and v4 = v3+1. |
| Wall.CellFaces | src/classes/wall.ts:51-60 | Faces 2·(i·s+j) and 2·(i·s+j)+1 exist and are [v1, v2, v4] and [v1, v3, v4] for cell (i, j). |
| Wall.CellDiagonalShared | src/classes/wall.ts:57-58 | The two triangles of a cell share the diagonal v1–v4 and differ in their middle corner. |
| Wall.CellWinding | src/classes/wall.ts:57-58 | Both triangles of a cell traverse the shared diagonal as v4 → v1, and neither as v1 → v4, so the two triangles are wound in opposite directions. |
| Wall.FaceIndices | src/classes/wall.ts:53-58 | Every face f belongs to an in-range cell (i, j). Its indices are v1, then v1+1 or v1+s+1, then v1+s+2, depending on whether f is even or odd. |
| Wall.FacesValid | src/classes/wall.ts:51-67 | Every face has three indices, and each index is below the vertex count (s+1)². This is the precondition of a well-formed convex polyhedron. |
| Wall.MaxFaceIndex | src/classes/wall.ts:53-56 | For s ≥ 1, no face index exceeds v4 of the last cell, and that index is (s+1)²−1. |
| Wall.FaceCorners | src/classes/wall.ts:51-58 | Looked up in the vertex list, face f names its cell's corners: (i,j), (i,j+1), (i+1,j+1) for the first triangle and (i,j), (i+1,j), (i+1,j+1) for the second. |
| Wall.FaceOrder | src/classes/wall.ts:51-52 | Faces are emitted by cell row i, then by cell column j. Cell positions compare lexicographically, in both directions. |
| PlayerMovement.KeyDown | src/classes/player.ts:136-154 | A recognised code (KeyA/KeyD/KeyW/KeyS/Space) sets exactly its action's flag. Every other flag is unchanged, and an unrecognised code changes nothing. |
| PlayerMovement.KeyUp | src/classes/player.ts:156-174 | A recognised code clears exactly its action's flag. Every other flag is unchanged, and an unrecognised code changes nothing. |
| PlayerMovement.ReleaseAfterPress | src/classes/player.ts:136-174 | Keyup after keydown of the same code gives the same flags as the keyup alone. |
| PlayerMovement.KeyEventsIdempotent | src/classes/player.ts:136-174 | A repeated keydown, or a repeated keyup, of one code has no further effect. |
| PlayerMovement.KeyEventsCommute | src/classes/player.ts:136-174 | For codes bound to different actions, or to no action, a keyup and a keydown commute, and so do two keydowns and two keyups. |
| PlayerMovement.SameActionEventsClash | src/classes/player.ts:136-174 | The converse: for two codes of the same action, keydown after keyup differs from keyup after keydown, so the keyup/keydown pair commutes exactly when the codes are not bound to one and the same action. |
| PlayerMovement.PressesCommute | src/classes/player.ts:136-174 | Two keydowns commute, and so do two keyups, for any two codes. |
| PlayerMovement.Steer | src/classes/player.ts:114-128 | x velocity: A pressed gives −3 whatever D is, otherwise D gives +3, otherwise unchanged. z velocity: the same with W over S. y velocity: Space gives 10, otherwise unchanged. |
| PlayerMovement.SteerPriorities | src/classes/player.ts:114-124 | While A is held, toggling D does not change the x velocity; while W is held, toggling S does not change the z velocity. |
| PlayerMovement.SteerReleased | src/classes/player.ts:114-128 | With no key pressed, the velocity is unchanged. |
| PlayerMovement.SteerIdempotent | src/classes/player.ts:114-128 | Applying the rule twice with the same flags gives the same velocity as once. |
| PlayerMovement.JumpAfterSpace | src/classes/player.ts:126-128 | After a Space keydown the y velocity is the jump speed, with no ground check. |
| PlayerMovement.ReleaseLeftWhileRight | src/classes/player.ts:114-118 | With D held, pressing A gives −3, and releasing A again gives +3. |
| PlayerMovement.BoxAround | src/classes/player.ts:99-106 | The box around a centre has right−left = width, top−bottom = height and back−front = depth, and it is centred on the given point on each axis. |
| PlayerMovement.Player.constructor | src/classes/player.ts:52-91 | The mesh starts at the given position with identity orientation, and the six sides fit around it. The body is fresh: dynamic, mass 1, a box of half extents (w/2, h/2, d/2), at the same position. All five flags start unpressed, and the displacement `velocity` defaults to zero. |
| PlayerMovement.Player.Update | src/classes/player.ts:93-97 | Runs sync, then sides, then velocity. The mesh position equals the pre-update body position, and the sides are the box around it. The body's velocity follows `Steer`, and its position moves by `velocity`, so with the zero default the body stays where the mesh now is. |
| PlayerMovement.Player.UpdateSides | src/classes/player.ts:99-106 | Writes only the six sides, and afterwards they are the box of the player's size around the mesh position. |
| PlayerMovement.Player.UpdateCollision | src/classes/player.ts:108-111 | The mesh position and orientation equal the body's, and the body is untouched. An already-synchronised player is left unchanged, which makes the sync idempotent. |
| PlayerMovement.Player.UpdateVelocity | src/classes/player.ts:113-133 | The body velocity becomes `Steer(keys, old velocity)`, and the body position moves by `velocity` componentwise. |
| PlayerMovement.Player.OnKeyDown | src/classes/player.ts:136-154 | The flags become `KeyDown(old flags, code)`, and nothing else changes. |
| PlayerMovement.Player.OnKeyUp | src/classes/player.ts:156-174 | The flags become `KeyUp(old flags, code)`, and nothing else changes. |
| Physics.Centred | src/classes/ground.ts:57-60 | The span around a centre has length `size` and midpoint `centre`, and for a non-negative size it contains the centre. |
| GroundSlab.Ground.constructor | src/classes/ground.ts:22-50 | Radius, height and colour are stored, and the mesh is at the given position. top = y + height/2 and bottom = y − height/2 from the start. The body is fresh: static, mass 0, a 256-segment cylinder of the given radius and height, at the same position. |
| GroundSlab.Ground.Update | src/classes/ground.ts:52-55 | Runs sync, then sides. The mesh equals the body's transform, and the extent is recomputed from the freshly copied body position. |
| GroundSlab.Ground.UpdateSides | src/classes/ground.ts:57-60 | Writes only top and bottom: top = y + height/2 and bottom = y − height/2, so top − bottom = height. |
| GroundSlab.Ground.UpdateCollision | src/classes/ground.ts:62-65 | The mesh position and orientation equal the body's, and the body is untouched. Calling it again with no body change leaves the state unchanged. |

## Left out

- The dome's vertex coordinates are left out: the sine, cosine and radius of `src/classes/wall.ts:33, 40-45` are floating-point trigonometry. The lattice pair stands in for each vertex.
- The convex-polyhedron validation is left out, because it belongs to the physics library. Which way each face's normal points depends on the coordinates, so the model does not say which of the two windings of `CellWinding` faces outward.
- The Euler rotation, the position (0, −1, 0) and `world.addBody` of the dome body are left out, because they are calls into the physics library (`src/classes/wall.ts:63-77`).
- The `Wall` constructor only stores its arguments and calls `createBody`. It stores its `radius` argument but never uses it: the dome's radius comes from the ground settings (`src/classes/wall.ts:21, 33`). It has no state that changes, so it is not modelled as a class.
- Event wiring is left out: the model keeps the bodies of the two listener switches (`OnKeyDown`, `OnKeyUp`) and not the `window.addEventListener` registration.
- The mesh geometry, the player's colour, the material of both meshes and the shadow flags are left out, because they are rendering. The model keeps only the ground's stored `color` field (`src/classes/ground.ts:35`).
- The player's `velocity` is modelled as a value. The source stores the caller's vector object, so a caller that later mutates that object would change the player's displacement; that aliasing is not modelled.
- The physics step, the render loop and the engine (`src/classes/engine.ts`) are not part of this model. Between frames, the body's position, velocity and orientation are whatever the engine left; the model does not constrain them.
- `src/classes/goal.ts` and its asynchronous asset load are not part of this model, and neither is `src/classes/ball.ts`. The ball's sync step is the same as the ground's `UpdateCollision`.
- Floating-point rounding is not modelled: positions and extents are exact reals, so `top − bottom = height` holds exactly.
