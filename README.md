# PMTree2D in Dafny

A model of the procedural 2D tree of `PMTree2D/PMTree2D.cpp`. The model covers:

- the silhouette function `shapeRatio`;
- a branch node (`TreeNode`): its constructor and its in-place randomisation `generateRandom`;
- the tree (`PMTree2D`):
  - its breadth-first random build;
  - the depth-first geometry walk that emits one quad per segment and an "underground" flag;
  - the depth-first walk that records a local image and a parameter vector per branch;
  - the breadth-first serialisation `to_string`.

The model keeps the source's imperative form:

- `TreeNode` and `PMTree2D` are classes whose methods update fields in place.
- The tree's node set is the ghost footprint `Repr`.
- Each traversal is a method with the source's loop.

Each method is proved against a specification function:

- `Emit` for geometry;
- `Visits`, `Images` and `Vectors` for training data;
- `LevelOrder` and `Stream` for serialisation;
- `Randomize` for a node's randomisation.

The properties the source promises are proved as lemmas about those functions.

## Modules

| file | module | contents |
|---|---|---|
| `shape.dfy` | `Shape` | `ShapeRatio` and its bounds, continuity and monotonicity |
| `transform.dfy` | `Transforms` | transforms as terms (`Identity`, `Rotate`, `Translate`), points, quads, warped images, `Radians` |
| `node.dfy` | `Nodes` | `Config` (NUM_SEGMENTS, NUM_LEVELS), parameters, draws, `Randomize`, class `TreeNode` |
| `hierarchy.dfy` | `Hierarchy` | well-formedness of a node set, completeness, rootedness, the nodes of a subtree (`Sub`) and its size, the depth-first order `Reached` |
| `layout.dfy` | `Layout` | the per-node field layout of `to_string` and of the training vectors, and its decoding |
| `geometry.dfy` | `Geometry` | transforms per segment, tapering widths, the quads a branch draws (`Emit`), the underground test |
| `training.dfy` | `Training` | the calls of the training walk (`Visits`) and what they record |
| `serial.dfy` | `Serial` | the breadth-first order `LevelOrder` and the field stream `Stream` |
| `tree.dfy` | `Trees` | class `PMTree2D` and the imperative build, drawing, training and serialisation |

## Behaviour of the source worth noting

- **Every interior boundary gets a child.** `generateRandom` (`PMTree2D.cpp:140-147`) creates a child at every interior boundary of a node below the last level, whatever its mark. It randomises only the children whose mark is 1; the others keep the constructor's defaults and are never drawn. `Trees.Expand` and `Trees.Drawn` state this.
- **The underground flag covers the root branch only.** `generateGeometry` drops the value its recursive call returns (`PMTree2D.cpp:205-207`). The flag therefore covers only the trailing corners of the root branch's own segments (`Geometry.OwnUnderground`).
- **Curvatures and angles are normalised differently.** `to_string` writes the three angles as `(x + 90) / 180` (`PMTree2D.cpp:301`) but each `curvesV` entry as `(x + 5) / 10` (`PMTree2D.cpp:303`). These are `Layout.NormalizeAngle` and `Layout.NormalizeCurvature`.
- **The training walk never applies the down angle.** `generateLocalTrainingData` starts each call from the transform it is given (`PMTree2D.cpp:228`). `generateGeometry` first rotates by the branch's `downAngle` (`PMTree2D.cpp:171`). The training transforms therefore differ from the drawing's whenever a down angle is nonzero. The two walks do visit the same branches in the same order (`Training.VisitsFollowReached`).

## Model

| member | source | states |
|---|---|---|
| Shape.ShapeRatio | PMTree2D/PMTree2D.cpp:22-60 | shape 3 is always 1 and ids outside 0..7 give 0; on a ratio in [0, 1] shapes 0 and 6 stay in [0.2, 1], shape 4 and 7 in [0.5, 1], shape 5 in [0, 1]; shapes 1 and 2 stay in [0.2, 1] whenever the sine they use is in [0, 1] |
| Shape.ShapeRatioIgnoresSine | PMTree2D/PMTree2D.cpp:22-60 | only shapes 1 and 2 depend on `sinf` |
| Shape.PeakAtSevenTenths | PMTree2D/PMTree2D.cpp:38-56 | both pieces of shapes 5 and 7 meet at ratio 0.7 with value 1, so the silhouettes are continuous |
| Shape.RiseThenFall | PMTree2D/PMTree2D.cpp:38-56 | shapes 5 and 7 are non-decreasing up to 0.7, non-increasing after it, and peak at 0.7 |
| Shape.LinearShapesMonotone | PMTree2D/PMTree2D.cpp:22-48 | shapes 0 and 4 grow with the ratio, shape 6 shrinks |
| Transforms.Radians | PMTree2D/PMTree2D.cpp:274 | 180 degrees is the source's pi, and the conversion keeps the sign |
| Nodes.Attenuation | PMTree2D/PMTree2D.cpp:87-95 | the trunk's attenuation factor is exactly 1 |
| Nodes.FreshParams | PMTree2D/PMTree2D.cpp:67-79 | a fresh node is shaped: all five scalars 0, and one zero curvature and one zero mark per interior boundary |
| Nodes.InRootZone | PMTree2D/PMTree2D.cpp:112 | the test `k < segments * baseFactor`: no boundary is in the root zone without a base factor, every boundary is with a base factor of 1 or more |
| Nodes.Randomize | PMTree2D/PMTree2D.cpp:82-115 | field by field: base factor drawn only at level 0, down angle drawn only below it, curves and `curvesV` always drawn, branching drawn below the last level and zeroed inside the root zone, and kept on the last level; the shape is preserved |
| Nodes.RootZoneBranchFree | PMTree2D/PMTree2D.cpp:106-113 | below the last level no boundary `k < segments * baseFactor` is marked |
| Nodes.NoRootZoneBelowRoot | PMTree2D/PMTree2D.cpp:83-112 | a non-root node randomised from fresh defaults has no root zone |
| Nodes.TreeNode.constructor | PMTree2D/PMTree2D.cpp:62-80 | links parent, level and index; all scalars 0, `segments - 1` zero curvatures and marks, no children |
| Nodes.TreeNode.GenerateRandom | PMTree2D/PMTree2D.cpp:82-115 | the new parameters are `Randomize` of the old ones; children untouched |
| Hierarchy.RootAlone | PMTree2D/PMTree2D.cpp:127-150 | with at most one level a rooted well-formed tree is its root alone |
| Hierarchy.NonRootLevel | PMTree2D/PMTree2D.cpp:139-141 | every node but the root sits on a level from 1 to the last |
| Hierarchy.PendingStep | PMTree2D/PMTree2D.cpp:135-147 | taking the head off the queue and queueing its children lowers the queued subtree size (by exactly one for a built node), so both queue loops end |
| Hierarchy.ReachedInSubtree | PMTree2D/PMTree2D.cpp:205-207 | the depth-first walk from `n` starts at `n` and visits only tree nodes at `n`'s level or deeper |
| Hierarchy.LeafReachedAlone | PMTree2D/PMTree2D.cpp:205-207 | a node with no boundary marked 1 is visited alone |
| Layout.Marks | PMTree2D/PMTree2D.cpp:257-259 | one number per mark, from which the mark is read back exactly |
| Layout.NormalizeAngle | PMTree2D/PMTree2D.cpp:301 | maps exactly the angles in [-90, 90] into [0, 1] |
| Layout.NormalizeCurvature | PMTree2D/PMTree2D.cpp:303 | maps exactly the curvatures in [-5, 5] into [0, 1] |
| Layout.Vector | PMTree2D/PMTree2D.cpp:248-259 | a node's training vector has one entry per scalar, per curvature and per mark |
| Layout.Fields | PMTree2D/PMTree2D.cpp:301-307 | a node's serialised fields have one entry per scalar, per curvature and per mark; each angle field is in [0, 1] exactly when the angle is in [-90, 90], and each curvature field exactly when the curvature is in [-5, 5] |
| Layout.FieldsNormalizeVector | PMTree2D/PMTree2D.cpp:248-259 | a node's serialised fields and its training vector both have `5 + 2 * (segments - 1)` entries, and each field is the vector entry at that position, normalised by position |
| Layout.Decode | PMTree2D/PMTree2D.cpp:301-307 | reading a block of fields back yields correctly shaped parameters |
| Layout.DecodeFields | PMTree2D/PMTree2D.cpp:301-307 | decoding a node's serialised fields gives back its parameters exactly (round trip) |
| Geometry.Bend | PMTree2D/PMTree2D.cpp:209-214 | a branch whose two curls agree bends by the same curl plus its jitter at every boundary, and a branch without curls or jitter does not bend |
| Geometry.Width | PMTree2D/PMTree2D.cpp:180-181 | along the branch the width stays between 0 and the base width |
| Geometry.LinearTaper | PMTree2D/PMTree2D.cpp:180-181 | the width is full at the base, zero at the tip, and drops by `width / segments` per segment |
| Geometry.SegmentQuad | PMTree2D/PMTree2D.cpp:173-197 | the first polygon starts at the base with the full width; every polygon ends one segment length along its transform, its trailing corners mirror each other across the branch axis |
| Geometry.QuadsShareEdges | PMTree2D/PMTree2D.cpp:196-197 | each polygon starts at the previous polygon's trailing corners, so the drawn branch has no gaps |
| Geometry.Emit | PMTree2D/PMTree2D.cpp:166-218 | the drawing of a branch holds at least its own `segments` polygons |
| Geometry.EmitFrom | PMTree2D/PMTree2D.cpp:179-214 | the drawing from segment k on holds at least the branch's own remaining segments |
| Geometry.AssembledEmit | PMTree2D/PMTree2D.cpp:178-214 | drawing the segments one by one, each followed by its branch, gives the emission order of `Emit` |
| Geometry.BelowBeforeExists | PMTree2D/PMTree2D.cpp:179-187 | the flag set segment by segment is true exactly when some segment of the branch has a trailing corner below ground |
| Geometry.EmitCount | PMTree2D/PMTree2D.cpp:166-218 | the walk emits exactly `segments` polygons for every branch it reaches |
| Geometry.EmitEndsAtTip | PMTree2D/PMTree2D.cpp:198-201 | a branch's polygons from segment k on start with segment k's and end with the tip segment's |
| Geometry.TipHasNoWidth | PMTree2D/PMTree2D.cpp:181-183 | the tip segment tapers to a point |
| Geometry.LeafEmit | PMTree2D/PMTree2D.cpp:178-214 | a branch with no boundary marked 1 emits exactly its `segments` quads, in order |
| Training.Visits | PMTree2D/PMTree2D.cpp:224-281 | the walk from a node begins with that node's own call, at the transform and length it was given |
| Training.VisitsFollowReached | PMTree2D/PMTree2D.cpp:263-271 | the training walk visits exactly the branches the geometry walk draws, in the same depth-first order, from any transform and length |
| Training.TrainingMatchesDrawing | PMTree2D/PMTree2D.cpp:166-281 | images and parameter vectors are recorded in lockstep, one pair per branch the drawing reaches, and the drawing holds `segments` polygons per pair |
| Training.VisitsHoldParameters | PMTree2D/PMTree2D.cpp:247-260 | every call records the parameters its node holds |
| Training.VectorsMatchFields | PMTree2D/PMTree2D.cpp:247-260 | every recorded vector has the per-node serialised layout, each entry being its serialised field before normalisation |
| Training.GatheredImages | PMTree2D/PMTree2D.cpp:262-280 | appending the node's image and then each boundary's images yields the images of all the calls from that node |
| Training.GatheredVectors | PMTree2D/PMTree2D.cpp:262-280 | the same for the parameter vectors |
| Serial.LevelOrderCount | PMTree2D/PMTree2D.cpp:287-312 | on a completely built tree the walk pops as many nodes as the queued complete subtrees hold |
| Serial.LevelOrder | PMTree2D/PMTree2D.cpp:287-312 | the walk starts with the head of the queue and pops only tree nodes |
| Serial.LevelOrderEachOnce | PMTree2D/PMTree2D.cpp:287-312 | in a rooted, well-formed tree the walk from the root pops every node of the tree exactly once and nothing else |
| Serial.BuiltTreeSize | PMTree2D/PMTree2D.cpp:127-150 | a tree the build completed has exactly the nodes of a complete subtree from level 0, and `to_string` writes `Stride` fields per node |
| Serial.LevelOrderLayered | PMTree2D/PMTree2D.cpp:287-312 | from a queue spanning one level, nodes come out in non-decreasing level order, level by level |
| Serial.StreamSize | PMTree2D/PMTree2D.cpp:283-315 | a completely built tree is written as `5 + 2 * (segments - 1)` fields for each node of a complete subtree |
| Serial.StreamLength | PMTree2D/PMTree2D.cpp:301-307 | each node contributes exactly one block of `Stride` fields |
| Serial.StreamBlock | PMTree2D/PMTree2D.cpp:301-307 | block i of the stream is node i's fields and decodes to node i's parameters |
| Serial.StreamInjective | PMTree2D/PMTree2D.cpp:283-315 | different parameter sequences are written as different streams: the serialisation loses nothing |
| Trees.Expand | PMTree2D/PMTree2D.cpp:140-147 | the node gets `segments - 1` distinct fresh children in boundary order, each linked back at its index one level down and drawn as its mark says |
| Trees.KidsJoin | PMTree2D/PMTree2D.cpp:140-147 | after expansion the node and each new child are linked, and the node is built and covered |
| Trees.BuiltStart | PMTree2D/PMTree2D.cpp:128-132 | a lone root randomised with the first draw, queued alone, starts the build |
| Trees.StepBuilt | PMTree2D/PMTree2D.cpp:136-147 | expanding the head keeps the build state with the rest of the queue followed by the new children, and the queue measure drops |
| Trees.BuiltDone | PMTree2D/PMTree2D.cpp:135-150 | with the queue empty the tree is rooted, well formed and complete, the root holds the first draw's parameters and every child holds the parameters its mark gives it |
| Trees.SourceTree | PMTree2D/PMTree2D.cpp:11-12 | with 30 segments and one level a built tree is its root alone, drawn as 30 quads and written as 63 fields |
| Trees.ParameterVector | PMTree2D/PMTree2D.cpp:248-259 | the two loops build the node's training vector |
| Trees.WriteStep | PMTree2D/PMTree2D.cpp:291-311 | one turn of the `to_string` loop appends the head's fields and queues all of its children |
| Trees.PMTree2D.constructor | PMTree2D/PMTree2D.cpp:123-125 | a valid tree holding one fresh root |
| Trees.PMTree2D.GenerateRandom | PMTree2D/PMTree2D.cpp:127-150 | the new tree is fresh, valid and complete; the root is randomised with the first draw and every child holds the parameters its mark gives it |
| Trees.PMTree2D.Grow | PMTree2D/PMTree2D.cpp:135-148 | the queue loop ends with an empty queue and a built tree, and every node it adds is new |
| Trees.PMTree2D.Step | PMTree2D/PMTree2D.cpp:136-147 | one queue turn keeps the build state, queues the head's children after the rest and lowers the queue measure |
| Trees.PMTree2D.LastLevelStep | PMTree2D/PMTree2D.cpp:136-139 | a last-level node leaves the queue without children |
| Trees.PMTree2D.GenerateGeometry | PMTree2D/PMTree2D.cpp:152-164 | the polygons are `Emit` of the whole tree from the identity with length and width 0.3; the flag is the root branch's own underground test |
| Trees.PMTree2D.GenerateGeometryAt | PMTree2D/PMTree2D.cpp:166-218 | appends exactly `Emit` of the node's subtree and returns whether one of the node's own segments dips below ground |
| Trees.PMTree2D.GeometryTurn | PMTree2D/PMTree2D.cpp:180-214 | one segment turn: the next polygons, trailing edge, transform and flag are those of segment k + 1's prefix |
| Trees.PMTree2D.GenerateBranch | PMTree2D/PMTree2D.cpp:203-207 | appends child k's drawing when the mark is 1 and nothing otherwise |
| Trees.PMTree2D.GenerateLocalTrainingData | PMTree2D/PMTree2D.cpp:220-222 | appends one image and one parameter vector per branch of the walk from the root, with the identity and length 0.3 |
| Trees.PMTree2D.GenerateLocalTrainingDataAt | PMTree2D/PMTree2D.cpp:224-281 | appends the images and vectors of every call of the walk from the node, in call order |
| Trees.PMTree2D.LocalTrainingTurn | PMTree2D/PMTree2D.cpp:263-279 | one boundary turn appends that boundary's calls and moves to the next segment's transform |
| Trees.PMTree2D.ToString | PMTree2D/PMTree2D.cpp:283-315 | the fields written are the stream of the breadth-first order from the root, each node one decodable block |

## Left out

- Output that the source sends elsewhere is not modelled:
  - the image files written by `cv::imwrite` (`PMTree2D.cpp:225`, `:245`);
  - the render manager call `addObject` (`:161`). `GenerateGeometry` returns the polygons instead.
- Matrix and image arithmetic is not modelled. This covers `glm`, the camera projection, `asinf`, `getRotationMatrix2D` and `warpAffine` (`:231-242`).
  - A transform is the term of operations that built it.
  - A point is a local coordinate pair under a transform.
  - A local image is known only by the transform it is warped at.
  - The ground test `p.y < 0` needs coordinates, so it is a caller-supplied predicate `below`.
- `glutils::drawPolygon` (`:189-194`) is not modelled at the vertex level. The source narrows the four corners to 3-vectors and appends them as `Vertex` records with the fill colour `vec4(0, 0, 0, 1)` to a vertex list. The model appends one `Quad` of four corner points per segment instead, so neither the vertex layout nor the colour is modelled.
- Single-precision floats are modelled as reals. `M_PI` is the source's constant 3.1415926535, and `sinf` is a parameter.
- `utils::uniform` is not modelled. The draws are a parameter consumed in call order, and their ranges are not constrained; in particular, a branching draw may be any integer.
- `to_string` returns the number sequence it prints. The decimal text and the commas are not modelled.
- `TreeNode::to_string` (`:117-121`) is not modelled. It is a debug label of level and index that nothing in the core reads.
- `shared_ptr` ownership and reference counts are not modelled. The dropped old tree is not modelled either; the new tree is `fresh`.
- Trees.PMTree2D.GenerateRandom: states that every child marked 1 was randomised with some draw. It does not state which draw, that is, the child's position in call order.
- Nodes.Randomize: requires a level-1 base factor other than 1. For a base factor of 1 the source divides by zero and gets an infinity. Level-1 nodes always hold 0, so the build never reaches that case.
- Trees.PMTree2D.ToString: requires the tree to be well formed (children linked back, levels bounded). That is what every build leaves, and it makes the queue loop terminate.
