# Bounding boxes, BVH construction and OBJ reading of the raytra ray tracer

This project models three core parts of the raytra ray tracer and proves properties of each.

- **Axis-aligned bounding boxes** (`bounding_box.dfy`, module `BoundingBoxes`). This covers:
  - the split-axis cycle X → Y → Z → X;
  - the box class, with six extents, a derived center and a surface index that can be assigned;
  - `combine`, the minimal box enclosing a range of boxes;
  - the per-axis comparator used to sort boxes;
  - the slab-method ray/box test.
- **The bounding volume hierarchy** (`bvh_tree.dfy`, module `BVHTrees`). The builder takes a non-empty range of box references. A single box becomes a leaf. A longer range is ordered by the comparator and split so that the left part holds ⌈n/2⌉ boxes. Both parts are built along the next axis. The node's box is `combine` of the range. `get_depth` is 1 for a leaf and 1 + the larger child depth for an internal node.
- **The OBJ reader** (`obj_parser.dfy`, module `ObjParser`). The reader goes through the lines of a file:
  - empty, blank and `#` lines are skipped;
  - a `v` line appends three coordinates to the vertex buffer;
  - an `f` line appends its three 1-based indices, each less one, to the triangle buffer;
  - any other command is ignored;
  - the reader returns 0.

Coordinates are Dafny `real`s.

- **Comparator direction.** The tests' three outcomes (`tests/test.cc:77-93`) agree with a comparator that is true when the first box's center lies strictly above the second's, and the model defines it that way. Sorting with it leaves centers in non-increasing order along the axis; `BVHTrees.Ordered` and `BVHTrees.BuiltAlong` state that order.
- **Names.** The tests call the axis successor `next_axis`, the comparator `compare_along_axis` and the distance query `get_intersection_point`. The header calls the first two `get_next_direction` and `box_compare_along_dir`. Here they are `NextAxis`, `BoundingBox.Compare` and `BoundingBox.IntersectionDistance`; `BoundingBox.DoesIntersect` is "the distance is non-negative".

The implementation files behind `hw5/bounding_box.h` and `hw5/BVHTree.h` are not part of this model. Their behaviour is modelled from the declarations and from what `tests/test.cc` asserts. The OBJ reader is modelled line by line from `hw7/parser.cc`.

## Model

| member | source | states |
|---|---|---|
| BoundingBoxes.NextAxis | hw5/bounding_box.h:11 | the successor of an axis is a different axis |
| BoundingBoxes.NextAxisCycle | tests/test.cc:71-75 | X→Y, Y→Z, Z→X; applying the successor three times returns the start, and once or twice never does |
| BoundingBoxes.Narrow | hw5/bounding_box.h:26 | the narrowed window holds a distance exactly when the old window and the new slab both hold it |
| BoundingBoxes.BoundingBox.constructor | hw5/bounding_box.h:20-22 | the six extents are the arguments, in x, y, z order and (min, max) within each axis |
| BoundingBoxes.BoundingBox.CenterIsMidpoint | hw5/bounding_box.h:23 | the center is the midpoint of the extents on every axis and lies inside them when min ≤ max |
| BoundingBoxes.BoundingBox.SetSurfaceIndex | hw5/bounding_box.h:24-25 | after setting, get returns the index set; extents and center cannot change |
| BoundingBoxes.BoundingBox.SlabExact | hw5/bounding_box.h:26 | a distance is in an axis's slab, including a parallel-ray or negative-direction slab, exactly when the ray's point there is between that axis's planes |
| BoundingBoxes.BoundingBox.WindowExact | hw5/bounding_box.h:26 | a distance is in the window narrowed by all three slabs exactly when the ray's point there is in the box |
| BoundingBoxes.BoundingBox.IntersectIffReachable | hw5/bounding_box.h:26 | does_intersect holds iff some point of the ray at a non-negative distance is in the box (closed bounds, so zero thickness counts); a hit's distance is such a point; a miss returns a negative distance |
| BoundingBoxes.BoundingBox.IntersectionIsNearest | hw5/bounding_box.h:26 | with the origin outside the box, no non-negative distance below the reported one is in the box |
| BoundingBoxes.BoundingBox.Combine | hw5/bounding_box.h:15-18 | a new box whose min and max on each axis are the least min and greatest max over the non-empty range |
| BoundingBoxes.MinMaxOfBounds | hw5/bounding_box.h:15-18 | the folded min (max) bounds every box's min (max) and is attained by some box |
| BoundingBoxes.MinMaxOfConcat | hw5/bounding_box.h:15-18 | the fold over two concatenated ranges is the min (max) of the two folds |
| BoundingBoxes.HullEncloses | hw5/bounding_box.h:15-18 | the combined box encloses every box of the range |
| BoundingBoxes.HullIsMinimal | hw5/bounding_box.h:15-18 | any box enclosing every box of the range encloses the combined box |
| BoundingBoxes.HullIsProper | hw5/bounding_box.h:15-18 | if every box of the range has min ≤ max on every axis, so does the combined box |
| BoundingBoxes.CompareIsStrictWeakOrder | hw5/bounding_box.h:28-32 | the comparator is irreflexive, asymmetric and transitive, with transitive incomparability, and holds exactly when a's center is above b's on the axis |
| BoundingBoxes.CompareExample | tests/test.cc:77-93 | boxes (1,2,13,14,5,6) and (10,12,3,4,50,60) compare false on X, true on Y, false on Z |
| BoundingBoxes.IntersectionExample | tests/test.cc:95-102 | the ray from (-10,-10,-10) along +x misses (0..10)³ with a negative distance and hits (-20..20)³ at a non-negative one, 30: the origin is inside that box, so the exit is reported |
| BoundingBoxes.FlatBoxExample | tests/test.cc:104-109 | a zero-thickness box at the origin is hit by the ray from (-1,0,0) along +x; the parallel ray from (-1,1,0) misses it |
| BVHTrees.Depth | hw5/BVHTree.h:15 | the depth is at least 1 and is exactly 1 for a leaf |
| BVHTrees.Leaves | hw5/BVHTree.h:17-19 | every tree has at least one leaf box |
| BVHTrees.SortAlong | hw5/BVHTree.h:9-13 | the range ends up ordered by the comparator; it holds the same boxes as before, and nothing outside it changes |
| BVHTrees.MakeBVHTree | hw5/BVHTree.h:9-13 | the array is only reordered within [lo, hi); the tree's leaves are that range in its final order; every node's box combines its children's boxes; the tree has the midpoint-split, axis-cycling shape (`BuiltAlong`) |
| BVHTrees.BuiltDepth | hw5/BVHTree.h:15 | a tree of that shape over n boxes has depth exactly ⌈log₂ n⌉ + 1 |
| BVHTrees.LeafCountBound | hw5/BVHTree.h:15 | a tree of depth d has at most 2^(d-1) leaves |
| BVHTrees.CeilLog2IsCeiling | hw5/BVHTree.h:15 | CeilLog2(n) is the least k with n ≤ 2^k |
| BVHTrees.CeilLog2Monotone | hw5/BVHTree.h:15 | CeilLog2 is monotone |
| BVHTrees.ValidHull | hw5/BVHTree.h:9-13 | in a valid tree every node's box is the combination of all leaves under it |
| BVHTrees.RootEnclosesLeaves | hw5/BVHTree.h:9-13 | the root box of a valid tree encloses every leaf box |
| BVHTrees.TwoLeafTree | tests/test.cc:111-125 | a tree of the built shape over two distinct boxes has depth 2 and holds both boxes |
| BVHTrees.BuildPair | tests/test.cc:111-125 | building over two distinct boxes along X gives depth 2, with the two boxes as its leaves in some order |
| BVHTrees.TwoBoxExample | tests/test.cc:111-125 | the two boxes of the test give a tree of depth 2 whose leaves carry surface indices {0, 1} |
| ObjParser.IsBlankAllSpaces | hw7/parser.cc:10-11 | a line is blank exactly when all its characters are white space |
| ObjParser.IsBlankExamples | tests/test.cc:9-14 | "asdad" is not blank; "\n", "\t" and "  " are |
| ObjParser.Command | hw7/parser.cc:13-16 | the command read from a non-blank line is not white space |
| ObjParser.CommandAfterSpaces | hw7/parser.cc:13-16 | the command is the first character after the leading white space |
| ObjParser.LineCommand | hw7/parser.cc:10-16 | a line has no command (' ') exactly when it is empty or blank; a non-blank line always reads a command |
| ObjParser.ParseObj | hw7/parser.cc:3-48 | the buffers end as what they held followed by the faces (indices less one) and the vertices of the lines, in line order; the result is 0 |
| ObjParser.AppendsInLineOrder | hw7/parser.cc:9-42 | reading two runs of lines appends the first run's output and then the second's |
| ObjParser.IgnoredLine | hw7/parser.cc:10-19 | an empty, blank or '#' line, or a line with any other command except 'v' and 'f', appends nothing |
| ObjParser.IgnoredLines | hw7/parser.cc:18-41 | lines with neither 'v' nor 'f' as command append nothing |
| ObjParser.CountsMatchLines | hw7/parser.cc:46-47 | each buffer's size is three times the number of 'v' or 'f' lines, so the reported counts size/3 are those numbers |
| ObjParser.FaceEntries | hw7/parser.cc:30-39 | the k-th face line fills triangle entries 3k..3k+2 with its indices, each less one |
| ObjParser.VertexEntries | hw7/parser.cc:20-28 | the k-th vertex line fills vertex entries 3k..3k+2 with its coordinates in order |
| ObjParser.ExampleCommands | hw7/parser.cc:15-19 | the example lines read as '#', blank, 'v', 'f' and 'v' |
| ObjParser.NormalLineReadsAsVertex | hw7/parser.cc:15-20 | a "vn 0 0 1" line reads as command 'v' |
| ObjParser.ExampleVertices | hw7/parser.cc:20-28 | the example file, with vertex lines "v 1 2 3" and "v 0 0 1", yields vertices 1 2 3 0 0 1 |
| ObjParser.ExampleFaces | hw7/parser.cc:30-39 | the example file yields the one triangle 0 1 2 |
| ObjParser.ParseExample | hw7/parser.cc:3-48 | reading the example file into empty buffers returns 0, triangles [0,1,2] and vertices [1,2,3,0,0,1] |

## Left out

- Floating point: extents, centers, ray components and distances are exact reals. Single-precision rounding, infinities and NaN are not modelled. That includes the ±infinity entry and exit values a float division by a zero direction would give. The model treats a zero direction component as a ray parallel to that slab.
- The vector algebra, the `Raytra::point` type, the camera and the triangle and sphere primitives are not part of this model. A ray is an origin and a direction.
- `BoundingBox.IntersectionDistance`: the miss sentinel is -1.0. Any negative value would do; the exact constant is not visible in the headers.
- `BoundingBox.IntersectionDistance`: a ray with a zero direction whose origin is inside the box has no finite slab bounds, so it is given distance 0.
- `BoundingBox.constructor` leaves the surface index unset, as the declared constructor takes only extents. A box made by `Combine` likewise has no surface index of its own.
- `Combine`: the model's fold starts from the first box of the range.
- `Combine` and `MakeBVHTree`: the headers do not show what happens on an empty range. The model's `requires` excludes it.
- `BoundingBox`: in the source the six extents and `center` are public, assignable fields (`hw5/bounding_box.h:23`, `:33`). The model makes them constants, because nothing in the box, the hierarchy or the reader writes them after construction. Writes by other code to those fields are not modelled.
- `MakeBVHTree`: the header and the tests do not show the split rule; the model sorts the range by the comparator and gives the left part ⌈n/2⌉ boxes.
- `BoundingBox`: `center` is declared but its value is not shown; the model takes the midpoint of the extents.
- `MakeBVHTree`: the sort is modelled as insertion sort; any ordering by the comparator satisfies the same contract. Which of two boxes with equal centers ends up first is not specified, so the build's determinism beyond its contract is not stated.
- `MakeBVHTree` returns the tree as a value. Raw owning pointers, node allocation and destruction are not modelled. The box references in the array and in the leaves are the same objects.
- The nearest-hit traversal over the tree is not part of the core and is not modelled. `IntersectionIsNearest` and `RootEnclosesLeaves` state facts such a traversal relies on. When the ray's origin is inside a box, `IntersectionDistance` reports the exit distance, not 0: the ray from (-10,-10,-10) along +x gets 30 from (-20..20)³ (`IntersectionExample`). A rule "descend only when the distance is below the best so far" could therefore skip a box that contains the origin.
- `ParseObj`: the lines come from a stream `in` that `hw7/parser.cc` reads at :9 and closes at :44 but does not declare; `file_name` is used only in the summary. `getline`, closing the stream and the `printf` summary are I/O. The lines are given as a sequence. `CountsMatchLines` states the two numbers the summary prints.
- `ParseObj`: the stream extractions `iss >> cmd` and `iss >> va >> vb >> vc` are modelled only in part.
  - The command is the first non-white-space character, so "vn" and "vt" lines read as 'v' lines, as they do in the source.
  - The three numbers that follow are given with each line rather than parsed from its text.
  - A failed numeric extraction, which leaves the variables uninitialised or zero, is not modelled.
- `ParseObj`: the `f` case falls through into `default: continue` without a `break`. That has no effect beyond the `continue`, and the model ends the iteration there too.
- `ParseObj`: `i - 1` on a 32-bit `int` overflows for the least int. Indices here are unbounded integers.
- `IsBlank`: the definition of `is_blank` is not part of this model. It is modelled as "every character is C `isspace`", which agrees with the tests.
