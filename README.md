# A verified model of the 3dgraphics software rasterizer core

This project models in Dafny the computational core of hvkwak/3dgraphics, a
software rasterizer written in C. The model covers these parts:

- **Frustum clipping.** The Sutherland–Hodgman pass of a fixed-capacity
  polygon against one plane, in place. Then the six passes in order, and the
  fan re-triangulation of what is left (`clip.dfy`).
- **Pixel writers of `src/draw.c`.** Bounds-checked pixel write, grid,
  rectangle, DDA line, and the perspective-correct textured pixel with its
  depth test (`draw.dfy`, over `raster.dfy`).
- **Global-buffer variants of `src/display.c`** (`display.dfy`). **The
  framebuffer of the triangle demo in `src-tr/display.c`**, with its
  `uint8_t` coordinates and `uint16_t` loop counter (`framebuffer.dfy`).
- **Barycentric weights with clamping** (`util.dfy`).
- **Edge-function triangle fill of `src-tr/main.c`**: bounding box,
  incremental edge weights, top-left rule and colour packing (`edgefill.dfy`).
- **Vertex sort and midpoint of `draw_filled_triangle`** (`triangle.dfy`).
- **Light intensity scaling of a colour word** (`light.dfy`).
- **4×4 identity, scale and matrix–vector product** (`matrix.dfy`).
- **Vertical flip of a captured image** (`save.dfy`).
- **Cube mesh tables and the OBJ line loop** (`mesh.dfy`).

Every C `float` is an exact `real`, so the statements about floating-point
results hold under exact arithmetic. C's float-to-int conversion truncates
toward zero (`Geometry.Trunc`). `round` rounds halves away from zero
(`Geometry.Round`).

Code that changes state in the C source is imperative here:

- The colour buffer, the z-buffer, the polygon's arrays and the image bytes
  are Dafny `array`s.
- `polygon_t`, the `src/display.c` globals, the `src-tr` framebuffer and the
  global mesh are classes.

Each method is proved against a specification function on values, and the
properties are lemmas about that function:

| method | specification function |
|---|---|
| `ClipAgainstPlane` | `ClipPoly` |
| `DrawLine` | `PlotLine` |
| `TriangleFill` | `Fill` |
| `FlipPixelsVertically` | `Flip` |
| `LoadObjFileData` | `LoadLines` |

Buffers are read cell by cell as `Cell(s, w, h, x, y) = s[w*y + x]`.

## Model

| member | source | states |
|---|---|---|
| Geometry.Floor | src-tr/main.c:81-82 | `floor` then conversion to int: the greatest integer not above r |
| Geometry.Ceil | src-tr/main.c:83-84 | `ceil` then conversion to int: the least integer not below r |
| Geometry.Trunc | src/triangle.c:65 | float-to-int conversion truncates toward zero, for both signs |
| Geometry.Round | src/draw.c:84 | `round` gives the nearest integer, halves away from zero |
| Geometry.RoundOfInteger | src/draw.c:84 | rounding an integral value gives that integer |
| Geometry.TruncBetween | src/triangle.c:65 | a real between two integers truncates to an integer between them |
| Raster.Plot | src/draw.c:16-31 | the cell (x, y) takes the colour exactly when 0 <= x < w and 0 <= y < h; otherwise the buffer is unchanged; no other index changes |
| Raster.PlotCells | src/draw.c:16-31 | cell by cell: only the addressed window cell may change, and nothing past w*h changes |
| Raster.IdxInRange | src/draw.c:30 | every in-window address w*y + x lies in [0, w*h) |
| Raster.IdxInjective | src/draw.c:30 | distinct in-window cells have distinct addresses, so at most one cell changes per write |
| Raster.SetCell | src/draw.c:30 | one in-window array write is exactly Plot of the old contents |
| Draw.DrawPixel | src/draw.c:16-31 | the buffer becomes Plot of the old one: written iff in the window, otherwise untouched |
| Draw.GridInsideWindow | src/draw.c:40-58 | grid rows and columns are nonzero multiples of 10 inside the window, so row 0 and column 0 are never written |
| Draw.DrawGrid | src/draw.c:40-58 | a window cell takes the colour exactly when its row or column is 10k with 1 <= k < h/10 (resp. w/10); others and the tail unchanged |
| Draw.GridLine | src/draw.c:46-57 | one inner loop writes exactly one whole row, or one whole column |
| Draw.GridLineStep | src/draw.c:46-57 | one more full row 10k (or column 10k) extends the drawn grid lines by exactly that line; nothing else changes |
| Draw.GridPrefixDone | src/draw.c:42-57 | with both loop counters at ny and nx the drawn lines are exactly the grid |
| Draw.DrawRectangle | src/draw.c:102-132 | the rejected arguments change nothing; otherwise exactly the in-window cells (x+i, y+j), i < w, j < h take the colour |
| Draw.RectangleRow | src/draw.c:126-130 | one row of the rectangle: exactly its in-window cells change |
| Draw.DrawLine | src/draw.c:70-88 | the buffer ends as the side_length + 1 walk points plotted in order through draw_pixel |
| Draw.PlotLineStep | src/draw.c:83-86 | each iteration is one Plot of the next walk point |
| Draw.Accumulate | src/draw.c:85-86 | adding the increment once more is the next point of the walk |
| Draw.LineEnds | src/draw.c:70-88 | under exact arithmetic the first point is (x0, y0) and the last is (x1, y1) |
| Draw.LastCoordinate | src/draw.c:77-86 | after side_length increments, one coordinate rounds to its end value |
| Draw.IncrementsBounded | src/draw.c:74-78 | both increments lie in [-1, 1], and one of them is ±1 when the line is not a point |
| Draw.UnitRatio | src/draw.c:77-78 | delta / side_length lies in [-1, 1], and is ±1 on the longer axis |
| Draw.PlotLineCells | src/draw.c:83-87 | a window cell takes the colour exactly when one of the plotted walk points is on it; the tail is unchanged |
| Draw.TexelAddress | src/draw.c:198-199 | abs((int)(coord*size)) % size is always in [0, size), so the texel read is in range |
| Draw.DrawTexel | src/draw.c:143-229 | when 1 − interpolated 1/w is strictly below the stored depth, the pixel gets the texel and the depth cell the new depth; otherwise neither buffer changes; the depth cell never increases |
| Draw.PerspectiveAtCorner | src/draw.c:179-190 | with weights (1, 0, 0) and nonzero w, the perspective-correct coordinates are uv_a |
| Draw.TexelAtCornerA | src/draw.c:150-190 | the pixel at corner a's projected position has weights (1, 0, 0) and reads the texture at uv_a |
| Draw.AffineWhenSameW | src/draw.c:179-190 | with equal w at all corners, the perspective division gives the plain weighted average |
| Display.Display.constructor | src/display.c:7-10 | binds window_width, window_height and color_buffer |
| Display.Display.DrawPixel | src/display.c:102-107 | the buffer becomes Plot of the old one: written iff in the window |
| Display.Display.DrawGrid | src/display.c:74-92 | exactly the grid cells take the colour; others and the tail unchanged |
| Display.Display.DrawRectangle | src/display.c:122-153 | the rejected arguments change nothing; otherwise exactly the in-window rectangle cells take the colour |
| Display.Display.ClearColorBuffer | src/display.c:168-174 | every window cell takes the colour; nothing past w*h changes |
| Display.Display.ClearRow | src/display.c:170-172 | one pass of the inner loop sets exactly row y |
| FrameBuffer.ToUint8 | src-tr/display.c:90 | passing an int as a uint8_t keeps it when it is in [0, 256) and otherwise reduces it mod 256 |
| FrameBuffer.ToUint8Wraps | src-tr/display.c:90 | coordinates 256 apart reach the same uint8_t |
| FrameBuffer.FrameBuffer.constructor | src-tr/display.c:47 | allocates SCREEN_WIDTH * SCREEN_HEIGHT cells |
| FrameBuffer.FrameBuffer.DrawPixel | src-tr/display.c:90-95 | written iff x < SCREEN_WIDTH and y < SCREEN_HEIGHT (the < 0 tests cannot fire); no other cell changes |
| FrameBuffer.FrameBuffer.ClearFramebuffer | src-tr/display.c:155-159 | every cell takes the colour; the uint16_t counter ends only when the cell count is at most 65535, which is required |
| Util.Clamp | src/util.c:27-28 | a clamped weight lies in [0, 1]; a weight already in [0, 1] is unchanged, one above 1 becomes 0.99999 and one below 0 becomes 0.00001 |
| Util.BarycentricWeights | src/util.c:12-40 | alpha and beta lie in [0, 1]; the three sum to 1; gamma is negative exactly when alpha + beta > 1 |
| Util.CornerWeights | src/util.c:14-36 | p = a, b, c gives (1,0,0), (0,1,0), (0,0,1) |
| Util.RawWeightsReconstruct | src/util.c:21-36 | the unclamped weights recombine the corners into p |
| Util.InsideUnclamped | src/util.c:24-36 | inside the triangle nothing is clamped and the weights are the exact barycentric coordinates |
| EdgeFill.IsTopLeft | src-tr/main.c:56-61 | true for every edge along which y decreases, false for every edge along which y increases, and for a horizontal edge true exactly when it points right (+x); never true for a point |
| EdgeFill.EdgeCross | src-tr/main.c:69-73 | the cross product of a→b with a→p is zero when p is either end of the edge, or when the edge is a single point |
| EdgeFill.Bias | src-tr/main.c:95-97 | the bias is 0 exactly for a top-left edge, and exactly -0.0001 otherwise |
| EdgeFill.EdgeCrossAtEnds | src-tr/main.c:69-73 | the edge function is zero at both ends of its edge |
| EdgeFill.EdgeCrossReversed | src-tr/main.c:69-73 | reversing an edge negates the edge function |
| EdgeFill.TopLeftExclusive | src-tr/main.c:56-61 | of an edge and its reverse exactly one is top-left (none for a point) |
| EdgeFill.NotAllTopLeft | src-tr/main.c:95-97 | the three biases of a triangle sum to at most −0.0001 |
| EdgeFill.EdgeSum | src-tr/main.c:69-78 | the three edge functions at any point sum to the doubled area |
| EdgeFill.EdgeBarycentric | src-tr/main.c:117-119 | the edge functions divided by the area are the barycentric weights of the point |
| EdgeFill.ColumnStep | src-tr/main.c:87-89 | one column right adds delta_w*_col to an edge function |
| EdgeFill.RowStep | src-tr/main.c:91-93 | one row down adds delta_w*_row to an edge function |
| EdgeFill.InsideBounds | src-tr/main.c:115-119 | an inside pixel forces a positive area, so the divisions are safe; each weight is at most the area |
| EdgeFill.SharedEdgeExclusive | src-tr/main.c:95-115 | of two triangles sharing an edge from opposite sides, no pixel is inside both |
| EdgeFill.InsideCenter | src-tr/main.c:104-115 | the centre of an inside pixel lies within the corners' extremes |
| EdgeFill.InsideWithinBox | src-tr/main.c:81-114 | every inside pixel lies in the visited box [floor(min), ceil(max)] |
| EdgeFill.PackLayout | src-tr/main.c:126-130 | with channels in [0, 255], the OR-and-shift packing lays out 0xAABBGGRR |
| EdgeFill.ChannelInRange | src-tr/main.c:122-124 | weights in [0, 1] summing to at most 1 keep every channel in [0, 255] |
| EdgeFill.ShadeLayout | src-tr/main.c:121-130 | the word is 0xFF alpha over blue, green and red channels equal to the weights times 255, truncated |
| EdgeFill.InsideFractions | src-tr/main.c:115-119 | the weights of an inside pixel, as fractions of the area, are non-negative and sum to at most 1 |
| EdgeFill.PrimaryChannels | src-tr/main.c:122-124 | with red, green and blue corners each channel is one weight times 255 |
| EdgeFill.FillNoArea | src-tr/main.c:104-140 | a clockwise or degenerate triangle draws nothing |
| EdgeFill.PaintAtCells | src-tr/main.c:115-132 | one pixel's visit colours its cell exactly when its three weights are non-negative, and no other cell changes |
| EdgeFill.FillCells | src-tr/main.c:104-140 | when the box fits uint8_t coordinates, exactly the pixels with three non-negative weights are drawn, each in its interpolated colour |
| EdgeFill.TriangleFill | src-tr/main.c:75-141 | the incremental traversal leaves the framebuffer as Fill describes: every box pixel visited once, row by row, with the weights EdgeWeights defines |
| EdgeFill.FillScanline | src-tr/main.c:114-136 | one row of the traversal, with the running weights kept equal to EdgeWeights |
| Clip.Lerp | src/clip.c:106-108 | t = 0 gives a and t = 1 gives b |
| Clip.LerpBetween | src/clip.c:106-108 | for t in [0, 1] the result lies between a and b |
| Clip.Prev | src/clip.c:124-126 | the previous-vertex index stays inside the polygon and is the vertex just before i, cyclically (n − 1 for vertex 0) |
| Clip.CrossesIff | src/clip.c:136 | an edge is crossing exactly when its end distances are strictly on opposite sides |
| Clip.Factor | src/clip.c:139 | on a crossing edge, t = d_prev / (d_prev − d_cur) lies strictly between 0 and 1 |
| Clip.EdgeOutput | src/clip.c:136-173 | one visit emits 1 intersection iff dist product < 0, plus 1 vertex iff the current distance > 0 |
| Clip.StepComputed | src/clip.c:133-183 | the loop's running dots are the visit of edge (i−1 → i) |
| Clip.ClipPrefix | src/clip.c:133-183 | after k visits the inside list is paired and holds at most 2k corners |
| Clip.ClipPoly | src/clip.c:110-191 | one pass yields a paired polygon, and an empty polygon stays empty |
| Clip.ClipPrefixCount | src/clip.c:133-183 | after k visits: count = inside vertices + crossing edges among the first k |
| Clip.ClipCount | src/clip.c:133-190 | the output count is (vertices strictly inside) + (sign-changing edges) |
| Clip.ClipPrefixMonotone | src/clip.c:158-172 | the walk only appends, so an earlier inside list is a prefix of a later one |
| Clip.DistLerp | src/clip.c:145-149 | the distance of an interpolated point is the interpolated distance |
| Clip.IntersectionOnPlane | src/clip.c:139-149 | under exact arithmetic the intersection point lies on the plane |
| Clip.ClipOrigin | src/clip.c:133-183 | every output corner is an input corner strictly inside, or a crossing edge's intersection with its uv interpolated by the same t |
| Clip.ClipInClosedHalfSpace | src/clip.c:136-173 | no output vertex lies strictly outside the plane |
| Clip.ClipKeepsInside | src/clip.c:166-173 | every input vertex strictly inside survives, still paired with its texcoord |
| Clip.ClipAllInside | src/clip.c:123-190 | all vertices strictly inside: count, order, vertices and texcoords unchanged |
| Clip.ClipNoneInside | src/clip.c:123-190 | no vertex strictly inside (including one on the plane): the result is empty |
| Clip.ClipKeepsOutside | src/clip.c:136-173 | a pass never brings a vertex back across another plane |
| Clip.TriangleStraddlingOnePlane | src/clip.c:133-183 | a triangle with one vertex strictly outside and two strictly inside becomes a quad |
| Clip.ClipThrough | src/clip.c:193-200 | the passes against planes 0 .. k−1 in order keep the polygon paired |
| Clip.ClipThroughAllInside | src/clip.c:193-200 | a polygon strictly inside every plane is unchanged |
| Clip.ClipThroughEmpty | src/clip.c:193-200 | an empty polygon stays empty through all passes |
| Clip.ClipThroughOutside | src/clip.c:193-200 | a polygon strictly outside one plane is clipped away completely |
| Clip.OutsideBeforeCut | src/clip.c:193-200 | the passes before the plane a polygon lies strictly outside keep every corner strictly outside it |
| Clip.EmptyAfterCut | src/clip.c:193-200 | the pass against that plane empties the polygon, and the later passes keep it empty |
| Clip.FanCoversPolygon | src/clip.c:88-104 | every corner is in some fan triangle, and consecutive fan triangles share the edge 0 → i+2 |
| Clip.Polygon.FromTriangle | src/clip.c:79-86 | three vertices and three texcoords in argument order, num_vertices = 3 |
| Clip.Polygon.ClipAgainstPlane | src/clip.c:110-191 | the polygon in place becomes ClipPoly of the old polygon |
| Clip.Polygon.CopyBack | src/clip.c:186-189 | the first count entries of the inside list are copied over the polygon |
| Clip.Polygon.CollectInside | src/clip.c:117-183 | the pointer walk fills the inside buffers with exactly ClipPoly's corners and count |
| Clip.Polygon.WalkEdges | src/clip.c:121-183 | for a non-empty polygon the walk from (last, first) round to the last vertex leaves exactly ClipPoly's corners and count in the inside buffers |
| Clip.Polygon.EmitEdge | src/clip.c:136-173 | one visit appends exactly EdgeOutput's corners |
| Clip.Polygon.Append | src/clip.c:158-162 | stores one corner at the end of the list and counts it |
| Clip.Polygon.ClipPolygon | src/clip.c:193-200 | the polygon becomes ClipThrough of all six planes, in the order LEFT, RIGHT, TOP, BOTTOM, NEAR, FAR |
| Clip.Polygon.TrianglesFromPolygon | src/clip.c:88-104 | triangle i is fan triangle (0, i+1, i+2) with matching texcoords; the count is n − 2, negative below 2; other entries are unchanged |
| Save.Half | src/save.c:14 | height / 2 is C's division truncated toward zero, for negative heights too |
| Save.FlipCells | src/save.c:14-20 | row r of the flip is row height−1−r of the input (the middle row of an odd height stays put); the bytes past height*pitch are unchanged |
| Save.FlipInvolution | src/save.c:10-23 | flipping twice restores the buffer |
| Save.CopyRow | src/save.c:17-19 | a one-row memcpy writes exactly the destination row |
| Save.SwapRows | src/save.c:16-19 | one iteration exchanges rows r1 and r2 and changes nothing else |
| Save.FlipStep | src/save.c:14-20 | one more exchange extends the flipped band by one row at each end |
| Save.FlipPixelsVertically | src/save.c:10-23 | with the temporary row allocated the buffer ends as Flip of the input, otherwise unchanged; width plays no part |
| Light.GetLight | src/light.c:3-9 | the light points along +z with unit length |
| Light.Lane | src/light.c:20 | masking a lane gives a 32-bit word whose lane `ch` holds the input's byte and whose other three bytes are zero |
| Light.ClampFactor | src/light.c:17-18 | the factor is clamped to [0, 1]: below 0 gives 0, above 1 gives 1, otherwise unchanged |
| Light.Scale | src/light.c:21-23 | the float product converted back truncates: floor(n*f), at most n |
| Light.ScaleLane | src/light.c:21-23 | a scaled lane never exceeds the unscaled lane |
| Light.ApplyIntensity | src/light.c:14-28 | the word is alpha kept, with each colour byte scaled by the clamped factor and rounded down |
| Light.ScaledLane | src/light.c:25 | re-masking a scaled lane gives that lane's byte scaled, with no spill from below |
| Light.FromBytesBounds | src/light.c:25 | the OR of four disjoint lanes fits in 32 bits and gives its four bytes back |
| Light.ToBytes | src/light.c:20-25 | every word is the OR of its four lanes |
| Light.IntensityKeepsAlpha | src/light.c:20-25 | the alpha byte of the result equals the input's |
| Light.IntensityChannels | src/light.c:21-25 | each colour byte of the result is the input byte times the clamped factor, rounded down, and at most the input byte |
| Light.FullIntensity | src/light.c:17-25 | a factor of 1 or more returns the original colour |
| Light.ZeroIntensity | src/light.c:17-25 | a factor of 0 or less keeps only the alpha byte |
| Matrix.Identity | src/matrix.c:9-17 | 1 on the diagonal, 0 elsewhere |
| Matrix.SetEntry | src/matrix.c:27 | one assignment changes exactly entry (i, j) |
| Matrix.MakeScale | src/matrix.c:25-31 | the matrix as written: identity except m[0][0] = sx; sy and sz are ignored |
| Matrix.MakeScaleIntended | src/matrix.c:25-31 | the intended scale matrix: diagonal sx, sy, sz, 1 and zeros elsewhere |
| Matrix.MulVec | src/matrix.c:39-46 | component i of the product is the sum over j of m[i][j] * v_j |
| Matrix.MulVecIdentity | src/matrix.c:39-46 | the identity leaves every vector unchanged |
| Matrix.MakeScaleApplied | src/matrix.c:25-46 | the scale matrix as written maps v to (sx*v.x, v.y, v.z, v.w) |
| Matrix.MakeScaleIgnoresSy | src/matrix.c:27-29 | counterexample: scale (1, 2, 1) leaves y = 1 of (0, 1, 0, 1), where the intended builder gives 2 |
| Matrix.MakeScaleIntendedApplied | src/matrix.c:25-31 | the intended matrix maps v to (sx*v.x, sy*v.y, sz*v.z, v.w) |
| Matrix.MakeScaleOfOnes | src/matrix.c:25-31 | unit factors give the identity, in both builders |
| Triangle.IntSwap | src/triangle.c:17-21 | the two values trade places |
| Triangle.SortByY | src/triangle.c:51-62 | the result is sorted by y, is a permutation of the input points with each x moving with its y, and sorted input (equal y included) is untouched |
| Triangle.MidpointX | src/triangle.c:65 | Mx lies between x0 and x2; it is x0 when y1 = y0 and x2 when y1 = y2 |
| Triangle.EdgeBetween | src/triangle.c:65 | the pre-truncation Mx lies between x0 and x2 under exact arithmetic |
| Triangle.FilledTriangleSplit | src/triangle.c:46-71 | the sorted points span two rows or more (so the division is defined); M = (Mx, y1) lies between x0 and x2 |
| Mesh.CubeTables | src/mesh.c:14-44 | 8 vertices and 12 faces, every face index in [1, 8] (1-based) |
| Mesh.Kind | src/mesh.c:72-85 | the strncmp chain: a line is a v, vt, vn or f line exactly when it starts with "v ", "vt ", "vn " or "f " |
| Mesh.LoadLinesStep | src/mesh.c:71-103 | a well-formed line appends its vertex or face, or nothing, and the loop goes on |
| Mesh.LoadLinesResult | src/mesh.c:71-104 | the lines before the first malformed one append their vertices and faces in order; the result is true exactly when no line is malformed |
| Mesh.LoadNoRollback | src/mesh.c:71-98 | what was appended stays after a false return; false exactly when some line is malformed |
| Mesh.LoadWellFormed | src/mesh.c:71-104 | with every v and f line well-formed, the load returns true and appends all of them |
| Mesh.Mesh.constructor | src/mesh.c:8-12 | the global mesh starts with no vertices or faces and a zero transform |
| Mesh.Mesh.LoadCubeMeshData | src/mesh.c:46-57 | appends the 8 cube vertices then the 12 faces, in table order, after the existing contents |
| Mesh.Mesh.LoadObjFileData | src/mesh.c:59-105 | an unopened file returns false and changes nothing; otherwise the mesh and the result are what LoadLines gives; the transform is untouched |

## Left out

- SDL plumbing is not modelled: window, renderer and texture set-up and
  teardown, `render_color_buffer`, `render_framebuffer` with its PNG export,
  `process_input`, `fix_framerate`, and the `main` and `render` loops. These
  are I/O, event handling and timing.
- `init_frustum_planes` (src/clip.c:41-77) is not modelled. It computes the
  planes with `sin`/`cos`, so the planes are a parameter of
  `ClipPolygon`/`ClipAgainstPlane`.
- IEEE floating point is not modelled: rounding, NaN, and overflow of the
  float-to-int conversions. Every float is an exact real, so the
  accumulated rounding of `draw_line` and of the edge-function increments
  is absent.
- Triangle.FilledTriangleSplit: requires the three vertices not all on one
  row. For such a degenerate triangle src/triangle.c:65 divides 0.0 by 0.0
  and converts the NaN to int, which C leaves undefined, so the model has
  no value to give.
- Texture decoding (`upng_*`) is not modelled. A texture is its width,
  height and row-major texels (`Draw.Texture`).
- File I/O in `load_obj_file_data` is not modelled: `fopen`, `fgets`,
  `sscanf`, the `perror` message on a failed open, and the unclosed file.
  - Whether the file opened is a parameter.
  - The file is a sequence of lines already split, each carrying what
    `sscanf` matched.
  - The split of lines longer than 511 bytes by `fgets` is not modelled.
- Number parsing is not modelled.
- Memory allocation is not modelled:
  - The failed `malloc` of the temporary row in `save.c` is the `allocOk`
    parameter.
  - The `src/display.c` colour buffer is allocated outside the modelled
    functions, so the `Display` constructor receives it.
  - `array_push` is sequence append.
- `fill_flat_bottom_triangle` and `fill_flat_top_triangle` are not
  modelled. Their bodies are empty (src/triangle.c:3-9), so the model of
  `draw_filled_triangle` ends with the four points it passes to them.
- src/camera.c, the other headers and `vec2_rotate` are not part of this
  model.
- Triangle.MidpointX: 32-bit overflow of the int subtractions `x2 - x0`,
  `y1 - y0` and `y2 - y0` is not modelled; the integers are unbounded.
- Mesh.Mesh.LoadObjFileData: the colour member of a loaded face is never
  set by the source, so its value is indeterminate. Each line carries its
  own arbitrary value (`ObjLine.faceColor`), and nothing is promised about
  it.
- Mesh.LoadLinesResult: face indices stay as read (1-based), and a failed
  load keeps what it appended. This follows src/mesh.c. The model has no
  conversion to 0-based indices and no rejection of a partial load as a
  whole, because the loader performs neither.
- Light.ApplyIntensity: the masks and the `|` of disjoint lanes are written
  as integer lane arithmetic (byte times lane unit, and a sum), not as
  32-bit bit operations. The two agree because each mask selects one whole
  byte lane and the lanes do not overlap.
- EdgeFill.FillCells: the cell-by-cell statement assumes a bounding box
  inside the `uint8_t` range [0, 256). `TriangleFill` itself covers every
  box, wrapped coordinates included, through `Fill`.
- FrameBuffer.FrameBuffer.ClearFramebuffer requires SCREEN_WIDTH *
  SCREEN_HEIGHT <= 65535. Above that, the `uint16_t` counter wraps and the
  loop never ends. SCREEN_WIDTH and SCREEN_HEIGHT come from src-tr/display.h,
  which is not part of this model, so they are fields fixed at construction.
- Clip.Polygon.ClipAgainstPlane does not model the output overflow. The
  source never checks the capacity of 10, so the method requires that the
  pass yield at most 10 corners, and `ClipPolygon` requires the same of
  every pass.
- Clip.Polygon.ClipAgainstPlane also leaves out two reads the source makes:
  - `vertices[-1]` for an empty polygon;
  - the read one past the end on the last iteration (src/clip.c:182), whose
    value is never used.

## Findings

| source | as written | input that shows it | evidently intended | confidence | as-written member | corrected member |
|---|---|---|---|---|---|---|
| src/matrix.c:27-29 | `m.m[0][0] = sx;` three times, so sy and sz never reach the matrix | `mat4_make_scale(1, 2, 1)` times (0, 1, 0, 1) gives y = 1 | `m.m[1][1] = sy; m.m[2][2] = sz;` so that y becomes 2 | high; not executed | Matrix.MakeScaleIgnoresSy | Matrix.MakeScaleIntendedApplied |
