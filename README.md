# computerGraphicsFromScratch — verified model of the exact core

This project models the exact, integer- and pointer-level core of a small
software ray tracer and a 2-D line rasterizer written in C for Win32. It
covers six pieces:

- **Colours** (`color.dfy`, module `Color`). An RGB colour packs into a
  0x00RRGGBB pixel word. Colours are scaled by a light intensity, clamping
  at 255. Two colours add with saturation.
- **The sphere list** (`sphere.dfy`, module `Spheres`). The scene's spheres
  live in a singly linked list whose head node always exists. The first
  sphere fills the head in place; later spheres are appended at the tail.
  Each stored sphere carries `rSquare`, computed in `uint32`.
- **The lights record** (`light.dfy`, module `Lights`). It holds an ambient
  intensity plus two linked lists, one of directional lights and one of
  point lights. Each list is empty while its head is null, and lights are
  appended at the tail.
- **The framebuffer** (`framebuffer.dfy`, module `Framebuffer`). The window
  bitmap is a row-major `uint32` array. `putPixelRawVal` addresses it from
  the buffer's origin. `putPixel` addresses it from the screen centre.
- **The ray tracer's exact parts** (`raytracer.dfy`, module `RayTracer`).
  These are the rule choosing the nearest accepted intersection, and the
  pixel ranges the frame loop visits.
- **The rasterizer** (`rasterizer.dfy`, module `Rasterizer`). `interpolate`
  fills an array with evenly spaced values. `drawLine` picks the major axis,
  orders the endpoints and plots one pixel per major-axis coordinate.

`types.dfy` (module `Types`) holds the shared pieces: `Option`, the `byte`
and `uint32` ranges, wrap-around at 2^32, the 3-vector, and `DBL_MAX`
written out exactly.

The linked lists are classes whose nodes are updated in place. Each list
carries a ghost sequence of its nodes in link order. Every operation states
the new contents as a function of the old ones: "the old lights plus one",
"the old spheres plus one". It also states that the earlier nodes and the
other fields are untouched. The framebuffer is a class over an `array`.
Each pixel writer is specified by a pure function `Plot` on the buffer's
contents. `drawLine` is specified by the sequence of `putPixel` calls it
makes, `LinePlots`, folded over the buffer with `PutPixels`.

`closestIntersection` accepts a root equal to `t_min`, because it tests
`>=` (RayTracer/rayTracer.c:274, 279). The two pixel writers are modelled
with corrected bounds tests; the tests as written, and the inputs they
wrongly let through, are under "## Findings".

## Model

| member | source | states |
|---|---|---|
| Color.GetColor | RayTracer/color.c:8-16 | the shift-and-add packing never wraps: the word equals red·65536 + green·256 + blue, and its top byte is zero |
| Color.UnpackGetColor | RayTracer/color.c:8-16 | the red, green and blue bytes read back from the packed word (`>>16 & 0xFF`, `>>8 & 0xFF`, `& 0xFF`) are the colour's channels |
| Color.GetColorInjective | RayTracer/color.c:8-16 | two colours pack to the same word if and only if they are equal |
| Color.ScaleChannel | RayTracer/color.c:22-43 | for a non-negative multiplier, a channel is 255 exactly when channel·mul reaches 255; otherwise it is channel·mul truncated |
| Color.ColorMul | RayTracer/color.c:21-48 | every output channel is the clamped product of the same input channel, so channels are never swapped by the field initialisers |
| Color.ColorMulUnitAndZero | RayTracer/color.c:21-48 | scaling by 1 returns the colour unchanged; scaling by 0 gives black |
| Color.ScaleChannelMonotonic | RayTracer/color.c:21-43 | a larger non-negative multiplier never gives a smaller channel |
| Color.AddChannel | RayTracer/color.c:55-76 | the uint32 channel sum never wraps, and the channel is min(255, a + b) |
| Color.ColorAdd | RayTracer/color.c:54-77 | each output channel is min(255, sum of the same two input channels) |
| Color.ColorAddBounds | RayTracer/color.c:59-76 | each output channel is at least the matching channel of either input |
| Color.ColorAddCommutativeIdentity | RayTracer/color.c:54-77 | colorAdd is commutative, and adding black on either side returns the other colour |
| Color.ColorAddAssociative | RayTracer/color.c:54-77 | colorAdd is associative |
| Spheres.MakeSphere | RayTracer/sphere.c:21-26 | centre, colour, radius, specular and reflectivity are stored as passed; rSquare is radius·radius mod 2^32, and exactly radius·radius below radius 65536 |
| Spheres.SpheresOfFull | RayTracer/sphere.c:27-43 | a run of nodes that all hold a sphere yields one sphere per node, the i-th sphere being the i-th node's |
| Spheres.SphereListShape | RayTracer/sphere.c:13-44 | a well-formed list holding n ≥ 1 spheres has exactly n nodes in sphere order; the empty scene is the lone empty head; every stored sphere keeps the rSquare invariant |
| Spheres.LinkedAtTail | RayTracer/sphere.c:32-36 | linking one fresh, full, null-terminated node after the last node of a well-formed list gives a well-formed list |
| Spheres.SphereListDistinct | RayTracer/sphere.c:29-31 | no node of a well-formed sphere list appears twice, so the walk to null is finite |
| Spheres.AppendSphereNode | RayTracer/sphere.c:27-43 | walks from a full head to the node whose next is null and links one fresh node holding the sphere. The result is a well-formed list whose spheres are the old ones plus the new one, and the earlier nodes keep their order |
| Spheres.InitSpheres | RayTracer/sphere.c:4-10 | a fresh single head with no sphere and no successor: the empty scene |
| Spheres.AddSphere | RayTracer/sphere.c:13-44 | on a NULL list: failure and no node changed. Otherwise the scene's spheres become the old ones plus the new sphere. The first add fills the head in place with no new node; later adds link exactly one fresh node with a null next at the tail, and earlier nodes keep their order |
| Spheres.FreeSphereList | RayTracer/sphere.c:46-56 | the traversal visits every node once, in link order, up to null, and releases exactly the scene's spheres |
| Lights.PointLightsOfAt | RayTracer/light.c:17-39 | the point-light sequence has one light per node, in node order |
| Lights.DirLightsOfAt | RayTracer/light.c:41-63 | the directional-light sequence has one light per node, in node order |
| Lights.PointChainDistinct | RayTracer/light.c:28-30 | no node of a point-light chain appears twice, so the walk to null is finite |
| Lights.DirChainDistinct | RayTracer/light.c:52-54 | no node of a directional-light chain appears twice |
| Lights.PointChainSnoc | RayTracer/light.c:31-37 | linking a fresh null-terminated node after the last node of a point chain gives a chain whose lights are the old ones plus the node's |
| Lights.DirChainSnoc | RayTracer/light.c:55-61 | linking a fresh null-terminated node after the last node of a directional chain gives a chain whose lights are the old ones plus the node's |
| Lights.AppendPointLight | RayTracer/light.c:18-38 | an empty point list gets the fresh node as its head; otherwise the node is linked after the last node and the head is kept. Either way the lights gain exactly the new one at the end |
| Lights.AppendDirLight | RayTracer/light.c:42-62 | the same for the directional list |
| Lights.Light.InitLights | RayTracer/light.c:4-11 | ambient is 0 and both lists are empty |
| Lights.Light.SetAmbient | RayTracer/light.c:13-15 | ambient takes the new intensity; both lists and their contents are unchanged |
| Lights.Light.AddPLight | RayTracer/light.c:17-39 | the point lights become the old ones plus (intensity, pos), in the empty and the non-empty case alike. Existing nodes keep their order, the new node is fresh and last with a null next, and the head is kept when the list was non-empty. The directional list and ambient are unchanged |
| Lights.Light.AddDLight | RayTracer/light.c:41-63 | the directional lights become the old ones plus (intensity, dir). Existing nodes keep their order, the new node is fresh and last. The point list and ambient are unchanged |
| Lights.Light.FreeLights | RayTracer/light.c:65-80 | walks the directional list, then the point list, each to null, visiting every node exactly once in link order |
| Framebuffer.IndexInFrame | RayTracer/rayTracer.c:160 | an in-frame (x, y) has its slot y·width + x inside the buffer |
| Framebuffer.IndexInjective | RayTracer/rayTracer.c:174 | two in-frame positions share a slot if and only if they are the same position |
| Framebuffer.PlotChangesOnlyTarget | RayTracer/rayTracer.c:160 | a write changes the target pixel to the colour when it is in the frame, and leaves every other pixel as it was |
| Framebuffer.PutPixelGuardGap | Rasterizer/rasterizer.c:104-112 | the `>` guard as written accepts exactly the in-frame offsets plus column `width` and row `height` |
| Framebuffer.PutPixelGuardAdmitsOutOfFrame | RayTracer/rayTracer.c:167-175 | for an even height, putPixel(0, height/2) passes the as-written guard, yet its slot lies past the buffer; offset (width, r) passes too and aliases the first pixel of row r + 1 |
| Framebuffer.RawGuardAdmitsNegative | RayTracer/rayTracer.c:155-161 | (-1, 0) passes putPixelRawVal's as-written guard, yet its slot lies before the buffer |
| Framebuffer.Frame.PutPixelRawVal | RayTracer/rayTracer.c:155-161 | writes if and only if (x, y) is in the frame; the new buffer is the old one with only that pixel set to getColor(c) |
| Framebuffer.Frame.PutPixel | RayTracer/rayTracer.c:167-175 | moves the origin by (width/2, height/2); writes if and only if the shifted position is in the frame; only that pixel changes |
| RayTracer.IsClosestHitUnique | RayTracer/rayTracer.c:268-285 | the closest-hit description admits exactly one result for a scene, window and root function |
| RayTracer.ClosestIntersection | RayTracer/rayTracer.c:268-285 | the result is the closest hit. A miss (no sphere, DBL_MAX) happens exactly when no root lies in [t_min, t_max) and below DBL_MAX. Otherwise the t is an accepted root of the chosen sphere, no accepted root anywhere is smaller, and every earlier sphere's accepted roots are strictly larger, so the first sphere in list order wins ties |
| RayTracer.RenderScene | RayTracer/rayTracer.c:353-367 | every frame pixel left of column 2·(width/2) ends up holding its traced colour, and any other pixel keeps its old value. With the corrected putPixel the row y = height/2 (one past the frame for an even height) is dropped; the source's putPixel writes it past the end of the buffer (see "## Findings") |
| Rasterizer.Round | Rasterizer/rasterizer.c:151 | round picks the nearest integer, with halves going away from zero |
| Rasterizer.RoundInteger | Rasterizer/rasterizer.c:151 | rounding an integer-valued number gives that integer back |
| Rasterizer.LerpReachesDest | Rasterizer/rasterizer.c:125-131 | after destI − startI steps of the slope, the accumulated value is exactly destD |
| Rasterizer.Interpolation | Rasterizer/rasterizer.c:114-134 | there are destI − startI + 1 values and the first is startD; when destI > startI the k-th is startD + k·slope and the last is destD |
| Rasterizer.Interpolate | Rasterizer/rasterizer.c:114-134 | the fresh array holds exactly the interpolation; the running accumulator d is startD + i·slope at every step |
| Rasterizer.OrderedSpan | Rasterizer/rasterizer.c:137-164 | after the swap the major-axis start is at most the dest; the span's length is |dx| when x is major (strictly wider) and |dy| otherwise |
| Rasterizer.LinePlotsShape | Rasterizer/rasterizer.c:150-170 | drawLine makes |major difference| + 1 putPixel calls (one for a point), the k-th at major coordinate min(start, dest) + k |
| Rasterizer.LinePlotsEndpoints | Rasterizer/rasterizer.c:137-173 | the first and last pixels plotted are the two endpoints |
| Rasterizer.LinePlotsSymmetric | Rasterizer/rasterizer.c:137-173 | drawLine(a, b) and drawLine(b, a) make identical putPixel calls in the same order |
| Rasterizer.PutPixelsEffect | Rasterizer/rasterizer.c:150-170 | after a run of one-colour putPixel calls, a frame pixel holds the colour exactly when some call lands on it; otherwise it keeps its old value |
| Rasterizer.PlotRun | Rasterizer/rasterizer.c:150-170 | the plotting loop leaves the buffer as the fold of putPixel over (major i, round(vals[i − start])) for i from start to dest |
| Rasterizer.DrawLine | Rasterizer/rasterizer.c:136-174 | the buffer afterwards is the old buffer with putPixel applied, in order, at every point of LinePlots |

## Left out

- The Win32 glue is not modelled: window creation, message handling, `BitBlt`, the bitmap header, threads, console output and the frame timer.
  The `stderr` messages of `addSphere`, `putPixelRawVal` and the ray tracer's `putPixel` become a `false` result (the rasterizer's `putPixel` has its message commented out, and `Frame.PutPixel` returns `false` there too).
- `intersectRaySphere`, `canvasToViewport`, vector arithmetic, `computeLighting` and `traceRay` use floating-point geometry, so none of them is modelled.
  `ClosestIntersection` takes the root computation as a function parameter.
  `RenderScene` takes the traced colour of each canvas point as a parameter.
- `malloc`, `checkalloc` and `free` are not modelled.
  Allocation becomes `new`.
  `FreeSphereList` and `Lights.Light.FreeLights` model the traversal, returning the nodes visited rather than releasing memory.
  The head node of the sphere list, which `FreeSphereList` also frees, is reported as visited.
- `ClosestIntersection` walks a sequence of spheres in list order rather than the `sceneList` nodes.
  It returns the sphere's position in that sequence rather than a pointer to it.
- Color.ColorMul: modelled only for a non-negative multiplier and over exact reals. A negative product converted to `uint8_t` is undefined behaviour in C, and double rounding of the product is not modelled.
- Rasterizer.Interpolate: the values are exact reals. Floating-point drift of the repeated `d += a` is not modelled, so the last value is exactly destD here.
- Rasterizer.Round: rounds exact reals. The double-to-int32 conversion of `round`'s result is not modelled.
- Framebuffer.Frame.PutPixel: the `int32_t` offset arithmetic is over unbounded integers. Overflow of `x + width/2` is not modelled, and neither is overflow of `abs(destX - startX)` in `drawLine`.
- `light.c` passes `vec3 *` where `light.h` declares fields of type `vec3`. The model stores the vector by value.
- The copies of `getColor` and `colorMul` in `rayTracer.c`, and the copy of `putPixelRawVal` in `rasterizer.c`, are the same code as the functions modelled. They are modelled once: `Color.GetColor`, `Color.ColorMul` and `Framebuffer.Frame.PutPixelRawVal`.
- `Framebuffer.Frame` has the width, height and pixel array of the window's `frame` struct. The resizing on `WM_SIZE` is not modelled.

## Findings

| source | as written | input that shows it | evidently intended | confidence | as-written member | corrected member |
|---|---|---|---|---|---|---|
| RayTracer/rayTracer.c:167-175 | putPixel drops a write only when an offset is negative or strictly greater than width or height | any even height, putPixel(0, height/2): offsetY == height passes, and the slot height·width + width/2 lies past the buffer. renderScene's y loop reaches y = height/2 (RayTracer/rayTracer.c:359); `RayTracer.RenderScene` is modelled over the corrected putPixel | drop offsets ≥ width or ≥ height, as the doc comment promises | not executed | Framebuffer.PutPixelGuardAdmitsOutOfFrame | Framebuffer.Frame.PutPixel |
| Rasterizer/rasterizer.c:104-112 | the same `>` guard in the rasterizer's putPixel | offsetX == width on row r passes and writes the first pixel of row r + 1 | drop offsets ≥ width or ≥ height | not executed | Framebuffer.PutPixelGuardGap | Framebuffer.Frame.PutPixel |
| RayTracer/rayTracer.c:155-161 | putPixelRawVal checks only x ≥ width and y ≥ height | putPixelRawVal(-1, 0, c) passes and writes slot −1, before the buffer | also drop negative x or y | not executed | Framebuffer.RawGuardAdmitsNegative | Framebuffer.Frame.PutPixelRawVal |
