# Mesh decoding and line-buffer assembly, in Dafny

This project models the data core of `src/main.ts`. That core takes a mesh
description produced by a Lua script and turns it into the flat buffers of a
line-segment renderer. It has four parts:

* **Reference resolution**: the first loop of the Lua helper
  `decompress_meshes`. Any field of a mesh table that holds a number `v` is
  replaced by the same field of mesh `v` (1-based). There is one hop per field,
  the meshes are processed in list order, and the update is in place.
* **Colour-scheme expansion**: the loop shared by `decompress_meshes` and
  `decompress_colors`. A map from packed colour to selectors becomes a table
  from Lua slot (vertex index + 1) to colour. A selector is a single index or
  an inclusive range `{first, last}`.
* **`createRenderable`**: it checks the mesh, then walks every segment. For
  each consecutive index pair it pushes two position triples, with 2-D
  vertices padded by z = 0, and two RGBA quadruples.
* **Packed colours**: `convertToFloatColors` unpacks the bytes of a 32-bit
  colour, most significant first. The Lua helper `make_color` packs them in
  the same order.

Modules:

* `Wrappers`: Option and Result.
* `PackedColor`: packing and unpacking colours.
* `MeshDescription`: the Lua-side mesh tables.
* `ReferenceResolver`: reference resolution.
* `ColorDecompressor`: expansion of one colour scheme.
* `LuaHelpers`: the two Lua helpers over a whole mesh list.
* `Renderable`: `createRenderable`.

Each imperative part is a method with loops. The method is proved against
specification functions or predicates, and lemmas state what those
specifications mean. The Lua helpers mutate the caller's list in place. Their
methods take the list as a value, update a local copy slot by slot, and return
it.

The model follows the source in these places, which a reader might not
expect:

* A reference is followed exactly one hop. There is no cycle detection and no
  "unresolved target" error. A reference to a later mesh whose field is still
  a number copies that number. The only resolution error is a number that
  names no mesh, because indexing nil fails.
* A hole in the colour table is not replaced by white. `undefined >> n` is 0,
  so the hole gives the quadruple (0, 0, 0, 0). White is used only when the
  mesh has no colour table at all.
* Only vertices that some segment names are checked. They are checked lazily,
  in walk order, while the output is built. The first failure is thrown and
  nothing is returned.
* The expanded colour table holds only the slots the selectors write. It is
  not a dense table sized to the vertex count.

## Model

| member | source | states |
|---|---|---|
| `PackedColor.Bits32` | src/main.ts:25 | The operand of `>>` is the value modulo 2^32, so it lies in [0, 2^32). |
| `PackedColor.MakeColor` | src/main.ts:157-162 | `make_color` of four bytes is a 32-bit value. |
| `PackedColor.UnpackPacks` | src/main.ts:24-26 | The four bytes the shifts extract, packed again red first, give back the 32-bit pattern of the colour. |
| `PackedColor.UnpackMakeColor` | src/main.ts:157-162 | Round trip: unpacking `make_color(r, g, b, a)` returns `(r, g, b, a)` for all bytes. |
| `PackedColor.ConvertToFloatColors` | src/main.ts:24-26 | Four components, each in [0, 1]. |
| `PackedColor.FloatColorsRecover` | src/main.ts:24-26 | Scaling the four components back by 255 and packing them recovers the 32-bit pattern, so no information is lost. |
| `PackedColor.UnpackExample` | src/main.ts:24-26 | `0x112233FF` unpacks to (17, 34, 51, 255), that is (17/255, 34/255, 51/255, 1). |
| `ReferenceResolver.ResolveReferences` | src/main.ts:37-43 | Fails exactly when some mesh holds a number naming no mesh, and reports the first such mesh. Otherwise mesh `i` is dereferenced against the resolved meshes before it and the original meshes from `i` on. |
| `ReferenceResolver.ReferenceTarget` | src/main.ts:38-41 | A number field `v` takes the same-named field of mesh `v` (1-based): the resolved value if that mesh comes earlier, the original one if not. Other fields are unchanged. |
| `ReferenceResolver.ResolvedFromUnique` | src/main.ts:37-43 | The resolution result is determined by the input list. |
| `ReferenceResolver.OneHopChains` | src/main.ts:37-43 | A forward chain of references leaves a number in the first mesh. A backward chain resolves every mesh to the table. |
| `ColorDecompressor.DecompressScheme` | src/main.ts:46-58 | The table is the expansion in some order of all the scheme's colours. It holds exactly the slots some selector writes, each with a colour whose selectors write that slot. |
| `ColorDecompressor.ExpansionDecodes` | src/main.ts:46-58 | Whatever order `pairs` takes, the expansion holds exactly the slots some selector writes, each with a colour whose selectors write that slot. |
| `ColorDecompressor.ExpandsToDecodes` | src/main.ts:46-58 | A table the `pairs` loop can leave, for any visiting order, is one of those decodings. |
| `ColorDecompressor.PaintSpanEffect` | src/main.ts:51-53 | `for i = first, last` writes exactly slots first+1 .. last+1, none when first > last, and leaves the other slots unchanged. |
| `ColorDecompressor.PaintEffect` | src/main.ts:49-57 | One colour's selector list writes that colour into exactly the slots its singles and ranges name. Other slots are unchanged. |
| `ColorDecompressor.ExpandDecodes` | src/main.ts:48-58 | In every visiting order, a slot is present exactly when some visited colour's selectors write it, and it holds such a colour. |
| `ColorDecompressor.DecodedSlot` | src/main.ts:48-58 | When the selectors of different colours do not overlap, every slot a colour names holds that colour. |
| `ColorDecompressor.DecodingUnique` | src/main.ts:48-58 | When the selectors do not overlap, the expanded table does not depend on the order of `pairs`. |
| `ColorDecompressor.DecodeExample` | src/main.ts:45-58 | The range [2, 5], the empty range [6, 4] and the vertices 7 and 9 fill slots 3-6, 8 and 10, and no other slot. |
| `LuaHelpers.DecompressColors` | src/main.ts:68-84 | This is `decompress_colors`, and the same loop as lines 44-60. It fails exactly when a mesh's `colors` is a number or a non-empty expanded table, at the first such mesh. Otherwise vertexes and segments are unchanged, an absent `colors` stays absent, and each scheme is replaced by its expansion in one order in which `pairs` may visit its colours. |
| `LuaHelpers.DecompressMeshes` | src/main.ts:36-62 | Fails on a dangling reference exactly when resolution does, at the first such mesh. Otherwise the result is the colour expansion of the unique resolved list, or its first colour failure. |
| `LuaHelpers.ExpandedDecodes` | src/main.ts:44-60 | An expanded mesh's colour table holds exactly the slots its scheme's selectors write, each with a colour that names that slot. |
| `Renderable.CreateRenderable` | src/main.ts:119-147 | The result is `Render(m)`: the first error in check order, or the positions and colours of all endpoints. |
| `Renderable.PushPositions` | src/main.ts:127-134 | Fails exactly when some index of the segment names a missing vertex or one of the wrong dimension, with the first such error. Otherwise it appends the padded vertices of the segment's edges. |
| `Renderable.PushVertex` | src/main.ts:128-130 | Fails exactly when the index does not name a vertex of 2 or 3 coordinates. Otherwise it appends the padded vertex. |
| `Renderable.PushColors` | src/main.ts:136-146 | Appends one quadruple per edge endpoint of the segment. |
| `Renderable.Padded` | src/main.ts:128-133 | Three numbers: x and y are kept, and z is kept or becomes 0 for a 2-D vertex. |
| `Renderable.NoErrorMeansValid` | src/main.ts:124-133 | No error is thrown exactly when: the colour table, if any, has the vertex count; every segment has at least 2 indices; and every named vertex exists with 2 or 3 coordinates. |
| `Renderable.FirstVertexErrorNone` | src/main.ts:127-133 | The vertex walk of a segment passes exactly when every index in it names a drawable vertex. |
| `Renderable.BufferSizes` | src/main.ts:127-146 | Positions have 6 and colours 8 numbers per edge, and a segment of length N has N - 1 edges. |
| `Renderable.EdgesAt` | src/main.ts:127-134 | Edge `e` of a segment is the pair `seg[e], seg[e+1]`. There are 2(N - 1) endpoints. |
| `Renderable.EndpointsAt` | src/main.ts:125-134 | Segments appear in input order. Edge `e` of segment `s` follows the edges of all earlier segments. |
| `Renderable.FlattenEdgeStep` | src/main.ts:127-146 | Each pair step of the walk appends the group of `segment[i - 1]`, then the group of `segment[i]`. |
| `Renderable.FlattenLength` | src/main.ts:127-146 | A buffer of groups of `w` numbers holds `w` numbers per endpoint. |
| `Renderable.FlattenAt` | src/main.ts:127-146 | Numbers `w k` to `w k + w` of a buffer are the group of endpoint `k`. Positions (w = 3) and colours (w = 4) are therefore aligned endpoint by endpoint. |
| `Renderable.EdgeGroups` | src/main.ts:125-146 | The groups of edge `e` of segment `s` are those of `seg[e]` and `seg[e+1]`, side by side, after the groups of all earlier edges. |
| `Renderable.RenderPositions` | src/main.ts:125-134 | In a valid mesh, edge `e` of segment `s` places the padded vertices of `seg[e]` and `seg[e+1]` at triple 2(edges before + e). |
| `Renderable.RenderColors` | src/main.ts:136-146 | The same edge places the quadruples of `seg[e]` and `seg[e+1]` at the same index. |
| `Renderable.NoColorsMeansWhite` | src/main.ts:141-146 | Without a colour table every colour component is 1. |
| `Renderable.UnreferencedVertexIgnored` | src/main.ts:125-133 | Replacing a vertex that no segment names never changes whether rendering succeeds. |
| `Renderable.PolylineExample` | src/main.ts:125-146 | Segment [0, 1, 2] over three 2-D vertices gives v0, v1, v1, v2 with z = 0, and white. |
| `Renderable.DegenerateSegmentExample` | src/main.ts:126 | A one-index segment is rejected. |
| `Renderable.ShortColorTableExample` | src/main.ts:124 | A colour table shorter than the vertex list is rejected. |

## Left out

- Rendering and UI: the Three.js scene, camera, bloom composer, controls, raycasting, events and resizing. These are glue around the core.
- The wasmoon engine: creating it, sandboxing with `doString`, `package.preload`, reading the global and closing the engine. This is asynchronous foreign-runtime I/O. The model covers only the behaviour of the Lua helper bodies.
- The conversion of Lua tables into JavaScript values at the wasmoon boundary. The Lua-side meshes (`MeshDescription.LuaMesh`) and the JavaScript-side `Renderable.Mesh` are not connected. The boundary's behaviour is not visible in the source.
- The `console.warn` on a mesh without colours. It is logging only.
- The demo script's geometry (`add_dot` and the sphere loops with `sin`/`cos`). It is floating-point demo data. Only `make_color` is kept.
- Non-integer numbers: fractional colours, which `>>` truncates through ToInt32, fractional vertex indices and fractional mesh references. Every number in the model is an integer.
- Mesh fields other than `vertexes`, `segments` and `colors`. Resolution treats every key the same way, so only these three are modelled.
- Lua errors from malformed tables: a selector table missing a bound, a mesh entry that is not a table, a group that is not a table. A selector `Span` always has two integer bounds.
- The order in which `pairs` visits colours. It is an unspecified choice in `DecompressScheme`, and overlapping selectors of different colours may leave any of those colours in a slot.
- Mutation of the caller's Lua list. The helpers are modelled as returning the new list.
- One mesh table at more than one position of the list. The source expands it in place on its first visit, so the second visit runs `ipairs` over colour numbers and fails when its expansion was non-empty. The model works on values and expands each position on its own, so it succeeds there. Under `decompress_meshes` the reference loop also sees a repeated table with the fields its earlier position already rewrote, so `ResolveReferences` can differ there too: for meshes `m, x, m` with `m.vertexes = 2` and `x.vertexes = 3`, the source leaves both fields 3.
- Lua's 64-bit integer wrap-around. `make_color` wraps for channels far outside 0..255, and `groupitem + 1` or `i + 1` wrap at `math.maxinteger`. Every integer in the model is unbounded.
- Float arithmetic: `/ 255` is real division, and the `Float32BufferAttribute` packing is not modelled.
- The text of the thrown messages (`JSON.stringify`). The errors carry the offending segment or vertex instead.
