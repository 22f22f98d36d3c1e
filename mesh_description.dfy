/** The mesh collection as the Lua helpers of src/main.ts see it: a list of
    tables with the fields `vertexes`, `segments` and `colors`. */
module MeshDescription {

  /** A field of a mesh table: absent (nil), a number (a reference to the
      mesh with that 1-based position), or a table. */
  datatype Slot<T> = Nil | Num(n: int) | Table(t: T)

  /** One entry of a colour's selector list: a 0-based vertex index, an
      inclusive range `{first, last}`, or a value of any other Lua type,
      which the helpers skip. */
  datatype Selector = Single(n: int) | Span(first: int, last: int) | Ignored

  /** A compressed colour scheme: packed colour to its selectors. */
  type Scheme = map<int, seq<Selector>>

  /** The `colors` table: compressed before the helpers run, a map from Lua
      slot (vertex index + 1) to packed colour after. */
  datatype ColorTable = Compressed(scheme: Scheme) | Slots(slots: map<int, int>)

  type Vertex = seq<real>

  datatype LuaMesh = LuaMesh(
    vertexes: Slot<seq<Vertex>>,
    segments: Slot<seq<seq<int>>>,
    colors: Slot<ColorTable>)

  /** The Lua runtime errors the helpers can raise, with the 0-based
      position of the mesh being processed. */
  datatype LuaError =
    | IndexNilMesh(mesh: nat)   // `meshlist[v][k]` with no mesh at `v`
    | ColorsNotScheme(mesh: nat) // `pairs`/`ipairs` over a `colors` that is not a scheme
}
