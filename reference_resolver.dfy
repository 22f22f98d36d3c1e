/** The first loop of the Lua helper `decompress_meshes` (src/main.ts): every
    field of a mesh that holds a number `v` is replaced by the same field of
    mesh `v` (1-based), one hop, meshes in list order, in place. */
module ReferenceResolver {
  import opened Wrappers
  import opened MeshDescription

  /** A number field whose mesh does not exist: `meshlist[v]` is nil. */
  predicate Dangles<T>(s: Slot<T>, count: nat)
  {
    s.Num? && !(1 <= s.n <= count)
  }

  predicate HasDanglingReference(m: LuaMesh, count: nat)
  {
    Dangles(m.vertexes, count) || Dangles(m.segments, count) || Dangles(m.colors, count)
  }

  /** Mesh `m` with its number fields dereferenced against `list`, the mesh
      list as it stands when `m` is processed. */
  function ResolveMesh(m: LuaMesh, list: seq<LuaMesh>): LuaMesh
    requires !HasDanglingReference(m, |list|)
  {
    LuaMesh(
      if m.vertexes.Num? then list[m.vertexes.n - 1].vertexes else m.vertexes,
      if m.segments.Num? then list[m.segments.n - 1].segments else m.segments,
      if m.colors.Num? then list[m.colors.n - 1].colors else m.colors)
  }

  /** `r` is the list after resolution: mesh `i` has been dereferenced
      against the already-resolved meshes before it and the still original
      meshes from `i` on. */
  predicate ResolvedFrom(ml: seq<LuaMesh>, r: seq<LuaMesh>)
  {
    && |r| == |ml|
    && forall i :: 0 <= i < |ml| ==>
         !HasDanglingReference(ml[i], |ml|) && r[i] == ResolveMesh(ml[i], r[..i] + ml[i..])
  }

  /** The loop over `ipairs(meshlist)` and, inside it, over `pairs(mesh)`.
      Fails at the first mesh holding a number that names no mesh. */
  method ResolveReferences(meshlist: seq<LuaMesh>) returns (r: Result<seq<LuaMesh>, LuaError>)
    ensures r.Success? ==> ResolvedFrom(meshlist, r.value)
    ensures r.Failure? <==> exists i :: 0 <= i < |meshlist| && HasDanglingReference(meshlist[i], |meshlist|)
    ensures r.Failure? ==>
      && r.error.IndexNilMesh?
      && r.error.mesh < |meshlist|
      && HasDanglingReference(meshlist[r.error.mesh], |meshlist|)
      && forall j :: 0 <= j < r.error.mesh ==> !HasDanglingReference(meshlist[j], |meshlist|)
  {
    var ms := meshlist;
    var n := |ms|;
    for i := 0 to n
      invariant ResolvedPrefix(meshlist, ms, i)
    {
      var mesh := ms[i];
      assert mesh == meshlist[i];
      if HasDanglingReference(mesh, n) {
        return Failure(IndexNilMesh(i));
      }
      // each field reads `meshlist[v][k]` and writes `mesh[k]` only
      if mesh.vertexes.Num? {
        mesh := mesh.(vertexes := ms[mesh.vertexes.n - 1].vertexes);
      }
      if mesh.segments.Num? {
        mesh := mesh.(segments := ms[mesh.segments.n - 1].segments);
      }
      if mesh.colors.Num? {
        mesh := mesh.(colors := ms[mesh.colors.n - 1].colors);
      }
      ResolvedPrefixStep(meshlist, ms, i, mesh);
      ms := ms[i := mesh];
    }
    return Success(ms);
  }

  /** The loop invariant: the first `i` meshes are resolved, the rest are
      untouched. */
  predicate ResolvedPrefix(ml: seq<LuaMesh>, ms: seq<LuaMesh>, i: nat)
  {
    && |ms| == |ml| && i <= |ml|
    && ms[i..] == ml[i..]
    && forall j :: 0 <= j < i ==>
         !HasDanglingReference(ml[j], |ml|) && ms[j] == ResolveMesh(ml[j], ms[..j] + ml[j..])
  }

  lemma ResolvedPrefixStep(ml: seq<LuaMesh>, ms: seq<LuaMesh>, i: nat, mesh: LuaMesh)
    requires ResolvedPrefix(ml, ms, i) && i < |ml|
    requires !HasDanglingReference(ml[i], |ml|) && mesh == ResolveMesh(ml[i], ms)
    ensures ResolvedPrefix(ml, ms[i := mesh], i + 1)
  {
    var ms' := ms[i := mesh];
    assert ms == ms[..i] + ml[i..];
    assert ms'[i + 1..] == ml[i + 1..];
    forall j | 0 <= j < i + 1
      ensures ms'[..j] + ml[j..] == if j < i then ms[..j] + ml[j..] else ms[..i] + ml[i..]
    {
      assert ms'[..j] == ms[..j];
    }
  }

  /** A number field `v` of mesh `i` takes the same-named field of mesh
      `v - 1` (0-based): its resolved value when that mesh comes earlier, its original
      value otherwise. Fields that are not numbers keep their value. */
  lemma ReferenceTarget(ml: seq<LuaMesh>, r: seq<LuaMesh>, i: nat)
    requires ResolvedFrom(ml, r) && i < |ml|
    ensures var m := ml[i];
      && r[i].vertexes == (if !m.vertexes.Num? then m.vertexes
                           else if m.vertexes.n - 1 < i then r[m.vertexes.n - 1].vertexes
                           else ml[m.vertexes.n - 1].vertexes)
      && r[i].segments == (if !m.segments.Num? then m.segments
                           else if m.segments.n - 1 < i then r[m.segments.n - 1].segments
                           else ml[m.segments.n - 1].segments)
      && r[i].colors == (if !m.colors.Num? then m.colors
                         else if m.colors.n - 1 < i then r[m.colors.n - 1].colors
                         else ml[m.colors.n - 1].colors)
  {
    var list := r[..i] + ml[i..];
    assert forall j :: 0 <= j < |ml| ==> list[j] == if j < i then r[j] else ml[j];
  }

  /** The resolved list is determined by the input list. */
  lemma {:induction false} ResolvedFromUnique(ml: seq<LuaMesh>, r1: seq<LuaMesh>, r2: seq<LuaMesh>)
    requires ResolvedFrom(ml, r1) && ResolvedFrom(ml, r2)
    ensures r1 == r2
  {
    var i := 0;
    while i < |ml|
      invariant 0 <= i <= |ml|
      invariant r1[..i] == r2[..i]
    {
      assert r1[i] == r2[i];
      assert r1[..i + 1] == r1[..i] + [r1[i]];
      assert r2[..i + 1] == r2[..i] + [r2[i]];
      i := i + 1;
    }
    assert r1 == r1[..i] && r2 == r2[..i];
  }

  /** One hop only: with mesh 1 pointing at mesh 2 and mesh 2 at mesh 3 (the
      forward chain), mesh 1 receives the number 3; with mesh 3 pointing at
      mesh 2 and mesh 2 at mesh 1 (the backward chain), every mesh receives
      mesh 1's table. */
  lemma OneHopChains(vs: seq<Vertex>, forward: seq<LuaMesh>, backward: seq<LuaMesh>, f: seq<LuaMesh>, b: seq<LuaMesh>)
    requires forward == [LuaMesh(Num(2), Nil, Nil), LuaMesh(Num(3), Nil, Nil), LuaMesh(Table(vs), Nil, Nil)]
    requires backward == [LuaMesh(Table(vs), Nil, Nil), LuaMesh(Num(1), Nil, Nil), LuaMesh(Num(2), Nil, Nil)]
    requires ResolvedFrom(forward, f) && ResolvedFrom(backward, b)
    ensures f[0].vertexes == Num(3) && f[1].vertexes == Table(vs) && f[2].vertexes == Table(vs)
    ensures b[0].vertexes == Table(vs) && b[1].vertexes == Table(vs) && b[2].vertexes == Table(vs)
  {
    ReferenceTarget(forward, f, 0);
    ReferenceTarget(forward, f, 1);
    ReferenceTarget(backward, b, 1);
    ReferenceTarget(backward, b, 2);
  }
}
