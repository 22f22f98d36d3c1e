/** The two Lua helpers preloaded by `parseMesh` (src/main.ts):
    `decompress_colors` expands every mesh's colour scheme;
    `decompress_meshes` first resolves references, then does the same. */
module LuaHelpers {
  import opened Wrappers
  import opened MeshDescription
  import opened ReferenceResolver
  import opened ColorDecompressor

  /** A `colors` field the expansion loop fails on: `pairs` over a number,
      or `ipairs` over the colour numbers of an already expanded, non-empty
      table. */
  predicate BadColors(m: LuaMesh)
  {
    || m.colors.Num?
    || (m.colors.Table? && m.colors.t.Slots? && m.colors.t.slots != map[])
  }

  /** `after` is `before` with its colour scheme expanded: vertexes and
      segments untouched, no `colors` stays no `colors`, a scheme becomes
      its expansion in one order `pairs` may take, an empty table stays
      empty. */
  ghost predicate Expanded(before: LuaMesh, after: LuaMesh)
  {
    && after.vertexes == before.vertexes
    && after.segments == before.segments
    && match before.colors
       case Nil => after.colors == Nil
       case Num(_) => false
       case Table(Compressed(scheme)) =>
         after.colors.Table? && after.colors.t.Slots? && ExpandsTo(scheme, after.colors.t.slots)
       case Table(Slots(slots)) => slots == map[] && after.colors == before.colors
  }

  /** `decompress_colors`: every mesh in list order; fails at the first mesh
      whose `colors` is not a scheme. */
  method DecompressColors(meshlist: seq<LuaMesh>) returns (r: Result<seq<LuaMesh>, LuaError>)
    ensures r.Failure? <==> exists i :: 0 <= i < |meshlist| && BadColors(meshlist[i])
    ensures r.Failure? ==>
      && r.error.ColorsNotScheme?
      && r.error.mesh < |meshlist|
      && BadColors(meshlist[r.error.mesh])
      && forall j :: 0 <= j < r.error.mesh ==> !BadColors(meshlist[j])
    ensures r.Success? ==>
      |r.value| == |meshlist| && forall i :: 0 <= i < |meshlist| ==> Expanded(meshlist[i], r.value[i])
  {
    var ms := meshlist;
    for i := 0 to |ms|
      invariant |ms| == |meshlist|
      invariant ms[i..] == meshlist[i..]
      invariant forall j :: 0 <= j < i ==> !BadColors(meshlist[j]) && Expanded(meshlist[j], ms[j])
    {
      var mesh := ms[i];
      assert mesh == meshlist[i];
      match mesh.colors
      case Nil =>
      case Num(_) =>
        return Failure(ColorsNotScheme(i));
      case Table(Slots(slots)) =>
        if slots != map[] {
          return Failure(ColorsNotScheme(i));
        }
      case Table(Compressed(scheme)) =>
        var table, order := DecompressScheme(scheme);
        ExpansionDecodes(scheme, order);
        ms := ms[i := mesh.(colors := Table(Slots(table)))];
    }
    return Success(ms);
  }

  /** `decompress_meshes`: reference resolution, then colour expansion of
      the resolved list. */
  method DecompressMeshes(meshlist: seq<LuaMesh>) returns (r: Result<seq<LuaMesh>, LuaError>)
    ensures r.Failure? && r.error.IndexNilMesh? <==>
      exists i :: 0 <= i < |meshlist| && HasDanglingReference(meshlist[i], |meshlist|)
    ensures r.Failure? && r.error.IndexNilMesh? ==>
      && r.error.mesh < |meshlist|
      && HasDanglingReference(meshlist[r.error.mesh], |meshlist|)
      && forall j :: 0 <= j < r.error.mesh ==> !HasDanglingReference(meshlist[j], |meshlist|)
    ensures r.Failure? && r.error.ColorsNotScheme? ==>
      exists resolved :: ResolvedFrom(meshlist, resolved)
        && r.error.mesh < |resolved|
        && BadColors(resolved[r.error.mesh])
        && forall j :: 0 <= j < r.error.mesh ==> !BadColors(resolved[j])
    ensures r.Success? ==>
      exists resolved :: ResolvedFrom(meshlist, resolved)
        && |r.value| == |resolved|
        && forall i :: 0 <= i < |resolved| ==> Expanded(resolved[i], r.value[i])
  {
    var resolved := ResolveReferences(meshlist);
    if resolved.Failure? {
      return Failure(resolved.error);
    }
    r := DecompressColors(resolved.value);
  }

  /** Every expanded scheme is a table `DecodesTo` admits. */
  lemma ExpandedDecodes(before: LuaMesh, after: LuaMesh)
    requires Expanded(before, after) && before.colors.Table? && before.colors.t.Compressed?
    ensures after.colors.Table? && after.colors.t.Slots?
    ensures DecodesTo(before.colors.t.scheme, after.colors.t.slots)
  {
    ExpandsToDecodes(before.colors.t.scheme, after.colors.t.slots);
  }
}
