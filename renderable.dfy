/** `createRenderable` (src/main.ts) up to the buffer construction: check a
    mesh, then walk its segments and push two padded position triples and
    two colour quadruples per consecutive index pair (line-list layout). */
module Renderable {
  import opened Wrappers
  import opened PackedColor
  import opened MeshDescription

  /** The `Mesh` record handed over from Lua. `colors` is absent
      (`undefined`) or an array whose entries may be holes. */
  datatype Mesh = Mesh(vertexes: seq<Vertex>, segments: seq<seq<int>>, colors: Option<seq<Option<int>>>)

  /** What `createRenderable` throws; the thrown messages embed the
      offending segment or vertex. */
  datatype RenderError =
    | InvalidColorTableLength
    | InvalidSegment(segment: seq<int>)
    | InvalidVertex(vertex: Vertex)
    | UndefinedVertex(index: int)   // `vertexes[i].length` on a missing vertex

  /** The flat `points` and `colors` arrays. */
  datatype Buffers = Buffers(points: seq<real>, colors: seq<real>)

  /** Index `e` names a vertex with two or three coordinates. */
  predicate Drawable(vs: seq<Vertex>, e: int)
  {
    0 <= e < |vs| && (|vs[e]| == 2 || |vs[e]| == 3)
  }

  /** The mesh passes every check `createRenderable` makes. Vertices no
      segment names are not looked at. */
  ghost predicate Valid(m: Mesh)
  {
    && (m.colors.Some? ==> |m.colors.value| == |m.vertexes|)
    && (forall s :: 0 <= s < |m.segments| ==> |m.segments[s]| >= 2)
    && (forall s, k :: 0 <= s < |m.segments| && 0 <= k < |m.segments[s]| ==> Drawable(m.vertexes, m.segments[s][k]))
  }

  // ---------------------------------------------------------------------
  // The checks, in the order the source makes them
  // ---------------------------------------------------------------------

  function VertexError(vs: seq<Vertex>, e: int): Option<RenderError>
  {
    if !(0 <= e < |vs|) then Some(UndefinedVertex(e))
    else if |vs[e]| == 3 || |vs[e]| == 2 then None
    else Some(InvalidVertex(vs[e]))
  }

  /** The first failing vertex check along `seg`. The pair walk checks
      `seg[0], seg[1], seg[1], seg[2], ...`, so this is the first failing
      index in segment order. */
  function FirstVertexError(vs: seq<Vertex>, seg: seq<int>): Option<RenderError>
  {
    if seg == [] then None
    else
      var before := FirstVertexError(vs, seg[..|seg| - 1]);
      if before.Some? then before else VertexError(vs, seg[|seg| - 1])
  }

  function SegmentError(vs: seq<Vertex>, seg: seq<int>): Option<RenderError>
  {
    if |seg| < 2 then Some(InvalidSegment(seg)) else FirstVertexError(vs, seg)
  }

  function FirstSegmentError(vs: seq<Vertex>, segs: seq<seq<int>>): Option<RenderError>
  {
    if segs == [] then None
    else
      var before := FirstSegmentError(vs, segs[..|segs| - 1]);
      if before.Some? then before else SegmentError(vs, segs[|segs| - 1])
  }

  /** The error `createRenderable` throws for `m`, if any. */
  function MeshError(m: Mesh): Option<RenderError>
  {
    if m.colors.Some? && |m.vertexes| != |m.colors.value| then Some(InvalidColorTableLength)
    else FirstSegmentError(m.vertexes, m.segments)
  }

  // ---------------------------------------------------------------------
  // The buffers, as functions of the mesh
  // ---------------------------------------------------------------------

  /** The vertex indices of one segment's edges: `seg[i-1], seg[i]` for
      `i = 1 .. |seg| - 1`. */
  function Edges(seg: seq<int>): seq<int>
  {
    if |seg| < 2 then []
    else Edges(seg[..|seg| - 1]) + [seg[|seg| - 2], seg[|seg| - 1]]
  }

  /** The edge endpoints of all segments, in segment order. */
  function Endpoints(segs: seq<seq<int>>): seq<int>
  {
    if segs == [] then [] else Endpoints(segs[..|segs| - 1]) + Edges(segs[|segs| - 1])
  }

  /** A vertex as pushed: three coordinates copied, two padded with z = 0. */
  function Padded(v: Vertex): (p: seq<real>)
    requires |v| == 2 || |v| == 3
    ensures |p| == 3 && p[0] == v[0] && p[1] == v[1]
    ensures p[2] == if |v| == 3 then v[2] else 0.0
  {
    if |v| == 3 then v else v + [0.0]
  }

  /** The position triple pushed for endpoint `e`. An endpoint that cannot
      be drawn never reaches the buffers, because the walk throws first; it
      is given zeros here only so that every endpoint has a triple. */
  function Point(vs: seq<Vertex>, e: int): (p: seq<real>)
    ensures |p| == 3
  {
    if Drawable(vs, e) then Padded(vs[e]) else [0.0, 0.0, 0.0]
  }

  /** The number a colour-table entry contributes: a hole is `undefined`,
      and `undefined >> n` is 0. */
  function ColorValue(table: seq<Option<int>>, e: int): int
  {
    if 0 <= e < |table| && table[e].Some? then table[e].value else 0
  }

  const White: seq<real> := [1.0, 1.0, 1.0, 1.0]

  /** The colour quadruple pushed for endpoint `e`. */
  function Quad(colors: Option<seq<Option<int>>>, e: int): (q: seq<real>)
    ensures |q| == 4
  {
    if colors.None? then White else ConvertToFloatColors(ColorValue(colors.value, e))
  }

  function PointOf(vs: seq<Vertex>): int -> seq<real>
  {
    e => Point(vs, e)
  }

  function QuadOf(colors: Option<seq<Option<int>>>): int -> seq<real>
  {
    e => Quad(colors, e)
  }

  /** The layout both buffers share: one group of numbers per endpoint, in
      endpoint order. */
  function Flatten(ends: seq<int>, f: int -> seq<real>): seq<real>
  {
    if ends == [] then [] else Flatten(ends[..|ends| - 1], f) + f(ends[|ends| - 1])
  }

  /** Every group `f` produces has `w` numbers. */
  ghost predicate Width(f: int -> seq<real>, w: nat)
  {
    forall e :: |f(e)| == w
  }

  function Positions(vs: seq<Vertex>, ends: seq<int>): seq<real>
  {
    Flatten(ends, PointOf(vs))
  }

  function Quads(colors: Option<seq<Option<int>>>, ends: seq<int>): seq<real>
  {
    Flatten(ends, QuadOf(colors))
  }

  /** Total edges: a segment of length N has N - 1. */
  function EdgeCount(segs: seq<seq<int>>): int
  {
    if segs == [] then 0 else EdgeCount(segs[..|segs| - 1]) + |segs[|segs| - 1]| - 1
  }

  /** What `createRenderable` produces for `m`. */
  function Render(m: Mesh): Result<Buffers, RenderError>
  {
    if MeshError(m).Some? then Failure(MeshError(m).value)
    else
      var ends := Endpoints(m.segments);
      Success(Buffers(Positions(m.vertexes, ends), Quads(m.colors, ends)))
  }

  // ---------------------------------------------------------------------
  // The method
  // ---------------------------------------------------------------------

  /** `createRenderable` up to the `BufferGeometry`: the colour-table
      check, then the `forEach` over the segments. */
  method CreateRenderable(m: Mesh) returns (r: Result<Buffers, RenderError>)
    ensures r == Render(m)
  {
    var vs, segs := m.vertexes, m.segments;
    var points: seq<real> := [];
    var colors: seq<real> := [];
    if m.colors.Some? && |vs| != |m.colors.value| {
      return Failure(InvalidColorTableLength);
    }
    for s := 0 to |segs|
      invariant FirstSegmentError(vs, segs[..s]) == None
      invariant points == Positions(vs, Endpoints(segs[..s]))
      invariant colors == Quads(m.colors, Endpoints(segs[..s]))
    {
      var segment := segs[s];
      assert segs[..s + 1][..s] == segs[..s];
      if |segment| < 2 {
        FirstErrorStays(vs, segs, s + 1);
        return Failure(InvalidSegment(segment));
      }
      var pushed := PushPositions(vs, segment, points, Endpoints(segs[..s]));
      if pushed.Failure? {
        FirstErrorStays(vs, segs, s + 1);
        return Failure(pushed.error);
      }
      points := pushed.value;
      colors := PushColors(m.colors, segment, colors, Endpoints(segs[..s]));
      assert Endpoints(segs[..s + 1]) == Endpoints(segs[..s]) + Edges(segment);
    }
    assert segs[..|segs|] == segs;
    r := Success(Buffers(points, colors));
    assert MeshError(m) == None;
  }

  /** The position loop of the `forEach` callback: for each pair, check and
      push `segment[i - 1]`, then `segment[i]`. */
  method PushPositions(vs: seq<Vertex>, segment: seq<int>, points: seq<real>, ghost done: seq<int>)
    returns (r: Result<seq<real>, RenderError>)
    requires |segment| >= 2 && points == Positions(vs, done)
    ensures r.Failure? <==> FirstVertexError(vs, segment).Some?
    ensures r.Failure? ==> Some(r.error) == FirstVertexError(vs, segment)
    ensures r.Success? ==> r.value == Positions(vs, done + Edges(segment))
  {
    var acc := points;
    assert done + Edges(segment[..1]) == done;
    for i := 1 to |segment|
      invariant i == 1 || FirstVertexError(vs, segment[..i]) == None
      invariant acc == Positions(vs, done + Edges(segment[..i]))
    {
      assert segment[..i + 1][..i] == segment[..i];
      var pa := PushVertex(vs, segment[i - 1], acc);
      if pa.Failure? {
        FirstVertexErrorStays(vs, segment, i);
        return Failure(pa.error);
      }
      assert FirstVertexError(vs, segment[..i]) == None by {
        if i == 1 {
          assert segment[..1][..0] == [];
        }
      }
      var pb := PushVertex(vs, segment[i], pa.value);
      if pb.Failure? {
        FirstVertexErrorStays(vs, segment, i + 1);
        return Failure(pb.error);
      }
      FlattenEdgeStep(PointOf(vs), done, segment, i);
      acc := pb.value;
    }
    assert segment[..|segment|] == segment;
    return Success(acc);
  }

  /** Lines 128-130 (and 131-133): push a three-coordinate vertex as it
      is, a two-coordinate one followed by 0, throw otherwise. */
  method PushVertex(vs: seq<Vertex>, e: int, points: seq<real>) returns (r: Result<seq<real>, RenderError>)
    ensures r.Failure? <==> !Drawable(vs, e)
    ensures r.Failure? ==> Some(r.error) == VertexError(vs, e)
    ensures r.Success? ==> r.value == points + Padded(vs[e])
  {
    if !(0 <= e < |vs|) {
      return Failure(UndefinedVertex(e));
    }
    if |vs[e]| == 3 {
      r := Success(points + vs[e]);
    } else if |vs[e]| == 2 {
      r := Success(points + vs[e] + [0.0]);
    } else {
      r := Failure(InvalidVertex(vs[e]));
    }
  }

  /** The colour loop of the `forEach` callback: the unpacked colour of each
      endpoint, or white for both when the mesh has no colour table. */
  method PushColors(cs: Option<seq<Option<int>>>, segment: seq<int>, colors: seq<real>, ghost done: seq<int>)
    returns (r: seq<real>)
    requires |segment| >= 1 && colors == Quads(cs, done)
    ensures r == Quads(cs, done + Edges(segment))
  {
    r := colors;
    assert done + Edges(segment[..1]) == done;
    if cs.Some? {
      for i := 1 to |segment|
        invariant r == Quads(cs, done + Edges(segment[..i]))
      {
        FlattenEdgeStep(QuadOf(cs), done, segment, i);
        r := r + ConvertToFloatColors(ColorValue(cs.value, segment[i - 1]));
        r := r + ConvertToFloatColors(ColorValue(cs.value, segment[i]));
      }
    } else {
      for i := 1 to |segment|
        invariant r == Quads(cs, done + Edges(segment[..i]))
      {
        FlattenEdgeStep(QuadOf(cs), done, segment, i);
        r := r + [1.0, 1.0, 1.0, 1.0];
        r := r + [1.0, 1.0, 1.0, 1.0];
      }
    }
    assert segment[..|segment|] == segment;
  }

  /** One more pair of the walk appends the groups of its two endpoints. */
  lemma FlattenEdgeStep(f: int -> seq<real>, done: seq<int>, segment: seq<int>, i: nat)
    requires 1 <= i < |segment|
    ensures Flatten(done + Edges(segment[..i + 1]), f)
      == Flatten(done + Edges(segment[..i]), f) + f(segment[i - 1]) + f(segment[i])
  {
    assert segment[..i + 1][..i] == segment[..i];
    var ends := done + Edges(segment[..i]);
    assert done + Edges(segment[..i + 1]) == ends + [segment[i - 1], segment[i]];
    assert (ends + [segment[i - 1], segment[i]])[..|ends| + 1] == ends + [segment[i - 1]];
    assert (ends + [segment[i - 1]])[..|ends|] == ends;
  }

  // ---------------------------------------------------------------------
  // Validation: the error checks succeed exactly on valid meshes
  // ---------------------------------------------------------------------

  /** An error in a prefix of the walk is the error of the whole walk. */
  lemma {:induction false} FirstVertexErrorStays(vs: seq<Vertex>, seg: seq<int>, k: nat)
    requires k <= |seg| && FirstVertexError(vs, seg[..k]).Some?
    ensures FirstVertexError(vs, seg) == FirstVertexError(vs, seg[..k])
  {
    if k < |seg| {
      var init := seg[..|seg| - 1];
      assert init[..k] == seg[..k];
      FirstVertexErrorStays(vs, init, k);
    } else {
      assert seg[..k] == seg;
    }
  }

  lemma {:induction false} FirstErrorStays(vs: seq<Vertex>, segs: seq<seq<int>>, k: nat)
    requires k <= |segs| && FirstSegmentError(vs, segs[..k]).Some?
    ensures FirstSegmentError(vs, segs) == FirstSegmentError(vs, segs[..k])
  {
    if k < |segs| {
      var init := segs[..|segs| - 1];
      assert init[..k] == segs[..k];
      FirstErrorStays(vs, init, k);
    } else {
      assert segs[..k] == segs;
    }
  }

  /** The vertex walk of a segment succeeds exactly when every index of the
      segment names a vertex with two or three coordinates. */
  lemma {:induction false} FirstVertexErrorNone(vs: seq<Vertex>, seg: seq<int>)
    ensures FirstVertexError(vs, seg) == None <==> forall k :: 0 <= k < |seg| ==> Drawable(vs, seg[k])
  {
    if seg != [] {
      var init := seg[..|seg| - 1];
      FirstVertexErrorNone(vs, init);
      assert forall k :: 0 <= k < |init| ==> init[k] == seg[k];
    }
  }

  lemma {:induction false} FirstSegmentErrorNone(vs: seq<Vertex>, segs: seq<seq<int>>)
    ensures FirstSegmentError(vs, segs) == None <==>
      && (forall s :: 0 <= s < |segs| ==> |segs[s]| >= 2)
      && (forall s, k :: 0 <= s < |segs| && 0 <= k < |segs[s]| ==> Drawable(vs, segs[s][k]))
  {
    if segs != [] {
      var init, last := segs[..|segs| - 1], segs[|segs| - 1];
      FirstSegmentErrorNone(vs, init);
      FirstVertexErrorNone(vs, last);
      assert forall s :: 0 <= s < |init| ==> init[s] == segs[s];
    }
  }

  /** `createRenderable` throws exactly on invalid meshes: a colour table
      whose length differs from the vertex count, a segment shorter than
      two, or a segment naming a missing vertex or one with a dimension
      other than 2 or 3. */
  lemma NoErrorMeansValid(m: Mesh)
    ensures MeshError(m) == None <==> Valid(m)
  {
    FirstSegmentErrorNone(m.vertexes, m.segments);
  }

  // ---------------------------------------------------------------------
  // Layout of the buffers
  // ---------------------------------------------------------------------

  /** Edge `e` of a segment is the pair `seg[e], seg[e + 1]`. */
  lemma {:induction false} EdgesAt(seg: seq<int>, e: nat)
    requires |seg| >= 2 && e < |seg| - 1
    ensures |Edges(seg)| == 2 * (|seg| - 1)
    ensures Edges(seg)[2 * e] == seg[e] && Edges(seg)[2 * e + 1] == seg[e + 1]
  {
    var init := seg[..|seg| - 1];
    if e < |init| - 1 {
      EdgesAt(init, e);
    } else if |init| >= 2 {
      EdgesAt(init, 0);
    }
  }

  lemma {:induction false} EdgesLength(seg: seq<int>)
    ensures |Edges(seg)| == if |seg| < 2 then 0 else 2 * (|seg| - 1)
  {
    if |seg| >= 2 {
      EdgesLength(seg[..|seg| - 1]);
    }
  }

  /** Two endpoints per edge, over every segment. */
  lemma {:induction false} EndpointsLength(segs: seq<seq<int>>)
    requires forall s :: 0 <= s < |segs| ==> |segs[s]| >= 2
    ensures |Endpoints(segs)| == 2 * EdgeCount(segs)
  {
    if segs != [] {
      EndpointsLength(segs[..|segs| - 1]);
      EdgesLength(segs[|segs| - 1]);
    }
  }

  lemma PointWidth(vs: seq<Vertex>)
    ensures Width(PointOf(vs), 3)
  {
    forall e ensures |PointOf(vs)(e)| == 3 {
      assert PointOf(vs)(e) == Point(vs, e);
    }
  }

  lemma QuadWidth(cs: Option<seq<Option<int>>>)
    ensures Width(QuadOf(cs), 4)
  {
    forall e ensures |QuadOf(cs)(e)| == 4 {
      assert QuadOf(cs)(e) == Quad(cs, e);
    }
  }

  /** A buffer holds `w` numbers per endpoint. */
  lemma {:induction false} FlattenLength(ends: seq<int>, f: int -> seq<real>, w: nat)
    requires Width(f, w)
    ensures |Flatten(ends, f)| == w * |ends|
  {
    if ends != [] {
      var init := ends[..|ends| - 1];
      FlattenLength(init, f, w);
      WidthAt(f, w, ends[|ends| - 1]);
      MulSucc(w, |init|);
    }
  }

  lemma WidthAt(f: int -> seq<real>, w: nat, e: int)
    requires Width(f, w)
    ensures |f(e)| == w
  {
  }

  lemma MulSucc(w: nat, n: nat)
    ensures w * (n + 1) == w * n + w
  {
  }

  /** Group `k` of a buffer, numbers `w * k` to `w * k + w`, is the group of
      endpoint `k`. */
  lemma {:induction false} FlattenAt(ends: seq<int>, f: int -> seq<real>, w: nat, k: nat)
    requires Width(f, w) && k < |ends|
    ensures var b := Flatten(ends, f);
      w * k + w <= |b| && b[w * k .. w * k + w] == f(ends[k])
  {
    var init, last := ends[..|ends| - 1], ends[|ends| - 1];
    var front := Flatten(init, f);
    FlattenLength(init, f, w);
    WidthAt(f, w, last);
    if k < |init| {
      FlattenAt(init, f, w, k);
      assert ends[k] == init[k];
      SliceInLeft(front, f(last), w * k, w * k + w);
    } else {
      SliceRight(front, f(last));
    }
  }

  /** Groups `k` and `k + 1`, side by side. */
  lemma FlattenPairAt(ends: seq<int>, f: int -> seq<real>, w: nat, k: nat)
    requires Width(f, w) && k + 1 < |ends|
    ensures var b := Flatten(ends, f);
      && w * k + 2 * w <= |b|
      && b[w * k .. w * k + w] == f(ends[k])
      && b[w * k + w .. w * k + 2 * w] == f(ends[k + 1])
  {
    FlattenAt(ends, f, w, k);
    FlattenAt(ends, f, w, k + 1);
    MulSucc(w, k);
  }

  lemma SliceInLeft<T>(a: seq<T>, b: seq<T>, i: nat, j: nat)
    requires i <= j <= |a|
    ensures (a + b)[i..j] == a[i..j]
  {
  }

  lemma SliceRight<T>(a: seq<T>, b: seq<T>)
    ensures (a + b)[|a|..|a| + |b|] == b
  {
  }

  /** Output size: every edge contributes two position triples and two
      colour quadruples, so 6 and 8 numbers. */
  lemma BufferSizes(m: Mesh)
    requires Render(m).Success?
    ensures |Render(m).value.points| == 6 * EdgeCount(m.segments)
    ensures |Render(m).value.colors| == 8 * EdgeCount(m.segments)
  {
    NoErrorMeansValid(m);
    var ends := Endpoints(m.segments);
    EndpointsLength(m.segments);
    PointWidth(m.vertexes);
    QuadWidth(m.colors);
    FlattenLength(ends, PointOf(m.vertexes), 3);
    FlattenLength(ends, QuadOf(m.colors), 4);
  }

  lemma {:induction false} EndpointsAppend(a: seq<seq<int>>, b: seq<seq<int>>)
    ensures Endpoints(a + b) == Endpoints(a) + Endpoints(b)
    decreases |b|
  {
    if b != [] {
      var init := b[..|b| - 1];
      assert (a + b)[..|a + b| - 1] == a + init;
      EndpointsAppend(a, init);
    } else {
      assert a + b == a;
    }
  }

  /** Segments in input order, and edge `e` of segment `s` emits
      `segs[s][e]` then `segs[s][e + 1]`, right after the edges of the
      segments before `s`. */
  lemma EndpointsAt(segs: seq<seq<int>>, s: nat, e: nat)
    requires forall t :: 0 <= t < |segs| ==> |segs[t]| >= 2
    requires s < |segs| && e < |segs[s]| - 1
    ensures var ends, k := Endpoints(segs), 2 * (EdgeCount(segs[..s]) + e);
      0 <= k && k + 1 < |ends| && ends[k] == segs[s][e] && ends[k + 1] == segs[s][e + 1]
  {
    EndpointsBeforeLength(segs, s);
    EdgesAt(segs[s], e);
    EndpointsInSegment(segs, s, 2 * e);
    EndpointsInSegment(segs, s, 2 * e + 1);
  }

  lemma EndpointsBeforeLength(segs: seq<seq<int>>, s: nat)
    requires forall t :: 0 <= t < |segs| ==> |segs[t]| >= 2
    requires s <= |segs|
    ensures |Endpoints(segs[..s])| == 2 * EdgeCount(segs[..s])
  {
    var pre := segs[..s];
    assert forall t :: 0 <= t < |pre| ==> pre[t] == segs[t];
    EndpointsLength(pre);
  }

  /** Endpoint `j` of segment `s` sits right after the endpoints of the
      segments before it. */
  lemma EndpointsInSegment(segs: seq<seq<int>>, s: nat, j: nat)
    requires s < |segs| && j < |Edges(segs[s])|
    ensures var before := |Endpoints(segs[..s])|;
      before + j < |Endpoints(segs)| && Endpoints(segs)[before + j] == Edges(segs[s])[j]
  {
    EndpointsSplit(segs, s);
    MiddleIndex(Endpoints(segs[..s]), Edges(segs[s]), Endpoints(segs[s + 1..]), j);
  }

  lemma MiddleIndex<T>(a: seq<T>, b: seq<T>, c: seq<T>, i: nat)
    requires i < |b|
    ensures |a| + i < |a + b + c| && (a + b + c)[|a| + i] == b[i]
  {
  }

  /** The endpoints are those of the segments before `s`, then those of
      `s`, then those of the segments after it. */
  lemma EndpointsSplit(segs: seq<seq<int>>, s: nat)
    requires s < |segs|
    ensures Endpoints(segs) == Endpoints(segs[..s]) + Edges(segs[s]) + Endpoints(segs[s + 1..])
  {
    var front := segs[..s] + [segs[s]];
    Decompose(segs, s);
    EndpointsAppend(front, segs[s + 1..]);
    EndpointsAppend(segs[..s], [segs[s]]);
    EndpointsSingle(segs[s]);
  }

  lemma Decompose<T>(xs: seq<T>, i: nat)
    requires i < |xs|
    ensures xs == xs[..i] + [xs[i]] + xs[i + 1..]
  {
  }

  lemma EndpointsSingle(seg: seq<int>)
    ensures Endpoints([seg]) == Edges(seg)
  {
    assert [seg][..0] == [];
  }

  /** The groups of edge `e` of segment `s`: those of `segs[s][e]` and
      `segs[s][e + 1]`, side by side, after the groups of all earlier
      edges. */
  lemma EdgeGroups(f: int -> seq<real>, w: nat, segs: seq<seq<int>>, s: nat, e: nat)
    requires Width(f, w)
    requires forall t :: 0 <= t < |segs| ==> |segs[t]| >= 2
    requires s < |segs| && e < |segs[s]| - 1
    ensures var b, k := Flatten(Endpoints(segs), f), 2 * (EdgeCount(segs[..s]) + e);
      && 0 <= k && w * k + 2 * w <= |b|
      && b[w * k .. w * k + w] == f(segs[s][e])
      && b[w * k + w .. w * k + 2 * w] == f(segs[s][e + 1])
  {
    var ends, k := Endpoints(segs), 2 * (EdgeCount(segs[..s]) + e);
    EndpointsAt(segs, s, e);
    assert ends[k] == segs[s][e] && ends[k + 1] == segs[s][e + 1];
    FlattenPairAt(ends, f, w, k);
  }

  /** A valid mesh renders to the buffers of its endpoints. */
  lemma RenderValid(m: Mesh)
    requires Valid(m)
    ensures Render(m) == Success(Buffers(Positions(m.vertexes, Endpoints(m.segments)), Quads(m.colors, Endpoints(m.segments))))
  {
    NoErrorMeansValid(m);
  }

  /** Where edge `e` of segment `s` of a valid mesh lands in the
      positions: the padded vertices `segs[s][e]` and `segs[s][e + 1]`, at
      triple `2 * (edges before s + e)`. */
  lemma RenderPositions(m: Mesh, s: nat, e: nat)
    requires Valid(m) && s < |m.segments| && e < |m.segments[s]| - 1
    ensures Render(m).Success?
    ensures var p, k := Render(m).value.points, 2 * (EdgeCount(m.segments[..s]) + e);
      && 0 <= k && 3 * k + 6 <= |p|
      && p[3 * k .. 3 * k + 3] == Padded(m.vertexes[m.segments[s][e]])
      && p[3 * k + 3 .. 3 * k + 6] == Padded(m.vertexes[m.segments[s][e + 1]])
  {
    var vs, segs := m.vertexes, m.segments;
    RenderValid(m);
    PointWidth(vs);
    EdgeGroups(PointOf(vs), 3, segs, s, e);
    assert Point(vs, segs[s][e]) == Padded(vs[segs[s][e]]);
    assert Point(vs, segs[s][e + 1]) == Padded(vs[segs[s][e + 1]]);
  }

  /** The colour quadruples of that edge: one per endpoint, aligned with
      the positions. */
  lemma RenderColors(m: Mesh, s: nat, e: nat)
    requires Valid(m) && s < |m.segments| && e < |m.segments[s]| - 1
    ensures Render(m).Success?
    ensures var c, k := Render(m).value.colors, 2 * (EdgeCount(m.segments[..s]) + e);
      && 0 <= k && 4 * k + 8 <= |c|
      && c[4 * k .. 4 * k + 4] == Quad(m.colors, m.segments[s][e])
      && c[4 * k + 4 .. 4 * k + 8] == Quad(m.colors, m.segments[s][e + 1])
  {
    RenderValid(m);
    QuadWidth(m.colors);
    EdgeGroups(QuadOf(m.colors), 4, m.segments, s, e);
  }

  lemma {:induction false} AllWhite(ends: seq<int>)
    ensures forall j :: 0 <= j < |Quads(None, ends)| ==> Quads(None, ends)[j] == 1.0
  {
    if ends != [] {
      var init := ends[..|ends| - 1];
      AllWhite(init);
      assert Quads(None, ends) == Quads(None, init) + White;
    }
  }

  /** Without a colour table every colour component is 1. */
  lemma NoColorsMeansWhite(m: Mesh)
    requires m.colors.None? && Render(m).Success?
    ensures forall j :: 0 <= j < |Render(m).value.colors| ==> Render(m).value.colors[j] == 1.0
  {
    AllWhite(Endpoints(m.segments));
  }

  /** Vertices that no segment names are never checked: replacing one by
      anything, even a vertex of the wrong dimension, does not change
      whether `createRenderable` succeeds. */
  lemma UnreferencedVertexIgnored(m: Mesh, x: nat, v: Vertex)
    requires x < |m.vertexes|
    requires forall s, k :: 0 <= s < |m.segments| && 0 <= k < |m.segments[s]| ==> m.segments[s][k] != x
    ensures Render(m).Success? <==> Render(m.(vertexes := m.vertexes[x := v])).Success?
  {
    NoErrorMeansValid(m);
    NoErrorMeansValid(m.(vertexes := m.vertexes[x := v]));
  }

  /** Worked example: segment [0, 1, 2] over three 2-D vertices gives the
      four triples v0, v1, v1, v2, each with z = 0, and white colours. */
  lemma PolylineExample(x0: real, y0: real, x1: real, y1: real, x2: real, y2: real)
    ensures Render(Mesh([[x0, y0], [x1, y1], [x2, y2]], [[0, 1, 2]], None))
      == Success(Buffers([x0, y0, 0.0, x1, y1, 0.0, x1, y1, 0.0, x2, y2, 0.0], White + White + White + White))
  {
    var vs := [[x0, y0], [x1, y1], [x2, y2]];
    var m := Mesh(vs, [[0, 1, 2]], None);
    assert Edges([0, 1, 2]) == [0, 1, 1, 2] by {
      assert [0, 1, 2][..2] == [0, 1];
      assert [0, 1][..1] == [0];
    }
    assert Endpoints([[0, 1, 2]]) == [0, 1, 1, 2] by {
      assert [[0, 1, 2]][..0] == [];
    }
    assert Valid(m);
    RenderValid(m);
    PolylinePositions(x0, y0, x1, y1, x2, y2);
    PolylineColors();
  }

  lemma PolylineColors()
    ensures Quads(None, [0, 1, 1, 2]) == White + White + White + White
  {
    var ends := [0, 1, 1, 2];
    assert ends[..3] == [0, 1, 1] && [0, 1, 1][..2] == [0, 1] && [0, 1][..1] == [0] && [0][..0] == [];
    assert Quads(None, [0]) == White;
    assert Quads(None, [0, 1]) == White + White;
    assert Quads(None, [0, 1, 1]) == White + White + White;
  }

  lemma PolylinePositions(x0: real, y0: real, x1: real, y1: real, x2: real, y2: real)
    ensures Positions([[x0, y0], [x1, y1], [x2, y2]], [0, 1, 1, 2])
      == [x0, y0, 0.0, x1, y1, 0.0, x1, y1, 0.0, x2, y2, 0.0]
  {
    var vs := [[x0, y0], [x1, y1], [x2, y2]];
    var ends := [0, 1, 1, 2];
    assert ends[..3] == [0, 1, 1] && [0, 1, 1][..2] == [0, 1] && [0, 1][..1] == [0] && [0][..0] == [];
    assert Positions(vs, [0]) == [x0, y0, 0.0];
    assert Positions(vs, [0, 1]) == [x0, y0, 0.0, x1, y1, 0.0];
    assert Positions(vs, [0, 1, 1]) == [x0, y0, 0.0, x1, y1, 0.0, x1, y1, 0.0];
  }

  /** Worked example: a one-index segment is rejected. */
  lemma DegenerateSegmentExample(vs: seq<Vertex>)
    ensures Render(Mesh(vs, [[0]], None)) == Failure(InvalidSegment([0]))
  {
    assert [[0]][..0] == [];
    assert SegmentError(vs, [0]) == Some(InvalidSegment([0]));
    assert FirstSegmentError(vs, [[0]]) == Some(InvalidSegment([0]));
  }

  /** Worked example: a colour table shorter than the vertex list is
      rejected, whatever the segments. */
  lemma ShortColorTableExample(vs: seq<Vertex>, segs: seq<seq<int>>, table: seq<Option<int>>)
    requires |table| < |vs|
    ensures Render(Mesh(vs, segs, Some(table))) == Failure(InvalidColorTableLength)
  {
  }
}
