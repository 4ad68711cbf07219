/** The chunk-scoped mesh accumulator of `mesh.rs`: three growable
    sequences (positions, UVs, flat triangle indices) and the fan
    triangulation of a cell around its centre. */
module MeshBuild {
  import opened Bytes

  /** A vertex position, `[f32; 3]`. */
  datatype Vec3 = Vec3(x: F32, y: F32, z: F32)

  /** A texture coordinate, `[f32; 2]`. */
  datatype Uv = Uv(u: F32, v: F32)

  /** Three vertex indices, `[usize; 3]`. */
  datatype Triangle = Triangle(i0: nat, i1: nat, i2: nat)

  datatype MeshStats = MeshStats(vertexCount: nat, triangleCount: nat)

  /** The value a `Mesh` holds at one moment. */
  datatype MeshData = MeshData(vertices: seq<Vec3>, uvs0: seq<Uv>, indices: seq<nat>)

  const EMPTY_MESH: MeshData := MeshData([], [], [])

  /** The invariants the generator keeps: one UV per position, whole
      triangles only, and every index naming an existing vertex. */
  predicate WellFormed(m: MeshData)
  {
    && |m.vertices| == |m.uvs0|
    && |m.indices| % 3 == 0
    && forall k :: 0 <= k < |m.indices| ==> m.indices[k] < |m.vertices|
  }

  function Corners(t: Triangle): seq<nat>
  {
    [t.i0, t.i1, t.i2]
  }

  /** The flat index list that `add_triangle` builds from a list of triangles. */
  function Flatten(ts: seq<Triangle>): (r: seq<nat>)
    ensures |r| == 3 * |ts|
  {
    if ts == [] then [] else Flatten(ts[..|ts| - 1]) + Corners(ts[|ts| - 1])
  }

  /** Corner `j` of triangle `k` sits at position `3k + j` of the flat list. */
  lemma {:induction false} FlattenAt(ts: seq<Triangle>, k: nat, j: nat)
    requires k < |ts| && j < 3
    ensures Flatten(ts)[3 * k + j] == Corners(ts[k])[j]
  {
    if k < |ts| - 1 {
      FlattenAt(ts[..|ts| - 1], k, j);
    }
  }

  /** Every flat index is a corner of some triangle. */
  lemma FlattenCorner(ts: seq<Triangle>, n: nat)
    requires n < |Flatten(ts)|
    ensures Flatten(ts)[n] in Corners(ts[n / 3])
  {
  }

  /** The fan of `triangulate_pentagon`: triangle `i` joins the centre to the
      boundary edge from `boundary[i]` to the next boundary index, the last
      edge wrapping round to `boundary[0]`. */
  function Fan(center: nat, boundary: seq<nat>): (ts: seq<Triangle>)
    ensures |ts| == |boundary|
  {
    seq(|boundary|, i requires 0 <= i < |boundary| =>
      Triangle(center, boundary[i], boundary[(i + 1) % |boundary|]))
  }

  /** The fan is a closed cycle: every triangle has the centre as its first
      corner and boundary vertex `i` as its second, each triangle's third
      corner is the next triangle's second, and the last one closes on
      `boundary[0]`. */
  lemma FanIsClosed(center: nat, boundary: seq<nat>)
    requires |boundary| > 0
    ensures forall i :: 0 <= i < |boundary| ==>
      Fan(center, boundary)[i].i0 == center && Fan(center, boundary)[i].i1 == boundary[i]
    ensures forall i :: 0 <= i < |boundary| ==>
      Fan(center, boundary)[i].i2 == Fan(center, boundary)[(i + 1) % |boundary|].i1
    ensures Fan(center, boundary)[|boundary| - 1].i2 == boundary[0]
  {
    var n := |boundary|;
    forall i | 0 <= i < n
      ensures Fan(center, boundary)[i].i2 == Fan(center, boundary)[(i + 1) % n].i1
    {
      assert 0 <= (i + 1) % n < n;
    }
  }

  /** If the centre and every boundary index name existing vertices, so does
      every index of the fan. */
  lemma FanIndicesBelow(center: nat, boundary: seq<nat>, bound: nat)
    requires center < bound
    requires forall i :: 0 <= i < |boundary| ==> boundary[i] < bound
    ensures forall n :: 0 <= n < |Flatten(Fan(center, boundary))| ==> Flatten(Fan(center, boundary))[n] < bound
  {
    var ts := Fan(center, boundary);
    forall n | 0 <= n < |Flatten(ts)|
      ensures Flatten(ts)[n] < bound
    {
      FlattenCorner(ts, n);
      assert 0 <= (n / 3 + 1) % |boundary| < |boundary|;
    }
  }

  /** `Mesh`: the positions, UVs and indices a chunk accumulates. */
  class Mesh {
    var vertices: seq<Vec3>
    var uvs0: seq<Uv>
    var indices: seq<nat>

    function Data(): MeshData
      reads this
    {
      MeshData(vertices, uvs0, indices)
    }

    /** `Mesh::new`: all three sequences empty. */
    constructor ()
      ensures Data() == EMPTY_MESH
    {
      vertices, uvs0, indices := [], [], [];
    }

    /** `add_vertex`: appends the position and its UV, with no
        deduplication, and returns the new vertex's index, which is the
        vertex count from before the call. */
    method AddVertex(vertex: Vec3, uv: Uv) returns (index: nat)
      modifies this
      ensures index == |old(vertices)|
      ensures vertices == old(vertices) + [vertex] && vertices[index] == vertex
      ensures uvs0 == old(uvs0) + [uv]
      ensures indices == old(indices)
      ensures WellFormed(old(Data())) ==> WellFormed(Data())
    {
      index := |vertices|;
      vertices := vertices + [vertex];
      uvs0 := uvs0 + [uv];
    }

    /** `add_triangle`: appends the three indices in order, unchecked. */
    method AddTriangle(triangle: Triangle)
      modifies this
      ensures indices == old(indices) + Corners(triangle)
      ensures vertices == old(vertices) && uvs0 == old(uvs0)
      ensures (WellFormed(old(Data())) && triangle.i0 < |vertices| && triangle.i1 < |vertices|
               && triangle.i2 < |vertices|) ==> WellFormed(Data())
    {
      indices := indices + Corners(triangle);
    }

    /** `stats`: the vertex count and the number of whole triangles in the
        index list (an incomplete trailing triple is not counted). */
    function Stats(): (s: MeshStats)
      reads this
      ensures s.vertexCount == |vertices|
      ensures 3 * s.triangleCount <= |indices| < 3 * s.triangleCount + 3
      ensures WellFormed(Data()) ==> 3 * s.triangleCount == |indices|
    {
      MeshStats(|vertices|, |indices| / 3)
    }
  }

  /** `triangulate_pentagon`: the fan, one triangle per boundary index;
      an empty boundary gives no triangles (the loop body, and so its
      `% len`, never runs). */
  method TriangulatePentagon(centerIdx: nat, boundaryIndices: seq<nat>) returns (triangles: seq<Triangle>)
    ensures triangles == Fan(centerIdx, boundaryIndices)
  {
    triangles := [];
    var n := |boundaryIndices|;
    for i := 0 to n
      invariant |triangles| == i
      invariant forall k :: 0 <= k < i ==>
        triangles[k] == Triangle(centerIdx, boundaryIndices[k], boundaryIndices[(k + 1) % n])
    {
      var next := (i + 1) % n;
      triangles := triangles + [Triangle(centerIdx, boundaryIndices[i], boundaryIndices[next])];
    }
  }
}
