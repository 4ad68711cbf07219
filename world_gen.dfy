/** `world_gen.rs`: turning grid cells into mesh vertices and triangles,
    counting what happened, and the chunk driver that builds one mesh per
    chunk and exports it. The grid-index library and the spherical
    projection are outside the model: a cell arrives with its pentagon flag
    and its centre and boundary already projected to 3D, and a chunk plan
    arrives as the list, per chunk cell, of its world-resolution children. */
module WorldGen {
  import opened Results
  import opened Bytes
  import opened MeshBuild
  import opened Files
  import opened Export

  /** A grid cell as `process_single_cell` sees it: `is_pentagon`, the
      centre's projection, and the boundary vertices' projections in the
      library's order. */
  datatype Cell = Cell(isPentagon: bool, center: Vec3, boundary: seq<Vec3>)

  datatype ProcessingStats = ProcessingStats(
    pentagonCount: nat,
    hexagonCount: nat,
    invalidCoords: nat,
    cellsProcessed: nat)

  const ZERO_STATS: ProcessingStats := ProcessingStats(0, 0, 0, 0)

  datatype CellError = InvalidCenterCoordinates | InsufficientBoundaryVertices(count: nat)

  datatype ConfigError =
    | ChunkNotCoarser(chunkRes: u8, worldRes: u8)
    | InvalidChunkResolution(chunkRes: u8)
    | InvalidWorldResolution(worldRes: u8)
    | InvalidResolution(resolution: u8)

  datatype RunError = Config(config: ConfigError) | CreateDirFailed(dir: Path) | ExportFailed(cause: ExportError)

  /** The attribute every vertex is given (the source passes the constant
      `[1.0; 3]` here). */
  const PLACEHOLDER_UV: Uv := Uv(ONE, ONE)

  /** `v.iter().all(|x| x.is_finite())`. */
  predicate Finite(v: Vec3)
  {
    IsFinite(v.x) && IsFinite(v.y) && IsFinite(v.z)
  }

  // ---------------------------------------------------------------------
  // One cell

  /** The boundary vertices that survive the finiteness check, in order. */
  function ValidBoundary(b: seq<Vec3>): (r: seq<Vec3>)
    ensures |r| <= |b|
    ensures forall k :: 0 <= k < |r| ==> Finite(r[k])
  {
    if b == [] then []
    else ValidBoundary(b[..|b| - 1]) + (if Finite(b[|b| - 1]) then [b[|b| - 1]] else [])
  }

  /** The boundary vertices the check rejects. */
  function InvalidCount(b: seq<Vec3>): nat
  {
    if b == [] then 0
    else InvalidCount(b[..|b| - 1]) + (if Finite(b[|b| - 1]) then 0 else 1)
  }

  /** One more boundary vertex examined: kept if finite, counted if not. */
  lemma ValidBoundaryStep(b: seq<Vec3>, j: nat)
    requires j < |b|
    ensures ValidBoundary(b[..j + 1]) == ValidBoundary(b[..j]) + (if Finite(b[j]) then [b[j]] else [])
    ensures InvalidCount(b[..j + 1]) == InvalidCount(b[..j]) + (if Finite(b[j]) then 0 else 1)
  {
    assert b[..j + 1][..j] == b[..j];
  }

  /** Every boundary vertex is either kept or counted as invalid. */
  lemma {:induction false} ValidBoundaryPartition(b: seq<Vec3>)
    ensures |ValidBoundary(b)| + InvalidCount(b) == |b|
  {
    if b != [] {
      ValidBoundaryPartition(b[..|b| - 1]);
    }
  }

  /** The filter keeps order: filtering a concatenation concatenates the
      filtered parts. */
  lemma {:induction false} ValidBoundaryAppend(b1: seq<Vec3>, b2: seq<Vec3>)
    ensures ValidBoundary(b1 + b2) == ValidBoundary(b1) + ValidBoundary(b2)
    decreases |b2|
  {
    if b2 == [] {
      assert b1 + b2 == b1;
    } else {
      var init := b2[..|b2| - 1];
      assert (b1 + b2)[..|b1 + b2| - 1] == b1 + init;
      ValidBoundaryAppend(b1, init);
    }
  }

  /** A vertex is kept exactly when it is on the boundary and finite. */
  lemma {:induction false} ValidBoundaryMembers(b: seq<Vec3>, v: Vec3)
    ensures v in ValidBoundary(b) <==> v in b && Finite(v)
  {
    if b != [] {
      var init := b[..|b| - 1];
      ValidBoundaryMembers(init, v);
      assert b == init + [b[|b| - 1]];
    }
  }

  /** A boundary with no bad vertex is kept whole. */
  lemma {:induction false} ValidBoundaryAllFinite(b: seq<Vec3>)
    requires forall k :: 0 <= k < |b| ==> Finite(b[k])
    ensures ValidBoundary(b) == b && InvalidCount(b) == 0
  {
    if b != [] {
      ValidBoundaryAllFinite(b[..|b| - 1]);
    }
  }

  /** `n` consecutive indices from `start`. */
  function Consecutive(start: nat, n: nat): (r: seq<nat>)
    ensures |r| == n && forall k :: 0 <= k < n ==> r[k] == start + k
  {
    seq(n, k requires 0 <= k < n => start + k)
  }

  function Placeholders(n: nat): (r: seq<Uv>)
    ensures |r| == n && forall k :: 0 <= k < n ==> r[k] == PLACEHOLDER_UV
  {
    seq(n, _ => PLACEHOLDER_UV)
  }

  lemma GrowIndicesAndUvs(start: nat, n: nat)
    ensures Consecutive(start, n) + [start + n] == Consecutive(start, n + 1)
    ensures Placeholders(n) + [PLACEHOLDER_UV] == Placeholders(n + 1)
  {
  }

  /** The vertices a cell adds: none when the centre is rejected, otherwise
      the centre and then the surviving boundary vertices. */
  function CellVertices(cell: Cell): seq<Vec3>
  {
    if !Finite(cell.center) then [] else [cell.center] + ValidBoundary(cell.boundary)
  }

  /** The triangles a cell adds when its centre gets index `centerIdx`:
      the fan over the surviving boundary vertices, which were given the
      indices after the centre's, provided there are at least three. */
  function CellTriangles(cell: Cell, centerIdx: nat): seq<Triangle>
  {
    var k := |ValidBoundary(cell.boundary)|;
    if !Finite(cell.center) || k < 3 then [] else Fan(centerIdx, Consecutive(centerIdx + 1, k))
  }

  /** What `process_single_cell` returns for a cell. */
  function CellOutcome(cell: Cell): Result<(), CellError>
  {
    if !Finite(cell.center) then Err(InvalidCenterCoordinates)
    else if |ValidBoundary(cell.boundary)| < 3 then Err(InsufficientBoundaryVertices(|ValidBoundary(cell.boundary)|))
    else Ok(())
  }

  /** The counters after `process_single_cell`: the shape is counted first,
      then one invalid coordinate for a bad centre, or one per bad boundary
      vertex. */
  function CountCell(s: ProcessingStats, cell: Cell): ProcessingStats
  {
    var shaped := if cell.isPentagon then s.(pentagonCount := s.pentagonCount + 1)
                  else s.(hexagonCount := s.hexagonCount + 1);
    shaped.(invalidCoords := shaped.invalidCoords +
              if !Finite(cell.center) then 1 else InvalidCount(cell.boundary))
  }

  /** The mesh after `process_single_cell`. */
  function AppendCell(m: MeshData, cell: Cell): MeshData
  {
    var added := CellVertices(cell);
    MeshData(m.vertices + added, m.uvs0 + Placeholders(|added|),
             m.indices + Flatten(CellTriangles(cell, |m.vertices|)))
  }

  /** Exactly one of the two shape counters goes up, chosen by
      `is_pentagon`, whatever else happens to the cell. */
  lemma CountsShapeOnce(s: ProcessingStats, cell: Cell)
    ensures var s' := CountCell(s, cell);
      && s'.pentagonCount + s'.hexagonCount == s.pentagonCount + s.hexagonCount + 1
      && (cell.isPentagon <==> s'.pentagonCount == s.pentagonCount + 1)
      && s'.cellsProcessed == s.cellsProcessed
  {
  }

  /** A cell with a non-finite centre counts one invalid coordinate, fails,
      and leaves the mesh as it was, boundary unexamined. */
  lemma RejectsBadCenter(m: MeshData, s: ProcessingStats, cell: Cell)
    requires !Finite(cell.center)
    ensures AppendCell(m, cell) == m
    ensures CountCell(s, cell).invalidCoords == s.invalidCoords + 1
    ensures CellOutcome(cell) == Err(InvalidCenterCoordinates)
  {
  }

  /** With a finite centre and `k` surviving boundary vertices: the centre
      and those vertices are added, in order, with the placeholder UV, and
      every rejected boundary vertex is counted. If `k >= 3` the cell
      succeeds and adds `k` triangles, the fan around the centre's index;
      otherwise it fails, adds no triangle, and its vertices stay. */
  lemma CellContribution(m: MeshData, s: ProcessingStats, cell: Cell)
    requires Finite(cell.center)
    ensures var m', k := AppendCell(m, cell), |ValidBoundary(cell.boundary)|;
      && m'.vertices == m.vertices + [cell.center] + ValidBoundary(cell.boundary)
      && |m'.vertices| == |m.vertices| + 1 + k
      && m'.uvs0 == m.uvs0 + [PLACEHOLDER_UV] + Placeholders(k)
      && CountCell(s, cell).invalidCoords == s.invalidCoords + |cell.boundary| - k
      && (k >= 3 ==>
            && CellOutcome(cell) == Ok(())
            && m'.indices == m.indices + Flatten(Fan(|m.vertices|, Consecutive(|m.vertices| + 1, k)))
            && |m'.indices| == |m.indices| + 3 * k)
      && (k < 3 ==> CellOutcome(cell) == Err(InsufficientBoundaryVertices(k)) && m'.indices == m.indices)
  {
    ValidBoundaryPartition(cell.boundary);
    var k := |ValidBoundary(cell.boundary)|;
    assert [PLACEHOLDER_UV] + Placeholders(k) == Placeholders(1 + k);
    if k < 3 {
      assert m.indices + [] == m.indices;
    }
  }

  /** Adding a cell keeps a mesh well formed: one UV per position, whole
      triangles, and every index naming an existing vertex. */
  lemma AppendCellWellFormed(m: MeshData, cell: Cell)
    requires WellFormed(m)
    ensures WellFormed(AppendCell(m, cell))
  {
    var vs := CellVertices(cell);
    var ts := CellTriangles(cell, |m.vertices|);
    if ts != [] {
      var k := |ValidBoundary(cell.boundary)|;
      FanIndicesBelow(|m.vertices|, Consecutive(|m.vertices| + 1, k), |m.vertices| + |vs|);
    }
    MultipleOfThree(0, |ts|);
    WellFormedAppend(m, vs, Placeholders(|vs|), Flatten(ts));
  }

  /** Appending positions with as many UVs, whole triangles, and indices
      that name existing or appended vertices keeps a mesh well formed. */
  lemma WellFormedAppend(m: MeshData, vs: seq<Vec3>, us: seq<Uv>, ix: seq<nat>)
    requires WellFormed(m) && |vs| == |us| && |ix| % 3 == 0
    requires forall n :: 0 <= n < |ix| ==> ix[n] < |m.vertices| + |vs|
    ensures WellFormed(MeshData(m.vertices + vs, m.uvs0 + us, m.indices + ix))
  {
    MultipleOfThree(|m.indices|, |ix| / 3);
  }

  lemma {:induction false} MultipleOfThree(a: nat, k: nat)
    requires a % 3 == 0
    ensures (a + 3 * k) % 3 == 0
  {
    if k > 0 {
      MultipleOfThree(a, k - 1);
      assert a + 3 * k == (a + 3 * (k - 1)) + 3;
    }
  }

  /** The boundary loop of `process_single_cell`: each finite boundary
      vertex is added to the mesh and its index collected, in order; each
      non-finite one is only counted as an invalid coordinate. */
  method AddBoundaryVertices(mesh: Mesh, stats: ProcessingStats, boundary: seq<Vec3>)
    returns (boundaryIndices: seq<nat>, stats': ProcessingStats)
    modifies mesh
    ensures mesh.vertices == old(mesh.vertices) + ValidBoundary(boundary)
    ensures mesh.uvs0 == old(mesh.uvs0) + Placeholders(|ValidBoundary(boundary)|)
    ensures mesh.indices == old(mesh.indices)
    ensures boundaryIndices == Consecutive(|old(mesh.vertices)|, |ValidBoundary(boundary)|)
    ensures stats' == stats.(invalidCoords := stats.invalidCoords + InvalidCount(boundary))
  {
    boundaryIndices, stats' := [], stats;
    ghost var kept: seq<Vec3> := [];
    for j := 0 to |boundary|
      invariant kept == ValidBoundary(boundary[..j])
      invariant mesh.vertices == old(mesh.vertices) + kept
      invariant mesh.uvs0 == old(mesh.uvs0) + Placeholders(|kept|)
      invariant mesh.indices == old(mesh.indices)
      invariant boundaryIndices == Consecutive(|old(mesh.vertices)|, |kept|)
      invariant stats' == stats.(invalidCoords := stats.invalidCoords + InvalidCount(boundary[..j]))
    {
      ValidBoundaryStep(boundary, j);
      var vertex3d := boundary[j];
      if !Finite(vertex3d) {
        stats' := stats'.(invalidCoords := stats'.invalidCoords + 1);
        continue;
      }
      GrowIndicesAndUvs(|old(mesh.vertices)|, |boundaryIndices|);
      var vertexIdx := mesh.AddVertex(vertex3d, PLACEHOLDER_UV);
      boundaryIndices := boundaryIndices + [vertexIdx];
      kept := kept + [vertex3d];
    }
    assert boundary[..|boundary|] == boundary;
  }

  /** The triangle loop of `process_single_cell`: `add_triangle` for each
      triangle in turn. */
  method AddTriangles(mesh: Mesh, triangles: seq<Triangle>)
    modifies mesh
    ensures mesh.indices == old(mesh.indices) + Flatten(triangles)
    ensures mesh.vertices == old(mesh.vertices) && mesh.uvs0 == old(mesh.uvs0)
  {
    for t := 0 to |triangles|
      invariant mesh.indices == old(mesh.indices) + Flatten(triangles[..t])
      invariant mesh.vertices == old(mesh.vertices) && mesh.uvs0 == old(mesh.uvs0)
    {
      assert triangles[..t + 1][..t] == triangles[..t];
      mesh.AddTriangle(triangles[t]);
    }
    assert triangles[..|triangles|] == triangles;
  }

  /** `process_single_cell`. */
  method ProcessSingleCell(mesh: Mesh, stats: ProcessingStats, cell: Cell)
    returns (r: Result<(), CellError>, stats': ProcessingStats)
    modifies mesh
    ensures mesh.Data() == AppendCell(old(mesh.Data()), cell)
    ensures stats' == CountCell(stats, cell)
    ensures r == CellOutcome(cell)
  {
    stats' := stats;
    if cell.isPentagon {
      stats' := stats'.(pentagonCount := stats'.pentagonCount + 1);
    } else {
      stats' := stats'.(hexagonCount := stats'.hexagonCount + 1);
    }
    var center3d := cell.center;
    if !Finite(center3d) {
      stats' := stats'.(invalidCoords := stats'.invalidCoords + 1);
      assert mesh.Data() == AppendCell(old(mesh.Data()), cell) by {
        RejectsBadCenter(mesh.Data(), stats, cell);
      }
      return Err(InvalidCenterCoordinates), stats';
    }
    ghost var m0 := mesh.Data();
    var centerIdx := mesh.AddVertex(center3d, PLACEHOLDER_UV);
    var boundaryIndices;
    boundaryIndices, stats' := AddBoundaryVertices(mesh, stats', cell.boundary);
    CellContribution(m0, stats, cell);
    if |boundaryIndices| >= 3 {
      var triangles := TriangulatePentagon(centerIdx, boundaryIndices);
      AddTriangles(mesh, triangles);
    } else {
      return Err(InsufficientBoundaryVertices(|boundaryIndices|)), stats';
    }
    return Ok(()), stats';
  }

  // ---------------------------------------------------------------------
  // Many cells into one mesh

  /** One iteration of the cell loops of `gen_world_geometry` and
      `gen_world_chunks`: process the cell, and count it as processed when
      it succeeded. */
  function StepCell(acc: (MeshData, ProcessingStats), cell: Cell): (MeshData, ProcessingStats)
  {
    (AppendCell(acc.0, cell), Tally(CountCell(acc.1, cell), CellOutcome(cell)))
  }

  /** `cells_processed` goes up after a cell only when it succeeded. */
  function Tally(s: ProcessingStats, r: Result<(), CellError>): ProcessingStats
  {
    if r.Ok? then s.(cellsProcessed := s.cellsProcessed + 1) else s
  }

  /** The mesh and counters after running the cell loop over `cells` from a
      fresh mesh and zeroed counters. */
  function ProcessCells(cells: seq<Cell>): (MeshData, ProcessingStats)
  {
    if cells == [] then (EMPTY_MESH, ZERO_STATS)
    else StepCell(ProcessCells(cells[..|cells| - 1]), cells[|cells| - 1])
  }

  /** One more cell through the loop. */
  lemma ProcessCellsStep(cells: seq<Cell>, i: nat)
    requires i < |cells|
    ensures ProcessCells(cells[..i + 1]) == StepCell(ProcessCells(cells[..i]), cells[i])
  {
    assert cells[..i + 1][..i] == cells[..i];
  }

  /** What one pass of the cell loop leaves, given the contract of
      `ProcessSingleCell`. */
  lemma StepCellOf(before: (MeshData, ProcessingStats), cell: Cell, m: MeshData,
                   s: ProcessingStats, r: Result<(), CellError>)
    requires m == AppendCell(before.0, cell) && s == CountCell(before.1, cell)
    requires r == CellOutcome(cell)
    ensures StepCell(before, cell) == (m, Tally(s, r))
  {
  }

  /** The sum of `f` over `cells`. */
  function Sum(cells: seq<Cell>, f: Cell -> nat): nat
  {
    if cells == [] then 0 else Sum(cells[..|cells| - 1], f) + f(cells[|cells| - 1])
  }

  function IsPentagonCount(cell: Cell): nat
  {
    if cell.isPentagon then 1 else 0
  }

  function SucceededCount(cell: Cell): nat
  {
    if CellOutcome(cell).Ok? then 1 else 0
  }

  function InvalidCoordsOf(cell: Cell): nat
  {
    if !Finite(cell.center) then 1 else InvalidCount(cell.boundary)
  }

  function VerticesOf(cell: Cell): nat
  {
    |CellVertices(cell)|
  }

  function TrianglesOf(cell: Cell): nat
  {
    if CellOutcome(cell).Ok? then |ValidBoundary(cell.boundary)| else 0
  }

  /** After the cell loop, every cell was counted as exactly one of pentagon
      or hexagon, `cells_processed` counts the cells that succeeded, and the
      invalid coordinates are those of the cells. */
  lemma {:induction false} ProcessCellsCounts(cells: seq<Cell>)
    ensures var s := ProcessCells(cells).1;
      && s.pentagonCount == Sum(cells, IsPentagonCount)
      && s.pentagonCount + s.hexagonCount == |cells|
      && s.cellsProcessed == Sum(cells, SucceededCount)
      && s.cellsProcessed <= |cells|
      && s.invalidCoords == Sum(cells, InvalidCoordsOf)
  {
    if cells != [] {
      ProcessCellsCounts(cells[..|cells| - 1]);
    }
  }

  /** After the cell loop each cell's vertices are in the mesh, a
      successful cell with `k` surviving boundary vertices gave `k`
      triangles and a failed one none, and the mesh is well formed. */
  lemma {:induction false} ProcessCellsMesh(cells: seq<Cell>)
    ensures var m := ProcessCells(cells).0;
      && |m.vertices| == Sum(cells, VerticesOf)
      && |m.indices| == 3 * Sum(cells, TrianglesOf)
      && WellFormed(m)
  {
    if cells != [] {
      var init, cell := cells[..|cells| - 1], cells[|cells| - 1];
      ProcessCellsMesh(init);
      var (m0, s0) := ProcessCells(init);
      AppendCellWellFormed(m0, cell);
      if Finite(cell.center) {
        CellContribution(m0, s0, cell);
      } else {
        RejectsBadCenter(m0, s0, cell);
      }
    }
  }

  /** A cell whose centre and `n >= 3` boundary vertices are all finite,
      alone in a mesh, gives `n + 1` vertices and `n` triangles: six and five
      for a pentagon's five corners, seven and six for a hexagon's six. */
  lemma SingleCellMesh(cell: Cell)
    requires Finite(cell.center) && |cell.boundary| >= 3
    requires forall k :: 0 <= k < |cell.boundary| ==> Finite(cell.boundary[k])
    ensures var (m, s) := ProcessCells([cell]);
      && |m.vertices| == |cell.boundary| + 1
      && |m.indices| == 3 * |cell.boundary|
      && s.cellsProcessed == 1 && s.invalidCoords == 0
  {
    ValidBoundaryAllFinite(cell.boundary);
    assert [cell][..0] == [];
    CellContribution(EMPTY_MESH, ZERO_STATS, cell);
  }

  /** The cell loop shared by `gen_world_geometry` and each chunk of
      `gen_world_chunks`: a new mesh and zeroed counters, then every cell in
      order, counting the ones that succeed. */
  method BuildMesh(cells: seq<Cell>) returns (mesh: Mesh, stats: ProcessingStats)
    ensures fresh(mesh)
    ensures (mesh.Data(), stats) == ProcessCells(cells)
  {
    mesh := new Mesh();
    stats := ZERO_STATS;
    for i := 0 to |cells|
      invariant fresh(mesh)
      invariant mesh.Data() == ProcessCells(cells[..i]).0
      invariant stats == ProcessCells(cells[..i]).1
    {
      ghost var before := (mesh.Data(), stats);
      var r;
      r, stats := ProcessSingleCell(mesh, stats, cells[i]);
      ghost var counted := stats;
      if r.Ok? {
        stats := stats.(cellsProcessed := stats.cellsProcessed + 1);
      }
      StepCellOf(before, cells[i], mesh.Data(), counted, r);
      ProcessCellsStep(cells, i);
    }
    assert cells[..|cells|] == cells;
  }

  // ---------------------------------------------------------------------
  // Resolutions

  /** The finest resolution of the grid. */
  const MAX_RESOLUTION: u8 := 15

  /** `h3o::Resolution::try_from` as `gen_world_geometry` uses it. */
  function ValidateResolution(resolution: u8): (r: Result<(), ConfigError>)
    ensures r.Ok? <==> resolution <= MAX_RESOLUTION
    ensures r.Err? ==> r.error == InvalidResolution(resolution)
  {
    if resolution > MAX_RESOLUTION then Err(InvalidResolution(resolution)) else Ok(())
  }

  /** The checks at the start of `gen_world_chunks`, in their order: chunks
      coarser than the world, then the chunk resolution, then the world
      resolution. */
  function ValidateChunkResolutions(worldRes: u8, chunkRes: u8): (r: Result<(), ConfigError>)
    ensures r.Ok? <==> chunkRes < worldRes <= MAX_RESOLUTION
  {
    if chunkRes >= worldRes then Err(ChunkNotCoarser(chunkRes, worldRes))
    else if chunkRes > MAX_RESOLUTION then Err(InvalidChunkResolution(chunkRes))
    else if worldRes > MAX_RESOLUTION then Err(InvalidWorldResolution(worldRes))
    else Ok(())
  }

  /** The first failing check decides the error: a chunk resolution that
      is not coarser is reported even when both are out of range, and an
      out-of-range world resolution only when the chunk resolution is in
      range. */
  lemma ValidationOrder(worldRes: u8, chunkRes: u8)
    ensures chunkRes >= worldRes ==> ValidateChunkResolutions(worldRes, chunkRes) == Err(ChunkNotCoarser(chunkRes, worldRes))
    ensures chunkRes < worldRes && chunkRes > MAX_RESOLUTION ==>
      ValidateChunkResolutions(worldRes, chunkRes) == Err(InvalidChunkResolution(chunkRes))
    ensures chunkRes < worldRes && chunkRes <= MAX_RESOLUTION < worldRes ==>
      ValidateChunkResolutions(worldRes, chunkRes) == Err(InvalidWorldResolution(worldRes))
  {
  }

  // ---------------------------------------------------------------------
  // Chunk file names

  /** The decimal digit for `d` (`'0'`..`'9'`). */
  function DigitChar(d: nat): (c: char)
    requires d < 10
    ensures '0' <= c <= '9'
  {
    ('0' as int + d) as char
  }

  /** `n` as `format!("{}", n)` writes it. */
  function Decimal(n: nat): (s: string)
    ensures 0 < |s|
    ensures forall k :: 0 <= k < |s| ==> '0' <= s[k] <= '9'
    ensures n >= 10 ==> |s| >= 2
  {
    if n < 10 then [DigitChar(n)] else Decimal(n / 10) + [DigitChar(n % 10)]
  }

  /** Different numbers are written differently. */
  lemma {:induction false} DecimalInjective(a: nat, b: nat)
    requires Decimal(a) == Decimal(b)
    ensures a == b
  {
    if a >= 10 && b >= 10 {
      var da, db := Decimal(a), Decimal(b);
      assert da[|da| - 1] == DigitChar(a % 10) && db[|db| - 1] == DigitChar(b % 10);
      assert Decimal(a / 10) == da[..|da| - 1] == db[..|db| - 1] == Decimal(b / 10);
      DecimalInjective(a / 10, b / 10);
    }
  }

  /** The directory every run writes into. */
  const OUTPUT_ROOT: Path := "output"

  /** `Path::new("output").join(output_prefix)`. */
  function OutputDir(prefix: string): Path
  {
    Join(OUTPUT_ROOT, prefix)
  }

  /** `format!("{}-chunk{}", output_prefix, chunk_idx + 1)`: chunks are
      numbered from one. */
  function ChunkStem(prefix: string, chunkIdx: nat): string
  {
    prefix + "-chunk" + Decimal(chunkIdx + 1)
  }

  function ChunkGltfPath(prefix: string, chunkIdx: nat): Path
  {
    Join(OutputDir(prefix), ChunkStem(prefix, chunkIdx) + ".gltf")
  }

  function ChunkBinPath(prefix: string, chunkIdx: nat): Path
  {
    Join(OutputDir(prefix), ChunkStem(prefix, chunkIdx) + ".bin")
  }

  /** Two stems with the same extension are equal only for the same chunk. */
  lemma ChunkNameInjective(prefix: string, ext: string, i: nat, j: nat)
    requires ChunkStem(prefix, i) + ext == ChunkStem(prefix, j) + ext
    ensures i == j
  {
    var a, b := ChunkStem(prefix, i) + ext, ChunkStem(prefix, j) + ext;
    var lead := |prefix + "-chunk"|;
    assert a == (prefix + "-chunk") + Decimal(i + 1) + ext;
    assert b == (prefix + "-chunk") + Decimal(j + 1) + ext;
    assert Decimal(i + 1) == a[lead..|a| - |ext|] == b[lead..|b| - |ext|] == Decimal(j + 1);
    DecimalInjective(i + 1, j + 1);
  }

  /** Every chunk gets its own descriptor and binary path, and no
      descriptor path is a binary path, so no export overwrites another
      chunk's files. */
  lemma ChunkPathsDistinct(prefix: string, i: nat, j: nat)
    ensures ChunkGltfPath(prefix, i) != ChunkBinPath(prefix, j)
    ensures i != j ==> ChunkGltfPath(prefix, i) != ChunkGltfPath(prefix, j)
    ensures i != j ==> ChunkBinPath(prefix, i) != ChunkBinPath(prefix, j)
  {
    var gi, bj := ChunkStem(prefix, i) + ".gltf", ChunkStem(prefix, j) + ".bin";
    var pg, pb := ChunkGltfPath(prefix, i), ChunkBinPath(prefix, j);
    assert pg[|pg| - 1] == gi[|gi| - 1] == 'f';
    assert pb[|pb| - 1] == bj[|bj| - 1] == 'n';
    if i != j {
      var gj, bi := ChunkStem(prefix, j) + ".gltf", ChunkStem(prefix, i) + ".bin";
      assert gi[0] == gj[0] && bi[0] == bj[0];
      if ChunkGltfPath(prefix, i) == ChunkGltfPath(prefix, j) {
        JoinInjective(OutputDir(prefix), gi, gj);
        ChunkNameInjective(prefix, ".gltf", i, j);
      }
      if ChunkBinPath(prefix, i) == ChunkBinPath(prefix, j) {
        JoinInjective(OutputDir(prefix), bi, bj);
        ChunkNameInjective(prefix, ".bin", i, j);
      }
    }
  }

  /** A chunk's binary name has no separator when its prefix has none. */
  lemma ChunkNamePlain(prefix: string, chunkIdx: nat)
    requires '/' !in prefix
    ensures '/' !in ChunkStem(prefix, chunkIdx) + ".bin"
  {
  }

  /** The buffer URI a chunk's descriptor gets: the file name of its binary
      path always exists, and it is `<stem>.bin` when the prefix has no
      separator, so the descriptor names its binary relative to itself. */
  lemma ChunkBinaryFileName(prefix: string, chunkIdx: nat)
    ensures FileName(ChunkBinPath(prefix, chunkIdx)).Some?
    ensures '/' !in prefix ==> FileName(ChunkBinPath(prefix, chunkIdx)) == Some(ChunkStem(prefix, chunkIdx) + ".bin")
  {
    var name := ChunkStem(prefix, chunkIdx) + ".bin";
    assert name[|name| - 1] == 'n';
    if '/' !in prefix {
      ChunkNamePlain(prefix, chunkIdx);
    }
    FileNameOfJoin(OutputDir(prefix), name);
  }

  // ---------------------------------------------------------------------
  // Counters over the whole run

  /** The four counters added field by field. */
  function AddStats(a: ProcessingStats, b: ProcessingStats): ProcessingStats
  {
    ProcessingStats(a.pentagonCount + b.pentagonCount, a.hexagonCount + b.hexagonCount,
                    a.invalidCoords + b.invalidCoords, a.cellsProcessed + b.cellsProcessed)
  }

  /** What one chunk's cell loop produces: its mesh and its counters. */
  type ChunkResult = (MeshData, ProcessingStats)

  /** The cell loop run on every chunk of `plan`. */
  function BuildChunks(plan: seq<seq<Cell>>): (r: seq<ChunkResult>)
    ensures |r| == |plan|
  {
    seq(|plan|, i requires 0 <= i < |plan| => ProcessCells(plan[i]))
  }

  /** The counters of `chunks`, summed in order. */
  function SumStats(chunks: seq<ChunkResult>): ProcessingStats
  {
    if chunks == [] then ZERO_STATS else AddStats(SumStats(chunks[..|chunks| - 1]), chunks[|chunks| - 1].1)
  }

  /** One more chunk's counters added. */
  lemma SumStatsStep(chunks: seq<ChunkResult>, i: nat)
    requires i < |chunks|
    ensures SumStats(chunks[..i + 1]) == AddStats(SumStats(chunks[..i]), chunks[i].1)
  {
    assert chunks[..i + 1][..i] == chunks[..i];
  }

  /** The number of world cells in `plan`. */
  function TotalCells(plan: seq<seq<Cell>>): nat
  {
    if plan == [] then 0 else TotalCells(plan[..|plan| - 1]) + |plan[|plan| - 1]|
  }

  /** Over a whole plan every world cell is counted once as a pentagon or a
      hexagon, and no more cells are processed than there are. */
  lemma {:induction false} PlanStatsCounts(plan: seq<seq<Cell>>)
    ensures var total := SumStats(BuildChunks(plan));
      && total.pentagonCount + total.hexagonCount == TotalCells(plan)
      && total.cellsProcessed <= TotalCells(plan)
  {
    if plan != [] {
      var init := plan[..|plan| - 1];
      ProcessCellsCounts(plan[|plan| - 1]);
      PlanStatsCounts(init);
      assert BuildChunks(plan)[..|plan| - 1] == BuildChunks(init);
    }
  }

  // ---------------------------------------------------------------------
  // gen_world_chunks

  /** The exports of the chunk loop of `gen_world_chunks` from chunk
      `from` on, given each chunk's mesh: each is exported in turn, and the
      first export that fails ends the run with that error. */
  function ExportChunks(fs: FileSystem, prefix: string, chunks: seq<ChunkResult>, from: nat)
    : (Result<(), RunError>, FileSystem)
    requires from <= |chunks|
    decreases |chunks| - from
  {
    if from == |chunks| then (Ok(()), fs)
    else
      var exported := ExportSpec(chunks[from].0, ChunkGltfPath(prefix, from), ChunkBinPath(prefix, from), fs);
      if exported.0.Err? then (Err(ExportFailed(exported.0.error)), exported.1)
      else ExportChunks(exported.1, prefix, chunks, from + 1)
  }

  /** `gen_world_chunks`: the resolution checks, before anything is
      written; then the output directory; then the chunk loop, whose
      counters, summed over all chunks, are the result when every export
      succeeds. */
  function GenWorldChunksSpec(worldRes: u8, chunkRes: u8, prefix: string, plan: seq<seq<Cell>>, fs: FileSystem)
    : (Result<ProcessingStats, RunError>, FileSystem)
  {
    var checked := ValidateChunkResolutions(worldRes, chunkRes);
    if checked.Err? then (Err(Config(checked.error)), fs)
    else
      var created := CreateDirAll(fs, OutputDir(prefix));
      if created.Err? then (Err(CreateDirFailed(OutputDir(prefix))), fs)
      else
        var chunks := BuildChunks(plan);
        var exported := ExportChunks(created.value, prefix, chunks, 0);
        if exported.0.Err? then (Err(exported.0.error), exported.1)
        else (Ok(SumStats(chunks)), exported.1)
  }

  /** Bad resolutions are reported before anything touches the disk. */
  lemma RejectsBadResolutions(worldRes: u8, chunkRes: u8, prefix: string, plan: seq<seq<Cell>>, fs: FileSystem)
    requires !(chunkRes < worldRes <= MAX_RESOLUTION)
    ensures var (r, fs') := GenWorldChunksSpec(worldRes, chunkRes, prefix, plan, fs);
      r.Err? && r.error.Config? && fs' == fs
  {
  }

  /** With no arguments the program asks for world and chunk resolution
      0, which the first check refuses: the default run writes nothing. */
  lemma DefaultArgumentsRejected(plan: seq<seq<Cell>>, fs: FileSystem)
    ensures GenWorldChunksSpec(0, 0, "output", plan, fs) == (Err(Config(ChunkNotCoarser(0, 0))), fs)
  {
  }

  /** Neither of chunk `i`'s files is among the `refused` paths. */
  predicate ChunkPathsFree(refused: set<Path>, prefix: string, i: nat)
  {
    ChunkBinPath(prefix, i) !in refused && ChunkGltfPath(prefix, i) !in refused
  }

  /** The chunk loop succeeds exactly when none of the remaining chunks'
      paths is refused; it never changes the directories or the refused
      paths. */
  lemma {:induction false} ExportChunksOutcome(fs: FileSystem, prefix: string, chunks: seq<ChunkResult>, from: nat)
    requires from <= |chunks|
    ensures var (r, fs') := ExportChunks(fs, prefix, chunks, from);
      && (r.Ok? <==> forall i :: from <= i < |chunks| ==> ChunkPathsFree(fs.refused, prefix, i))
      && fs'.dirs == fs.dirs && fs'.refused == fs.refused
    decreases |chunks| - from
  {
    if from < |chunks| {
      var m := chunks[from].0;
      var gltf, bin := ChunkGltfPath(prefix, from), ChunkBinPath(prefix, from);
      ExportOutcome(m, gltf, bin, fs);
      ChunkBinaryFileName(prefix, from);
      var exported := ExportSpec(m, gltf, bin, fs);
      assert exported.0.Ok? <==> ChunkPathsFree(fs.refused, prefix, from);
      ExportChunksOutcome(exported.1, prefix, chunks, from + 1);
      assert (forall i :: from <= i < |chunks| ==> ChunkPathsFree(fs.refused, prefix, i))
         <==> ChunkPathsFree(fs.refused, prefix, from) && (forall i :: from + 1 <= i < |chunks| ==> ChunkPathsFree(fs.refused, prefix, i));
    }
  }

  /** A successful chunk loop leaves every file that is not one of the
      remaining chunks' as it was. */
  lemma {:induction false} ExportChunksFrame(fs: FileSystem, prefix: string, chunks: seq<ChunkResult>, from: nat, p: Path)
    requires from <= |chunks|
    requires ExportChunks(fs, prefix, chunks, from).0.Ok?
    requires p in fs.files
    requires forall i :: from <= i < |chunks| ==> p != ChunkBinPath(prefix, i) && p != ChunkGltfPath(prefix, i)
    ensures p in ExportChunks(fs, prefix, chunks, from).1.files
    ensures ExportChunks(fs, prefix, chunks, from).1.files[p] == fs.files[p]
    decreases |chunks| - from
  {
    if from < |chunks| {
      var m := chunks[from].0;
      var gltf, bin := ChunkGltfPath(prefix, from), ChunkBinPath(prefix, from);
      ExportSuccess(m, gltf, bin, fs);
      ExportChunksFrame(ExportSpec(m, gltf, bin, fs).1, prefix, chunks, from + 1, p);
    }
  }

  /** After a successful chunk loop each remaining chunk's binary holds
      the layout of its mesh and its descriptor the document for that mesh
      and that binary's file name: no later chunk overwrites them. */
  lemma {:induction false} ExportChunksFiles(fs: FileSystem, prefix: string, chunks: seq<ChunkResult>, from: nat, i: nat)
    requires from <= i < |chunks|
    requires ExportChunks(fs, prefix, chunks, from).0.Ok?
    ensures ChunkFilesWritten(ExportChunks(fs, prefix, chunks, from).1, prefix, i, chunks[i].0)
    decreases |chunks| - from
  {
    var m := chunks[from].0;
    var gltf, bin := ChunkGltfPath(prefix, from), ChunkBinPath(prefix, from);
    var fs1 := ExportSpec(m, gltf, bin, fs).1;
    if i == from {
      ExportSuccess(m, gltf, bin, fs);
      ChunkPathsDistinct(prefix, from, from);
      forall j | from + 1 <= j < |chunks|
        ensures bin != ChunkBinPath(prefix, j) && bin != ChunkGltfPath(prefix, j)
        ensures gltf != ChunkBinPath(prefix, j) && gltf != ChunkGltfPath(prefix, j)
      {
        ChunkPathsDistinct(prefix, from, j);
        ChunkPathsDistinct(prefix, j, from);
      }
      ExportChunksFrame(fs1, prefix, chunks, from + 1, bin);
      ExportChunksFrame(fs1, prefix, chunks, from + 1, gltf);
    } else {
      ExportChunksFiles(fs1, prefix, chunks, from + 1, i);
    }
  }

  /** Chunk `i`'s files hold mesh `m`: the binary layout, and the
      descriptor whose buffer URI is the binary path's file name. */
  predicate ChunkFilesWritten(fs: FileSystem, prefix: string, i: nat, m: MeshData)
  {
    && ChunkBinPath(prefix, i) in fs.files
    && fs.files[ChunkBinPath(prefix, i)] == BinaryFile(BinaryLayout(m))
    && ChunkGltfPath(prefix, i) in fs.files
    && FileName(ChunkBinPath(prefix, i)).Some?
    && fs.files[ChunkGltfPath(prefix, i)] == JsonFile(DescriptorJson(BuildDescriptor(m, FileName(ChunkBinPath(prefix, i)).value)))
  }

  /** The whole run succeeds exactly when the resolutions are valid and
      neither the output directory nor any chunk's files are refused; it
      then returns the summed counters of all chunks, and every chunk's
      files hold that chunk's mesh. */
  lemma GenWorldChunksOutcome(worldRes: u8, chunkRes: u8, prefix: string, plan: seq<seq<Cell>>, fs: FileSystem)
    ensures var (r, fs') := GenWorldChunksSpec(worldRes, chunkRes, prefix, plan, fs);
      && (r.Ok? <==>
            && chunkRes < worldRes <= MAX_RESOLUTION
            && OutputDir(prefix) !in fs.refused
            && forall i :: 0 <= i < |plan| ==> ChunkPathsFree(fs.refused, prefix, i))
      && (r.Ok? ==>
            && r.value == SumStats(BuildChunks(plan))
            && OutputDir(prefix) in fs'.dirs
            && forall i :: 0 <= i < |plan| ==> ChunkFilesWritten(fs', prefix, i, ProcessCells(plan[i]).0))
  {
    if chunkRes < worldRes <= MAX_RESOLUTION && OutputDir(prefix) !in fs.refused {
      var fs1 := CreateDirAll(fs, OutputDir(prefix)).value;
      var chunks := BuildChunks(plan);
      ExportChunksOutcome(fs1, prefix, chunks, 0);
      if ExportChunks(fs1, prefix, chunks, 0).0.Ok? {
        forall i | 0 <= i < |plan|
          ensures ChunkFilesWritten(ExportChunks(fs1, prefix, chunks, 0).1, prefix, i, ProcessCells(plan[i]).0)
        {
          ExportChunksFiles(fs1, prefix, chunks, 0, i);
        }
      }
    }
  }

  /** `gen_world_chunks`; the grid hierarchy is given as `plan`, the
      world-resolution children of each chunk cell in order. */
  method GenWorldChunks(worldRes: u8, chunkRes: u8, outputPrefix: string, plan: seq<seq<Cell>>, fs: FileSystem)
    returns (r: Result<ProcessingStats, RunError>, fs': FileSystem)
    ensures (r, fs') == GenWorldChunksSpec(worldRes, chunkRes, outputPrefix, plan, fs)
  {
    if chunkRes >= worldRes {
      return Err(Config(ChunkNotCoarser(chunkRes, worldRes))), fs;
    }
    if chunkRes > MAX_RESOLUTION {
      return Err(Config(InvalidChunkResolution(chunkRes))), fs;
    }
    if worldRes > MAX_RESOLUTION {
      return Err(Config(InvalidWorldResolution(worldRes))), fs;
    }
    var outputDir := Join(OUTPUT_ROOT, outputPrefix);
    var created := CreateDirAll(fs, outputDir);
    if created.Err? {
      return Err(CreateDirFailed(outputDir)), fs;
    }
    fs' := created.value;
    var globalStats := ZERO_STATS;
    ghost var chunks := BuildChunks(plan);
    ghost var loop := ExportChunks(fs', outputPrefix, chunks, 0);
    for chunkIdx := 0 to |plan|
      invariant loop == ExportChunks(fs', outputPrefix, chunks, chunkIdx)
      invariant globalStats == SumStats(chunks[..chunkIdx])
    {
      var mesh, chunkStats := BuildMesh(plan[chunkIdx]);
      assert (mesh.Data(), chunkStats) == chunks[chunkIdx];
      SumStatsStep(chunks, chunkIdx);
      globalStats := AddStats(globalStats, chunkStats);
      var fileStem := outputPrefix + "-chunk" + Decimal(chunkIdx + 1);
      var gltfPath := Join(outputDir, fileStem + ".gltf");
      var binPath := Join(outputDir, fileStem + ".bin");
      var exported;
      exported, fs' := ExportGltf(mesh, gltfPath, binPath, fs');
      if exported.Err? {
        return Err(ExportFailed(exported.error)), fs';
      }
    }
    assert chunks[..|plan|] == chunks;
    return Ok(globalStats), fs';
  }

  // ---------------------------------------------------------------------
  // gen_world_geometry

  /** `gen_world_geometry`: the resolution check, then every cell of that
      resolution (given as `cells`) into one new mesh. */
  method GenWorldGeometry(resolution: u8, cells: seq<Cell>)
    returns (r: Result<(Mesh, ProcessingStats), ConfigError>)
    ensures r.Err? <==> resolution > MAX_RESOLUTION
    ensures r.Err? ==> r.error == InvalidResolution(resolution)
    ensures r.Ok? ==> fresh(r.value.0) && (r.value.0.Data(), r.value.1) == ProcessCells(cells)
  {
    var checked := ValidateResolution(resolution);
    if checked.Err? {
      return Err(checked.error);
    }
    var mesh, stats := BuildMesh(cells);
    return Ok((mesh, stats));
  }
}
