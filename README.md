# H3 world geometry generator — verified model of the mesh builder and exporter

This project models the core of the H3 world geometry generator. The generator walks the cells of an H3 grid and projects each cell's centre and boundary onto a sphere. From them it builds a triangle mesh: a centre vertex, the boundary vertices, and a fan of triangles around the centre. When run in chunks, it builds one mesh per coarser "chunk" cell. Each mesh is exported as a glTF 2.0 pair: a binary buffer of positions, texture coordinates and triangle indices, and a JSON scene descriptor that points into that buffer.

The model has seven modules, one per file:

- `Results` (`results.dfy`): `Option` and `Result`.
- `Bytes` (`bytes.dfy`): `u8`/`u32`, little-endian `u32` encoding and its inverse, Rust's truncating `as u32`, and `f32` values kept as their IEEE 754 bit patterns (`is_finite` on the exponent field, `to_le_bytes` on the bits).
- `MeshBuild` (`mesh.dfy`): the `Mesh` class with its three sequence fields and the methods that append to them, `MeshStats`, and `triangulate_pentagon` as a loop proved equal to the fan `Fan`.
- `JsonTree` (`json_tree.dfy`): a JSON value tree (the shape of `serde_json::Value`) and path lookup into it.
- `Files` (`files.dfy`): the file system as a value. It covers `Path::join`, `Path::file_name`, `create_dir_all` and file writes. A write fails exactly when its path is in the file system's `refused` set, which stands in for every cause of an I/O error.
- `Export` (`export.dfy`): `write_binary_data` (three loops building the byte buffer) and `export_gltf` (sizes, offsets, counts, the buffer URI and the JSON tree, written after the binary).
- `WorldGen` (`world_gen.dfy`): `ProcessingStats`, `process_single_cell`, the cell loop, the resolution checks, chunk file naming, `gen_world_chunks` and `gen_world_geometry`.

Each method is proved against a specification function:

- `ProcessSingleCell` against `AppendCell`/`CountCell`/`CellOutcome`;
- `BuildMesh` against `ProcessCells`;
- `WriteBinaryData` against `BinaryLayout`;
- `ExportGltf` against `ExportSpec`;
- `GenWorldChunks` against `GenWorldChunksSpec`.

The lemmas state what the source promises about those functions.

The H3 library and the spherical projection are inputs, not code:

- A cell is a record `Cell(isPentagon, center, boundary)` holding the already projected 3D points.
- `gen_world_geometry` receives the list of cells of its resolution.
- `gen_world_chunks` receives a plan: for each chunk cell, in order, the list of its world-resolution children.

`ProcessingStats`, a plain struct the source updates through `&mut`, is passed in and returned as a value.

Two choices a reader might expect are not what the code does, and the model follows the code:

- **Index encoding.** Indices are not narrowed to 32 bits with a range check that could fail. The code writes `index as u32`, which keeps the low 32 bits, and that is what `IndexBytes` and `BinaryLayoutIndex` state.
- **Deduplication.** Vertices are not deduplicated or quantised. The code's `add_vertex` appends unconditionally, and so does `Mesh.AddVertex`.

**Running the program with no arguments always fails.** When arguments are missing, `parse_cli_args` (`src/main.rs:41-59`) supplies world resolution 0, chunk resolution 0 and prefix `output`. The first check of `gen_world_chunks` (`src/world_geometry/world_gen.rs:140-145`) refuses a chunk resolution that is not lower than the world resolution. So the default run ends with that configuration error before any directory or file is written. `DefaultArgumentsRejected` proves it, and `RejectsBadResolutions` proves that any run with invalid resolutions leaves the file system untouched.

## Model

Rows that begin "definition of" name reference functions. These functions carry no contract of their own. The method contracts and lemmas in the other rows are stated against them.

| member | source | states |
|---|---|---|
| Bytes.U32ToLeBytes | src/world_geometry/export.rs:24 | `u32::to_le_bytes`: exactly four bytes, least significant first; `U32LeRoundTrip` proves that `U32FromLeBytes` inverts it |
| Bytes.IsFinite | src/world_geometry/world_gen.rs:82 | definition of `f32::is_finite` on the bit pattern: the exponent field (bits 23 to 30) is not all ones, which excludes exactly the infinities and the NaNs |
| WorldGen.Finite | src/world_geometry/world_gen.rs:100 | definition of `v.iter().all(is_finite)` for a position: all three coordinates finite (the same test is made on the centre at line 82) |
| Files.WriteFile | src/world_geometry/export.rs:27-28 | definition of a file write (also `std::fs::write` at export.rs:138): it fails when the path is refused and then changes nothing; otherwise the file's content is replaced and nothing else changes |
| Files.CreateDirAll | src/world_geometry/world_gen.rs:178 | definition of `create_dir_all`: it fails when the directory is refused and then changes nothing; otherwise the directory is recorded |
| Files.FileName | src/world_geometry/export.rs:44-47 | definition of `Path::file_name`: trailing separators and `.` components are dropped; `None` for the empty path, `/`, `.` or a final `..`; otherwise the last component |
| Export.BinaryLayout | src/world_geometry/export.rs:6-25 | definition of the buffer `write_binary_data` builds: every position's three `f32`s, then every UV's two, then every index as a little-endian `u32`, each group in sequence order |
| Export.SceneMembers | src/world_geometry/export.rs:51-82 | definition of the fixed members of the `json!` literal: `asset` (version 2.0, generator), `scene` 0, `scenes`, `nodes` and `meshes`, with the primitive's attribute, index and mode numbers |
| Export.AccessorJson | src/world_geometry/export.rs:84-104 | definition of one accessor object: `bufferView`, `componentType`, `count`, `type` and `byteOffset` |
| Export.BufferViewJson | src/world_geometry/export.rs:107-126 | definition of one buffer-view object: `buffer`, `byteOffset`, `byteLength`, `byteStride` when the view has one (the two vertex views) and `target` |
| Export.BufferJson | src/world_geometry/export.rs:129-132 | definition of the buffer object: `byteLength` and `uri` |
| Export.DescriptorJson | src/world_geometry/export.rs:50-134 | definition of the whole `json!` document: the fixed members, then the `accessors`, `bufferViews` and `buffers` arrays built from the computed descriptor |
| Export.ExportSpec | src/world_geometry/export.rs:33-141 | definition of `export_gltf`'s effect: write the binary (on failure, stop with nothing changed); take the binary path's file name (on `None`, stop with only the binary written); write the descriptor with that URI (on failure, stop with only the binary written) |
| WorldGen.InvalidCount | src/world_geometry/world_gen.rs:100-104 | definition of the number of boundary vertices the finiteness check rejects |
| WorldGen.CellVertices | src/world_geometry/world_gen.rs:89-109 | definition of the vertices a cell appends: none for a non-finite centre, otherwise the centre and then the kept boundary vertices |
| WorldGen.CellTriangles | src/world_geometry/world_gen.rs:112-121 | definition of the triangles a cell appends: the fan around the centre's index over the kept boundary vertices' consecutive indices when at least three were kept, none otherwise |
| WorldGen.CellOutcome | src/world_geometry/world_gen.rs:82-123 | definition of `process_single_cell`'s result: `Err` for a non-finite centre, `Err` with the count when fewer than three boundary vertices were kept, `Ok` otherwise |
| WorldGen.CountCell | src/world_geometry/world_gen.rs:72-105 | definition of the counter update: the shape counter chosen by `is_pentagon`, then one invalid coordinate for a bad centre, or one per rejected boundary vertex |
| WorldGen.AppendCell | src/world_geometry/world_gen.rs:89-117 | definition of the mesh update: the cell's vertices with one placeholder UV each, and its triangles' flat indices numbered from the current vertex count |
| WorldGen.Tally | src/world_geometry/world_gen.rs:198-202 | definition of the loop's bookkeeping: `cells_processed` goes up by one only when the cell returned `Ok` |
| WorldGen.StepCell | src/world_geometry/world_gen.rs:197-202 | definition of one iteration of the cell loop: process the cell, then tally it |
| WorldGen.ProcessCells | src/world_geometry/world_gen.rs:44-50 | definition of the whole cell loop from a new mesh and zeroed counters (also world_gen.rs:194-202); `ProcessCellsCounts` and `ProcessCellsMesh` state what it yields |
| WorldGen.AddStats | src/world_geometry/world_gen.rs:219-222 | definition of adding a chunk's counters to the global ones, field by field |
| WorldGen.SumStats | src/world_geometry/world_gen.rs:219-222 | definition of the global counters after a run of chunks: the field-by-field sum of the chunks' counters, in chunk order |
| WorldGen.OutputDir | src/world_geometry/world_gen.rs:177 | definition of `Path::new("output").join(output_prefix)` |
| WorldGen.ChunkStem | src/world_geometry/world_gen.rs:225 | definition of `format!("{}-chunk{}", output_prefix, chunk_idx + 1)`: chunks are numbered from one |
| WorldGen.ChunkGltfPath | src/world_geometry/world_gen.rs:226 | definition of the descriptor path: the output directory joined with `{stem}.gltf` |
| WorldGen.ChunkBinPath | src/world_geometry/world_gen.rs:227 | definition of the binary path: the output directory joined with `{stem}.bin` |
| WorldGen.ExportChunks | src/world_geometry/world_gen.rs:183-239 | definition of the chunk loop's exports from a given chunk on: each chunk is exported in turn, and the first failure ends the run with that error and the files written so far |
| WorldGen.GenWorldChunksSpec | src/world_geometry/world_gen.rs:134-242 | definition of `gen_world_chunks`: the resolution checks with nothing written, then `create_dir_all`, then the chunk loop, then the summed counters when every export succeeded |
| Bytes.U32LeRoundTrip | src/world_geometry/export.rs:24 | reading back the four little-endian bytes of a `u32` gives the same number |
| Bytes.U32LeInjective | src/world_geometry/export.rs:24 | distinct `u32` values have distinct byte encodings |
| Bytes.TruncateToU32 | src/world_geometry/export.rs:24 | `index as u32` keeps the index when it is below 2^32 and otherwise differs from it by a multiple of 2^32 (no range check) |
| Bytes.F32ToLeBytes | src/world_geometry/export.rs:11-13 | an `f32` is written as exactly four bytes, the little-endian form of its bit pattern |
| MeshBuild.Mesh.constructor | src/world_geometry/mesh.rs:12-14 | a new mesh has no positions, UVs or indices |
| MeshBuild.Mesh.AddVertex | src/world_geometry/mesh.rs:16-23 | returns the vertex count from before the call; appends exactly that position and that UV, with no deduplication; leaves the indices; keeps a well-formed mesh well formed |
| MeshBuild.Mesh.AddTriangle | src/world_geometry/mesh.rs:27-29 | appends the three indices in order, unchecked; positions and UVs unchanged; well-formedness kept when the three indices name existing vertices |
| MeshBuild.Mesh.Stats | src/world_geometry/mesh.rs:32-37 | the vertex count, and the number of whole triangles in the index list (exactly a third of it in a well-formed mesh) |
| MeshBuild.Flatten | src/world_geometry/mesh.rs:27-29 | the flat index list of `n` triangles has `3n` entries |
| MeshBuild.FlattenAt | src/world_geometry/mesh.rs:27-29 | corner `j` of triangle `k` is entry `3k + j` of the flat list |
| MeshBuild.TriangulatePentagon | src/world_geometry/mesh.rs:47-56 | the loop returns the fan: one triangle per boundary index, triangle `i` being centre, `b[i]`, `b[(i+1) % len]`; an empty boundary gives no triangle and no division by zero |
| MeshBuild.Fan | src/world_geometry/mesh.rs:47-56 | the fan has as many triangles as there are boundary indices |
| MeshBuild.FanIsClosed | src/world_geometry/mesh.rs:50-53 | every triangle starts at the centre and boundary vertex `i`; each triangle's third corner is the next one's second; the last closes on `b[0]` |
| MeshBuild.FanIndicesBelow | src/world_geometry/mesh.rs:47-56 | if the centre and every boundary index are below the vertex count, so is every index the fan emits |
| WorldGen.ValidBoundary | src/world_geometry/world_gen.rs:95-109 | the boundary vertices the loop keeps are all finite and no more than the boundary has |
| WorldGen.ValidBoundaryPartition | src/world_geometry/world_gen.rs:95-109 | every boundary vertex is either kept or counted as an invalid coordinate |
| WorldGen.ValidBoundaryAppend | src/world_geometry/world_gen.rs:95-109 | the kept vertices stay in boundary order: filtering a concatenation concatenates the filtered parts |
| WorldGen.ValidBoundaryMembers | src/world_geometry/world_gen.rs:100-108 | a vertex is kept exactly when it is on the boundary and finite |
| WorldGen.ValidBoundaryAllFinite | src/world_geometry/world_gen.rs:95-109 | a boundary with no bad vertex is kept whole and adds no invalid coordinate |
| WorldGen.CountsShapeOnce | src/world_geometry/world_gen.rs:72-76 | exactly one of the pentagon and hexagon counters goes up, the pentagon one exactly when `is_pentagon`, whatever happens to the cell afterwards |
| WorldGen.RejectsBadCenter | src/world_geometry/world_gen.rs:82-87 | a non-finite centre adds one invalid coordinate, returns `Err`, and leaves the mesh unchanged |
| WorldGen.CellContribution | src/world_geometry/world_gen.rs:89-123 | with a finite centre and `k` surviving boundary vertices: the centre and then those vertices are appended with the placeholder UV, and each rejected vertex counts once; for `k >= 3` the result is `Ok` and the `k` fan triangles (`3k` indices) are appended; for `k < 3` the result is `Err(k)`, no triangle is added, and the vertices stay |
| WorldGen.AppendCellWellFormed | src/world_geometry/world_gen.rs:89-117 | processing a cell keeps the mesh well formed: one UV per position, whole triangles, and every index naming an existing vertex |
| WorldGen.AddBoundaryVertices | src/world_geometry/world_gen.rs:95-109 | the boundary loop appends exactly the finite boundary vertices, in order, with consecutive indices after the current count, and adds one invalid coordinate per rejected vertex |
| WorldGen.AddTriangles | src/world_geometry/world_gen.rs:115-117 | the triangle loop appends the flat corners of the triangles, in order, and nothing else |
| WorldGen.ProcessSingleCell | src/world_geometry/world_gen.rs:65-124 | the new mesh, the new counters and the result are those of `AppendCell`, `CountCell` and `CellOutcome` for the cell |
| WorldGen.ProcessCellsCounts | src/world_geometry/world_gen.rs:44-50 | after the cell loop, the pentagon count is the number of pentagons; pentagons plus hexagons is the number of cells; `cells_processed` counts exactly the cells whose processing returned `Ok` (never more than the cells); invalid coordinates are summed over the cells |
| WorldGen.ProcessCellsMesh | src/world_geometry/world_gen.rs:44-50 | after the cell loop, the vertex count is the sum of the cells' vertices, the index count is three times the sum of the successful cells' triangles, and the mesh is well formed |
| WorldGen.SingleCellMesh | src/world_geometry/world_gen.rs:89-117 | a cell with a finite centre and `n >= 3` finite boundary vertices gives `n + 1` vertices and `n` triangles (6 and 5 for a pentagon, 7 and 6 for a hexagon), is processed, and adds no invalid coordinate |
| WorldGen.BuildMesh | src/world_geometry/world_gen.rs:194-202 | a new mesh and zeroed counters, then every cell in order: the result is `ProcessCells(cells)` |
| WorldGen.ValidateResolution | src/world_geometry/world_gen.rs:20-21 | a resolution is accepted exactly when it is at most 15, and otherwise rejected with an error naming it |
| WorldGen.ValidateChunkResolutions | src/world_geometry/world_gen.rs:140-150 | the checks pass exactly when `chunk_res < world_res <= 15` |
| WorldGen.ValidationOrder | src/world_geometry/world_gen.rs:140-150 | the first failing check decides the error: not-coarser first, then the chunk range, then the world range |
| WorldGen.Decimal | src/world_geometry/world_gen.rs:225 | a number is written as a non-empty string of decimal digits |
| WorldGen.DecimalInjective | src/world_geometry/world_gen.rs:225 | different numbers are written differently |
| WorldGen.ChunkNameInjective | src/world_geometry/world_gen.rs:225-227 | the stem `{prefix}-chunk{N+1}` with a given extension determines the chunk |
| WorldGen.ChunkPathsDistinct | src/world_geometry/world_gen.rs:225-227 | distinct chunks get distinct `.gltf` and distinct `.bin` paths, and no `.gltf` path is a `.bin` path |
| WorldGen.ChunkBinaryFileName | src/world_geometry/world_gen.rs:225-229 | a chunk's binary path always has a file name, so the chunk export cannot fail for want of a URI; the name is `{stem}.bin` when the prefix has no separator |
| WorldGen.BuildChunks | src/world_geometry/world_gen.rs:183-202 | one cell-loop result per chunk of the plan |
| WorldGen.PlanStatsCounts | src/world_geometry/world_gen.rs:219-222 | over a whole plan, the summed pentagon and hexagon counts add up to the number of world cells, and `cells_processed` does not exceed it |
| WorldGen.RejectsBadResolutions | src/world_geometry/world_gen.rs:140-150 | invalid resolutions yield a configuration error and leave the file system untouched |
| WorldGen.DefaultArgumentsRejected | src/main.rs:41-59 | the default arguments (world resolution 0, chunk resolution 0, prefix `output`) are refused by the first check, and nothing is written |
| WorldGen.ExportChunksOutcome | src/world_geometry/world_gen.rs:183-239 | the chunk loop succeeds exactly when none of the remaining chunks' paths is refused, and it changes neither the directories nor the refused set |
| WorldGen.ExportChunksFrame | src/world_geometry/world_gen.rs:183-239 | a successful chunk loop leaves every file that is not a chunk file as it was |
| WorldGen.ExportChunksFiles | src/world_geometry/world_gen.rs:224-229 | after a successful chunk loop, each chunk's binary holds its mesh's layout and its descriptor the document for that mesh and that binary's file name; no later chunk overwrites them |
| WorldGen.GenWorldChunksOutcome | src/world_geometry/world_gen.rs:134-242 | the run succeeds exactly when the resolutions are valid, the output directory can be created and no chunk file is refused; it then returns the field-by-field sum of all chunks' counters, the directory exists, and every chunk's files hold that chunk's mesh |
| WorldGen.GenWorldChunks | src/world_geometry/world_gen.rs:134-242 | the method's result and file system are those of `GenWorldChunksSpec`: checks, then `create_dir_all`, then a fresh mesh and counters per chunk, the running sum, and the export, stopping at the first failure |
| WorldGen.GenWorldGeometry | src/world_geometry/world_gen.rs:16-62 | fails exactly when the resolution exceeds 15, with that resolution as the error; otherwise returns a new mesh and counters equal to `ProcessCells(cells)` |
| Export.Vec3Bytes | src/world_geometry/export.rs:10-14 | a position takes 12 bytes |
| Export.UvBytes | src/world_geometry/export.rs:17-20 | a UV takes 8 bytes |
| Export.IndexBytes | src/world_geometry/export.rs:23-25 | an index takes 4 bytes |
| Export.PackedAt | src/world_geometry/export.rs:10-25 | with fixed-width encodings, element `i` occupies bytes `w*i` to `w*i + w` of the packed sequence |
| Export.BinaryLayoutLength | src/world_geometry/export.rs:9-25 | the buffer is `12·|vertices| + 8·|uvs0| + 4·|indices|` bytes long |
| Export.BinaryLayoutPosition | src/world_geometry/export.rs:10-14 | position `i` is bytes `12i` to `12i + 12`, x then y then z |
| Export.BinaryLayoutUv | src/world_geometry/export.rs:17-20 | UV `i` follows every position, at byte `12·|vertices| + 8i`, u then v |
| Export.BinaryLayoutIndex | src/world_geometry/export.rs:23-25 | index `i` follows every UV, at byte `12·|vertices| + 8·|uvs0| + 4i`, as the little-endian low 32 bits of the index; an index below 2^32 reads back unchanged |
| Export.WriteBinaryData | src/world_geometry/export.rs:6-30 | the three loops build `BinaryLayout` of the mesh; the file then holds it, or, when the path cannot be written, the call fails and nothing changes |
| Export.BuildDescriptor | src/world_geometry/export.rs:38-41 | the descriptor has three accessors, three buffer views and one buffer |
| Export.DescriptorMatchesBinary | src/world_geometry/export.rs:38-41 | `total_buffer_size` is the length of the bytes actually written; the three views lie in buffer 0 end to end from byte 0 up to that length, and each covers exactly the positions, the UVs or the indices |
| Export.AccessorsFitViews | src/world_geometry/export.rs:83-127 | the accessor counts are `|vertices|`, `|uvs0|` and `|indices|`, with component types 5126, 5126 and 5125; accessor `k` reads view `k` from offset 0, and its elements exactly fill the view; the strides are the element sizes; the primitive uses accessors 0, 1 and 2 in mode 4; the buffer carries the URI |
| Export.DescriptorJsonBufferEntry | src/world_geometry/export.rs:128-133 | `buffers[0]` of the JSON document is the buffer entry |
| Export.BufferFields | src/world_geometry/export.rs:128-133 | a document whose first buffer is `b` has `b`'s byte length and URI at `buffers[0].byteLength` and `buffers[0].uri` |
| Export.DescriptorJsonBuffer | src/world_geometry/export.rs:128-133 | the JSON document's `buffers[0].byteLength` is the length of the binary buffer and its `buffers[0].uri` is the URI given |
| Export.ExportOutcome | src/world_geometry/export.rs:33-141 | the export succeeds exactly when both paths can be written and the binary path has a file name; a binary that cannot be written leaves the file system as it was, so there is no descriptor without its buffer; a missing file name leaves only the binary written; directories and refused paths never change |
| Export.ExportSuccess | src/world_geometry/export.rs:33-141 | after a successful export, the binary file and then the descriptor file are written, and nothing else changes; the descriptor's buffer length is the binary's length and its URI is the binary path's file name |
| Export.ExportGltf | src/world_geometry/export.rs:33-141 | the method's result and file system are those of `ExportSpec`: binary first, then the file-name URI, then the descriptor |
| Files.Join | src/world_geometry/world_gen.rs:177 | a joined non-empty path ends with the path joined |
| Files.LastSegment | src/world_geometry/export.rs:44-45 | the last segment is a suffix with no separator, preceded by a separator unless it is the whole path |
| Files.LastSegmentOfConcat | src/world_geometry/export.rs:44-45 | appending to text that ends in a separator, or appending text with a separator, leaves the appended text's last segment |
| Files.LastSegmentOfJoin | src/world_geometry/export.rs:44-45 | joining does not change a path's last segment |
| Files.FileNameOfPlainEnding | src/world_geometry/export.rs:44-47 | a path ending in neither `/` nor `.` has a file name, its non-empty last segment |
| Files.FileNameOfJoin | src/world_geometry/export.rs:44-47 | the file name of a directory joined with such a name exists, and it is the name itself when the name has no separator |
| Files.JoinInjective | src/world_geometry/world_gen.rs:226-227 | two relative names joined to the same directory give the same path only if they are the same |
| JsonTree.FirstWithKey | src/world_geometry/export.rs:50-134 | a key lookup finds a member with that key, or there is none |
| JsonTree.FirstWithKeyAt | src/world_geometry/export.rs:50-134 | the lookup returns the first member with a matching key |
| JsonTree.AtConcat | src/world_geometry/export.rs:50-134 | following a path `p + q` is following `p` and then `q` from where it ends |

## Left out

- The spherical projection `lat_lng_to_3d` and the `f64` to `f32` casts: a cell arrives with its centre and boundary already projected, and only the finiteness of each coordinate (its exponent field) is modelled.
- The H3 library (`base_cells`, `children`, `is_pentagon`, `vertexes`, `LatLng::from`): its results are inputs. `Resolution::try_from` is modelled only as "valid exactly when at most 15".
- The vertex attribute: the source passes `[1.0; 3]` where `add_vertex` takes a two-float UV, which does not type-check as written. The model appends one fixed placeholder UV, `(1.0, 1.0)`, per vertex.
- Logging and progress: `println!`/`eprintln!` output, the 25% progress test inside each chunk and the `processed_cells_total` overall percentage only print, so they are not modelled.
- The command line: `parse_cli_args` is not modelled beyond its defaults (0, 0, `output`), which `DefaultArgumentsRejected` uses. `main.rs`, `color.rs` (random colours, not called) and `mod.rs` (re-exports) are not part of this model.
- JSON text: `serde_json::to_string_pretty` and its formatting are not modelled, and neither is a serialisation error. The descriptor file holds the JSON tree. The tree keeps members in the order the `json!` literal writes them; all keys are distinct, so lookups do not depend on that order.
- Why an I/O operation fails: every failure is a path in the `refused` set. Several things are therefore not modelled:
  - the error text;
  - partially written files;
  - permissions;
  - that a file in a directory that was never created cannot be written. With a prefix containing `/`, the chunk files are written below a sub-directory that `create_dir_all` did not create; the model does not capture that failure unless the path is refused.
- Files.CreateDirAll: records only the directory itself, not its ancestors.
- Paths: only `/` is a separator, as on Unix. `to_str().unwrap()` always succeeds, because paths are strings here.
- `usize` overflow: counters, vertex counts and the byte-size products in `export_gltf` are unbounded integers. They could only wrap for meshes far larger than memory.
- Vertex deduplication or quantisation: the code has none, so the model has none.
- WorldGen.GenWorldChunks: its contract gives the summed counters as `SumStats(BuildChunks(plan))`, a sum over the chunk meshes built before the exports. The method accumulates them one chunk at a time, as the source does, and the loop invariant ties the two together.
- WorldGen.AddBoundaryVertices, WorldGen.AddTriangles and WorldGen.BuildMesh: these are the boundary, triangle and cell loops of the source, factored out as methods. `BuildMesh` is shared by `gen_world_geometry` and each chunk of `gen_world_chunks`.
