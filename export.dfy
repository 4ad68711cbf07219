/** `export.rs`: the binary buffer of a mesh and the glTF 2.0 scene
    descriptor that points into it (glTF 2.0 specification, section 3.6
    "Binary Data Storage" and section 3.6.2 "Buffer Views"). */
module Export {
  import opened Results
  import opened Bytes
  import opened MeshBuild
  import opened JsonTree
  import opened Files

  datatype ExportError = WriteFailed(path: Path) | InvalidBinaryFilename(path: Path)

  // ---------------------------------------------------------------------
  // Binary buffer

  function Vec3Bytes(v: Vec3): (bs: seq<u8>)
    ensures |bs| == 12
  {
    F32ToLeBytes(v.x) + F32ToLeBytes(v.y) + F32ToLeBytes(v.z)
  }

  function UvBytes(uv: Uv): (bs: seq<u8>)
    ensures |bs| == 8
  {
    F32ToLeBytes(uv.u) + F32ToLeBytes(uv.v)
  }

  /** An index as written: `(index as u32).to_le_bytes()`. */
  function IndexBytes(index: nat): (bs: seq<u8>)
    ensures |bs| == 4
  {
    U32ToLeBytes(TruncateToU32(index))
  }

  /** The encodings of `xs`, one after the other, in sequence order. */
  function Packed<T>(xs: seq<T>, enc: T -> seq<u8>): seq<u8>
  {
    if xs == [] then [] else Packed(xs[..|xs| - 1], enc) + enc(xs[|xs| - 1])
  }

  lemma {:induction false} PackedLength<T>(xs: seq<T>, enc: T -> seq<u8>, w: nat)
    requires forall x :: |enc(x)| == w
    ensures |Packed(xs, enc)| == w * |xs|
  {
    if xs != [] {
      PackedLength(xs[..|xs| - 1], enc, w);
      assert w * |xs| == w * (|xs| - 1) + w;
    }
  }

  /** `w` more than the `a`-th multiple of `w` is at most its `b`-th. */
  lemma {:induction false} MultipleBelow(w: nat, a: nat, b: nat)
    requires a < b
    ensures w * a + w <= w * b
    decreases b - a
  {
    assert w * (a + 1) == w * a + w;
    if a + 1 < b {
      MultipleBelow(w, a + 1, b);
    }
  }

  /** With every encoding `w` bytes long, element `i` occupies bytes
      `w*i` up to `w*i + w`. */
  lemma {:induction false} PackedAt<T>(xs: seq<T>, enc: T -> seq<u8>, w: nat, i: nat)
    requires forall x :: |enc(x)| == w
    requires i < |xs|
    ensures |Packed(xs, enc)| == w * |xs|
    ensures w * i + w <= |Packed(xs, enc)|
    ensures Packed(xs, enc)[w * i .. w * i + w] == enc(xs[i])
  {
    var init := xs[..|xs| - 1];
    var front, last := Packed(init, enc), enc(xs[|xs| - 1]);
    PackedLength(xs, enc, w);
    PackedLength(init, enc, w);
    MultipleBelow(w, i, |xs|);
    assert Packed(xs, enc) == front + last;
    var lo := w * i;
    if i < |init| {
      PackedAt(init, enc, w, i);
      MultipleBelow(w, i, |init|);
      assert (front + last)[lo .. lo + w] == front[lo .. lo + w];
    } else {
      assert lo == |front|;
      assert (front + last)[lo .. lo + w] == last;
    }
  }

  /** `write_binary_data`'s buffer: every position (3 floats), then every
      UV (2 floats), then every index (one little-endian `u32`). */
  function BinaryLayout(m: MeshData): seq<u8>
  {
    Packed(m.vertices, Vec3Bytes) + Packed(m.uvs0, UvBytes) + Packed(m.indices, IndexBytes)
  }

  /** The buffer holds 12 bytes per position, 8 per UV and 4 per index. */
  lemma BinaryLayoutLength(m: MeshData)
    ensures |BinaryLayout(m)| == 12 * |m.vertices| + 8 * |m.uvs0| + 4 * |m.indices|
  {
    PackedLength(m.vertices, Vec3Bytes, 12);
    PackedLength(m.uvs0, UvBytes, 8);
    PackedLength(m.indices, IndexBytes, 4);
  }

  /** Position `i` is at byte `12*i`: its x, y and z, 4 bytes each. */
  lemma BinaryLayoutPosition(m: MeshData, i: nat)
    requires i < |m.vertices|
    ensures 12 * i + 12 <= |BinaryLayout(m)|
    ensures BinaryLayout(m)[12 * i .. 12 * i + 12] == Vec3Bytes(m.vertices[i])
  {
    PackedAt(m.vertices, Vec3Bytes, 12, i);
    var p := Packed(m.vertices, Vec3Bytes);
    assert BinaryLayout(m)[..|p|] == p;
  }

  /** UV `i` follows all positions, at byte `12*|vertices| + 8*i`: its u
      and v, 4 bytes each. */
  lemma BinaryLayoutUv(m: MeshData, i: nat)
    requires i < |m.uvs0|
    ensures 12 * |m.vertices| + 8 * i + 8 <= |BinaryLayout(m)|
    ensures BinaryLayout(m)[12 * |m.vertices| + 8 * i .. 12 * |m.vertices| + 8 * i + 8] == UvBytes(m.uvs0[i])
  {
    PackedLength(m.vertices, Vec3Bytes, 12);
    PackedAt(m.uvs0, UvBytes, 8, i);
    var p := Packed(m.vertices, Vec3Bytes);
    var q := Packed(m.uvs0, UvBytes);
    var b := BinaryLayout(m);
    assert b[|p|..|p| + |q|] == q;
    assert b[|p| + 8 * i .. |p| + 8 * i + 8] == q[8 * i .. 8 * i + 8];
  }

  /** Index `i` follows all UVs, at byte `12*|vertices| + 8*|uvs0| + 4*i`,
      as the low 32 bits of the index; an index below 2^32 reads back
      unchanged. */
  lemma BinaryLayoutIndex(m: MeshData, i: nat)
    requires i < |m.indices|
    ensures 12 * |m.vertices| + 8 * |m.uvs0| + 4 * i + 4 <= |BinaryLayout(m)|
    ensures BinaryLayout(m)[12 * |m.vertices| + 8 * |m.uvs0| + 4 * i .. 12 * |m.vertices| + 8 * |m.uvs0| + 4 * i + 4]
      == U32ToLeBytes(TruncateToU32(m.indices[i]))
    ensures m.indices[i] < U32_MODULUS ==>
      U32FromLeBytes(BinaryLayout(m)[12 * |m.vertices| + 8 * |m.uvs0| + 4 * i .. 12 * |m.vertices| + 8 * |m.uvs0| + 4 * i + 4]) as int
      == m.indices[i]
  {
    PackedLength(m.vertices, Vec3Bytes, 12);
    PackedLength(m.uvs0, UvBytes, 8);
    PackedAt(m.indices, IndexBytes, 4, i);
    var p := Packed(m.vertices, Vec3Bytes) + Packed(m.uvs0, UvBytes);
    var q := Packed(m.indices, IndexBytes);
    var b := BinaryLayout(m);
    assert b[|p|..] == q;
    assert b[|p| + 4 * i .. |p| + 4 * i + 4] == q[4 * i .. 4 * i + 4];
    U32LeRoundTrip(TruncateToU32(m.indices[i]));
  }

  /** `write_binary_data`: builds the buffer with three loops, then writes
      it to `filename`. */
  method WriteBinaryData(mesh: Mesh, filename: Path, fs: FileSystem) returns (r: Result<(), ExportError>, fs': FileSystem)
    ensures filename in fs.refused ==> r == Err(WriteFailed(filename)) && fs' == fs
    ensures filename !in fs.refused ==>
      r == Ok(()) && fs' == fs.(files := fs.files[filename := BinaryFile(BinaryLayout(mesh.Data()))])
  {
    var binaryData: seq<u8> := [];
    for i := 0 to |mesh.vertices|
      invariant binaryData == Packed(mesh.vertices[..i], Vec3Bytes)
    {
      var vertex := mesh.vertices[i];
      binaryData := binaryData + F32ToLeBytes(vertex.x);
      binaryData := binaryData + F32ToLeBytes(vertex.y);
      binaryData := binaryData + F32ToLeBytes(vertex.z);
      assert mesh.vertices[..i + 1][..i] == mesh.vertices[..i];
    }
    assert mesh.vertices[..|mesh.vertices|] == mesh.vertices;
    ghost var positions := binaryData;
    for i := 0 to |mesh.uvs0|
      invariant binaryData == positions + Packed(mesh.uvs0[..i], UvBytes)
    {
      var uv := mesh.uvs0[i];
      binaryData := binaryData + F32ToLeBytes(uv.u);
      binaryData := binaryData + F32ToLeBytes(uv.v);
      assert mesh.uvs0[..i + 1][..i] == mesh.uvs0[..i];
    }
    assert mesh.uvs0[..|mesh.uvs0|] == mesh.uvs0;
    ghost var attributes := binaryData;
    for i := 0 to |mesh.indices|
      invariant binaryData == attributes + Packed(mesh.indices[..i], IndexBytes)
    {
      var index := mesh.indices[i];
      binaryData := binaryData + U32ToLeBytes(TruncateToU32(index));
      assert mesh.indices[..i + 1][..i] == mesh.indices[..i];
    }
    assert mesh.indices[..|mesh.indices|] == mesh.indices;
    var written := WriteFile(fs, filename, BinaryFile(binaryData));
    if written.Err? {
      return Err(WriteFailed(filename)), fs;
    }
    return Ok(()), written.value;
  }

  // ---------------------------------------------------------------------
  // Scene descriptor

  const FLOAT: nat := 5126
  const UNSIGNED_INT: nat := 5125
  const ARRAY_BUFFER: nat := 34962
  const ELEMENT_ARRAY_BUFFER: nat := 34963
  const TRIANGLES: nat := 4

  datatype Accessor = Accessor(bufferView: nat, componentType: nat, count: nat, elementType: string, byteOffset: nat)
  datatype BufferView = BufferView(buffer: nat, byteOffset: nat, byteLength: nat, byteStride: Option<nat>, target: nat)
  datatype Buffer = Buffer(byteLength: nat, uri: string)
  datatype Primitive = Primitive(position: nat, texCoord0: nat, indices: nat, mode: nat)

  /** The computed part of the descriptor; the rest is fixed text. */
  datatype SceneDescriptor = SceneDescriptor(
    primitive: Primitive,
    accessors: seq<Accessor>,
    bufferViews: seq<BufferView>,
    buffers: seq<Buffer>)

  /** Bytes per component of a glTF component type. */
  function ComponentSize(componentType: nat): nat
  {
    if componentType == FLOAT || componentType == UNSIGNED_INT then 4 else 0
  }

  /** Components per element of a glTF accessor type. */
  function ComponentCount(elementType: string): nat
  {
    if elementType == "VEC3" then 3
    else if elementType == "VEC2" then 2
    else if elementType == "SCALAR" then 1
    else 0
  }

  function ElementSize(a: Accessor): nat
  {
    ComponentSize(a.componentType) * ComponentCount(a.elementType)
  }

  /** The sizes, offsets and counts `export_gltf` computes. */
  function BuildDescriptor(m: MeshData, uri: string): (d: SceneDescriptor)
    ensures |d.accessors| == 3 && |d.bufferViews| == 3 && |d.buffers| == 1
  {
    var vertexBufferSize := |m.vertices| * 12;
    var uvBufferSize := |m.uvs0| * 8;
    var indexBufferSize := |m.indices| * 4;
    var totalBufferSize := vertexBufferSize + uvBufferSize + indexBufferSize;
    SceneDescriptor(
      Primitive(0, 1, 2, TRIANGLES),
      [ Accessor(0, FLOAT, |m.vertices|, "VEC3", 0),
        Accessor(1, FLOAT, |m.uvs0|, "VEC2", 0),
        Accessor(2, UNSIGNED_INT, |m.indices|, "SCALAR", 0) ],
      [ BufferView(0, 0, vertexBufferSize, Some(12), ARRAY_BUFFER),
        BufferView(0, vertexBufferSize, uvBufferSize, Some(8), ARRAY_BUFFER),
        BufferView(0, vertexBufferSize + uvBufferSize, indexBufferSize, None, ELEMENT_ARRAY_BUFFER) ],
      [ Buffer(totalBufferSize, uri) ])
  }

  /** The descriptor's arithmetic matches the bytes `write_binary_data`
      produces: the buffer length is the buffer's byte count, the three
      views tile it end to end from byte 0, and each view covers exactly
      the positions, the UVs or the indices. */
  lemma DescriptorMatchesBinary(m: MeshData, uri: string)
    ensures var d, b := BuildDescriptor(m, uri), BinaryLayout(m);
      && d.buffers[0].byteLength == |b|
      && d.bufferViews[0].byteOffset == 0
      && d.bufferViews[1].byteOffset == d.bufferViews[0].byteOffset + d.bufferViews[0].byteLength
      && d.bufferViews[2].byteOffset == d.bufferViews[1].byteOffset + d.bufferViews[1].byteLength
      && d.bufferViews[2].byteOffset + d.bufferViews[2].byteLength == d.buffers[0].byteLength
      && (forall k :: 0 <= k < 3 ==> d.bufferViews[k].buffer == 0)
      && b[d.bufferViews[0].byteOffset .. d.bufferViews[0].byteOffset + d.bufferViews[0].byteLength]
         == Packed(m.vertices, Vec3Bytes)
      && b[d.bufferViews[1].byteOffset .. d.bufferViews[1].byteOffset + d.bufferViews[1].byteLength]
         == Packed(m.uvs0, UvBytes)
      && b[d.bufferViews[2].byteOffset .. d.bufferViews[2].byteOffset + d.bufferViews[2].byteLength]
         == Packed(m.indices, IndexBytes)
  {
    PackedLength(m.vertices, Vec3Bytes, 12);
    PackedLength(m.uvs0, UvBytes, 8);
    PackedLength(m.indices, IndexBytes, 4);
    var p, q, s := Packed(m.vertices, Vec3Bytes), Packed(m.uvs0, UvBytes), Packed(m.indices, IndexBytes);
    var b := BinaryLayout(m);
    assert b[0..|p|] == p;
    assert b[|p|..|p| + |q|] == q;
    assert b[|p| + |q|..|p| + |q| + |s|] == s;
  }

  /** Every accessor reads its own buffer view, with the component type and
      count of the data there, and its elements exactly fill the view; the
      vertex views' strides are their element sizes. */
  lemma AccessorsFitViews(m: MeshData, uri: string)
    ensures var d := BuildDescriptor(m, uri);
      && d.accessors[0].count == |m.vertices| && d.accessors[1].count == |m.uvs0|
      && d.accessors[2].count == |m.indices|
      && d.accessors[0].componentType == 5126 && d.accessors[1].componentType == 5126
      && d.accessors[2].componentType == 5125
      && (forall k :: 0 <= k < 3 ==>
            && d.accessors[k].bufferView == k
            && d.accessors[k].byteOffset == 0
            && d.accessors[k].count * ElementSize(d.accessors[k]) == d.bufferViews[k].byteLength)
      && d.bufferViews[0].byteStride == Some(ElementSize(d.accessors[0]))
      && d.bufferViews[1].byteStride == Some(ElementSize(d.accessors[1]))
      && d.primitive == Primitive(0, 1, 2, TRIANGLES)
      && d.buffers[0].uri == uri
  {
  }

  function IntJson(n: nat): Json
  {
    JNumber(n)
  }

  function AccessorJson(a: Accessor): Json
  {
    JObject([ ("bufferView", IntJson(a.bufferView)), ("componentType", IntJson(a.componentType)),
              ("count", IntJson(a.count)), ("type", JString(a.elementType)),
              ("byteOffset", IntJson(a.byteOffset)) ])
  }

  function BufferViewJson(v: BufferView): Json
  {
    var stride := if v.byteStride.Some? then [("byteStride", IntJson(v.byteStride.value))] else [];
    JObject([ ("buffer", IntJson(v.buffer)), ("byteOffset", IntJson(v.byteOffset)),
              ("byteLength", IntJson(v.byteLength)) ] + stride + [ ("target", IntJson(v.target)) ])
  }

  function BufferJson(b: Buffer): Json
  {
    JObject([ ("byteLength", IntJson(b.byteLength)), ("uri", JString(b.uri)) ])
  }

  /** The members of the `json!` document of `export_gltf` that do not
      depend on the buffer: the asset, scene, node and mesh entries. */
  function SceneMembers(p: Primitive): seq<(string, Json)>
  {
    [ ("asset", JObject([ ("version", JString("2.0")), ("generator", JString("DTD_WorldGenerator")) ])),
      ("scene", IntJson(0)),
      ("scenes", JArray([ JObject([ ("name", JString("H3_Scene")), ("nodes", JArray([IntJson(0)])) ]) ])),
      ("nodes", JArray([ JObject([ ("name", JString("H3_Polyhedron_Node")), ("mesh", IntJson(0)) ]) ])),
      ("meshes", JArray([ JObject([
        ("name", JString("H3_Polyhedron")),
        ("primitives", JArray([ JObject([
          ("attributes", JObject([ ("POSITION", IntJson(p.position)), ("TEXCOORD_0", IntJson(p.texCoord0)) ])),
          ("indices", IntJson(p.indices)),
          ("mode", IntJson(p.mode)) ]) ])) ]) ])) ]
  }

  /** The `json!` document of `export_gltf`. */
  function DescriptorJson(d: SceneDescriptor): Json
  {
    JObject(SceneMembers(d.primitive) + [
      ("accessors", JArray(seq(|d.accessors|, k requires 0 <= k < |d.accessors| => AccessorJson(d.accessors[k])))),
      ("bufferViews", JArray(seq(|d.bufferViews|, k requires 0 <= k < |d.bufferViews| => BufferViewJson(d.bufferViews[k])))),
      ("buffers", JArray(seq(|d.buffers|, k requires 0 <= k < |d.buffers| => BufferJson(d.buffers[k]))))
    ])
  }

  /** The first entry of the document's `buffers` array is the buffer. */
  lemma DescriptorJsonBufferEntry(d: SceneDescriptor)
    requires |d.buffers| == 1
    ensures At(DescriptorJson(d), [Key("buffers"), Index(0)]) == Some(BufferJson(d.buffers[0]))
  {
    var members := DescriptorJson(d).members;
    assert |SceneMembers(d.primitive)| == 5;
    forall i | 0 <= i < 7
      ensures members[i].0 != "buffers"
    {
      assert |members[i].0| != |"buffers"|;
    }
    FirstWithKeyAt(members, 7, "buffers");
    assert members[7].1.items == [BufferJson(d.buffers[0])];
    assert [Key("buffers"), Index(0)][1..] == [Index(0)];
  }

  /** A document whose first buffer is `b` carries its length and URI. */
  lemma BufferFields(j: Json, b: Buffer)
    requires At(j, [Key("buffers"), Index(0)]) == Some(BufferJson(b))
    ensures At(j, [Key("buffers"), Index(0), Key("byteLength")]) == Some(IntJson(b.byteLength))
    ensures At(j, [Key("buffers"), Index(0), Key("uri")]) == Some(JString(b.uri))
  {
    var buffer := BufferJson(b);
    FirstWithKeyAt(buffer.members, 0, "byteLength");
    FirstWithKeyAt(buffer.members, 1, "uri");
    AtConcat(j, [Key("buffers"), Index(0)], [Key("byteLength")]);
    AtConcat(j, [Key("buffers"), Index(0)], [Key("uri")]);
    assert [Key("buffers"), Index(0)] + [Key("byteLength")] == [Key("buffers"), Index(0), Key("byteLength")];
    assert [Key("buffers"), Index(0)] + [Key("uri")] == [Key("buffers"), Index(0), Key("uri")];
    assert [Key("byteLength")][1..] == [] && [Key("uri")][1..] == [];
  }

  /** The JSON document carries the computed buffer length and URI. */
  lemma DescriptorJsonBuffer(m: MeshData, uri: string)
    ensures At(DescriptorJson(BuildDescriptor(m, uri)), [Key("buffers"), Index(0), Key("byteLength")])
      == Some(JNumber(|BinaryLayout(m)|))
    ensures At(DescriptorJson(BuildDescriptor(m, uri)), [Key("buffers"), Index(0), Key("uri")])
      == Some(JString(uri))
  {
    BinaryLayoutLength(m);
    var d := BuildDescriptor(m, uri);
    DescriptorJsonBufferEntry(d);
    BufferFields(DescriptorJson(d), d.buffers[0]);
  }

  // ---------------------------------------------------------------------
  // export_gltf

  /** `export_gltf`'s effect: the binary file first, then the bare file name
      of its path as the buffer URI, then the descriptor. */
  function ExportSpec(m: MeshData, gltfFilename: Path, binaryFilename: Path, fs: FileSystem)
    : (Result<(), ExportError>, FileSystem)
  {
    var written := WriteFile(fs, binaryFilename, BinaryFile(BinaryLayout(m)));
    if written.Err? then (Err(WriteFailed(binaryFilename)), fs)
    else match FileName(binaryFilename)
      case None => (Err(InvalidBinaryFilename(binaryFilename)), written.value)
      case Some(uri) =>
        var described := WriteFile(written.value, gltfFilename, JsonFile(DescriptorJson(BuildDescriptor(m, uri))));
        if described.Err? then (Err(WriteFailed(gltfFilename)), written.value)
        else (Ok(()), described.value)
  }

  /** The export succeeds exactly when both files can be written and the
      binary path has a file name. A binary that cannot be written leaves
      the file system as it was, so no descriptor exists without its
      buffer; a missing file name leaves just the binary written. */
  lemma ExportOutcome(m: MeshData, gltfFilename: Path, binaryFilename: Path, fs: FileSystem)
    ensures var (r, fs') := ExportSpec(m, gltfFilename, binaryFilename, fs);
      && (r.Ok? <==> binaryFilename !in fs.refused && FileName(binaryFilename).Some? && gltfFilename !in fs.refused)
      && (binaryFilename in fs.refused ==> r == Err(WriteFailed(binaryFilename)) && fs' == fs)
      && (binaryFilename !in fs.refused ==>
            fs'.files[binaryFilename] == (if gltfFilename == binaryFilename && r.Ok? then fs'.files[gltfFilename]
                                          else BinaryFile(BinaryLayout(m))))
      && (binaryFilename !in fs.refused && FileName(binaryFilename).None? ==>
            r == Err(InvalidBinaryFilename(binaryFilename))
            && fs'.files == fs.files[binaryFilename := BinaryFile(BinaryLayout(m))])
      && fs'.dirs == fs.dirs && fs'.refused == fs.refused
  {
  }

  /** After a successful export the descriptor file holds the descriptor
      of this mesh, whose buffer length is the binary's length and whose URI
      is the binary path's file name, and nothing else changed. */
  lemma ExportSuccess(m: MeshData, gltfFilename: Path, binaryFilename: Path, fs: FileSystem)
    requires ExportSpec(m, gltfFilename, binaryFilename, fs).0.Ok?
    ensures FileName(binaryFilename).Some?
    ensures var d := BuildDescriptor(m, FileName(binaryFilename).value);
      && ExportSpec(m, gltfFilename, binaryFilename, fs).1.files
         == fs.files[binaryFilename := BinaryFile(BinaryLayout(m))][gltfFilename := JsonFile(DescriptorJson(d))]
      && d.buffers[0].byteLength == |BinaryLayout(m)|
      && d.buffers[0].uri == FileName(binaryFilename).value
  {
    BinaryLayoutLength(m);
  }

  /** `export_gltf`. */
  method ExportGltf(mesh: Mesh, gltfFilename: Path, binaryFilename: Path, fs: FileSystem)
    returns (r: Result<(), ExportError>, fs': FileSystem)
    ensures (r, fs') == ExportSpec(mesh.Data(), gltfFilename, binaryFilename, fs)
  {
    r, fs' := WriteBinaryData(mesh, binaryFilename, fs);
    if r.Err? {
      return;
    }
    var binaryUri := FileName(binaryFilename);
    if binaryUri.None? {
      return Err(InvalidBinaryFilename(binaryFilename)), fs';
    }
    var gltf := DescriptorJson(BuildDescriptor(mesh.Data(), binaryUri.value));
    var written := WriteFile(fs', gltfFilename, JsonFile(gltf));
    if written.Err? {
      return Err(WriteFailed(gltfFilename)), fs';
    }
    return Ok(()), written.value;
  }
}
