/** The constants and memory layouts of InterfaceDX12.h that the rest of the
    backend depends on: the frame count, the texture dimensions, and the byte
    layout of `Vertex` and `SceneConstantBuffer` as C++ lays them out. */
module Layout {

  /** Number of swap-chain buffers, render targets and RTV heap entries. */
  const FRAME_COUNT: nat := 2

  const TextureWidth: nat := 256
  const TextureHeight: nat := 256
  /** Bytes per RGBA8 texel. */
  const TexturePixelSize: nat := 4

  /** The C++ types the shared structures are built from. Every scalar is a
      4-byte `float`, so every type has 4-byte alignment and every size is a
      multiple of 4 (`SizeIsWordMultiple`): the layout rules then place the
      fields of a struct back to back with no padding. */
  datatype CType = Float | Struct(fields: seq<CType>) | Array(elem: CType, count: nat)

  const FloatSize: nat := 4

  const Float2: CType := Struct([Float, Float])
  const Float3: CType := Struct([Float, Float, Float])
  const Float4: CType := Struct([Float, Float, Float, Float])

  /** `struct Vertex { Float3 position; Float2 uv; }` */
  const Vertex: CType := Struct([Float3, Float2])

  /** `struct SceneConstantBuffer { Float4 offset; float padding[60]; }` */
  const SceneConstantBuffer: CType := Struct([Float4, Array(Float, 60)])

  function SizeOf(t: CType): nat
    decreases t, 1, 0
  {
    match t
    case Float => FloatSize
    case Array(e, n) => n * SizeOf(e)
    case Struct(fs) => OffsetOf(t, |fs|)
  }

  /** Byte offset of field `k` of a struct; `OffsetOf(s, |fields|)` is where the
      last field ends. */
  function OffsetOf(s: CType, k: nat): nat
    requires s.Struct? && k <= |s.fields|
    decreases s, 0, k
  {
    if k == 0 then 0 else OffsetOf(s, k - 1) + SizeOf(s.fields[k - 1])
  }

  lemma {:induction false} SizeIsWordMultiple(t: CType)
    ensures SizeOf(t) % FloatSize == 0
    decreases t, 1, 0
  {
    match t
    case Float =>
    case Array(e, n) =>
      SizeIsWordMultiple(e);
      assert SizeOf(t) == n * SizeOf(e);
      var q := SizeOf(e) / FloatSize;
      assert SizeOf(e) == FloatSize * q;
      assert n * SizeOf(e) == FloatSize * (n * q);
    case Struct(fs) =>
      OffsetIsWordMultiple(t, |fs|);
  }

  lemma {:induction false} OffsetIsWordMultiple(s: CType, k: nat)
    requires s.Struct? && k <= |s.fields|
    ensures OffsetOf(s, k) % FloatSize == 0
    decreases s, 0, k
  {
    if k > 0 {
      OffsetIsWordMultiple(s, k - 1);
      SizeIsWordMultiple(s.fields[k - 1]);
    }
  }

  /** Fields of a struct occupy disjoint byte ranges, in declaration order, all
      inside the struct. */
  lemma {:induction false} FieldsAreDisjoint(s: CType, i: nat, j: nat)
    requires s.Struct? && i < j < |s.fields|
    ensures OffsetOf(s, i) + SizeOf(s.fields[i]) <= OffsetOf(s, j)
    ensures OffsetOf(s, j) + SizeOf(s.fields[j]) <= SizeOf(s)
    decreases j
  {
    if i + 1 < j {
      FieldsAreDisjoint(s, i, j - 1);
    }
    OffsetMonotone(s, j + 1, |s.fields|);
  }

  lemma {:induction false} OffsetMonotone(s: CType, k: nat, m: nat)
    requires s.Struct? && k <= m <= |s.fields|
    ensures OffsetOf(s, k) <= OffsetOf(s, m)
    decreases m - k
  {
    if k < m {
      OffsetMonotone(s, k, m - 1);
    }
  }

  /** Vertex formats used by the input layout. */
  datatype Format = R32G32B32Float | R32G32Float

  function FormatSize(f: Format): nat
  {
    match f
    case R32G32B32Float => 3 * FloatSize
    case R32G32Float => 2 * FloatSize
  }

  /** One `D3D12_INPUT_ELEMENT_DESC`: semantic, format and aligned byte offset. */
  datatype InputElement = InputElement(semantic: string, format: Format, offset: nat)

  /** The pipeline's vertex input layout. */
  const InputLayout: seq<InputElement> :=
    [InputElement("POSITION", R32G32B32Float, 0), InputElement("TEXCOORD", R32G32Float, 12)]

  /** The vertex buffer view's stride, `sizeof(Vertex)`. */
  const VertexStride: nat := SizeOf(Vertex)

  /** The input layout describes `Vertex` exactly: element `k` starts where field
      `k` of the struct starts and has that field's size, the two together fill
      the stride, and the TEXCOORD offset is `sizeof(Float3)`. */
  lemma InputLayoutMatchesVertex()
    ensures |InputLayout| == |Vertex.fields|
    ensures forall k :: 0 <= k < |InputLayout| ==>
      InputLayout[k].offset == OffsetOf(Vertex, k) && FormatSize(InputLayout[k].format) == SizeOf(Vertex.fields[k])
    ensures InputLayout[1].offset == SizeOf(Float3)
    ensures VertexStride == 20
  {
    Float3Size();
    Float2Size();
    assert OffsetOf(Vertex, 1) == 12;
    assert SizeOf(Vertex) == OffsetOf(Vertex, 2) == 20;
  }

  lemma Float2Size()
    ensures SizeOf(Float2) == 8
  {
    assert OffsetOf(Float2, 1) == 4;
    assert OffsetOf(Float2, 2) == 8;
  }

  lemma Float3Size()
    ensures SizeOf(Float3) == 12
  {
    assert OffsetOf(Float3, 1) == 4;
    assert OffsetOf(Float3, 2) == 8;
    assert OffsetOf(Float3, 3) == 12;
  }

  lemma Float4Size()
    ensures SizeOf(Float4) == 16
  {
    assert OffsetOf(Float4, 1) == 4;
    assert OffsetOf(Float4, 2) == 8;
    assert OffsetOf(Float4, 3) == 12;
    assert OffsetOf(Float4, 4) == 16;
  }

  /** The constant buffer is 256 bytes, which satisfies the static assertion that
      its size be a multiple of 256, and `offset.x` is its first word. */
  lemma ConstantBufferIsAligned()
    ensures SizeOf(SceneConstantBuffer) == 256
    ensures SizeOf(SceneConstantBuffer) % 256 == 0
    ensures OffsetOf(SceneConstantBuffer, 0) == 0 && SizeOf(Float4) == 16
  {
    Float4Size();
    assert SizeOf(Array(Float, 60)) == 240;
    assert OffsetOf(SceneConstantBuffer, 1) == 16;
    assert OffsetOf(SceneConstantBuffer, 2) == 256;
  }
}
