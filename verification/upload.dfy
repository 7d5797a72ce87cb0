/**
 The byte layout of a mesh upload (`App::create_mesh`): the vertices and the
 indices are copied into one host-visible staging buffer, vertices at offset 0
 and indices right after them, and two buffer-to-buffer copies move each part
 into its own device buffer at offset 0. Memory is little-endian, as on every
 platform the renderer targets. Byte counts are unbounded here; the 64-bit
 `VkDeviceSize` cannot overflow for meshes that fit in memory.
 */
module Upload {
  import opened Gpu
  import opened SceneTypes

  type Byte = x: int | 0 <= x < 256

  /** `sizeof(Vertex)`: eight 4-byte floats. */
  const VertexSize: nat := 32

  /** `sizeof(uint32_t)`. */
  const IndexSize: nat := 4

  // ---------------------------------------------------------------- words

  function EncodeWord(w: U32): (r: seq<Byte>)
    ensures |r| == 4
  {
    var w1 := w / 256;
    var w2 := w1 / 256;
    [w % 256, w1 % 256, w2 % 256, w2 / 256]
  }

  function DecodeWord(b: seq<Byte>): U32
    requires |b| == 4
  {
    b[0] as int + 256 * (b[1] as int + 256 * (b[2] as int + 256 * b[3] as int))
  }

  /** Splitting off the low byte of `low + 256 * high`. */
  lemma ByteSplit(low: int, high: int)
    requires 0 <= low < 256 && 0 <= high
    ensures (low + 256 * high) % 256 == low && (low + 256 * high) / 256 == high
  {
  }

  lemma DecodeEncodeWord(w: U32)
    ensures DecodeWord(EncodeWord(w)) == w
  {
  }

  lemma EncodeDecodeWord(b: seq<Byte>)
    requires |b| == 4
    ensures EncodeWord(DecodeWord(b)) == b
  {
    var h2 := b[2] as int + 256 * b[3] as int;
    var h1 := b[1] as int + 256 * h2;
    ByteSplit(b[0], h1);
    ByteSplit(b[1], h2);
    ByteSplit(b[2], b[3]);
  }

  // ---------------------------------------------------------------- vertices

  /** The eight words of a vertex in declaration order. */
  function WordsOf(v: Vertex): (r: seq<U32>)
    ensures |r| == 8
  {
    [v.position.x, v.position.y, v.position.z, v.texCoordX, v.normal.x, v.normal.y, v.normal.z, v.texCoordY]
  }

  function EncodeWords(ws: seq<U32>): (r: seq<Byte>)
    ensures |r| == 4 * |ws|
  {
    if |ws| == 0 then [] else EncodeWord(ws[0]) + EncodeWords(ws[1..])
  }

  function DecodeWords(b: seq<Byte>): (r: seq<U32>)
    requires |b| % 4 == 0
    ensures |r| == |b| / 4
  {
    if |b| == 0 then [] else [DecodeWord(b[..4])] + DecodeWords(b[4..])
  }

  lemma {:induction false} DecodeEncodeWords(ws: seq<U32>)
    ensures DecodeWords(EncodeWords(ws)) == ws
  {
    if |ws| > 0 {
      var b := EncodeWords(ws);
      assert b[..4] == EncodeWord(ws[0]);
      assert b[4..] == EncodeWords(ws[1..]);
      DecodeEncodeWord(ws[0]);
      DecodeEncodeWords(ws[1..]);
    }
  }

  function EncodeVertex(v: Vertex): (r: seq<Byte>)
    ensures |r| == VertexSize
  {
    EncodeWords(WordsOf(v))
  }

  function DecodeVertex(b: seq<Byte>): Vertex
    requires |b| == VertexSize
  {
    var w := DecodeWords(b);
    Vertex(Vec3(w[0], w[1], w[2]), w[3], Vec3(w[4], w[5], w[6]), w[7])
  }

  lemma DecodeEncodeVertex(v: Vertex)
    ensures DecodeVertex(EncodeVertex(v)) == v
  {
    DecodeEncodeWords(WordsOf(v));
  }

  /** The bytes `memcpy` reads from a `std::span<Vertex>`. */
  function EncodeVertices(vs: seq<Vertex>): (r: seq<Byte>)
    ensures |r| == VertexSize * |vs|
  {
    if |vs| == 0 then [] else EncodeVertex(vs[0]) + EncodeVertices(vs[1..])
  }

  function DecodeVertices(b: seq<Byte>): (r: seq<Vertex>)
    requires |b| % VertexSize == 0
    ensures |r| == |b| / VertexSize
  {
    if |b| == 0 then [] else [DecodeVertex(b[..VertexSize])] + DecodeVertices(b[VertexSize..])
  }

  lemma {:induction false} DecodeEncodeVertices(vs: seq<Vertex>)
    ensures DecodeVertices(EncodeVertices(vs)) == vs
  {
    if |vs| > 0 {
      var b := EncodeVertices(vs);
      assert b[..VertexSize] == EncodeVertex(vs[0]);
      assert b[VertexSize..] == EncodeVertices(vs[1..]);
      DecodeEncodeVertex(vs[0]);
      DecodeEncodeVertices(vs[1..]);
    }
  }

  // ---------------------------------------------------------------- indices

  /** The bytes `memcpy` reads from a `std::span<uint32_t>`. */
  function EncodeIndices(indices: seq<U32>): (r: seq<Byte>)
    ensures |r| == IndexSize * |indices|
  {
    EncodeWords(indices)
  }

  function DecodeIndices(b: seq<Byte>): (r: seq<U32>)
    requires |b| % IndexSize == 0
    ensures |r| == |b| / IndexSize
  {
    DecodeWords(b)
  }

  lemma DecodeEncodeIndices(indices: seq<U32>)
    ensures DecodeIndices(EncodeIndices(indices)) == indices
  {
    DecodeEncodeWords(indices);
  }

  // ---------------------------------------------------------------- copies

  /** `std::memcpy(dst + offset, src, |src|)`: the bytes at `[offset, offset + |src|)` become `src`. */
  function Memcpy(dst: seq<Byte>, offset: nat, src: seq<Byte>): (r: seq<Byte>)
    requires offset + |src| <= |dst|
    ensures |r| == |dst|
    ensures forall i :: 0 <= i < |src| ==> r[offset + i] == src[i]
    ensures forall i :: 0 <= i < |dst| && !(offset <= i < offset + |src|) ==> r[i] == dst[i]
  {
    dst[..offset] + src + dst[offset + |src|..]
  }

  /** `VkBufferCopy`. */
  datatype BufferCopy = BufferCopy(srcOffset: nat, dstOffset: nat, size: nat)

  predicate RegionFits(region: BufferCopy, srcSize: nat, dstSize: nat)
  {
    region.srcOffset + region.size <= srcSize && region.dstOffset + region.size <= dstSize
  }

  /** The effect of `vkCmdCopyBuffer` with one region on the destination's contents. */
  function CopyBuffer(src: seq<Byte>, dst: seq<Byte>, region: BufferCopy): (r: seq<Byte>)
    requires RegionFits(region, |src|, |dst|)
    ensures |r| == |dst|
    ensures forall i :: region.dstOffset <= i < region.dstOffset + region.size ==> r[i] == src[region.srcOffset + (i - region.dstOffset)]
    ensures forall i :: 0 <= i < |dst| && !(region.dstOffset <= i < region.dstOffset + region.size) ==> r[i] == dst[i]
  {
    Memcpy(dst, region.dstOffset, src[region.srcOffset..region.srcOffset + region.size])
  }

  function VertexBytes(vs: seq<Vertex>): nat
  {
    |vs| * VertexSize
  }

  function IndexBytes(indices: seq<U32>): nat
  {
    |indices| * IndexSize
  }

  /** `copy_vertex_region`. */
  function VertexRegion(vsize: nat): BufferCopy
  {
    BufferCopy(0, 0, vsize)
  }

  /** `copy_index_region`. */
  function IndexRegion(vsize: nat, isize: nat): BufferCopy
  {
    BufferCopy(vsize, 0, isize)
  }

  /**
   The two `memcpy` calls into the mapped staging buffer of `vsize + isize`
   bytes. Whatever the buffer held before, it ends up holding exactly the
   vertex bytes followed by the index bytes.
   */
  function WriteStaging(mapped: seq<Byte>, vs: seq<Vertex>, indices: seq<U32>): (r: seq<Byte>)
    requires |mapped| == VertexBytes(vs) + IndexBytes(indices)
    ensures r == EncodeVertices(vs) + EncodeIndices(indices)
  {
    var afterVertices := Memcpy(mapped, 0, EncodeVertices(vs));
    var afterIndices := Memcpy(afterVertices, VertexBytes(vs), EncodeIndices(indices));
    assert afterIndices == EncodeVertices(vs) + EncodeIndices(indices) by {
      var expected := EncodeVertices(vs) + EncodeIndices(indices);
      forall i | 0 <= i < |expected| ensures afterIndices[i] == expected[i] {
        if i >= VertexBytes(vs) {
          assert afterIndices[VertexBytes(vs) + (i - VertexBytes(vs))] == EncodeIndices(indices)[i - VertexBytes(vs)];
        }
      }
    }
    afterIndices
  }

  /**
   The upload round trip: after the staging writes and the two copies, the
   vertex buffer decodes to the vertices and the index buffer to the indices,
   whatever the three buffers held before.
   */
  lemma UploadRoundTrip(vs: seq<Vertex>, indices: seq<U32>, mapped: seq<Byte>, vertexBuffer: seq<Byte>, indexBuffer: seq<Byte>)
    requires |mapped| == VertexBytes(vs) + IndexBytes(indices)
    requires |vertexBuffer| == VertexBytes(vs) && |indexBuffer| == IndexBytes(indices)
    ensures var staging := WriteStaging(mapped, vs, indices);
            && RegionFits(VertexRegion(VertexBytes(vs)), |staging|, |vertexBuffer|)
            && RegionFits(IndexRegion(VertexBytes(vs), IndexBytes(indices)), |staging|, |indexBuffer|)
            && CopyBuffer(staging, vertexBuffer, VertexRegion(VertexBytes(vs))) == EncodeVertices(vs)
            && CopyBuffer(staging, indexBuffer, IndexRegion(VertexBytes(vs), IndexBytes(indices))) == EncodeIndices(indices)
            && DecodeVertices(CopyBuffer(staging, vertexBuffer, VertexRegion(VertexBytes(vs)))) == vs
            && DecodeIndices(CopyBuffer(staging, indexBuffer, IndexRegion(VertexBytes(vs), IndexBytes(indices)))) == indices
  {
    var staging := WriteStaging(mapped, vs, indices);
    var vsize := VertexBytes(vs);
    var vcopy := CopyBuffer(staging, vertexBuffer, VertexRegion(vsize));
    var icopy := CopyBuffer(staging, indexBuffer, IndexRegion(vsize, IndexBytes(indices)));
    assert vcopy == EncodeVertices(vs) by {
      forall i | 0 <= i < vsize ensures vcopy[i] == EncodeVertices(vs)[i] {
      }
    }
    assert icopy == EncodeIndices(indices) by {
      forall i | 0 <= i < IndexBytes(indices) ensures icopy[i] == EncodeIndices(indices)[i] {
        assert icopy[i] == staging[vsize + i];
      }
    }
    DecodeEncodeVertices(vs);
    DecodeEncodeIndices(indices);
  }
}
