/**
 Creating and destroying scene assets (`App::create_mesh`, `destroy_mesh`,
 `create_material_from_file`, `destroy_material`, `destroy_scene` in app.cpp).
 Buffer creation, image loading and the one-shot submit (`create_buffer`,
 `create_image_from_file`, `immediate_submit`) have no definition in
 engine.cpp; each enters as a success flag, and a failed call leaves nothing
 allocated. `destroy_buffer` and `destroy_image` are not defined either; the
 model takes `destroy_buffer` to free exactly the buffer and `destroy_image`
 to be `GPUImage::release` (view, then image). Every failure path frees what was allocated
 before it, so a failed creation leaves the live set as it found it.
 */
module Assets {
  import opened Wrappers
  import opened Gpu
  import opened SceneTypes
  import opened Upload
  import GpuImage

  datatype BufferUsage = TransferSrcBuffer | TransferDstBuffer | StorageBuffer | ShaderDeviceAddress | IndexBuffer

  /** What `create_buffer` is asked for. */
  datatype BufferRequest = BufferRequest(memoryUsage: GpuImage.MemoryUsage, size: nat, usage: set<BufferUsage>)

  function StagingRequest(size: nat): BufferRequest
  {
    BufferRequest(GpuImage.CpuToGpu, size, {TransferSrcBuffer})
  }

  function VertexBufferRequest(size: nat): BufferRequest
  {
    BufferRequest(GpuImage.GpuOnly, size, {StorageBuffer, TransferDstBuffer, ShaderDeviceAddress})
  }

  function IndexBufferRequest(size: nat): BufferRequest
  {
    BufferRequest(GpuImage.GpuOnly, size, {IndexBuffer, TransferDstBuffer})
  }

  /** Outcomes of the staging, vertex and index buffer creations and of the copy submission. */
  datatype MeshCalls = MeshCalls(stagingOk: bool, vertexOk: bool, indexOk: bool, submitOk: bool)

  /**
   The result of `create_mesh`: the mesh on success, the allocator, the buffer
   requests made in order, and what the two device buffers hold afterwards
   (empty on failure).
   */
  datatype MeshCreated = MeshCreated(
    mesh: Option<Mesh>,
    allocator: Allocator,
    requests: seq<BufferRequest>,
    vertexContents: seq<Byte>,
    indexContents: seq<Byte>)

  /** The contents of a freshly created buffer are unspecified; every byte is overwritten before use. */
  function Unwritten(n: nat): (r: seq<Byte>)
    ensures |r| == n
  {
    seq(n, _ => 0)
  }

  /**
   The staging writes and the recorded copies of `create_mesh` on fresh
   buffers: the vertex buffer's and the index buffer's contents afterwards.
   */
  function UploadContents(vertices: seq<Vertex>, indices: seq<U32>): (r: (seq<Byte>, seq<Byte>))
    ensures |r.0| == VertexBytes(vertices) && |r.1| == IndexBytes(indices)
    ensures DecodeVertices(r.0) == vertices && DecodeIndices(r.1) == indices
  {
    var vsize := VertexBytes(vertices);
    var isize := IndexBytes(indices);
    var mapped := WriteStaging(Unwritten(vsize + isize), vertices, indices);
    UploadRoundTrip(vertices, indices, Unwritten(vsize + isize), Unwritten(vsize), Unwritten(isize));
    (CopyBuffer(mapped, Unwritten(vsize), VertexRegion(vsize)), CopyBuffer(mapped, Unwritten(isize), IndexRegion(vsize, isize)))
  }

  /**
   What a successful `create_mesh` leaves: two fresh device buffers and nothing
   else live, the index count truncated to 32 bits, and buffer contents that
   decode to the input.
   */
  predicate Uploaded(r: MeshCreated, a: Allocator, vertices: seq<Vertex>, indices: seq<U32>)
  {
    && r.mesh.Some?
    && var m := r.mesh.value;
    && m.vertexBuffer !in a.live && m.indexBuffer !in a.live && m.vertexBuffer != m.indexBuffer
    && r.allocator.live == a.live + MeshResources(m)
    && m.vertexBufferAddress == m.vertexBuffer
    && m.indexCount == |indices| % U32Modulus
    && |r.vertexContents| == VertexBytes(vertices) && |r.indexContents| == IndexBytes(indices)
    && DecodeVertices(r.vertexContents) == vertices
    && DecodeIndices(r.indexContents) == indices
  }

  /** The success path of `create_mesh` once the staging buffer exists: two device buffers, the copies, the staging buffer freed. */
  function FinishMesh(a: Allocator, staging: Allocated, vertices: seq<Vertex>, indices: seq<U32>, requests: seq<BufferRequest>): (r: MeshCreated)
    requires a.Valid() && staging.allocator.Valid() && staging.id !in a.live
    requires staging.allocator.live == a.live + {staging.id}
    ensures r.allocator.Valid() && r.requests == requests
    ensures Uploaded(r, a, vertices, indices)
  {
    var vb := Alloc(staging.allocator);
    var ib := Alloc(vb.allocator);
    var contents := UploadContents(vertices, indices);
    var mesh := Mesh(|indices| % U32Modulus, vb.id, ib.id, vb.id, 0);
    MeshCreated(Some(mesh), Free(ib.allocator, staging.id), requests, contents.0, contents.1)
  }

  /**
   `App::create_mesh`. The mesh's material index is left at 0: the caller
   assigns it.
   */
  function CreateMesh(a: Allocator, vertices: seq<Vertex>, indices: seq<U32>, calls: MeshCalls): (r: MeshCreated)
    requires a.Valid()
    ensures r.allocator.Valid()
    ensures r.mesh.Some? <==> calls.stagingOk && calls.vertexOk && calls.indexOk && calls.submitOk
    // every failure path frees every buffer created before it
    ensures r.mesh.None? ==> r.allocator.live == a.live
    // the three requests, in order, up to the first failing one
    ensures |r.requests| == (if !calls.stagingOk then 1 else if !calls.vertexOk then 2 else 3)
    ensures r.requests[0] == StagingRequest(VertexBytes(vertices) + IndexBytes(indices))
    ensures |r.requests| > 1 ==> r.requests[1] == VertexBufferRequest(VertexBytes(vertices))
    ensures |r.requests| > 2 ==> r.requests[2] == IndexBufferRequest(IndexBytes(indices))
    // on success only the two device buffers stay live, and they hold the uploaded data
    ensures r.mesh.Some? ==> Uploaded(r, a, vertices, indices)
  {
    var vsize := VertexBytes(vertices);
    var isize := IndexBytes(indices);
    var requests := [StagingRequest(vsize + isize), VertexBufferRequest(vsize), IndexBufferRequest(isize)];
    if !calls.stagingOk then
      MeshCreated(None, a, requests[..1], [], [])
    else
      var staging := Alloc(a);
      if !calls.vertexOk then
        MeshCreated(None, Free(staging.allocator, staging.id), requests[..2], [], [])
      else if !calls.indexOk then
        var vb := Alloc(staging.allocator);
        MeshCreated(None, Free(Free(vb.allocator, staging.id), vb.id), requests, [], [])
      else if !calls.submitOk then
        var vb := Alloc(staging.allocator);
        var ib := Alloc(vb.allocator);
        MeshCreated(None, Free(Free(Free(ib.allocator, staging.id), vb.id), ib.id), requests, [], [])
      else
        FinishMesh(a, staging, vertices, indices, requests)
  }

  /** `App::destroy_mesh`: the vertex buffer, then the index buffer. */
  function DestroyMesh(a: Allocator, m: Mesh): (r: Allocator)
    ensures r.live == a.live - MeshResources(m)
    ensures a.Valid() ==> r.Valid()
  {
    Free(Free(a, m.vertexBuffer), m.indexBuffer)
  }

  /** Mesh creation followed by destruction leaves the live set as it was, on every outcome. */
  lemma CreateThenDestroyMesh(a: Allocator, vertices: seq<Vertex>, indices: seq<U32>, calls: MeshCalls)
    requires a.Valid()
    ensures var c := CreateMesh(a, vertices, indices, calls);
            (if c.mesh.Some? then DestroyMesh(c.allocator, c.mesh.value) else c.allocator).live == a.live
  {
  }

  // ---------------------------------------------------------------- materials

  /**
   Outcomes of `create_image_from_file` and `vkAllocateDescriptorSets`, with
   the loaded image's extent and the descriptor set handle the pool returns.
   */
  datatype MaterialCalls = MaterialCalls(imageOk: bool, extent: Extent3D, setResult: VkResult, setHandle: Id)

  /** The `VkWriteDescriptorSet`: a combined image sampler at binding 0. */
  datatype DescriptorWrite = DescriptorWrite(dstSet: Id, binding: nat, sampler: Id, view: Id, layout: Layout)

  datatype MaterialCreated = MaterialCreated(material: Option<Material>, allocator: Allocator, write: Option<DescriptorWrite>)

  /** `App::create_material_from_file`: the diffuse image, then a descriptor set pointing at it. */
  function CreateMaterialFromFile(a: Allocator, sampler: Id, calls: MaterialCalls): (r: MaterialCreated)
    requires a.Valid()
    ensures r.allocator.Valid()
    ensures r.material.Some? <==> calls.imageOk && calls.setResult == Success
    // a failed descriptor-set allocation destroys the image just loaded
    ensures r.material.None? ==> r.allocator.live == a.live && r.write.None?
    ensures r.material.Some? ==>
              var m := r.material.value;
              && m.diffuse.image.Some? && m.diffuse.view.Some?
              && GpuImage.Held(m.diffuse) !! a.live
              && r.allocator.live == a.live + GpuImage.Held(m.diffuse)
              && m.diffuseSet == calls.setHandle
              && r.write == Some(DescriptorWrite(calls.setHandle, 0, sampler, m.diffuse.view.value, ReadOnlyOptimal))
  {
    if !calls.imageOk then
      MaterialCreated(None, a, None)
    else
      var im := Alloc(a);
      var vw := Alloc(im.allocator);
      var diffuse := GpuImage.Image(Some(im.id), Some(vw.id), calls.extent, TextureFormat);
      if calls.setResult != Success then
        MaterialCreated(None, GpuImage.Release(diffuse, vw.allocator).allocator, None)
      else
        var write := DescriptorWrite(calls.setHandle, 0, sampler, vw.id, ReadOnlyOptimal);
        MaterialCreated(Some(Material(calls.setHandle, diffuse)), vw.allocator, Some(write))
  }

  /** `App::destroy_material`: only the image; the descriptor set goes with the pool. */
  function DestroyMaterial(a: Allocator, m: Material): (r: Allocator)
    ensures r.live == a.live - GpuImage.Held(m.diffuse)
    ensures a.Valid() ==> r.Valid()
  {
    GpuImage.Release(m.diffuse, a).allocator
  }

  // ---------------------------------------------------------------- scenes

  /** The first loop of `destroy_scene`, in list order. */
  function DestroyMeshes(a: Allocator, ms: seq<Mesh>): (r: Allocator)
    ensures r.live == a.live - MeshesResources(ms)
    ensures a.Valid() ==> r.Valid()
  {
    if |ms| == 0 then a else DestroyMesh(DestroyMeshes(a, ms[..|ms| - 1]), ms[|ms| - 1])
  }

  /** The second loop of `destroy_scene`, in list order. */
  function DestroyMaterials(a: Allocator, ms: seq<Material>): (r: Allocator)
    ensures r.live == a.live - MaterialsResources(ms)
    ensures a.Valid() ==> r.Valid()
  {
    if |ms| == 0 then a else DestroyMaterial(DestroyMaterials(a, ms[..|ms| - 1]), ms[|ms| - 1])
  }

  datatype SceneDestroyed = SceneDestroyed(scene: Scene, allocator: Allocator)

  /** `App::destroy_scene`: frees every mesh, then every material, and empties all three lists. */
  function DestroyScene(a: Allocator, s: Scene): (r: SceneDestroyed)
    ensures r.scene == EmptyScene()
    ensures r.allocator.live == a.live - Resources(s)
    ensures a.Valid() ==> r.allocator.Valid()
  {
    SceneDestroyed(EmptyScene(), DestroyMaterials(DestroyMeshes(a, s.meshes), s.materials))
  }

  /** A second `destroy_scene` frees nothing: the first left the scene empty. */
  lemma DestroySceneTwice(a: Allocator, s: Scene)
    ensures var first := DestroyScene(a, s);
            DestroyScene(first.allocator, first.scene) == first
  {
  }
}
