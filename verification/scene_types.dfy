/**
 The scene records of scene.hpp with their GPU resources as ids. A buffer
 (`GPUBuffer`: buffer plus allocation) is one id. Floating-point fields are
 kept as their 32-bit patterns and never interpreted; the camera and the
 background colour are left out.
 */
module SceneTypes {
  import opened Gpu
  import GpuImage

  /** The bit pattern of a 32-bit float. */
  type F32 = U32

  datatype Vec3 = Vec3(x: F32, y: F32, z: F32)

  /** `Vertex`: position, u, normal, v; 32 bytes with no padding. */
  datatype Vertex = Vertex(position: Vec3, texCoordX: F32, normal: Vec3, texCoordY: F32)

  /** `Mesh`; the device address of the vertex buffer is identified with the buffer. */
  datatype Mesh = Mesh(indexCount: U32, vertexBuffer: Id, indexBuffer: Id, vertexBufferAddress: Id, materialIdx: nat)

  datatype Object = Object(meshIdx: nat)

  /** `Material`: a descriptor set from the engine's pool and the diffuse image. */
  datatype Material = Material(diffuseSet: Id, diffuse: GpuImage.Image)

  datatype Scene = Scene(meshes: seq<Mesh>, materials: seq<Material>, objects: seq<Object>)

  function EmptyScene(): Scene
  {
    Scene([], [], [])
  }

  function MeshResources(m: Mesh): set<Id>
  {
    {m.vertexBuffer, m.indexBuffer}
  }

  /** The buffers of a list of meshes. */
  function MeshesResources(ms: seq<Mesh>): set<Id>
  {
    if |ms| == 0 then {} else MeshesResources(ms[..|ms| - 1]) + MeshResources(ms[|ms| - 1])
  }

  /** The images and views of a list of materials; descriptor sets belong to the pool. */
  function MaterialsResources(ms: seq<Material>): set<Id>
  {
    if |ms| == 0 then {} else MaterialsResources(ms[..|ms| - 1]) + GpuImage.Held(ms[|ms| - 1].diffuse)
  }

  /** Every allocation a scene owns. */
  function Resources(s: Scene): set<Id>
  {
    MeshesResources(s.meshes) + MaterialsResources(s.materials)
  }
}
