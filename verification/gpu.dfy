/**
 Abstract GPU vocabulary shared by the model: resource ids handed out by the
 memory allocator, image layouts and aspects, formats and extents.
 Native handles are replaced by ids; the allocator is the set of live ids.
 */
module Gpu {

  /** An abstract native handle (buffer, image, view, ...). */
  type Id = nat

  /** 32-bit unsigned values, as stored in `uint32_t` fields. */
  const U32Modulus: nat := 0x1_0000_0000
  type U32 = x: int | 0 <= x < 0x1_0000_0000

  /** The result code of a native call; only `Success` is `VK_SUCCESS`. */
  datatype VkResult = Success | Suboptimal | OutOfDate | DeviceLost | OutOfMemory | OtherError(code: int)

  /**
   The resource allocator: the ids currently alive and the next id it will hand
   out. Ids are never reused, so a fresh id differs from every live one.
   */
  datatype Allocator = Allocator(live: set<Id>, next: Id) {
    predicate Valid()
    {
      forall id :: id in live ==> id < next
    }
  }

  datatype Allocated = Allocated(id: Id, allocator: Allocator)

  /** Creates one resource: a fresh id becomes live and nothing else changes. */
  function Alloc(a: Allocator): (r: Allocated)
    requires a.Valid()
    ensures r.allocator.Valid()
    ensures r.id !in a.live
    ensures r.allocator.live == a.live + {r.id}
    ensures a.next <= r.id < r.allocator.next
  {
    Allocated(a.next, Allocator(a.live + {a.next}, a.next + 1))
  }

  /** Destroys one resource; destroying a dead or null id changes nothing. */
  function Free(a: Allocator, id: Id): (r: Allocator)
    ensures r.live == a.live - {id}
    ensures r.next == a.next
    ensures a.Valid() ==> r.Valid()
  {
    Allocator(a.live - {id}, a.next)
  }

  datatype Layout =
    | Undefined
    | General
    | TransferSrcOptimal
    | TransferDstOptimal
    | DepthAttachmentOptimal
    | ColorAttachmentOptimal
    | ReadOnlyOptimal
    | PresentSrc

  datatype Aspect = ColorAspect | DepthAspect

  datatype Format = R16G16B16A16Sfloat | D32Sfloat | SwapchainFormat | TextureFormat

  datatype Extent3D = Extent3D(width: U32, height: U32, depth: U32)

  datatype Extent2D = Extent2D(width: U32, height: U32)
}
