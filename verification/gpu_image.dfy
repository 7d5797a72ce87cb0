/**
 `GPUImage` (gpu_image.hpp): a device-local 2D image, its view, its format and
 extent. `allocate` is two fallible steps, image then view; a view failure
 returns false with the image still allocated. `release` destroys the view,
 then the image with its memory. Handles start out null, and destroying a null
 handle does nothing, so `release` undoes any outcome of `allocate`.
 */
module GpuImage {
  import opened Wrappers
  import opened Gpu
  import opened Commands

  datatype MemoryUsage = GpuOnly | CpuToGpu

  datatype ImageUsage = TransferSrc | TransferDst | Storage | ColorAttachment | DepthStencilAttachment | Sampled

  datatype Tiling = Optimal

  /** What `vmaCreateImage` is asked for. */
  datatype ImageRequest = ImageRequest(
    is2D: bool,
    format: Format,
    extent: Extent3D,
    mipLevels: nat,
    arrayLayers: nat,
    samples: nat,
    tiling: Tiling,
    usage: set<ImageUsage>,
    memoryUsage: MemoryUsage,
    requiresDeviceLocal: bool)

  /** What `vkCreateImageView` is asked for. */
  datatype ViewRequest = ViewRequest(image: Id, is2D: bool, format: Format, range: SubresourceRange)

  /** The struct; `None` is `VK_NULL_HANDLE`. The allocation travels with the image id. */
  datatype Image = Image(image: Option<Id>, view: Option<Id>, extent: Extent3D, format: Format)

  /** The result of `allocate`: success flag, the struct afterwards, the allocator, and the requests made. */
  datatype Allocation = Allocation(
    ok: bool,
    img: Image,
    allocator: Allocator,
    imageRequest: ImageRequest,
    viewRequest: Option<ViewRequest>)

  /** Live ids held by an image struct. */
  function Held(img: Image): set<Id>
  {
    (if img.image.Some? then {img.image.value} else {}) + (if img.view.Some? then {img.view.value} else {})
  }

  /** The view's range: mip 0 and layer 0 only, with the caller's aspect. */
  predicate SingleSubresource(r: SubresourceRange, aspect: Aspect)
  {
    r.aspect == aspect && r.baseMipLevel == 0 && r.levelCount == Exactly(1) && r.baseArrayLayer == 0 && r.layerCount == Exactly(1)
  }

  /**
   `GPUImage::allocate` on a default-constructed struct. `imageCreated` and
   `viewCreated` are the outcomes of the two native calls.
   */
  function Allocate(
    alloc: Allocator, memoryUsage: MemoryUsage, format: Format, extent: Extent3D,
    usage: set<ImageUsage>, aspect: Aspect, imageCreated: bool, viewCreated: bool): (r: Allocation)
    requires alloc.Valid()
    ensures r.allocator.Valid()
    // format and extent are recorded before anything can fail
    ensures r.img.format == format && r.img.extent == extent
    ensures r.imageRequest.is2D && r.imageRequest.mipLevels == 1 && r.imageRequest.arrayLayers == 1
    ensures r.imageRequest.requiresDeviceLocal && r.imageRequest.format == format && r.imageRequest.extent == extent
    ensures r.imageRequest.usage == usage && r.imageRequest.memoryUsage == memoryUsage
    // the view is requested exactly when the image exists, for that image
    ensures r.viewRequest.Some? <==> imageCreated
    ensures r.viewRequest.Some? ==> r.img.image == Some(r.viewRequest.value.image)
    ensures r.viewRequest.Some? ==> SingleSubresource(r.viewRequest.value.range, aspect) && r.viewRequest.value.format == format
    ensures r.ok <==> imageCreated && viewCreated
    ensures r.img.image.Some? <==> imageCreated
    ensures r.img.view.Some? <==> r.ok
    // no rollback: whatever was created is still live, and nothing else changed
    ensures Held(r.img) !! alloc.live
    ensures r.allocator.live == alloc.live + Held(r.img)
    ensures !imageCreated ==> r.allocator.live == alloc.live
    ensures imageCreated && !viewCreated ==> r.allocator.live != alloc.live
  {
    var request := ImageRequest(true, format, extent, 1, 1, 1, Optimal, usage, memoryUsage, true);
    if !imageCreated then
      Allocation(false, Image(None, None, extent, format), alloc, request, None)
    else
      var im := Alloc(alloc);
      var viewRequest := ViewRequest(im.id, true, format, SubresourceRange(aspect, 0, Exactly(1), 0, Exactly(1)));
      if !viewCreated then
        Allocation(false, Image(Some(im.id), None, extent, format), im.allocator, request, Some(viewRequest))
      else
        var v := Alloc(im.allocator);
        Allocation(true, Image(Some(im.id), Some(v.id), extent, format), v.allocator, request, Some(viewRequest))
  }

  datatype ReleaseStep = DestroyView(view: Option<Id>) | DestroyImage(image: Option<Id>)

  datatype Released = Released(steps: seq<ReleaseStep>, allocator: Allocator)

  /** `GPUImage::release`: view first, then the image and its memory. */
  function Release(img: Image, alloc: Allocator): (r: Released)
    ensures r.steps == [DestroyView(img.view), DestroyImage(img.image)]
    ensures r.allocator.live == alloc.live - Held(img)
    ensures alloc.Valid() ==> r.allocator.Valid()
  {
    var afterView := if img.view.Some? then Free(alloc, img.view.value) else alloc;
    var afterImage := if img.image.Some? then Free(afterView, img.image.value) else afterView;
    Released([DestroyView(img.view), DestroyImage(img.image)], afterImage)
  }

  /** Zero net allocations: releasing after any outcome of `allocate` restores the allocator's live set. */
  lemma ReleaseUndoesAllocate(
    alloc: Allocator, memoryUsage: MemoryUsage, format: Format, extent: Extent3D,
    usage: set<ImageUsage>, aspect: Aspect, imageCreated: bool, viewCreated: bool)
    requires alloc.Valid()
    ensures var a := Allocate(alloc, memoryUsage, format, extent, usage, aspect, imageCreated, viewCreated);
            Release(a.img, a.allocator).allocator.live == alloc.live
  {
    var a := Allocate(alloc, memoryUsage, format, extent, usage, aspect, imageCreated, viewCreated);
    assert a.allocator.live - Held(a.img) == alloc.live;
  }
}
