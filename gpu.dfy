/** The selection rules of src/gpu.cpp that do not depend on what Vulkan
    does: the memory-type search, the graphics queue-family search in
    gpu_create, the round-robin frame index, the mesh element counts and the
    draw call the command buffer chooses. Vulkan's answers (memory
    properties, queue families, the swapchain's image count) are
    parameters. */
module Gpu {
  import opened Common

  /** VK_MAX_MEMORY_TYPES: the size of VkPhysicalDeviceMemoryProperties.memoryTypes. */
  const MAX_MEMORY_TYPES: nat := 32
  /** VK_QUEUE_GRAPHICS_BIT. */
  const GRAPHICS_BIT: bv32 := 1

  // ---------------------------------------------------------------------
  // get_memory_type_index

  /** Memory type i is allowed by `bits` and has every flag in `properties`. */
  predicate Suitable(typeFlags: seq<bv32>, bits: bv32, properties: bv32, i: nat)
    requires i < |typeFlags| <= MAX_MEMORY_TYPES
  {
    bits & (1 << i) != 0 && typeFlags[i] & properties == properties
  }

  /** get_memory_type_index: the first suitable memory type among the
      device's memoryTypeCount types, or 0 when there is none. */
  method GetMemoryTypeIndex(typeFlags: seq<bv32>, bits: bv32, properties: bv32) returns (index: nat)
    requires |typeFlags| <= MAX_MEMORY_TYPES
    ensures (exists i :: 0 <= i < |typeFlags| && Suitable(typeFlags, bits, properties, i)) ==>
      index < |typeFlags| && Suitable(typeFlags, bits, properties, index) &&
      forall j :: 0 <= j < index ==> !Suitable(typeFlags, bits, properties, j)
    ensures (forall i :: 0 <= i < |typeFlags| ==> !Suitable(typeFlags, bits, properties, i)) ==> index == 0
  {
    var i := 0;
    while i < |typeFlags|
      invariant 0 <= i <= |typeFlags|
      invariant forall j :: 0 <= j < i ==> !Suitable(typeFlags, bits, properties, j)
    {
      if bits & (1 << i) != 0 {
        if typeFlags[i] & properties == properties {
          assert Suitable(typeFlags, bits, properties, i);
          return i;
        }
      }
      i := i + 1;
    }
    return 0;
  }

  // ---------------------------------------------------------------------
  // The graphics queue-family search in gpu_create

  datatype QueueFamily = QueueFamily(queueFlags: bv32, queueCount: uint32)

  predicate HasGraphicsQueue(f: QueueFamily) {
    f.queueCount > 0 && f.queueFlags & GRAPHICS_BIT != 0
  }

  /** The search loop: the first family with a queue and the graphics bit,
      as its index and its queueCount; both stay UINT32_MAX when there is
      none. The device reports fewer than 2^32 families. */
  method FindGraphicsFamily(families: seq<QueueFamily>) returns (index: uint32, count: uint32)
    requires |families| < TWO_32
    ensures (exists i :: 0 <= i < |families| && HasGraphicsQueue(families[i])) ==>
      index < |families| && HasGraphicsQueue(families[index]) && count == families[index].queueCount &&
      forall j :: 0 <= j < index ==> !HasGraphicsQueue(families[j])
    ensures (forall i :: 0 <= i < |families| ==> !HasGraphicsQueue(families[i])) ==>
      index == UINT32_MAX && count == UINT32_MAX
  {
    index, count := UINT32_MAX, UINT32_MAX;
    var i := 0;
    while i < |families|
      invariant 0 <= i <= |families|
      invariant forall j :: 0 <= j < i ==> !HasGraphicsQueue(families[j])
    {
      if families[i].queueCount > 0 && families[i].queueFlags & GRAPHICS_BIT != 0 {
        assert HasGraphicsQueue(families[i]);
        index, count := i, families[i].queueCount;
        return;
      }
      i := i + 1;
    }
  }

  /** gpu_create's test after the search, as written: it fails when
      queue_count is still UINT32_MAX. A family that reports UINT32_MAX
      queues is then taken for no family at all. */
  method HasDeviceQueueAsWritten(families: seq<QueueFamily>) returns (found: bool)
    requires |families| < TWO_32
    ensures found <==>
      exists i :: 0 <= i < |families| && HasGraphicsQueue(families[i]) &&
        (forall j :: 0 <= j < i ==> !HasGraphicsQueue(families[j])) && families[i].queueCount != UINT32_MAX
  {
    var index, count := FindGraphicsFamily(families);
    found := count != UINT32_MAX;
  }

  /** The test as meant: the search found a family exactly when the index
      was set, which it can only be to a real family's index. */
  method HasDeviceQueue(families: seq<QueueFamily>) returns (found: bool, index: uint32)
    requires |families| < TWO_32
    ensures found <==> exists i :: 0 <= i < |families| && HasGraphicsQueue(families[i])
    ensures found ==> index < |families| && HasGraphicsQueue(families[index])
  {
    var count;
    index, count := FindGraphicsFamily(families);
    found := index != UINT32_MAX;
  }

  /** The input that shows the as-written test failing: one graphics family
      with UINT32_MAX queues. */
  method MissedFamily() returns (asWritten: bool, corrected: bool)
    ensures !asWritten && corrected
  {
    var families := [QueueFamily(GRAPHICS_BIT, UINT32_MAX)];
    assert HasGraphicsQueue(families[0]);
    asWritten := HasDeviceQueueAsWritten(families);
    var index;
    corrected, index := HasDeviceQueue(families);
  }

  // ---------------------------------------------------------------------
  // gpu_frame_end

  /** The frame ring of gpu_t: frame_count swapchain images and the index of
      the frame being recorded. */
  class FrameRing {
    const frameCount: uint32
    var frameIndex: uint32

    ghost predicate Valid()
      reads this
    {
      0 < frameCount && frameIndex < frameCount
    }

    /** The swapchain has at least one image; recording starts at frame 0. */
    constructor (frameCount: uint32)
      requires frameCount > 0
      ensures Valid() && this.frameCount == frameCount && frameIndex == 0
    {
      this.frameCount := frameCount;
      frameIndex := 0;
    }

    /** gpu_frame_end: ends the current frame and moves to the next one,
        wrapping after the last. */
    method FrameEnd() returns (ended: uint32)
      requires Valid()
      modifies this`frameIndex
      ensures Valid() && ended == old(frameIndex)
      ensures frameIndex == NextFrame(old(frameIndex), frameCount)
    {
      ended := frameIndex;
      frameIndex := (frameIndex + 1) % frameCount;
    }
  }

  /** `(frame_index + 1) % frame_count`: the next frame, or frame 0 after the
      last one. */
  function NextFrame(index: nat, frameCount: nat): (next: nat)
    requires index < frameCount
    ensures next < frameCount
    ensures next == if index + 1 == frameCount then 0 else index + 1
  {
    (index + 1) % frameCount
  }

  /** The frame reached after `n` frame ends. */
  function Advance(index: nat, frameCount: nat, n: nat): (r: nat)
    requires index < frameCount
    ensures r < frameCount
  {
    if n == 0 then index else NextFrame(Advance(index, frameCount, n - 1), frameCount)
  }

  /** Up to frame_count frame ends move the index that many places around
      the ring, wrapping past the last frame at most once. */
  lemma {:induction false} AdvanceWithinCycle(index: nat, frameCount: nat, n: nat)
    requires index < frameCount && n <= frameCount
    ensures Advance(index, frameCount, n) == if index + n < frameCount then index + n else index + n - frameCount
  {
    if n > 0 {
      AdvanceWithinCycle(index, frameCount, n - 1);
    }
  }

  /** Every frame is recorded again after exactly frame_count frame ends,
      and not sooner. */
  lemma FrameRingCycles(index: nat, frameCount: nat)
    requires index < frameCount
    ensures Advance(index, frameCount, frameCount) == index
    ensures forall n :: 0 < n < frameCount ==> Advance(index, frameCount, n) != index
  {
    AdvanceWithinCycle(index, frameCount, frameCount);
    forall n | 0 < n < frameCount ensures Advance(index, frameCount, n) != index {
      AdvanceWithinCycle(index, frameCount, n);
    }
  }

  // ---------------------------------------------------------------------
  // Mesh counts (gpu_mesh_create) and the draw choice

  datatype MeshLayout = TriP444I2 | TriP444C444I2

  /** mesh_index_size: 16-bit indices in both layouts. */
  function IndexSize(layout: MeshLayout): (r: int)
    ensures r == 2
  {
    2
  }

  /** mesh_vertex_size: three floats of position, plus three of colour in
      the second layout. */
  function VertexSize(layout: MeshLayout): (r: int)
    ensures r > 0 && r % 12 == 0
    ensures r == if layout == TriP444C444I2 then 24 else 12
  {
    match layout
    case TriP444I2 => 12
    case TriP444C444I2 => 24
  }

  /** The part of gpu_mesh_info_t the counts come from; the sizes are
      size_t. */
  datatype MeshInfo = MeshInfo(layout: MeshLayout, indexDataSize: uint64, vertexDataSize: uint64)

  /** gpu_mesh_t's counts (C ints). */
  datatype Mesh = Mesh(indexCount: int, vertexCount: int)

  /** gpu_mesh_create's counts: `(int) size / element_size`, the cast first,
      then C's truncating division. */
  function MeshCounts(info: MeshInfo): (m: Mesh)
    ensures info.indexDataSize < 0x8000_0000 ==> m.indexCount == info.indexDataSize / IndexSize(info.layout)
    ensures info.vertexDataSize < 0x8000_0000 ==> m.vertexCount == info.vertexDataSize / VertexSize(info.layout)
  {
    Mesh(CDiv(ToInt32(info.indexDataSize), IndexSize(info.layout)),
         CDiv(ToInt32(info.vertexDataSize), VertexSize(info.layout)))
  }

  /** For buffers below 2 GiB the counts are the number of whole elements
      the buffers hold; from 2 GiB to 4 GiB the cast to int makes them
      zero or negative. */
  lemma MeshCountsBounds(info: MeshInfo)
    ensures var m := MeshCounts(info);
      (info.indexDataSize < 0x8000_0000 ==>
        0 <= m.indexCount && m.indexCount * IndexSize(info.layout) <= info.indexDataSize < (m.indexCount + 1) * IndexSize(info.layout)) &&
      (info.vertexDataSize < 0x8000_0000 ==>
        0 <= m.vertexCount && m.vertexCount * VertexSize(info.layout) <= info.vertexDataSize < (m.vertexCount + 1) * VertexSize(info.layout)) &&
      (0x8000_0000 <= info.indexDataSize < TWO_32 ==> m.indexCount <= 0) &&
      (0x8000_0000 <= info.vertexDataSize < TWO_32 ==> m.vertexCount <= 0)
  {
  }

  /** The draw gpu_cmd_draw records; the counts go to Vulkan as uint32_t. */
  datatype DrawCall = DrawIndexed(indexCount: uint32) | DrawPlain(vertexCount: uint32) | NoDraw

  /** An int count passed as uint32_t: its value modulo 2^32. */
  function ToUint32(x: int): (r: uint32)
    ensures 0 <= x < TWO_32 ==> r == x
    ensures (r - x) % TWO_32 == 0
  {
    x % TWO_32
  }

  /** gpu_cmd_mesh_bind's target: the counts of gpu_cmd_buffer_t. */
  class CmdBuffer {
    var indexCount: int
    var vertexCount: int

    constructor ()
      ensures indexCount == 0 && vertexCount == 0
    {
      indexCount, vertexCount := 0, 0;
    }

    /** gpu_cmd_mesh_bind: both branches of each test leave the buffer with
        the mesh's count. */
    method MeshBind(mesh: Mesh)
      modifies this
      ensures indexCount == mesh.indexCount && vertexCount == mesh.vertexCount
    {
      if mesh.vertexCount != 0 {
        vertexCount := mesh.vertexCount;
      } else {
        vertexCount := 0;
      }
      if mesh.indexCount != 0 {
        indexCount := mesh.indexCount;
      } else {
        indexCount := 0;
      }
    }

    /** gpu_cmd_draw. */
    function Draw(): (d: DrawCall)
      reads this
      ensures d.DrawIndexed? <==> indexCount != 0
      ensures d.DrawPlain? <==> indexCount == 0 && vertexCount != 0
      ensures d.NoDraw? <==> indexCount == 0 && vertexCount == 0
    {
      if indexCount != 0 then DrawIndexed(ToUint32(indexCount))
      else if vertexCount != 0 then DrawPlain(ToUint32(vertexCount))
      else NoDraw
    }
  }

  /** A mesh bound and drawn. From buffers below 2 GiB: indexed over every
      whole index when its index buffer holds one, otherwise plain over every
      whole vertex, and nothing when neither buffer holds an element. An
      index buffer of 2 GiB up to 4 GiB less two bytes gives a negative index
      count, which reaches Vulkan as an index count of at least 3 Gi. */
  method DrawMesh(info: MeshInfo) returns (d: DrawCall)
    ensures IndexSize(info.layout) <= info.indexDataSize < 0x8000_0000 ==>
      d == DrawIndexed(info.indexDataSize / IndexSize(info.layout))
    ensures info.indexDataSize < IndexSize(info.layout) && VertexSize(info.layout) <= info.vertexDataSize < 0x8000_0000 ==>
      d == DrawPlain(info.vertexDataSize / VertexSize(info.layout))
    ensures info.indexDataSize < IndexSize(info.layout) && info.vertexDataSize < VertexSize(info.layout) ==>
      d == NoDraw
    ensures 0x8000_0000 <= info.indexDataSize < TWO_32 - 1 ==>
      d.DrawIndexed? && d.indexCount >= TWO_32 - 0x4000_0000
  {
    var cmd := new CmdBuffer();
    cmd.MeshBind(MeshCounts(info));
    d := cmd.Draw();
  }
}
