/** The asynchronous file system of src/fs.c. A work item records one read
    or write; fs_read and fs_write fill it in and push it onto the file queue,
    and the file thread pops items in FIFO order until it pops the NULL
    sentinel, serving each against the operating system's files. The queue
    is a sequence, the `done` event a flag, the file layer a map from paths to
    contents whose operations may fail at each step. */
module FileSystem {
  import opened Common
  import Heaps

  type Path = string

  /** The size of fs_work_t.path, the terminating NUL included. */
  const PATH_CAPACITY: nat := 1024
  /** The result file_read and file_write give a path that does not convert. */
  const PATH_CONVERSION_FAILED: int := -1
  /** GetLastError after CreateFile with OPEN_EXISTING on a missing file. */
  const ERROR_FILE_NOT_FOUND: int := 2

  datatype Op = OpRead | OpWrite

  /** A work item's buffer: NULL, a block of the heap nothing was written
      into yet, or bytes. */
  datatype Buffer = Null | Uninit(length: nat) | Data(bytes: seq<byte>)

  /** A GetLastError code reported after a failed call. */
  type OsError = c: int | c != 0 witness 1

  /** Where, if anywhere, the operating system fails while one item is served:
      MultiByteToWideChar, CreateFile, GetFileSizeEx (reads only) or the
      ReadFile/WriteFile call. */
  datatype Fault = NoFault | PathFault | OpenFault(code: OsError) | SizeFault(code: OsError) | IoFault(code: OsError)

  /** The fields of fs_work_t the file thread reads and writes. */
  datatype WorkView = WorkView(op: Op, path: Path, nullTerminate: bool, useCompression: bool,
                               buffer: Buffer, size: nat, result: int, done: bool)

  /** The byte count ReadFile and WriteFile are given: `(DWORD) item->size`. */
  function DwordCount(n: nat): (r: nat)
    ensures r < TWO_32
    ensures (n - r) % TWO_32 == 0
    ensures n < TWO_32 ==> r == n
  {
    n % TWO_32
  }

  /** The bytes a write item hands to WriteFile. */
  function Payload(b: Buffer, count: nat): (s: seq<byte>)
    ensures b.Data? && count <= |b.bytes| ==> s == b.bytes[..count]
  {
    if b.Data? then b.bytes[..Min(count, |b.bytes|)] else []
  }

  /** file_read on the item's fields. A failed step stores its error and
      signals done; a successful read stores the bytes read (followed by a
      zero byte when null_terminate is set) and signals done unless the item
      asks for compression, whose stage is not written. */
  function ServeRead(files: map<Path, seq<byte>>, w: WorkView, fault: Fault): (r: WorkView)
    ensures r.op == w.op && r.path == w.path && r.nullTerminate == w.nullTerminate &&
            r.useCompression == w.useCompression
  {
    if fault.PathFault? then w.(result := PATH_CONVERSION_FAILED, done := true)
    else if w.path !in files then w.(result := ERROR_FILE_NOT_FOUND, done := true)
    else if fault.OpenFault? || fault.SizeFault? then w.(result := fault.code, done := true)
    else
      var n := |files[w.path]|;
      var held := w.(size := n, buffer := Uninit(if w.nullTerminate then n + 1 else n));
      if fault.IoFault? then held.(result := fault.code, done := true)
      else
        var bytesRead := DwordCount(n);
        var data := files[w.path][..bytesRead];
        held.(size := bytesRead,
                   buffer := Data(if w.nullTerminate then data + [0] else data),
                   done := w.done || !w.useCompression)
  }

  /** file_write on the item's fields. CreateFile with CREATE_ALWAYS leaves an
      empty file even when the write then fails. */
  function ServeWrite(files: map<Path, seq<byte>>, w: WorkView, fault: Fault): (r: (map<Path, seq<byte>>, WorkView))
    ensures r.1.op == w.op && r.1.path == w.path && r.1.nullTerminate == w.nullTerminate &&
            r.1.useCompression == w.useCompression && r.1.buffer == w.buffer
  {
    if fault.PathFault? then (files, w.(result := PATH_CONVERSION_FAILED, done := true))
    else if fault.OpenFault? then (files, w.(result := fault.code, done := true))
    else
      var created := files[w.path := []];
      if fault.IoFault? then (created, w.(result := fault.code, done := true))
      else
        var written := DwordCount(w.size);
        (created[w.path := Payload(w.buffer, written)], w.(size := written, done := w.done || !w.useCompression))
  }

  /** The dispatch on `op` in file_thread_func. */
  function Serve(files: map<Path, seq<byte>>, w: WorkView, fault: Fault): (r: (map<Path, seq<byte>>, WorkView))
    ensures r.1.op == w.op && r.1.path == w.path
    ensures w.op == OpRead ==> r.0 == files
    ensures forall p :: p != w.path ==> (p in r.0 <==> p in files) && (p in files ==> r.0[p] == files[p])
  {
    if w.op == OpRead then (files, ServeRead(files, w, fault)) else ServeWrite(files, w, fault)
  }

  function FaultAt(faults: seq<Fault>, i: nat): Fault {
    if i < |faults| then faults[i] else NoFault
  }

  /** Serving the items in order: the files afterwards and each item's
      fields afterwards. Item i meets fault i. */
  function ServeAll(files: map<Path, seq<byte>>, items: seq<WorkView>, faults: seq<Fault>): (r: (map<Path, seq<byte>>, seq<WorkView>))
    ensures |r.1| == |items|
    decreases |items|
  {
    if items == [] then (files, [])
    else
      var before := ServeAll(files, items[..|items| - 1], faults);
      var step := Serve(before.0, items[|items| - 1], FaultAt(faults, |items| - 1));
      (step.0, before.1 + [step.1])
  }

  /** The position of the first NULL in a queue, or its length. */
  function SentinelIndex(q: seq<Work?>): (k: nat)
    ensures k <= |q|
    ensures k < |q| ==> q[k] == null
    ensures forall j :: 0 <= j < k ==> q[j] != null
    decreases |q|
  {
    if q == [] then 0
    else if q[0] == null then 0
    else 1 + SentinelIndex(q[1..])
  }

  function ViewOf(w: Work?): WorkView
    reads if w == null then {} else {w}
  {
    if w == null then WorkView(OpRead, [], false, false, Null, 0, 0, false) else w.View()
  }

  function ViewsOf(q: seq<Work?>): (r: seq<WorkView>)
    reads set w: Work | w in q
    ensures |r| == |q|
    ensures forall j :: 0 <= j < |q| ==> r[j] == ViewOf(q[j])
    decreases |q|
  {
    if q == [] then [] else [ViewOf(q[0])] + ViewsOf(q[1..])
  }

  /** fs_work_t. `heap` is the heap the read buffer comes from. */
  class Work {
    const heap: Heaps.Heap?
    var op: Op
    var path: Path
    var nullTerminate: bool
    var useCompression: bool
    var buffer: Buffer
    var size: nat
    var done: bool
    var result: int

    function View(): WorkView
      reads this
    {
      WorkView(op, path, nullTerminate, useCompression, buffer, size, result, done)
    }

    constructor (heap: Heaps.Heap?, v: WorkView)
      ensures this.heap == heap && View() == v
    {
      this.heap := heap;
      op, path, nullTerminate, useCompression := v.op, v.path, v.nullTerminate, v.useCompression;
      buffer, size, result, done := v.buffer, v.size, v.result, v.done;
    }
  }

  /** The null-safe accessors. The waits they begin with are not modelled:
      they read the fields as they are once done is signalled. */
  function IsDone(w: Work?): (r: bool)
    reads if w == null then {} else {w}
    ensures w == null ==> r
    ensures w != null ==> r == w.done
  {
    if w == null then true else w.done
  }

  function GetResult(w: Work?): (r: int)
    reads if w == null then {} else {w}
    ensures w == null ==> r == -1
    ensures w != null ==> r == w.result
  {
    if w == null then -1 else w.result
  }

  function GetBuffer(w: Work?): (r: Buffer)
    reads if w == null then {} else {w}
    ensures w == null ==> r == Null
    ensures w != null ==> r == w.buffer
  {
    if w == null then Null else w.buffer
  }

  function GetSize(w: Work?): (r: nat)
    reads if w == null then {} else {w}
    ensures w == null ==> r == 0
    ensures w != null ==> r == w.size
  {
    if w == null then 0 else w.size
  }

  /** The operating system's files. */
  class Disk {
    var files: map<Path, seq<byte>>

    constructor (files: map<Path, seq<byte>>)
      ensures this.files == files
    {
      this.files := files;
    }
  }

  /** file_read, step by step. */
  method FileRead(w: Work, disk: Disk, fault: Fault)
    modifies w
    ensures w.View() == ServeRead(disk.files, old(w.View()), fault)
  {
    if fault.PathFault? {
      w.result := PATH_CONVERSION_FAILED;
      w.done := true;
      return;
    }
    if w.path !in disk.files {
      w.result := ERROR_FILE_NOT_FOUND;
      w.done := true;
      return;
    }
    if fault.OpenFault? {
      w.result := fault.code;
      w.done := true;
      return;
    }
    if fault.SizeFault? {
      w.result := fault.code;
      w.done := true;
      return;
    }
    var contents := disk.files[w.path];
    w.size := |contents|;
    w.buffer := Uninit(if w.nullTerminate then w.size + 1 else w.size);
    if fault.IoFault? {
      w.result := fault.code;
      w.done := true;
      return;
    }
    var bytesRead := DwordCount(w.size);
    var data := contents[..bytesRead];
    w.size := bytesRead;
    if w.nullTerminate {
      w.buffer := Data(data + [0]);
    } else {
      w.buffer := Data(data);
    }
    if !w.useCompression {
      w.done := true;
    }
  }

  /** file_write, step by step. */
  method FileWrite(w: Work, disk: Disk, fault: Fault)
    modifies w, disk
    ensures (disk.files, w.View()) == ServeWrite(old(disk.files), old(w.View()), fault)
  {
    if fault.PathFault? {
      w.result := PATH_CONVERSION_FAILED;
      w.done := true;
      return;
    }
    if fault.OpenFault? {
      w.result := fault.code;
      w.done := true;
      return;
    }
    disk.files := disk.files[w.path := []];
    if fault.IoFault? {
      w.result := fault.code;
      w.done := true;
      return;
    }
    var written := DwordCount(w.size);
    disk.files := disk.files[w.path := Payload(w.buffer, written)];
    w.size := written;
    if !w.useCompression {
      w.done := true;
    }
  }

  /** fs_t: the heap, the queue capacity and the file queue. */
  class Fs {
    const heap: Heaps.Heap?
    const queueCapacity: int
    var queue: seq<Work?>

    /** Every work item is in the queue at most once. */
    ghost predicate Valid()
      reads this
    {
      DistinctItems(queue)
    }

    /** fs_create. The file thread it starts is RunWorker. */
    constructor (heap: Heaps.Heap?, queueCapacity: int)
      ensures Valid() && this.heap == heap && this.queueCapacity == queueCapacity && queue == []
    {
      this.heap := heap;
      this.queueCapacity := queueCapacity;
      queue := [];
    }

    /** fs_read: a fresh read item, queued. strcpy_s demands a path that
        fits the item's buffer. */
    method Read(path: Path, heap: Heaps.Heap?, nullTerminate: bool, useCompression: bool) returns (w: Work)
      requires Valid() && |path| < PATH_CAPACITY
      modifies this
      ensures Valid() && fresh(w) && w.heap == heap
      ensures w.View() == WorkView(OpRead, path, nullTerminate, useCompression, Null, 0, 0, false)
      ensures queue == old(queue) + [w]
    {
      w := new Work(heap, WorkView(OpRead, path, nullTerminate, useCompression, Null, 0, 0, false));
      queue := queue + [w];
    }

    /** fs_write: a fresh write item over the caller's buffer; it is queued
        only without compression (the compressed branch is empty). The
        caller's buffer holds `size` bytes. */
    method Write(path: Path, buffer: seq<byte>, size: nat, useCompression: bool) returns (w: Work)
      requires Valid() && |path| < PATH_CAPACITY && size <= |buffer|
      modifies this
      ensures Valid() && fresh(w) && w.heap == heap
      ensures w.View() == WorkView(OpWrite, path, false, useCompression, Data(buffer), size, 0, false)
      ensures queue == if useCompression then old(queue) else old(queue) + [w]
    {
      w := new Work(heap, WorkView(OpWrite, path, false, useCompression, Data(buffer), size, 0, false));
      if !useCompression {
        queue := queue + [w];
      }
    }

    /** file_thread_func: pops items until the NULL sentinel, serving item i
        with fault i. Blocking on an empty queue is not modelled: the loop
        also ends when the queue runs empty, with `stopped` false. */
    method RunWorker(disk: Disk, faults: seq<Fault>) returns (served: nat, stopped: bool)
      requires Valid()
      modifies this, disk, set w: Work | w in queue
      ensures Valid()
      ensures served == SentinelIndex(old(queue)) && stopped == (served < |old(queue)|)
      ensures queue == if stopped then old(queue)[served + 1..] else []
      ensures Progress(old(queue), old(ViewsOf(queue)), old(disk.files), faults, served, disk.files)
    {
      ghost var q0 := queue;
      served := ServePending(disk, faults);
      stopped := queue != [];
      if stopped {
        queue := queue[1..];
        DistinctSuffix(q0, served + 1);
      }
    }

    /** The loop of file_thread_func up to the sentinel. */
    method ServePending(disk: Disk, faults: seq<Fault>) returns (served: nat)
      requires Valid()
      modifies this, disk, set w: Work | w in queue
      ensures Valid()
      ensures served == SentinelIndex(old(queue)) && queue == old(queue)[served..]
      ensures Progress(old(queue), old(ViewsOf(queue)), old(disk.files), faults, served, disk.files)
    {
      ghost var q0 := queue;
      ghost var v0 := ViewsOf(queue);
      ghost var f0 := disk.files;
      served := 0;
      while queue != [] && queue[0] != null
        invariant served <= SentinelIndex(q0) && queue == q0[served..]
        invariant Progress(q0, v0, f0, faults, served, disk.files)
        decreases |queue|
      {
        Step(disk, faults, q0, v0, f0, served);
        served := served + 1;
      }
      DistinctSuffix(q0, served);
      assert q0 == old(queue) && v0 == old(ViewsOf(queue)) && f0 == old(disk.files);
    }

    /** One turn of the worker loop: pop the item at the head and serve it. */
    method Step(disk: Disk, faults: seq<Fault>, ghost q0: seq<Work?>, ghost v0: seq<WorkView>,
                ghost f0: map<Path, seq<byte>>, served: nat)
      requires DistinctItems(q0) && served < |q0| && queue == q0[served..] && q0[served] != null
      requires Progress(q0, v0, f0, faults, served, disk.files)
      modifies this, disk, q0[served]
      ensures queue == q0[served + 1..]
      ensures Progress(q0, v0, f0, faults, served + 1, disk.files)
    {
      var w := queue[0];
      queue := queue[1..];
      ServeNext(w, disk, q0, v0, f0, faults, served);
    }

    /** fs_destroy: pushes the sentinel, then waits for the file thread, which
        serves everything queued ahead of the first sentinel and stops. */
    method Destroy(disk: Disk, faults: seq<Fault>) returns (served: nat)
      requires Valid()
      modifies this, disk, set w: Work | w in queue
      ensures Valid()
      ensures served == SentinelIndex(old(queue))
      ensures Progress(old(queue), old(ViewsOf(queue)), old(disk.files), faults, served, disk.files)
    {
      ghost var q := queue;
      ghost var v := ViewsOf(queue);
      ghost var f := disk.files;
      queue := queue + [null];
      ViewsAppendNull(q);
      SentinelAppend(q);
      ghost var v1 := ViewsOf(queue);
      assert v1 == v + [ViewOf(null)];
      var stopped;
      served, stopped := RunWorker(disk, faults);
      assert Progress(q + [null], v1, f, faults, served, disk.files);
      ProgressDropLast(q, v, null, ViewOf(null), f, faults, served, disk.files);
    }
  }

  lemma ViewsAppendNull(q: seq<Work?>)
    ensures ViewsOf(q + [null]) == ViewsOf(q) + [ViewOf(null)]
  {
  }

  /** Progress over a queue with one more item at the end, not yet reached,
      is progress over the queue without it. */
  lemma ProgressDropLast(q: seq<Work?>, v: seq<WorkView>, last: Work?, lastView: WorkView,
                         f0: map<Path, seq<byte>>, faults: seq<Fault>, served: nat, files: map<Path, seq<byte>>)
    requires served <= |q| && |v| == |q|
    requires Progress(q + [last], v + [lastView], f0, faults, served, files)
    ensures Progress(q, v, f0, faults, served, files)
  {
    assert (v + [lastView])[..served] == v[..served];
    forall j | 0 <= j < served ensures (q + [last])[j] == q[j] {
    }
    forall j | served <= j < |q| ensures (q + [last])[j] == q[j] && (v + [lastView])[j] == v[j] {
    }
  }

  /** No work item is queued twice; the NULL sentinel may be. */
  ghost predicate DistinctItems(q: seq<Work?>) {
    forall i, j :: 0 <= i < j < |q| && q[i] != null ==> q[i] != q[j]
  }

  lemma Distinct(q: seq<Work?>, n: nat)
    requires DistinctItems(q) && n < |q| && q[n] != null
    ensures forall j :: 0 <= j < |q| && j != n ==> q[j] != q[n]
  {
  }

  lemma DistinctSuffix(q: seq<Work?>, n: nat)
    requires DistinctItems(q) && n <= |q|
    ensures DistinctItems(q[n..])
  {
    forall i, j | 0 <= i < j < |q[n..]| && q[n..][i] != null ensures q[n..][i] != q[n..][j] {
      assert q[n..][i] == q[n + i] && q[n..][j] == q[n + j];
    }
  }

  /** Serving one more item extends the fold by that item. */
  lemma ServeAllStep(files: map<Path, seq<byte>>, items: seq<WorkView>, faults: seq<Fault>, n: nat)
    requires n < |items|
    ensures var before := ServeAll(files, items[..n], faults);
      var step := Serve(before.0, items[n], FaultAt(faults, n));
      ServeAll(files, items[..n + 1], faults) == (step.0, before.1 + [step.1])
  {
    assert items[..n + 1][..n] == items[..n];
  }

  /** After the worker has served the first `served` items of `q0`, whose
      fields were `v0` and the files `f0` when it started: the files and
      those items' fields are the fold of Serve over them, and every item
      further on still has its fields as they were. */
  ghost predicate Progress(q0: seq<Work?>, v0: seq<WorkView>, f0: map<Path, seq<byte>>, faults: seq<Fault>,
                           served: nat, files: map<Path, seq<byte>>)
    reads set w: Work | w in q0
  {
    |v0| == |q0| && served <= |q0| &&
    var acc := ServeAll(f0, v0[..served], faults);
    files == acc.0 &&
    (forall j :: 0 <= j < served ==> q0[j] != null && q0[j].View() == acc.1[j]) &&
    (forall j :: served <= j < |q0| && q0[j] != null ==> q0[j].View() == v0[j])
  }

  /** One turn of the worker loop: the item at `served` is served. */
  method ServeNext(w: Work, disk: Disk, ghost q0: seq<Work?>, ghost v0: seq<WorkView>,
                   ghost f0: map<Path, seq<byte>>, faults: seq<Fault>, served: nat)
    requires DistinctItems(q0) && served < |q0| && q0[served] == w
    requires Progress(q0, v0, f0, faults, served, disk.files)
    modifies w, disk
    ensures Progress(q0, v0, f0, faults, served + 1, disk.files)
  {
    Distinct(q0, served);
    ghost var before := ServeAll(f0, v0[..served], faults);
    ServeItem(w, disk, FaultAt(faults, served));
    ServeAllStep(f0, v0, faults, served);
    assert ServeAll(f0, v0[..served + 1], faults) == (disk.files, before.1 + [w.View()]);
  }

  /** The dispatch on `op` in file_thread_func. */
  method ServeItem(w: Work, disk: Disk, fault: Fault)
    modifies w, disk
    ensures (disk.files, w.View()) == Serve(old(disk.files), old(w.View()), fault)
  {
    if w.op == OpRead {
      FileRead(w, disk, fault);
    } else {
      FileWrite(w, disk, fault);
    }
  }

  lemma {:induction false} SentinelAppend(q: seq<Work?>)
    ensures SentinelIndex(q + [null]) == SentinelIndex(q)
    decreases |q|
  {
    if q != [] && q[0] != null {
      assert (q + [null])[1..] == q[1..] + [null];
      SentinelAppend(q[1..]);
    }
  }

  /** get_hash: `(intptr_t) address % bucket_count` with C's signed remainder. */
  function GetHash(address: int, bucketCount: int): (r: int)
    requires bucketCount != 0
    ensures address >= 0 && bucketCount > 0 ==> 0 <= r < bucketCount
    ensures address < 0 ==> r <= 0
    ensures -(if bucketCount > 0 then bucketCount else -bucketCount) < r < (if bucketCount > 0 then bucketCount else -bucketCount)
  {
    CMod(address, bucketCount)
  }

  /** A freshly made item: nothing served yet. */
  predicate Pending(w: WorkView) {
    w.result == 0 && !w.done
  }

  /** A read fails exactly when one of its steps does, and every failure is
      signalled with -1 for the path or the operating system's error code; a
      successful read holds the bytes read (and a zero byte after them when
      null_terminate is set) and is signalled unless it waits for
      decompression. */
  lemma ReadOutcome(files: map<Path, seq<byte>>, w: WorkView, fault: Fault)
    requires Pending(w)
    ensures var r := ServeRead(files, w, fault);
      (r.result != 0 <==> fault.PathFault? || w.path !in files || !fault.NoFault?) &&
      (r.result != 0 ==> r.done) &&
      (fault.PathFault? ==> r.result == PATH_CONVERSION_FAILED) &&
      (!fault.PathFault? && w.path !in files ==> r.result == ERROR_FILE_NOT_FOUND) &&
      (!fault.PathFault? && w.path in files && !fault.NoFault? ==> r.result == fault.code) &&
      (r.result == 0 ==>
        var data := files[w.path][..DwordCount(|files[w.path]|)];
        r.done == !w.useCompression && r.size == DwordCount(|files[w.path]|) &&
        r.buffer == Data(if w.nullTerminate then data + [0] else data))
  {
  }

  /** A write fails exactly when converting the path, creating the file or
      writing to it does, with -1 or the operating system's error code; a
      failed write still signals done, and once the file was created it is
      left empty. A successful write records the bytes written. */
  lemma WriteOutcome(files: map<Path, seq<byte>>, w: WorkView, fault: Fault)
    requires Pending(w)
    ensures var r := ServeWrite(files, w, fault);
      (r.1.result != 0 <==> fault.PathFault? || fault.OpenFault? || fault.IoFault?) &&
      (r.1.result != 0 ==> r.1.done) &&
      (fault.IoFault? ==> r.0 == files[w.path := []]) &&
      (fault.PathFault? || fault.OpenFault? ==> r.0 == files) &&
      (fault.PathFault? ==> r.1.result == PATH_CONVERSION_FAILED) &&
      (fault.OpenFault? || fault.IoFault? ==> r.1.result == fault.code) &&
      (r.1.result == 0 ==>
        r.1.done == !w.useCompression && r.1.size == DwordCount(w.size) &&
        r.0 == files[w.path := Payload(w.buffer, DwordCount(w.size))])
  {
  }

  /** Serving a queue only touches the files its write items name. */
  lemma {:induction false} ServeAllFrame(files: map<Path, seq<byte>>, items: seq<WorkView>, faults: seq<Fault>, p: Path)
    requires forall i :: 0 <= i < |items| && items[i].op == OpWrite ==> items[i].path != p
    ensures var after := ServeAll(files, items, faults).0;
      (p in after <==> p in files) && (p in files ==> after[p] == files[p])
    decreases |items|
  {
    if items != [] {
      ServeAllFrame(files, items[..|items| - 1], faults, p);
    }
  }

  /** Serving a write of `data` to `path` and then a null-terminated read of
      `path`, with no failure: both succeed, and the read returns the bytes
      written followed by a zero byte. */
  lemma RoundTrip(files: map<Path, seq<byte>>, path: Path, data: seq<byte>)
    requires |data| < TWO_32
    ensures var items := [WorkView(OpWrite, path, false, false, Data(data), |data|, 0, false),
                          WorkView(OpRead, path, true, false, Null, 0, 0, false)];
      var r := ServeAll(files, items, []).1;
      r[0].result == 0 && r[0].size == |data| && r[0].done &&
      r[1].result == 0 && r[1].size == |data| && r[1].buffer == Data(data + [0]) && r[1].done
  {
    var items := [WorkView(OpWrite, path, false, false, Data(data), |data|, 0, false),
                  WorkView(OpRead, path, true, false, Null, 0, 0, false)];
    assert items[..1][..0] == [] && items[..1] == [items[0]];
    assert ServeAll(files, [], []) == (files, []);
    var afterWrite := ServeAll(files, items[..1], []);
    assert afterWrite.0 == Serve(files, items[0], NoFault).0 == ServeWrite(files, items[0], NoFault).0;
    assert Payload(Data(data), DwordCount(|data|)) == data[..|data|] == data;
    assert afterWrite.0 == files[path := []][path := data];
    assert items[..2 - 1] == items[..1];
  }

  /** The round trip, read off the items after the worker served them. */
  lemma RoundTripServed(q: seq<Work?>, files: map<Path, seq<byte>>, path: Path, data: seq<byte>, after: map<Path, seq<byte>>)
    requires |q| == 2 && |data| < TWO_32
    requires Progress(q, [WorkView(OpWrite, path, false, false, Data(data), |data|, 0, false),
                          WorkView(OpRead, path, true, false, Null, 0, 0, false)], files, [], 2, after)
    ensures q[0] != null && q[0].result == 0 && q[0].size == |data| && q[0].done
    ensures q[1] != null && q[1].result == 0 && q[1].size == |data| && q[1].buffer == Data(data + [0]) && q[1].done
  {
    var items := [WorkView(OpWrite, path, false, false, Data(data), |data|, 0, false),
                  WorkView(OpRead, path, true, false, Null, 0, 0, false)];
    assert items[..2] == items;
    RoundTrip(files, path, data);
  }

  /** The engine's own file test: write a buffer through the queue, read it
      back with null_terminate, destroy the file system and look at both
      items through the accessors. */
  method WriteThenRead(files: map<Path, seq<byte>>, path: Path, data: seq<byte>)
    returns (writeResult: int, writeSize: nat, readResult: int, readSize: nat, readBuffer: Buffer, bothDone: bool)
    requires |path| < PATH_CAPACITY && |data| < TWO_32
    ensures writeResult == 0 && writeSize == |data| && bothDone
    ensures readResult == 0 && readSize == |data| && readBuffer == Data(data + [0])
  {
    var disk := new Disk(files);
    var fs := new Fs(null, 16);
    var wr := fs.Write(path, data, |data|, false);
    var rd := fs.Read(path, null, true, false);
    ghost var q := fs.queue;
    ghost var v := ViewsOf(q);
    assert q == [wr, rd] && SentinelIndex(q) == 2;
    assert v == [WorkView(OpWrite, path, false, false, Data(data), |data|, 0, false),
                 WorkView(OpRead, path, true, false, Null, 0, 0, false)];
    var served := fs.Destroy(disk, []);
    RoundTripServed(q, files, path, data, disk.files);
    writeResult, writeSize := GetResult(wr), GetSize(wr);
    readResult, readSize, readBuffer := GetResult(rd), GetSize(rd), GetBuffer(rd);
    bothDone := IsDone(wr) && IsDone(rd);
  }

  /** The accessors' answers for a NULL item. */
  lemma NullWorkAccessors()
    ensures IsDone(null) && GetResult(null) == -1 && GetBuffer(null) == Null && GetSize(null) == 0
  {
  }
}
