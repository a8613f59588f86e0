/** The debug subsystem of src/debug.c: the print-mask gate and the
    allocation-trace table, a hash table of HASH_SIZE buckets keyed by
    `address % HASH_SIZE`, each bucket a fixed array of STACK_COUNT_MAX record
    slots with a count of the slots in use. */
module Debug {
  import opened Common

  const HASH_SIZE: nat := 20
  const STACK_TRACE_SIZE: nat := 10
  const STACK_COUNT_MAX: nat := 128

  /** debug_print_t from src/debug.h. */
  const PRINT_INFO: bv32 := 1
  const PRINT_WARNING: bv32 := 2
  const PRINT_ERROR: bv32 := 4
  /** The mask before any call to debug_set_print_mask. */
  const INITIAL_MASK: bv32 := 0xffff_ffff

  /** A captured return address. */
  type Frame = uint64

  /** trace_alloc_t: the traced address, the requested size and the captured
      call stack (its length is trace_size). */
  datatype TraceRecord = TraceRecord(address: uint64, memSize: uint64, stack: seq<Frame>)

  /** The content the model gives a slot that was allocated but never written. */
  const UNSET: TraceRecord := TraceRecord(0, 0, [])

  /** What debug_system_init leaves in each bucket. */
  function FreshBucket(): (b: seq<TraceRecord>)
    ensures |b| == STACK_COUNT_MAX
    ensures forall k :: 0 <= k < |b| ==> b[k].address == 0
  {
    seq(STACK_COUNT_MAX, _ => UNSET)
  }

  /** addr_hash: the bucket of an address. */
  function AddrHash(address: uint64): (place: nat)
    ensures place < HASH_SIZE
    ensures address < HASH_SIZE ==> place == address
  {
    address % HASH_SIZE
  }

  /** The gate at the top of debug_print: a message is emitted exactly when
      its type shares a bit with the mask. */
  function Emits(mask: bv32, msgType: bv32): (emitted: bool)
    ensures emitted ==> mask != 0 && msgType != 0
  {
    mask & msgType != 0
  }

  /** CaptureStackBackTrace with a capacity of STACK_TRACE_SIZE keeps at most
      that many of the frames above the two it skips. */
  function Captured(frames: seq<Frame>): (s: seq<Frame>)
    ensures |s| <= STACK_TRACE_SIZE
    ensures |s| == Min(|frames|, STACK_TRACE_SIZE)
    ensures s == frames[..|s|]
  {
    frames[..Min(|frames|, STACK_TRACE_SIZE)]
  }

  /** The index of the first record for `address` among the first `count`
      slots of a bucket, the lookup loop of debug_remove_trace and
      debug_print_trace. */
  function FirstMatch(slots: seq<TraceRecord>, count: nat, address: uint64): (r: Option<nat>)
    requires count <= |slots|
    ensures r.Some? ==> r.value < count && slots[r.value].address == address
    ensures r.Some? ==> forall j :: 0 <= j < r.value ==> slots[j].address != address
    ensures r.None? <==> forall j :: 0 <= j < count ==> slots[j].address != address
    decreases count
  {
    if count == 0 then None
    else
      match FirstMatch(slots, count - 1, address)
      case Some(k) => Some(k)
      case None => if slots[count - 1].address == address then Some(count - 1) else None
  }

  /** debug_remove_trace on one bucket, as written: the first match gets
      address 0 and the count drops by one; the bucket is not compacted. */
  function RemoveAsWritten(slots: seq<TraceRecord>, count: nat, address: uint64): (r: (seq<TraceRecord>, nat))
    requires count <= |slots|
    ensures |r.0| == |slots| && r.1 <= count
    ensures FirstMatch(slots, count, address).None? ==> r == (slots, count)
    ensures FirstMatch(slots, count, address).Some? ==>
      var k := FirstMatch(slots, count, address).value;
      r.1 == count - 1 && r.0[k].address == 0 &&
      r.0[k].memSize == slots[k].memSize && r.0[k].stack == slots[k].stack &&
      forall j :: 0 <= j < |slots| && j != k ==> r.0[j] == slots[j]
  {
    match FirstMatch(slots, count, address)
    case None => (slots, count)
    case Some(k) => (slots[k := slots[k].(address := 0)], count - 1)
  }

  /** The addresses a bucket holds in its slots in use. */
  function Live(slots: seq<TraceRecord>, count: nat): (m: multiset<int>)
    requires count <= |slots|
    ensures |m| == count
    decreases count
  {
    if count == 0 then multiset{} else Live(slots, count - 1) + multiset{slots[count - 1].address}
  }

  /** The removal the record table evidently intends: the last record in use
      moves into the vacated slot, so the slots in use stay contiguous. */
  function RemoveCompacting(slots: seq<TraceRecord>, count: nat, address: uint64): (r: (seq<TraceRecord>, nat))
    requires count <= |slots|
    ensures |r.0| == |slots| && r.1 <= count
    ensures FirstMatch(slots, count, address).None? ==> r == (slots, count)
    ensures FirstMatch(slots, count, address).Some? ==> r.1 == count - 1
  {
    match FirstMatch(slots, count, address)
    case None => (slots, count)
    case Some(k) => (slots[k := slots[count - 1]], count - 1)
  }

  /** Overwriting slot k replaces its address in the multiset of live
      addresses by the new one. */
  lemma {:induction false} LiveUpdate(slots: seq<TraceRecord>, count: nat, k: nat, x: TraceRecord)
    requires k < count <= |slots|
    ensures Live(slots[k := x], count) + multiset{slots[k].address} == Live(slots, count) + multiset{x.address}
    decreases count
  {
    if k == count - 1 {
      LiveUpdateLast(slots, count, x);
    } else {
      var updated := slots[k := x];
      LiveUpdate(slots, count - 1, k, x);
      assert updated[count - 1] == slots[count - 1];
      AddBoth(Live(updated, count - 1), Live(slots, count - 1),
              multiset{slots[k].address}, multiset{x.address}, multiset{slots[count - 1].address});
    }
  }

  lemma LiveUpdateLast(slots: seq<TraceRecord>, count: nat, x: TraceRecord)
    requires 0 < count <= |slots|
    ensures Live(slots[count - 1 := x], count) + multiset{slots[count - 1].address} == Live(slots, count) + multiset{x.address}
  {
    var rest := Live(slots, count - 1);
    LivePrefixUnchanged(slots, slots[count - 1 := x], count - 1);
    AddBoth(rest, rest, multiset{}, multiset{}, multiset{x.address});
    AddBoth(rest, rest, multiset{}, multiset{}, multiset{slots[count - 1].address});
  }

  lemma {:induction false} LivePrefixUnchanged(a: seq<TraceRecord>, b: seq<TraceRecord>, count: nat)
    requires count <= |a| && count <= |b|
    requires forall j :: 0 <= j < count ==> a[j] == b[j]
    ensures Live(a, count) == Live(b, count)
    decreases count
  {
    if count > 0 {
      LivePrefixUnchanged(a, b, count - 1);
    }
  }

  /** The compacting removal takes away exactly one occurrence of the address
      from the records in use and keeps every other one. */
  lemma {:induction false} RemoveCompactingLive(slots: seq<TraceRecord>, count: nat, address: uint64)
    requires count <= |slots|
    requires address in Live(slots, count)
    ensures var r := RemoveCompacting(slots, count, address);
      Live(r.0, r.1) == Live(slots, count) - multiset{address}
  {
    LiveHasMatch(slots, count, address);
    var k := FirstMatch(slots, count, address).value;
    var moved := slots[k := slots[count - 1]];
    assert slots[k].address == address;
    if k == count - 1 {
      LivePrefixUnchanged(moved, slots, count - 1);
      SubtractBack(Live(slots, count - 1), Live(slots, count), address);
    } else {
      var y := slots[count - 1].address;
      LiveUpdate(slots, count, k, slots[count - 1]);
      assert moved[count - 1] == slots[count - 1];
      assert Live(moved, count) == Live(moved, count - 1) + multiset{y};
      AddCancels(Live(moved, count - 1) + multiset{address}, Live(slots, count), y);
      SubtractBack(Live(moved, count - 1), Live(slots, count), address);
    }
  }

  lemma AddBoth(p: multiset<int>, q: multiset<int>, a: multiset<int>, b: multiset<int>, z: multiset<int>)
    requires p + a == q + b
    ensures p + z + a == q + z + b
  {
    forall e ensures (p + z + a)[e] == (q + z + b)[e] {
      assert (p + a)[e] == (q + b)[e];
    }
  }

  lemma AddCancels(a: multiset<int>, b: multiset<int>, y: int)
    requires a + multiset{y} == b + multiset{y}
    ensures a == b
  {
    forall e ensures a[e] == b[e] {
      assert (a + multiset{y})[e] == (b + multiset{y})[e];
    }
  }

  lemma SubtractBack(a: multiset<int>, m: multiset<int>, y: int)
    requires a + multiset{y} == m
    ensures a == m - multiset{y}
  {
    forall e ensures a[e] == (m - multiset{y})[e] {
      assert (a + multiset{y})[e] == m[e];
    }
  }

  lemma {:induction false} LiveHasMatch(slots: seq<TraceRecord>, count: nat, address: uint64)
    requires count <= |slots|
    ensures address in Live(slots, count) <==> FirstMatch(slots, count, address).Some?
    decreases count
  {
    if count > 0 {
      LiveHasMatch(slots, count - 1, address);
    }
  }

  /** With the compacting removal, every other traced address in the bucket
      can still be found afterwards. */
  lemma RemoveCompactingKeepsOthers(slots: seq<TraceRecord>, count: nat, address: uint64, other: uint64)
    requires count <= |slots|
    requires other != address
    requires FirstMatch(slots, count, other).Some?
    ensures var r := RemoveCompacting(slots, count, address);
      FirstMatch(r.0, r.1, other).Some?
  {
    var r := RemoveCompacting(slots, count, address);
    LiveHasMatch(slots, count, other);
    if address in Live(slots, count) {
      RemoveCompactingLive(slots, count, address);
    } else {
      LiveHasMatch(slots, count, address);
    }
    LiveHasMatch(r.0, r.1, other);
  }

  /** The compacting removal takes one occurrence of the address out of the
      addresses in use, and none when the address is not among them. */
  lemma RemoveCompactingRemovesOne(slots: seq<TraceRecord>, count: nat, address: uint64)
    requires count <= |slots|
    ensures var r := RemoveCompacting(slots, count, address);
      Live(r.0, r.1) == Live(slots, count) - multiset{address}
  {
    if address in Live(slots, count) {
      RemoveCompactingLive(slots, count, address);
    } else {
      LiveHasMatch(slots, count, address);
      var m := Live(slots, count);
      forall e ensures m[e] == (m - multiset{address})[e] {
      }
    }
  }

  /** As written, removing the first of two records of one bucket makes the
      second unreachable: two traced blocks at 20 and 40 share bucket 0, and
      after debug_remove_trace(20) no lookup finds 40 any more. */
  lemma RemoveAsWrittenLosesRecord()
    ensures var slots := [TraceRecord(20, 8, []), TraceRecord(40, 8, []), UNSET];
      FirstMatch(slots, 2, 40).Some? &&
      var r := RemoveAsWritten(slots, 2, 20);
      FirstMatch(r.0, r.1, 40).None?
  {
    var slots := [TraceRecord(20, 8, []), TraceRecord(40, 8, []), UNSET];
    assert FirstMatch(slots, 1, 20) == Some(0);
    assert FirstMatch(slots, 2, 40) == Some(1);
    var r := RemoveAsWritten(slots, 2, 20);
    assert r.0[0].address == 0;
  }

  /** Frame printing in debug_print_trace: each frame is printed, and the
      loop stops after the first frame whose symbol is `main`. */
  method PrintFrames(stack: seq<Frame>, symbolOf: Frame -> string) returns (printed: nat)
    ensures printed <= |stack|
    ensures forall j :: 0 <= j < printed - 1 ==> symbolOf(stack[j]) != "main"
    ensures printed < |stack| ==> 0 < printed && symbolOf(stack[printed - 1]) == "main"
    ensures |stack| > 0 ==> printed > 0
  {
    printed := 0;
    while printed < |stack|
      invariant printed <= |stack|
      invariant forall j :: 0 <= j < printed ==> symbolOf(stack[j]) != "main"
    {
      // the frame is printed here
      printed := printed + 1;
      if symbolOf(stack[printed - 1]) == "main" {
        return;
      }
    }
  }

  datatype RecordOutcome = NotInitialized | BucketFull | SlotFailed | Recorded
  datatype PrintOutcome = NotFound | Leak(memSize: uint64, printed: seq<Frame>)

  /** The globals of src/debug.c. `initialized` stands for `stack_record !=
      NULL`; records[b], count[b] and countMax[b] are stack_record[b],
      stack_count[b] and stack_count_max[b]. */
  class DebugSystem {
    var printMask: bv32
    var initialized: bool
    const records: array<seq<TraceRecord>>
    const count: array<nat>
    const countMax: array<nat>

    ghost predicate Valid()
      reads this, records, count, countMax
    {
      records.Length == HASH_SIZE && count.Length == HASH_SIZE && countMax.Length == HASH_SIZE &&
      count != countMax &&
      (forall b :: 0 <= b < HASH_SIZE ==> count[b] < STACK_COUNT_MAX && count[b] <= |records[b]|) &&
      (initialized ==> forall b :: 0 <= b < HASH_SIZE ==>
         |records[b]| == STACK_COUNT_MAX && countMax[b] == STACK_COUNT_MAX)
    }

    /** The state at program start: the mask is all ones, stack_record is NULL
        and the count arrays are zero. */
    constructor ()
      ensures Valid() && fresh(records) && fresh(count) && fresh(countMax)
      ensures printMask == INITIAL_MASK && !initialized
      ensures forall b :: 0 <= b < HASH_SIZE ==> count[b] == 0 && countMax[b] == 0 && records[b] == []
    {
      printMask := INITIAL_MASK;
      initialized := false;
      records := new seq<TraceRecord>[HASH_SIZE](_ => []);
      count := new nat[HASH_SIZE](_ => 0);
      countMax := new nat[HASH_SIZE](_ => 0);
    }

    /** debug_set_print_mask replaces the mask wholesale. */
    method SetPrintMask(mask: bv32)
      modifies this`printMask
      ensures printMask == mask
    {
      printMask := mask;
    }

    /** Whether debug_print emits a message of the given type. */
    method Print(msgType: bv32) returns (emitted: bool)
      ensures emitted == Emits(printMask, msgType)
    {
      emitted := printMask & msgType != 0;
    }

    /** debug_system_init. `symOk` is the answer of SymInitialize and
        `tableOk` whether the calloc of the bucket table succeeds. The `if` at
        line 94 has no braces, so it guards only that calloc: when
        SymInitialize fails `stack_record` keeps its previous value. */
    method Init(symOk: bool, tableOk: bool) returns (ok: bool)
      requires Valid()
      modifies this`initialized, records, count, countMax
      ensures Valid()
      ensures initialized == (if symOk then tableOk else old(initialized))
      ensures ok == initialized
      ensures ok ==> forall b :: 0 <= b < HASH_SIZE ==>
        count[b] == 0 && countMax[b] == STACK_COUNT_MAX && records[b] == FreshBucket()
      ensures !ok ==> records[..] == old(records[..]) && count[..] == old(count[..]) && countMax[..] == old(countMax[..])
    {
      if symOk {
        initialized := tableOk;
      }
      if !initialized {
        ok := false;
        return;
      }
      var k := 0;
      while k < HASH_SIZE
        invariant 0 <= k <= HASH_SIZE
        invariant initialized
        invariant forall b :: 0 <= b < k ==>
          count[b] == 0 && countMax[b] == STACK_COUNT_MAX && records[b] == FreshBucket()
        invariant forall b :: k <= b < HASH_SIZE ==>
          count[b] == old(count[b]) && countMax[b] == old(countMax[b]) && records[b] == old(records[b])
      {
        count[k] := 0;
        countMax[k] := STACK_COUNT_MAX;
        records[k] := FreshBucket();
        k := k + 1;
      }
      ok := true;
    }

    /** debug_record_trace. `frames` is what the stack capture returns above
        the skipped frames; `slotOk` stands for the allocation of the record. */
    method RecordTrace(address: uint64, memSize: uint64, frames: seq<Frame>, slotOk: bool)
      returns (outcome: RecordOutcome)
      requires Valid()
      modifies records, count
      ensures Valid()
      ensures var p := AddrHash(address);
        && outcome == (if !initialized then NotInitialized
                       else if old(count[p]) >= STACK_COUNT_MAX - 1 then BucketFull
                       else if slotOk then Recorded
                       else SlotFailed)
        && (outcome == Recorded ==>
              records[p] == old(records[p])[old(count[p]) := TraceRecord(address, memSize, Captured(frames))] &&
              count[p] == old(count[p]) + 1)
        && (outcome != Recorded ==> records[p] == old(records[p]) && count[p] == old(count[p]))
        && (forall b :: 0 <= b < HASH_SIZE && b != p ==> records[b] == old(records[b]) && count[b] == old(count[b]))
    {
      var p := AddrHash(address);
      if !initialized {
        return NotInitialized;
      }
      if count[p] >= countMax[p] - 1 {
        return BucketFull;
      }
      if !slotOk {
        return SlotFailed;
      }
      records[p] := records[p][count[p] := TraceRecord(address, memSize, Captured(frames))];
      count[p] := count[p] + 1;
      outcome := Recorded;
    }

    /** The lookup loop shared by debug_remove_trace and debug_print_trace.
        With stack_record NULL and a non-zero count the C code dereferences
        NULL, hence the precondition. */
    method FindTrace(address: uint64) returns (k: Option<nat>)
      requires Valid()
      requires initialized || count[AddrHash(address)] == 0
      ensures var p := AddrHash(address); k == FirstMatch(records[p], count[p], address)
    {
      var p := AddrHash(address);
      var i := 0;
      while i < count[p]
        invariant 0 <= i <= count[p]
        invariant forall j :: 0 <= j < i ==> records[p][j].address != address
      {
        if records[p][i].address == address {
          return Some(i);
        }
        i := i + 1;
      }
      k := None;
    }

    /** debug_remove_trace, as written. */
    method RemoveTrace(address: uint64)
      requires Valid()
      requires initialized || count[AddrHash(address)] == 0
      modifies records, count
      ensures Valid()
      ensures var p := AddrHash(address);
        (records[p], count[p]) == RemoveAsWritten(old(records[p]), old(count[p]), address) &&
        forall b :: 0 <= b < HASH_SIZE && b != p ==> records[b] == old(records[b]) && count[b] == old(count[b])
    {
      var p := AddrHash(address);
      var found := FindTrace(address);
      if found.Some? {
        var k := found.value;
        records[p] := records[p][k := records[p][k].(address := 0)];
        count[p] := count[p] - 1;
      }
    }

    /** debug_remove_trace as evidently meant: the bucket is compacted, so the
        addresses in use lose exactly one occurrence of the address. */
    method RemoveTraceCompacting(address: uint64)
      requires Valid()
      requires initialized || count[AddrHash(address)] == 0
      modifies records, count
      ensures Valid()
      ensures var p := AddrHash(address);
        (records[p], count[p]) == RemoveCompacting(old(records[p]), old(count[p]), address) &&
        Live(records[p], count[p]) == Live(old(records[p]), old(count[p])) - multiset{address} &&
        forall b :: 0 <= b < HASH_SIZE && b != p ==> records[b] == old(records[b]) && count[b] == old(count[b])
    {
      var p := AddrHash(address);
      ghost var before, c := records[p], count[p];
      var found := FindTrace(address);
      if found.Some? {
        var k := found.value;
        records[p] := records[p][k := records[p][count[p] - 1]];
        count[p] := count[p] - 1;
      }
      RemoveCompactingRemovesOne(before, c, address);
    }

    /** debug_print_trace: the memory size and the frames printed for the
        first record of the address, or NotFound (the warning path).
        `symbolOf` stands for symbol resolution. */
    method PrintTrace(address: uint64, symbolOf: Frame -> string) returns (outcome: PrintOutcome)
      requires Valid()
      requires initialized || count[AddrHash(address)] == 0
      ensures var p := AddrHash(address);
        match FirstMatch(records[p], count[p], address)
        case None => outcome == NotFound
        case Some(k) =>
          outcome.Leak? && outcome.memSize == records[p][k].memSize &&
          outcome.printed <= records[p][k].stack &&
          (|outcome.printed| < |records[p][k].stack| ==>
             |outcome.printed| > 0 && symbolOf(outcome.printed[|outcome.printed| - 1]) == "main") &&
          forall j :: 0 <= j < |outcome.printed| - 1 ==> symbolOf(outcome.printed[j]) != "main"
    {
      var p := AddrHash(address);
      var found := FindTrace(address);
      if found.None? {
        return NotFound;
      }
      var rec := records[p][found.value];
      var n := PrintFrames(rec.stack, symbolOf);
      outcome := Leak(rec.memSize, rec.stack[..n]);
    }
  }

  /** Every message type with a bit set passes the initial mask, and none
      passes a zero mask. */
  lemma MaskGate(msgType: bv32)
    ensures Emits(INITIAL_MASK, msgType) <==> msgType != 0
    ensures !Emits(0, msgType)
  {
  }
}
