/** The duration tracer of src/trace.c: a stack of open durations
    (active_durations, first in last out) and a table of finished ones
    (durations), both arrays of duration_cap slots, with their counters
    and the trace_active flag. The clock is a parameter. The as-written
    operations read and write outside the arrays in some states; the model
    gives those states an outcome of their own and changes nothing there. */
module Tracing {
  import opened Common

  /** trace_create's duration_cap. */
  const DURATION_CAP: nat := 100

  /** duration_t: the name and the begin time are set by the push, the end
      time by the pop. */
  class Duration {
    const name: string
    const beginTime: uint64
    var endTime: uint64

    constructor (name: string, beginTime: uint64)
      ensures this.name == name && this.beginTime == beginTime && endTime == 0
    {
      this.name := name;
      this.beginTime := beginTime;
      endTime := 0;
    }
  }

  datatype PushOutcome =
    | TableFull      // duration_count >= duration_cap: a warning, nothing else
    | NotActive      // trace_active == 0: a warning, nothing else
    | StackOverflow  // the store would land past the end of active_durations
    | Pushed

  datatype PopOutcome =
    | SlotOutOfBounds  // active_durations[active_duration_count] lies past the array
    | NullSlot         // the slot read holds no duration: the end-time store faults
    | TableOverflow    // durations[duration_count] lies past the array
    | StackEmpty       // only the corrected pop: nothing to pop
    | Popped

  /** trace_t. trace->heap is never set by trace_create and the tracer's own
      allocations are not modelled. */
  class Tracer {
    const durations: array<Duration?>
    const activeDurations: array<Duration?>
    var durationCount: nat
    var activeDurationCount: nat
    var writePath: Option<string>
    var active: bool

    ghost predicate Valid()
      reads this
    {
      durations.Length == DURATION_CAP && activeDurations.Length == DURATION_CAP &&
      durations != activeDurations &&
      durationCount <= DURATION_CAP && activeDurationCount <= DURATION_CAP
    }

    /** trace_create. The arrays come from heap_alloc uninitialised; the
        model starts each slot as NULL. event_capacity is unused. */
    constructor Create()
      ensures Valid() && fresh(durations) && fresh(activeDurations)
      ensures durationCount == 0 && activeDurationCount == 0 && !active && writePath == None
      ensures forall i :: 0 <= i < DURATION_CAP ==> durations[i] == null && activeDurations[i] == null
    {
      durations := new Duration?[DURATION_CAP](_ => null);
      activeDurations := new Duration?[DURATION_CAP](_ => null);
      durationCount := 0;
      activeDurationCount := 0;
      writePath := None;
      active := false;
    }

    /** trace_capture_start. */
    method CaptureStart(path: string)
      modifies this`writePath, this`active
      ensures active && writePath == Some(path)
    {
      writePath := Some(path);
      active := true;
    }

    /** trace_capture_stop, without the JSON output. */
    method CaptureStop()
      modifies this`active
      ensures !active
    {
      active := false;
    }

    /** trace_duration_push as written: the capacity guard tests
        duration_count, which nothing increments, so the store into
        active_durations is not bounded by it. */
    method Push(name: string, now: uint64) returns (o: PushOutcome)
      requires Valid()
      modifies this`activeDurationCount, activeDurations
      ensures Valid()
      ensures o == if old(durationCount) >= DURATION_CAP then TableFull
                   else if !active then NotActive
                   else if old(activeDurationCount) >= activeDurations.Length then StackOverflow
                   else Pushed
      ensures o != Pushed ==> activeDurationCount == old(activeDurationCount) && activeDurations[..] == old(activeDurations[..])
      ensures o == Pushed ==>
        fresh(activeDurations[old(activeDurationCount)]) && PushedAt(old(activeDurationCount), old(activeDurations[..]), name, now)
    {
      if durationCount >= DURATION_CAP {
        return TableFull;
      }
      if !active {
        return NotActive;
      }
      o := PushTop(name, now);
    }

    /** trace_duration_push with the guard on the stack it writes to. */
    method PushChecked(name: string, now: uint64) returns (o: PushOutcome)
      requires Valid()
      modifies this`activeDurationCount, activeDurations
      ensures Valid()
      ensures o == if old(activeDurationCount) >= DURATION_CAP then TableFull
                   else if !active then NotActive
                   else Pushed
      ensures o != Pushed ==> activeDurationCount == old(activeDurationCount) && activeDurations[..] == old(activeDurations[..])
      ensures o == Pushed ==>
        fresh(activeDurations[old(activeDurationCount)]) && PushedAt(old(activeDurationCount), old(activeDurations[..]), name, now)
    {
      if activeDurationCount >= DURATION_CAP {
        return TableFull;
      }
      if !active {
        return NotActive;
      }
      o := PushTop(name, now);
    }

    /** A fresh duration on top of the open stack, whose old top was `top`
        over the slots `before`. */
    ghost predicate PushedAt(top: nat, before: seq<Duration?>, name: string, now: uint64)
      reads this, activeDurations
      reads if top < activeDurations.Length && activeDurations[top] != null then {activeDurations[top]} else {}
    {
      top < activeDurations.Length && |before| == activeDurations.Length &&
      activeDurationCount == top + 1 &&
      activeDurations[top] != null && activeDurations[top].name == name && activeDurations[top].beginTime == now &&
      activeDurations[..] == before[top := activeDurations[top]]
    }

    /** The store shared by both pushes. */
    method PushTop(name: string, now: uint64) returns (o: PushOutcome)
      requires Valid()
      modifies this`activeDurationCount, activeDurations
      ensures Valid()
      ensures o == if old(activeDurationCount) >= activeDurations.Length then StackOverflow else Pushed
      ensures o != Pushed ==> activeDurationCount == old(activeDurationCount) && activeDurations[..] == old(activeDurations[..])
      ensures o == Pushed ==>
        fresh(activeDurations[old(activeDurationCount)]) && PushedAt(old(activeDurationCount), old(activeDurations[..]), name, now)
    {
      if activeDurationCount >= activeDurations.Length {
        return StackOverflow;
      }
      var d := new Duration(name, now);
      activeDurations[activeDurationCount] := d;
      activeDurationCount := activeDurationCount + 1;
      o := Pushed;
    }

    /** The slots trace_duration_pop may reach through a slot. */
    ghost function Open(): set<Duration>
      reads activeDurations
    {
      set i | 0 <= i < activeDurations.Length && activeDurations[i] != null :: activeDurations[i]
    }

    /** trace_duration_pop as written: it reads the slot at
        active_duration_count, one above the top of the stack, stamps it,
        copies it to durations[duration_count], clears
        active_durations[duration_count], and steps active_duration_count
        down and back up (in 64-bit arithmetic). Neither count changes. */
    method Pop(now: uint64) returns (o: PopOutcome)
      requires Valid()
      modifies this`activeDurationCount, durations, activeDurations, Open()
      ensures Valid()
      ensures durationCount == old(durationCount) && activeDurationCount == old(activeDurationCount)
      ensures o == if activeDurationCount >= activeDurations.Length then SlotOutOfBounds
                   else if old(activeDurations[activeDurationCount]) == null then NullSlot
                   else if durationCount >= durations.Length then TableOverflow
                   else Popped
      ensures o != Popped ==> durations[..] == old(durations[..]) && activeDurations[..] == old(activeDurations[..])
      ensures o == Popped ==>
        var d := old(activeDurations[activeDurationCount]);
        d.endTime == now &&
        durations[..] == old(durations[..])[durationCount := d] &&
        activeDurations[..] == old(activeDurations[..])[durationCount := null]
      ensures forall e :: e in old(Open()) && (o != Popped || e != old(activeDurations[activeDurationCount])) ==>
        e.endTime == old(e.endTime)
    {
      if activeDurationCount >= activeDurations.Length {
        return SlotOutOfBounds;
      }
      var temp := activeDurations[activeDurationCount];
      if temp == null {
        return NullSlot;
      }
      if durationCount >= durations.Length {
        return TableOverflow;
      }
      temp.endTime := now;
      durations[durationCount] := activeDurations[activeDurationCount];
      activeDurations[durationCount] := null;
      activeDurationCount := (activeDurationCount + TWO_64 - 1) % TWO_64;
      activeDurationCount := (activeDurationCount + 1) % TWO_64;
      o := Popped;
    }

    /** trace_duration_pop as evidently meant: the top of the stack is
        stamped, moved to the next free entry of durations, and both counts
        move by one. */
    method PopCorrected(now: uint64) returns (o: PopOutcome)
      requires Valid()
      modifies this`activeDurationCount, this`durationCount, durations, activeDurations, Open()
      ensures Valid()
      ensures o == if old(activeDurationCount) == 0 then StackEmpty
                   else if old(activeDurations[activeDurationCount - 1]) == null then NullSlot
                   else if old(durationCount) >= DURATION_CAP then TableOverflow
                   else Popped
      ensures o != Popped ==>
        durationCount == old(durationCount) && activeDurationCount == old(activeDurationCount) &&
        durations[..] == old(durations[..]) && activeDurations[..] == old(activeDurations[..])
      ensures o == Popped ==>
        var d := old(activeDurations[activeDurationCount - 1]);
        d.endTime == now &&
        activeDurationCount == old(activeDurationCount) - 1 && durationCount == old(durationCount) + 1 &&
        durations[..] == old(durations[..])[old(durationCount) := d] &&
        activeDurations[..] == old(activeDurations[..])[activeDurationCount := null]
      ensures forall e :: e in old(Open()) && (o != Popped || e != old(activeDurations[activeDurationCount - 1])) ==>
        e.endTime == old(e.endTime)
    {
      if activeDurationCount == 0 {
        return StackEmpty;
      }
      var top := activeDurationCount - 1;
      var temp := activeDurations[top];
      if temp == null {
        return NullSlot;
      }
      if durationCount >= DURATION_CAP {
        return TableOverflow;
      }
      temp.endTime := now;
      durations[durationCount] := temp;
      durationCount := durationCount + 1;
      activeDurations[top] := null;
      activeDurationCount := top;
      o := Popped;
    }
  }

  /** Push into a started tracer, then pop as written: the pop reads the
      slot above the duration just pushed, which holds nothing. */
  method PopAfterPush(name: string, t0: uint64, t1: uint64) returns (o: PopOutcome)
    ensures o == NullSlot
  {
    var t := new Tracer.Create();
    t.CaptureStart("trace.json");
    var pushed := t.Push(name, t0);
    o := t.Pop(t1);
  }

  /** Push into a started tracer, then pop as meant: the duration is closed
      at t1 and recorded as the first finished one, and the stack is empty
      again. */
  method PushThenPopCorrected(name: string, t0: uint64, t1: uint64)
    returns (o: PopOutcome, open: nat, finished: nat, recordedName: string, begin: uint64, end: uint64)
    ensures o == Popped && open == 0 && finished == 1
    ensures recordedName == name && begin == t0 && end == t1
  {
    var t := new Tracer.Create();
    t.CaptureStart("trace.json");
    var pushed := t.PushChecked(name, t0);
    o := t.PopCorrected(t1);
    open, finished := t.activeDurationCount, t.durationCount;
    var d := t.durations[0];
    recordedName, begin, end := d.name, d.beginTime, d.endTime;
  }

  /** Fill the open stack of a started tracer with `DURATION_CAP` pushes.
      Every push is accepted; the stack is then full. */
  method FillStack(t: Tracer, now: uint64)
    requires t.Valid() && t.active && t.activeDurationCount == 0 && t.durationCount == 0
    modifies t`activeDurationCount, t.activeDurations
    ensures t.Valid() && t.active && t.activeDurationCount == DURATION_CAP && t.durationCount == 0
  {
    var i := 0;
    while i < DURATION_CAP
      invariant 0 <= i <= DURATION_CAP
      invariant t.Valid() && t.activeDurationCount == i && t.durationCount == 0
    {
      var pushed := t.PushChecked("frame", now);
      i := i + 1;
    }
  }

  /** As written, the push guard lets a started tracer take a 101st push:
      the store would land past the end of active_durations. */
  method PushPastCapacity(now: uint64) returns (o: PushOutcome)
    ensures o == StackOverflow
  {
    var t := new Tracer.Create();
    t.CaptureStart("trace.json");
    FillStack(t, now);
    o := t.Push("frame", now);
  }

  /** With the guard on the stack, the 101st push is refused. */
  method PushPastCapacityChecked(now: uint64) returns (o: PushOutcome)
    ensures o == TableFull
  {
    var t := new Tracer.Create();
    t.CaptureStart("trace.json");
    FillStack(t, now);
    o := t.PushChecked("frame", now);
  }

  /** A push after trace_capture_stop is refused and leaves the stack empty. */
  method PushAfterStop(name: string, now: uint64) returns (o: PushOutcome, open: nat)
    ensures o == NotActive && open == 0
  {
    var t := new Tracer.Create();
    t.CaptureStart("trace.json");
    t.CaptureStop();
    o := t.Push(name, now);
    open := t.activeDurationCount;
  }
}
