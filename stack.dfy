/**
 * `TSO.walk_stack` (gdb-ghcrts.py:149-159): a cursor starts at the stack
 * pointer and moves up by one frame size at a time, yielding each frame,
 * until it reaches the end of the stack object (`stack + stack_size`).
 * Addresses count words, as the plugin's `StgWord` pointers do.
 */
module Stack {
  import opened Common
  import opened Frames

  /** The fields of a thread's `StgStack` the walk reads. */
  datatype StackObj = StackObj(sp: int, base: int, size: nat)

  function Top(st: StackObj): int {
    st.base + st.size
  }

  /**
   * The frames a walk yields, in order, and the fault that ended it early,
   * if any. The generator yields a frame before it asks for the frame's
   * size, so the frame whose size could not be read is the last one yielded.
   */
  datatype Walk = Walk(frames: seq<int>, fault: Option<Fault>)

  /** Reference definition of the walk from cursor `sp` up to `top`. */
  function WalkFrom(mem: Memory, sp: int, top: int): Walk
    requires mem.retFunWords > 0
    decreases top - sp
  {
    if sp >= top then Walk([], None)
    else match FrameSize(mem, sp)
      case Err(e) => Walk([sp], Some(e))
      case Ok(n) =>
        var rest := WalkFrom(mem, sp + n, top);
        Walk([sp] + rest.frames, rest.fault)
  }

  /**
   * The walk as the plugin runs it. A RET_FUN frame whose header counts no
   * words could make the cursor stand still, so the header size is
   * required to be positive.
   */
  method WalkStack(mem: Memory, st: StackObj) returns (w: Walk)
    requires mem.retFunWords > 0
    ensures w == WalkFrom(mem, st.sp, Top(st))
  {
    var top := Top(st);
    var sp := st.sp;
    var frames: seq<int> := [];
    while sp < top
      invariant WalkFrom(mem, st.sp, top) ==
                Walk(frames + WalkFrom(mem, sp, top).frames, WalkFrom(mem, sp, top).fault)
      decreases top - sp
    {
      var size := FrameSize(mem, sp);
      WalkStep(mem, sp, top);
      if size.Err? {
        return Walk(frames + [sp], Some(size.fault));
      }
      assert frames + ([sp] + WalkFrom(mem, sp + size.value, top).frames) ==
             frames + [sp] + WalkFrom(mem, sp + size.value, top).frames;
      frames := frames + [sp];
      sp := sp + size.value;
    }
    assert frames + [] == frames;
    return Walk(frames, None);
  }

  /** One step of the walk below the top: the frame is yielded, then sized. */
  lemma WalkStep(mem: Memory, sp: int, top: int)
    requires mem.retFunWords > 0 && sp < top
    ensures FrameSize(mem, sp).Err? ==> WalkFrom(mem, sp, top) == Walk([sp], Some(FrameSize(mem, sp).fault))
    ensures FrameSize(mem, sp).Ok? ==>
              var rest := WalkFrom(mem, sp + FrameSize(mem, sp).value, top);
              WalkFrom(mem, sp, top) == Walk([sp] + rest.frames, rest.fault)
  {
  }

  /**
   * The walk's frames: the first is at the stack pointer, each next one is
   * the previous one plus its frame size, and every one lies below the top.
   */
  lemma {:induction false} WalkFrames(mem: Memory, sp: int, top: int)
    requires mem.retFunWords > 0
    ensures var w := WalkFrom(mem, sp, top);
            (sp < top <==> w.frames != []) &&
            (w.frames != [] ==> w.frames[0] == sp) &&
            (forall k | 0 <= k < |w.frames| :: sp <= w.frames[k] < top) &&
            (forall k | 0 <= k < |w.frames| - 1 ::
               FrameSize(mem, w.frames[k]).Ok? &&
               w.frames[k + 1] == w.frames[k] + FrameSize(mem, w.frames[k]).value)
    decreases top - sp
  {
    if sp < top && FrameSize(mem, sp).Ok? {
      var n := FrameSize(mem, sp).value;
      WalkFrames(mem, sp + n, top);
      var rest := WalkFrom(mem, sp + n, top).frames;
      var frames := WalkFrom(mem, sp, top).frames;
      assert frames == [sp] + rest;
      forall k | 0 <= k < |frames| - 1
        ensures FrameSize(mem, frames[k]).Ok? && frames[k + 1] == frames[k] + FrameSize(mem, frames[k]).value
      {
        if k > 0 {
          assert frames[k] == rest[k - 1] && frames[k + 1] == rest[k];
        }
      }
    }
  }

  /** Frame addresses strictly increase, so no frame is yielded twice. */
  lemma {:induction false} WalkIncreasing(mem: Memory, sp: int, top: int, i: int, j: int)
    requires mem.retFunWords > 0
    requires 0 <= i < j < |WalkFrom(mem, sp, top).frames|
    ensures WalkFrom(mem, sp, top).frames[i] < WalkFrom(mem, sp, top).frames[j]
    decreases j - i
  {
    WalkFrames(mem, sp, top);
    var frames := WalkFrom(mem, sp, top).frames;
    if j > i + 1 {
      WalkIncreasing(mem, sp, top, i, j - 1);
    }
    assert frames[j] == frames[j - 1] + FrameSize(mem, frames[j - 1]).value;
  }

  /**
   * How the walk ends: without a fault, the cursor after the last frame is
   * at or past the top; with one, that fault is what sizing the last frame
   * raised.
   */
  lemma {:induction false} WalkEnd(mem: Memory, sp: int, top: int)
    requires mem.retFunWords > 0
    ensures var w := WalkFrom(mem, sp, top);
            (w.fault.Some? ==> w.frames != []) &&
            (w.frames != [] ==>
               var last := w.frames[|w.frames| - 1];
               (w.fault.None? ==> FrameSize(mem, last).Ok? && last + FrameSize(mem, last).value >= top) &&
               (w.fault.Some? ==> FrameSize(mem, last) == Err(w.fault.value)))
    decreases top - sp
  {
    if sp < top && FrameSize(mem, sp).Ok? {
      var n := FrameSize(mem, sp).value;
      WalkEnd(mem, sp + n, top);
      var rest := WalkFrom(mem, sp + n, top).frames;
      assert WalkFrom(mem, sp, top).frames == [sp] + rest;
      if rest == [] {
        assert sp + n >= top by {
          WalkFrames(mem, sp + n, top);
        }
      }
    }
  }
}
