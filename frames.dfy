/**
 * Stack frames of a Haskell thread as the plugin reads them: a frame starts
 * with its return address, and the return-info table that describes the
 * frame sits immediately before the code that address points to (GHC built
 * with TABLES_NEXT_TO_CODE, gdb-ghcrts.py:24). `Closure.frame_size`
 * (gdb-ghcrts.py:279-292) follows the RTS's `stack_frame_sizeW` for 64-bit
 * targets.
 */
module Frames {

  /** Closure types from rts/storage/ClosureTypes.h that the frame rule distinguishes. */
  const RET_BCO: int := 29
  const RET_BIG: int := 31
  const RET_FUN: int := 32

  /**
   * What can go wrong while reading a frame: a read of memory gdb cannot
   * access (`gdb.MemoryError`), or a frame kind the plugin refuses to size
   * (`NotImplementedError("barf")`).
   */
  datatype Fault = MemoryError(addr: int) | NotImplemented(kind: int)

  datatype Result<T> = Ok(value: T) | Err(fault: Fault)

  /**
   * The part of a return-info table the plugin uses: the closure type and
   * the small layout bitmap, an unsigned machine word.
   */
  datatype RetInfo = RetInfo(typ: int, bitmap: nat)

  /**
   * Read-only target memory. `words` holds the words that can be read;
   * `retInfo` maps a return address to the return-info table just before the
   * code it points to (the `- 1` of gdb-ghcrts.py:301); `retFunWords` is
   * `sizeof(StgRetFun)` in words, the header of a RET_FUN frame.
   */
  datatype Memory = Memory(words: map<int, nat>, retInfo: map<int, RetInfo>, retFunWords: nat)

  /** `Closure.pc`: the frame's first word, its return address. */
  function Pc(mem: Memory, sp: int): (r: Result<nat>)
    ensures r.Ok? <==> sp in mem.words
    ensures r.Ok? ==> r.value == mem.words[sp]
    ensures r.Err? ==> r.fault == MemoryError(sp)
  {
    if sp in mem.words then Ok(mem.words[sp]) else Err(MemoryError(sp))
  }

  /** `Closure.retinfo`: the return-info table of the frame at `sp`. */
  function RetInfoOf(mem: Memory, sp: int): (r: Result<RetInfo>)
    ensures r.Ok? <==> sp in mem.words && mem.words[sp] in mem.retInfo
    ensures r.Ok? ==> r.value == mem.retInfo[mem.words[sp]]
    ensures r.Err? && sp !in mem.words ==> r.fault == MemoryError(sp)
    ensures r.Err? && sp in mem.words ==> r.fault == MemoryError(mem.words[sp])
  {
    match Pc(mem, sp)
    case Err(e) => Err(e)
    case Ok(pc) => if pc in mem.retInfo then Ok(mem.retInfo[pc]) else Err(MemoryError(pc))
  }

  /**
   * The size of a small-bitmap frame: the header word plus the bitmap's low
   * six bits (`bitmap & 0x3f`, which for an unsigned word is its remainder
   * by 64).
   */
  function SmallFrameSize(bitmap: nat): (n: nat)
    ensures 1 <= n <= 64
  {
    1 + bitmap % 64
  }

  /**
   * The frame rule of `Closure.frame_size` as the RTS's `stack_frame_sizeW`
   * defines it: a RET_FUN frame spans its header and the `size` field stored
   * in the frame's second word; RET_BIG and RET_BCO frames are refused; every
   * other kind is sized from its small bitmap. The plugin's RET_FUN branch
   * reads `size` elsewhere (FrameSizeAsWritten); the rest of the model uses
   * this rule.
   */
  function FrameSize(mem: Memory, sp: int): (r: Result<nat>)
    ensures r.Ok? && mem.retFunWords > 0 ==> r.value > 0
    ensures r.Ok? <==> (RetInfoOf(mem, sp).Ok? && RetInfoOf(mem, sp).value.typ != RET_BIG &&
                        RetInfoOf(mem, sp).value.typ != RET_BCO &&
                        (RetInfoOf(mem, sp).value.typ == RET_FUN ==> sp + 1 in mem.words))
  {
    match RetInfoOf(mem, sp)
    case Err(e) => Err(e)
    case Ok(info) =>
      if info.typ == RET_FUN then
        if sp + 1 in mem.words then Ok(mem.retFunWords + mem.words[sp + 1])
        else Err(MemoryError(sp + 1))
      else if info.typ == RET_BIG then Err(NotImplemented(RET_BIG))
      else if info.typ == RET_BCO then Err(NotImplemented(RET_BCO))
      else Ok(SmallFrameSize(info.bitmap))
  }

  /**
   * The frame rule kind by kind: what a frame of each kind measures, or
   * which fault it raises.
   */
  lemma FrameSizeByKind(mem: Memory, sp: int)
    requires RetInfoOf(mem, sp).Ok?
    ensures var info := RetInfoOf(mem, sp).value;
            var r := FrameSize(mem, sp);
            if info.typ == RET_FUN then
              r == if sp + 1 in mem.words then Ok(mem.retFunWords + mem.words[sp + 1]) else Err(MemoryError(sp + 1))
            else if info.typ == RET_BIG || info.typ == RET_BCO then
              r == Err(NotImplemented(info.typ))
            else
              r.Ok? && 1 <= r.value <= 64 && r.value == 1 + info.bitmap % 64
  {
  }

  /**
   * `Closure.frame_size` as gdb-ghcrts.py:284 is written: `self.obj` is the
   * frame's `StgClosure` struct, not its address, and casting it to
   * `StgRetFun*` yields its first word, the return address. So the `size`
   * field is read from the word after the return address, inside the code,
   * and an unreadable word faults there. Every other branch is FrameSize's.
   */
  function FrameSizeAsWritten(mem: Memory, sp: int): (r: Result<nat>)
    ensures RetInfoOf(mem, sp).Err? || RetInfoOf(mem, sp).value.typ != RET_FUN ==> r == FrameSize(mem, sp)
    ensures RetInfoOf(mem, sp).Ok? && RetInfoOf(mem, sp).value.typ == RET_FUN ==>
              var pc := mem.words[sp];
              r == if pc + 1 in mem.words then Ok(mem.retFunWords + mem.words[pc + 1]) else Err(MemoryError(pc + 1))
  {
    match RetInfoOf(mem, sp)
    case Err(e) => Err(e)
    case Ok(info) =>
      if info.typ == RET_FUN then
        var pc := mem.words[sp];
        if pc + 1 in mem.words then Ok(mem.retFunWords + mem.words[pc + 1])
        else Err(MemoryError(pc + 1))
      else FrameSize(mem, sp)
  }

  /**
   * For a readable RET_FUN frame, the plugin's size agrees with the RTS's
   * exactly when the word after the return address happens to equal the
   * frame's own `size` field.
   */
  lemma AsWrittenAgreesOnlyByChance(mem: Memory, sp: int)
    requires RetInfoOf(mem, sp).Ok? && RetInfoOf(mem, sp).value.typ == RET_FUN
    requires sp + 1 in mem.words && mem.words[sp] + 1 in mem.words
    ensures FrameSizeAsWritten(mem, sp) == FrameSize(mem, sp) <==> mem.words[mem.words[sp] + 1] == mem.words[sp + 1]
  {
    FrameSizeByKind(mem, sp);
  }

  /**
   * A RET_FUN frame at address 100 with return address 500 and `size` 3,
   * whose code word after the return address reads 7: the RTS sizes it at
   * header + 3 words, the plugin at header + 7.
   */
  lemma RetFunSizeMisread()
    ensures var mem := Memory(map[100 := 500, 101 := 3, 501 := 7], map[500 := RetInfo(RET_FUN, 0)], 3);
            FrameSize(mem, 100) == Ok(6) && FrameSizeAsWritten(mem, 100) == Ok(10)
  {
    var mem := Memory(map[100 := 500, 101 := 3, 501 := 7], map[500 := RetInfo(RET_FUN, 0)], 3);
    assert RetInfoOf(mem, 100) == Ok(RetInfo(RET_FUN, 0));
  }

  /** Bits of the bitmap above the low six do not change the size of a small frame. */
  lemma SmallFrameSizeIgnoresHighBits(b: nat, k: nat)
    ensures SmallFrameSize(b + 64 * k) == SmallFrameSize(b)
  {
    assert (b + 64 * k) % 64 == b % 64 by {
      ModuloShift(b, k);
    }
  }

  lemma {:induction false} ModuloShift(b: nat, k: nat)
    ensures (b + 64 * k) % 64 == b % 64
  {
    if k > 0 {
      ModuloShift(b, k - 1);
      assert b + 64 * k == (b + 64 * (k - 1)) + 64;
    }
  }
}
