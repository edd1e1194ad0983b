/**
 * The `info tsoprofile` command (gdb-ghcrts.py:44-71): one profile sample
 * per running thread, the names of its stack frames from the outermost to
 * the innermost, joined by `;` after `PROFILE;`. Flags: `-v` keeps runtime
 * frames (`stg_…`) and unresolved ones (`??`); `-u` drops a name equal to
 * the previous kept one.
 */
module Profile {
  import opened Common
  import opened Frames
  import Stack
  import Threads
  import Resolve

  predicate StartsWith(s: string, prefix: string) {
    |prefix| <= |s| && s[..|prefix|] == prefix
  }

  /** Names left out of a sample unless `-v` is given. */
  predicate Skipped(f: string, verbose: bool) {
    !verbose && (f == "??" || StartsWith(f, "stg_"))
  }

  /**
   * The names the loop appends to `stack`, innermost frame first: skipped
   * names are not kept, and with `-u` neither is a name equal to the last
   * kept one (`prev`).
   */
  function Kept(names: seq<string>, verbose: bool, uniq: bool, prev: Option<string>): seq<string>
    decreases |names|
  {
    if names == [] then []
    else if Skipped(names[0], verbose) || (uniq && prev == Some(names[0])) then
      Kept(names[1..], verbose, uniq, prev)
    else [names[0]] + Kept(names[1..], verbose, uniq, Some(names[0]))
  }

  /** One step of Kept: the first name is dropped, or kept and remembered. */
  lemma KeptStep(names: seq<string>, verbose: bool, uniq: bool, prev: Option<string>)
    requires names != []
    ensures Skipped(names[0], verbose) || (uniq && prev == Some(names[0])) ==>
              Kept(names, verbose, uniq, prev) == Kept(names[1..], verbose, uniq, prev)
    ensures !(Skipped(names[0], verbose) || (uniq && prev == Some(names[0]))) ==>
              Kept(names, verbose, uniq, prev) == [names[0]] + Kept(names[1..], verbose, uniq, Some(names[0]))
  {
  }

  /** Without `-v`, no kept name is `??` or a runtime frame; every kept name is one of the walk's. */
  lemma {:induction false} KeptFiltered(names: seq<string>, verbose: bool, uniq: bool, prev: Option<string>)
    ensures var r := Kept(names, verbose, uniq, prev);
            |r| <= |names| &&
            forall k | 0 <= k < |r| :: r[k] in names && (!verbose ==> r[k] != "??" && !StartsWith(r[k], "stg_"))
    decreases |names|
  {
    if names != [] {
      KeptFiltered(names[1..], verbose, uniq, prev);
      KeptFiltered(names[1..], verbose, uniq, Some(names[0]));
      assert forall x | x in names[1..] :: x in names;
    }
  }

  function Reverse(s: seq<string>): (r: seq<string>)
    ensures |r| == |s| && forall k | 0 <= k < |s| :: r[k] == s[|s| - 1 - k]
  {
    if s == [] then [] else Reverse(s[1..]) + [s[0]]
  }

  /** `";".join(names)`. */
  function Join(names: seq<string>): string {
    if names == [] then ""
    else if |names| == 1 then names[0]
    else names[0] + ";" + Join(names[1..])
  }

  /** The sample line for a walk's names, innermost first. */
  function SampleText(names: seq<string>, verbose: bool, uniq: bool): string {
    "PROFILE;" + Join(Reverse(Kept(names, verbose, uniq, None)))
  }

  /** The loop of the command over one thread's frame names, then the reversal and the join. */
  method ProfileLine(names: seq<string>, verbose: bool, uniq: bool) returns (line: string)
    ensures line == SampleText(names, verbose, uniq)
  {
    var stack: seq<string> := [];
    var prev: Option<string> := None;
    var i := 0;
    while i < |names|
      invariant 0 <= i <= |names|
      invariant stack + Kept(names[i..], verbose, uniq, prev) == Kept(names, verbose, uniq, None)
    {
      var f := names[i];
      KeptAt(names, i, verbose, uniq, prev, stack);
      if !(!verbose && (f == "??" || StartsWith(f, "stg_"))) && !(uniq && prev == Some(f)) {
        stack := stack + [f];
        prev := Some(f);
      }
      i := i + 1;
    }
    assert stack + [] == stack;
    stack := Reverse(stack);
    line := "PROFILE;" + Join(stack);
  }

  /** KeptStep at position `i`, with the names kept so far in front. */
  lemma KeptAt(names: seq<string>, i: nat, verbose: bool, uniq: bool, prev: Option<string>, stack: seq<string>)
    requires i < |names|
    ensures var f := names[i];
            var drop := Skipped(f, verbose) || (uniq && prev == Some(f));
            (drop ==> stack + Kept(names[i..], verbose, uniq, prev) == stack + Kept(names[i + 1..], verbose, uniq, prev)) &&
            (!drop ==> stack + Kept(names[i..], verbose, uniq, prev) ==
                       (stack + [f]) + Kept(names[i + 1..], verbose, uniq, Some(f)))
  {
    assert names[i..][0] == names[i] && names[i..][1..] == names[i + 1..];
    KeptStep(names[i..], verbose, uniq, prev);
  }

  /** With `-u`, no two neighbouring names of a sample are equal. */
  lemma {:induction false} KeptNoAdjacentRepeats(names: seq<string>, verbose: bool, prev: Option<string>)
    ensures var r := Kept(names, verbose, true, prev);
            (r != [] && prev.Some? ==> r[0] != prev.value) &&
            forall k | 0 <= k < |r| - 1 :: r[k] != r[k + 1]
    decreases |names|
  {
    if names != [] {
      var f := names[0];
      KeptStep(names, verbose, true, prev);
      if Skipped(f, verbose) || prev == Some(f) {
        KeptNoAdjacentRepeats(names[1..], verbose, prev);
      } else {
        KeptNoAdjacentRepeats(names[1..], verbose, Some(f));
      }
    }
  }

  /** With `-v` and without `-u`, every name is kept. */
  lemma {:induction false} KeptEverything(names: seq<string>, prev: Option<string>)
    ensures Kept(names, true, false, prev) == names
    decreases |names|
  {
    if names != [] {
      KeptEverything(names[1..], Some(names[0]));
      KeptEverything(names[1..], prev);
      assert names == [names[0]] + names[1..];
    }
  }

  /** Reference definition of the filter: the names not skipped, in walk order. */
  function Filter(names: seq<string>, verbose: bool): seq<string>
    decreases |names|
  {
    if names == [] then []
    else if Skipped(names[0], verbose) then Filter(names[1..], verbose)
    else [names[0]] + Filter(names[1..], verbose)
  }

  /** Reference definition of `-u`: every run of equal neighbouring names folded to one. */
  function Collapse(s: seq<string>): seq<string>
    decreases |s|
  {
    if |s| <= 1 then s
    else if s[0] == s[1] then Collapse(s[1..])
    else [s[0]] + Collapse(s[1..])
  }

  /** A folded sequence starts with the first name of the unfolded one. */
  lemma {:induction false} CollapseHead(s: seq<string>)
    requires s != []
    ensures Collapse(s) != [] && Collapse(s)[0] == s[0]
    decreases |s|
  {
    if |s| > 1 && s[0] == s[1] {
      CollapseHead(s[1..]);
    }
  }

  /** `Collapse(s)` without a first name equal to `prev`. */
  function After(prev: Option<string>, s: seq<string>): seq<string> {
    if prev.Some? && s != [] && s[0] == prev.value then s[1..] else s
  }

  /** Without `-u`, the loop keeps exactly the names the filter lets through. */
  lemma {:induction false} KeptIsFilter(names: seq<string>, verbose: bool, prev: Option<string>)
    ensures Kept(names, verbose, false, prev) == Filter(names, verbose)
    decreases |names|
  {
    if names != [] {
      KeptStep(names, verbose, false, prev);
      KeptIsFilter(names[1..], verbose, prev);
      KeptIsFilter(names[1..], verbose, Some(names[0]));
    }
  }

  /** With `-u` and a last kept name `prev`, the loop keeps the folded filter, less a leading `prev`. */
  lemma {:induction false} KeptIsCollapseAfter(names: seq<string>, verbose: bool, prev: Option<string>)
    ensures Kept(names, verbose, true, prev) == After(prev, Collapse(Filter(names, verbose)))
    decreases |names|
  {
    if names != [] {
      var n := names[0];
      var rest := Filter(names[1..], verbose);
      KeptStep(names, verbose, true, prev);
      if Skipped(n, verbose) {
        KeptIsCollapseAfter(names[1..], verbose, prev);
      } else {
        assert Filter(names, verbose) == [n] + rest;
        var whole := [n] + rest;
        assert whole[1..] == rest;
        if rest != [] {
          CollapseHead(rest);
          assert whole[1] == rest[0];
        }
        CollapseHead(whole);
        if prev == Some(n) {
          KeptIsCollapseAfter(names[1..], verbose, prev);
        } else {
          KeptIsCollapseAfter(names[1..], verbose, Some(n));
          assert Collapse(whole) == [n] + After(Some(n), Collapse(rest));
        }
      }
    }
  }

  /**
   * The sample before its reversal: the names the filter lets through, and
   * with `-u` those with every run of equal neighbours folded to one.
   */
  lemma KeptIsSpec(names: seq<string>, verbose: bool)
    ensures Kept(names, verbose, false, None) == Filter(names, verbose)
    ensures Kept(names, verbose, true, None) == Collapse(Filter(names, verbose))
  {
    KeptIsFilter(names, verbose, None);
    KeptIsCollapseAfter(names, verbose, None);
  }

  /**
   * A sample lists the outermost frame first, and `-u` folds a run of equal
   * names: the innermost-first walk `[f, f, g, h]` is sampled as
   * `PROFILE;h;g;f` with `-u`, and as `PROFILE;h;g;f;f` without it.
   */
  lemma UniqFoldsRuns(f: string, g: string, h: string)
    requires f != g && g != h
    requires !Skipped(f, false) && !Skipped(g, false) && !Skipped(h, false)
    ensures SampleText([f, f, g, h], false, true) == "PROFILE;" + (h + ";" + (g + ";" + f))
    ensures SampleText([f, f, g, h], false, false) == "PROFILE;" + (h + ";" + (g + ";" + (f + ";" + f)))
  {
    FoldedRun(f, g, h);
    KeptEverythingUnlessSkipped([f, f, g, h]);
    JoinReversed4(f, f, g, h);
    JoinReversed3(f, g, h);
  }

  /** With `-u`, the repeated `f` of `[f, f, g, h]` is dropped. */
  lemma FoldedRun(f: string, g: string, h: string)
    requires f != g && g != h
    requires !Skipped(f, false) && !Skipped(g, false) && !Skipped(h, false)
    ensures Kept([f, f, g, h], false, true, None) == [f, g, h]
  {
    assert [f, f, g, h][1..] == [f, g, h];
    assert [f, g, h][1..] == [g, h];
    assert [g, h][1..] == [h];
    assert [h][1..] == [];
    KeptStep([h], false, true, Some(g));
    KeptStep([g, h], false, true, Some(f));
    KeptStep([f, g, h], false, true, Some(f));
    KeptStep([f, f, g, h], false, true, None);
  }

  /** A three-name sample, innermost first, joined outermost first. */
  lemma JoinReversed3(a: string, b: string, c: string)
    ensures Join(Reverse([a, b, c])) == c + ";" + (b + ";" + a)
  {
    assert Reverse([a, b, c]) == [c, b, a];
    assert [c, b, a][1..] == [b, a] && [b, a][1..] == [a];
    assert Join([b, a]) == b + ";" + a;
  }

  /** A four-name sample, innermost first, joined outermost first. */
  lemma JoinReversed4(a: string, b: string, c: string, d: string)
    ensures Join(Reverse([a, b, c, d])) == d + ";" + (c + ";" + (b + ";" + a))
  {
    assert Reverse([a, b, c, d]) == [d, c, b, a];
    assert [d, c, b, a][1..] == [c, b, a] && [c, b, a][1..] == [b, a] && [b, a][1..] == [a];
    assert Join([b, a]) == b + ";" + a;
    assert Join([c, b, a]) == c + ";" + (b + ";" + a);
  }

  /**
   * `-u` compares with the last kept name only: in the walk `[A, A, B, A]`
   * the second `A` goes and the last one stays, giving `PROFILE;A;B;A`;
   * without `-u` the reversed walk is `PROFILE;A;B;A;A`.
   */
  lemma UniqKeepsReturningNames()
    ensures SampleText(["A", "A", "B", "A"], false, true) == "PROFILE;A;B;A"
    ensures SampleText(["A", "A", "B", "A"], false, false) == "PROFILE;A;B;A;A"
  {
    NamesAB();
    UniqFoldsRuns("A", "B", "A");
    JoinedAB();
  }

  /** The two names of UniqKeepsReturningNames differ and are never skipped. */
  lemma NamesAB()
    ensures "A" != "B" && !Skipped("A", false) && !Skipped("B", false)
  {
  }

  /** The literal lines of UniqKeepsReturningNames. */
  lemma JoinedAB()
    ensures "PROFILE;" + ("A" + ";" + ("B" + ";" + "A")) == "PROFILE;A;B;A"
    ensures "PROFILE;" + ("A" + ";" + ("B" + ";" + ("A" + ";" + "A"))) == "PROFILE;A;B;A;A"
  {
  }

  /** Without `-u`, a walk whose names are never skipped is kept whole. */
  lemma {:induction false} KeptEverythingUnlessSkipped(names: seq<string>)
    requires forall k | 0 <= k < |names| :: names[k] != "??" && !StartsWith(names[k], "stg_")
    ensures forall prev: Option<string> :: Kept(names, false, false, prev) == names
    decreases |names|
  {
    if names != [] {
      assert forall k | 0 <= k < |names| - 1 :: names[1..][k] == names[k + 1];
      KeptEverythingUnlessSkipped(names[1..]);
      assert names == [names[0]] + names[1..];
    }
  }

  /** A line the command prints: a sample, or `error: …` for a memory fault at an address. */
  datatype Line = Sample(text: string) | ErrorLine(addr: int)

  /** What one running thread contributes: a line, or an exception that ends the command. */
  datatype Outcome = Printed(line: Line) | Aborted(fault: Fault)

  /** The pretty names of the frames, by their return addresses. */
  function FrameNames(host: Resolve.Host, mem: Memory, frames: seq<int>): (r: seq<string>)
    requires forall k | 0 <= k < |frames| :: frames[k] in mem.words
    ensures |r| == |frames|
  {
    if frames == [] then [] else [Resolve.Funcname(host, mem.words[frames[0]], true)] + FrameNames(host, mem, frames[1..])
  }

  /** The name of each frame is the pretty name of its return address. */
  lemma {:induction false} FrameNamesByIndex(host: Resolve.Host, mem: Memory, frames: seq<int>)
    requires forall k | 0 <= k < |frames| :: frames[k] in mem.words
    ensures forall k | 0 <= k < |frames| :: FrameNames(host, mem, frames)[k] == Resolve.Funcname(host, mem.words[frames[k]], true)
    decreases |frames|
  {
    if frames != [] {
      FrameNamesByIndex(host, mem, frames[1..]);
    }
  }

  /**
   * One thread of the command. A memory fault, while reading the thread or
   * walking its stack, prints `error:` instead of a sample; a frame kind the
   * walk refuses to size is not caught and ends the whole command.
   */
  function ThreadOutcome(host: Resolve.Host, rts: Threads.Rts, mem: Memory, t: int, verbose: bool, uniq: bool): Outcome
    requires mem.retFunWords > 0
  {
    if t !in rts.tsos then Printed(ErrorLine(t))
    else
      var w := Stack.WalkFrom(mem, rts.tsos[t].stack.sp, Stack.Top(rts.tsos[t].stack));
      match w.fault
      case Some(MemoryError(a)) => Printed(ErrorLine(a))
      case Some(NotImplemented(k)) => Aborted(NotImplemented(k))
      case None =>
        WalkFramesReadable(mem, rts.tsos[t].stack);
        Printed(Sample(SampleText(FrameNames(host, mem, w.frames), verbose, uniq)))
  }

  /** A walk without a fault read the return address of every frame it yielded. */
  lemma WalkFramesReadable(mem: Memory, st: Stack.StackObj)
    requires mem.retFunWords > 0
    ensures var w := Stack.WalkFrom(mem, st.sp, Stack.Top(st));
            w.fault.None? ==> forall k | 0 <= k < |w.frames| :: w.frames[k] in mem.words
  {
    var w := Stack.WalkFrom(mem, st.sp, Stack.Top(st));
    Stack.WalkFrames(mem, st.sp, Stack.Top(st));
    Stack.WalkEnd(mem, st.sp, Stack.Top(st));
    if w.fault.None? {
      forall k | 0 <= k < |w.frames|
        ensures w.frames[k] in mem.words
      {
        assert FrameSize(mem, w.frames[k]).Ok?;
      }
    }
  }

  /** The lines the command prints for the given threads, and the exception that ended it, if any. */
  datatype Output = Output(lines: seq<Line>, aborted: Option<Fault>)

  function ProfileSpec(host: Resolve.Host, rts: Threads.Rts, mem: Memory, threads: seq<int>, verbose: bool, uniq: bool): Output
    requires mem.retFunWords > 0
    decreases |threads|
  {
    if threads == [] then Output([], None)
    else match ThreadOutcome(host, rts, mem, threads[0], verbose, uniq)
      case Aborted(f) => Output([], Some(f))
      case Printed(line) =>
        var rest := ProfileSpec(host, rts, mem, threads[1..], verbose, uniq);
        Output([line] + rest.lines, rest.aborted)
  }

  /** The lines already printed, in front of what the remaining threads print. */
  function Prepend(lines: seq<Line>, out: Output): Output {
    Output(lines + out.lines, out.aborted)
  }

  /**
   * One step of ProfileSpec at thread `i`, with the lines of the threads
   * before it printed: an exception ends the output there; a line is added
   * and the remaining threads follow.
   */
  lemma ProfileSpecStep(host: Resolve.Host, rts: Threads.Rts, mem: Memory, threads: seq<int>, verbose: bool, uniq: bool,
                        i: nat, lines: seq<Line>, outcome: Outcome)
    requires mem.retFunWords > 0 && i < |threads|
    requires ProfileSpec(host, rts, mem, threads, verbose, uniq) ==
             Prepend(lines, ProfileSpec(host, rts, mem, threads[i..], verbose, uniq))
    requires outcome == ThreadOutcome(host, rts, mem, threads[i], verbose, uniq)
    ensures outcome.Aborted? ==> ProfileSpec(host, rts, mem, threads, verbose, uniq) == Output(lines, Some(outcome.fault))
    ensures outcome.Printed? ==>
              ProfileSpec(host, rts, mem, threads, verbose, uniq) ==
              Prepend(lines + [outcome.line], ProfileSpec(host, rts, mem, threads[i + 1..], verbose, uniq))
  {
    assert threads[i..][0] == threads[i] && threads[i..][1..] == threads[i + 1..];
    if outcome.Printed? {
      var rest := ProfileSpec(host, rts, mem, threads[i + 1..], verbose, uniq);
      assert lines + ([outcome.line] + rest.lines) == lines + [outcome.line] + rest.lines;
    } else {
      assert lines + [] == lines;
    }
  }

  /** A command that is not aborted prints exactly one line per running thread. */
  lemma {:induction false} OneLinePerThread(host: Resolve.Host, rts: Threads.Rts, mem: Memory, threads: seq<int>, verbose: bool, uniq: bool)
    requires mem.retFunWords > 0
    ensures var out := ProfileSpec(host, rts, mem, threads, verbose, uniq);
            (out.aborted.None? ==> |out.lines| == |threads|) && |out.lines| <= |threads|
    decreases |threads|
  {
    if threads != [] {
      OneLinePerThread(host, rts, mem, threads[1..], verbose, uniq);
    }
  }

  /**
   * `InfoTsoProfile.invoke`: for each running thread, walk its stack, name
   * each frame through the cache and print the sample. The cache keeps
   * every entry it had and gains only names `funcname` gives.
   */
  method InfoTsoProfile(cache: Resolve.FuncnameCache, rts: Threads.Rts, mem: Memory, verbose: bool, uniq: bool)
    returns (out: Output)
    requires mem.retFunWords > 0 && cache.Valid()
    modifies cache
    ensures cache.Valid() && old(cache.cache).Keys <= cache.cache.Keys
    ensures out == ProfileSpec(cache.host, rts, mem, Threads.CurrentTsos(rts.capabilities), verbose, uniq)
  {
    var threads := Threads.RunningTsos(rts.capabilities);
    var lines: seq<Line> := [];
    var i := 0;
    while i < |threads|
      invariant 0 <= i <= |threads|
      invariant cache.Valid() && old(cache.cache).Keys <= cache.cache.Keys
      invariant ProfileSpec(cache.host, rts, mem, threads, verbose, uniq) ==
                Prepend(lines, ProfileSpec(cache.host, rts, mem, threads[i..], verbose, uniq))
    {
      var outcome := SampleThread(cache, rts, mem, threads[i], verbose, uniq);
      ProfileSpecStep(cache.host, rts, mem, threads, verbose, uniq, i, lines, outcome);
      if outcome.Aborted? {
        return Output(lines, Some(outcome.fault));
      }
      lines := lines + [outcome.line];
      i := i + 1;
    }
    assert lines + [] == lines;
    return Output(lines, None);
  }

  /** How many frames, from the first, have a readable return address. */
  function ReadablePrefix(mem: Memory, frames: seq<int>): (n: nat)
    ensures n <= |frames|
    ensures forall j | 0 <= j < n :: frames[j] in mem.words
    ensures n < |frames| ==> frames[n] !in mem.words
  {
    if frames == [] || frames[0] !in mem.words then 0 else 1 + ReadablePrefix(mem, frames[1..])
  }

  /** The return addresses of the first `k` frames. */
  function Pcs(mem: Memory, frames: seq<int>, k: nat): set<int>
    requires k <= |frames| && forall j | 0 <= j < k :: frames[j] in mem.words
  {
    set j | 0 <= j < k :: mem.words[frames[j]]
  }

  /** The return addresses the command names, and so caches, for a thread's frames. */
  function NamedPcs(mem: Memory, frames: seq<int>): set<int> {
    Pcs(mem, frames, ReadablePrefix(mem, frames))
  }

  /** One more frame adds its return address. */
  lemma PcsStep(mem: Memory, frames: seq<int>, k: nat)
    requires k < |frames| && forall j | 0 <= j <= k :: frames[j] in mem.words
    ensures Pcs(mem, frames, k + 1) == Pcs(mem, frames, k) + {mem.words[frames[k]]}
  {
    assert forall x | x in Pcs(mem, frames, k + 1) :: x in Pcs(mem, frames, k) + {mem.words[frames[k]]};
  }

  /** The readable prefix is the one whose next frame, if any, is unreadable. */
  lemma ReadablePrefixIs(mem: Memory, frames: seq<int>, k: nat)
    requires k <= |frames| && forall j | 0 <= j < k :: frames[j] in mem.words
    requires k < |frames| ==> frames[k] !in mem.words
    ensures ReadablePrefix(mem, frames) == k
  {
  }

  /**
   * The names of the yielded frames, through the cache, in walk order. A
   * frame whose return address cannot be read raises before it is named,
   * so naming stops at the first such frame. The cache gains exactly the
   * return addresses named and loses nothing.
   */
  method NameFrames(cache: Resolve.FuncnameCache, mem: Memory, frames: seq<int>) returns (names: seq<string>)
    requires cache.Valid()
    modifies cache
    ensures cache.Valid()
    ensures |names| == ReadablePrefix(mem, frames)
    ensures names == FrameNames(cache.host, mem, frames[..|names|])
    ensures cache.cache.Keys == old(cache.cache).Keys + NamedPcs(mem, frames)
  {
    names := [];
    var k := 0;
    while k < |frames|
      invariant 0 <= k <= |frames| && forall j | 0 <= j < k :: frames[j] in mem.words
      invariant cache.Valid()
      invariant names == FrameNames(cache.host, mem, frames[..k])
      invariant cache.cache.Keys == old(cache.cache).Keys + Pcs(mem, frames, k)
    {
      if frames[k] !in mem.words {
        break;
      }
      PcsStep(mem, frames, k);
      FrameNamesSnoc(cache.host, mem, frames, k);
      var f := cache.CachedFuncname(mem.words[frames[k]]);
      names := names + [f];
      k := k + 1;
    }
    ReadablePrefixIs(mem, frames, k);
  }

  /** Naming one more frame appends the pretty name of its return address. */
  lemma {:induction false} FrameNamesSnoc(host: Resolve.Host, mem: Memory, frames: seq<int>, k: nat)
    requires k < |frames| && forall j | 0 <= j <= k :: frames[j] in mem.words
    ensures FrameNames(host, mem, frames[..k + 1]) ==
            FrameNames(host, mem, frames[..k]) + [Resolve.Funcname(host, mem.words[frames[k]], true)]
    decreases k
  {
    if k == 0 {
      assert frames[..1] == [frames[0]] && frames[..0] == [];
      assert frames[..1][1..] == [];
    } else {
      assert frames[..k + 1][1..] == frames[1..][..k];
      assert frames[..k][1..] == frames[1..][..k - 1];
      FrameNamesSnoc(host, mem, frames[1..], k - 1);
    }
  }

  /** The body of the command's loop for one thread. */
  method SampleThread(cache: Resolve.FuncnameCache, rts: Threads.Rts, mem: Memory, t: int, verbose: bool, uniq: bool)
    returns (outcome: Outcome)
    requires mem.retFunWords > 0 && cache.Valid()
    modifies cache
    ensures cache.Valid()
    ensures outcome == ThreadOutcome(cache.host, rts, mem, t, verbose, uniq)
    ensures t !in rts.tsos ==> cache.cache == old(cache.cache)
    ensures t in rts.tsos ==>
              var st := rts.tsos[t].stack;
              cache.cache.Keys == old(cache.cache).Keys + NamedPcs(mem, Stack.WalkFrom(mem, st.sp, Stack.Top(st)).frames)
  {
    if t !in rts.tsos {
      return Printed(ErrorLine(t));
    }
    var st := rts.tsos[t].stack;
    var w := Stack.WalkStack(mem, st);
    var names := NameFrames(cache, mem, w.frames);
    match w.fault {
      case Some(MemoryError(a)) =>
        return Printed(ErrorLine(a));
      case Some(NotImplemented(kind)) =>
        return Aborted(NotImplemented(kind));
      case None =>
        WalkFramesReadable(mem, st);
        assert w.frames[..|names|] == w.frames;
        var line := ProfileLine(names, verbose, uniq);
        return Printed(Sample(line));
    }
  }
}
