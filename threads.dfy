/**
 * Haskell threads (TSOs) as the plugin finds and classifies them:
 * `all_tsos` and `running_tsos` (gdb-ghcrts.py:73-103), and the TSO
 * accessors `is_end`, `status` and `running` (gdb-ghcrts.py:114-147).
 * Target memory is a read-only map from a TSO's address to its fields.
 */
module Threads {
  import opened Common
  import opened Frames
  import Stack

  /** `what_next` values from rts/Constants.h. */
  const ThreadKilled: int := 3
  const ThreadComplete: int := 4
  /** The `why_blocked` value of a thread that is not blocked. */
  const NotBlocked: int := 0

  /** The fields of an `StgTSO` the plugin reads. */
  datatype Tso = Tso(id: int, whatNext: int, whyBlocked: int, link: int, globalLink: int, stack: Stack.StackObj)

  /** The fields of a capability the plugin reads: `run_queue_hd` and `r.rCurrentTSO`. */
  datatype Capability = Capability(runQueueHd: int, currentTso: int)

  /**
   * The runtime's state as the plugin sees it: the readable TSOs by address,
   * the `capabilities` array, the `threads` list head of each generation,
   * and the address of `stg_END_TSO_QUEUE_closure`.
   */
  datatype Rts = Rts(tsos: map<int, Tso>, capabilities: seq<Capability>, generations: seq<int>, endTso: int)

  /** Which link field a list follows: a run queue uses `_link`, a generation's list `global_link`. */
  datatype LinkKind = Link | GlobalLink

  function Next(t: Tso, kind: LinkKind): int {
    match kind
    case Link => t.link
    case GlobalLink => t.globalLink
  }

  /**
   * The TSOs a list walk yields, in order, and the memory fault that stopped
   * it, if any. A TSO whose fields cannot be read is yielded first: the
   * fault comes when its link is followed.
   */
  datatype Listing = Listing(tsos: seq<int>, fault: Option<Fault>)

  /**
   * The list from `p` ends, at the sentinel or at an unreadable TSO, within
   * `n` links. The plugin has no bound of its own; a cyclic list would make
   * it loop forever.
   */
  predicate EndsWithin(rts: Rts, p: int, kind: LinkKind, n: nat)
    decreases n
  {
    p == rts.endTso || p !in rts.tsos || (n > 0 && EndsWithin(rts, Next(rts.tsos[p], kind), kind, n - 1))
  }

  /**
   * One list as the `while t is not None and not t.is_end()` loop walks it:
   * `is_end` compares addresses with the sentinel, which is never yielded.
   */
  function Chain(rts: Rts, p: int, kind: LinkKind, n: nat): Listing
    requires EndsWithin(rts, p, kind, n)
    decreases n
  {
    if p == rts.endTso then Listing([], None)
    else if p !in rts.tsos then Listing([p], Some(MemoryError(p)))
    else
      var rest := Chain(rts, Next(rts.tsos[p], kind), kind, n - 1);
      Listing([p] + rest.tsos, rest.fault)
  }

  /** Several lists one after the other; a fault in one ends the whole walk. */
  function Chains(rts: Rts, heads: seq<int>, kind: LinkKind, n: nat): Listing
    requires forall k | 0 <= k < |heads| :: EndsWithin(rts, heads[k], kind, n)
    decreases |heads|
  {
    if heads == [] then Listing([], None)
    else
      var first := Chain(rts, heads[0], kind, n);
      if first.fault.Some? then first
      else
        var rest := Chains(rts, heads[1..], kind, n);
        Listing(first.tsos + rest.tsos, rest.fault)
  }

  function RunQueueHeads(caps: seq<Capability>): (heads: seq<int>)
    ensures |heads| == |caps|
    ensures forall k | 0 <= k < |caps| :: heads[k] == caps[k].runQueueHd
  {
    if caps == [] then [] else [caps[0].runQueueHd] + RunQueueHeads(caps[1..])
  }

  /** Every list `all_tsos` follows ends within `n` links. */
  predicate ListsEnd(rts: Rts, n: nat) {
    (forall k | 0 <= k < |rts.capabilities| :: EndsWithin(rts, rts.capabilities[k].runQueueHd, Link, n)) &&
    (forall k | 0 <= k < |rts.generations| :: EndsWithin(rts, rts.generations[k], GlobalLink, n))
  }

  /**
   * Reference definition of `all_tsos`: every capability's run queue, in
   * capability order, then every generation's thread list, in generation
   * order. A thread on a run queue is also on its generation's list and is
   * listed twice; the plugin does not remove duplicates.
   */
  function AllTsosSpec(rts: Rts, n: nat): Listing
    requires ListsEnd(rts, n)
  {
    var queues := Chains(rts, RunQueueHeads(rts.capabilities), Link, n);
    if queues.fault.Some? then queues
    else
      var gens := Chains(rts, rts.generations, GlobalLink, n);
      Listing(queues.tsos + gens.tsos, gens.fault)
  }

  /** The inner loop of `all_tsos`: follow one list to the sentinel. */
  method FollowList(rts: Rts, head: int, kind: LinkKind, ghost n: nat) returns (r: Listing)
    requires EndsWithin(rts, head, kind, n)
    ensures r == Chain(rts, head, kind, n)
  {
    var t := head;
    ghost var m := n;
    var out: seq<int> := [];
    while t != rts.endTso
      invariant EndsWithin(rts, t, kind, m)
      invariant Chain(rts, head, kind, n) ==
                Listing(out + Chain(rts, t, kind, m).tsos, Chain(rts, t, kind, m).fault)
      decreases m
    {
      if t !in rts.tsos {
        return Listing(out + [t], Some(MemoryError(t)));
      }
      ChainStep(rts, t, kind, m, out);
      out := out + [t];
      t := Next(rts.tsos[t], kind);
      m := m - 1;
    }
    assert out + [] == out;
    return Listing(out, None);
  }

  /** One link of a list that has not ended. */
  lemma ChainStep(rts: Rts, t: int, kind: LinkKind, m: nat, out: seq<int>)
    requires EndsWithin(rts, t, kind, m) && t != rts.endTso && t in rts.tsos
    ensures m > 0 && EndsWithin(rts, Next(rts.tsos[t], kind), kind, m - 1)
    ensures var rest := Chain(rts, Next(rts.tsos[t], kind), kind, m - 1);
            out + Chain(rts, t, kind, m).tsos == out + [t] + rest.tsos &&
            Chain(rts, t, kind, m).fault == rest.fault
  {
    var rest := Chain(rts, Next(rts.tsos[t], kind), kind, m - 1);
    assert Chain(rts, t, kind, m).tsos == [t] + rest.tsos;
    assert out + ([t] + rest.tsos) == out + [t] + rest.tsos;
  }

  /** The outer loops of `all_tsos` over one array of list heads. */
  method FollowLists(rts: Rts, heads: seq<int>, kind: LinkKind, ghost n: nat) returns (r: Listing)
    requires forall k | 0 <= k < |heads| :: EndsWithin(rts, heads[k], kind, n)
    ensures r == Chains(rts, heads, kind, n)
  {
    var out: seq<int> := [];
    var i := 0;
    while i < |heads|
      invariant 0 <= i <= |heads|
      invariant Chains(rts, heads, kind, n) ==
                Listing(out + Chains(rts, heads[i..], kind, n).tsos, Chains(rts, heads[i..], kind, n).fault)
    {
      var one := FollowList(rts, heads[i], kind, n);
      assert heads[i..][0] == heads[i] && heads[i..][1..] == heads[i + 1..];
      if one.fault.Some? {
        return Listing(out + one.tsos, one.fault);
      }
      out := out + one.tsos;
      i := i + 1;
    }
    assert out + [] == out;
    return Listing(out, None);
  }

  /** `all_tsos`, collected: run queues first, then generations. */
  method AllTsos(rts: Rts, ghost n: nat) returns (r: Listing)
    requires ListsEnd(rts, n)
    ensures r == AllTsosSpec(rts, n)
  {
    var heads := RunQueueHeads(rts.capabilities);
    var queues := FollowLists(rts, heads, Link, n);
    if queues.fault.Some? {
      return queues;
    }
    var gens := FollowLists(rts, rts.generations, GlobalLink, n);
    return Listing(queues.tsos + gens.tsos, gens.fault);
  }

  /** The sentinel is never yielded, and every yielded TSO but a faulting last one is readable. */
  lemma {:induction false} ChainShape(rts: Rts, p: int, kind: LinkKind, n: nat)
    requires EndsWithin(rts, p, kind, n)
    ensures var c := Chain(rts, p, kind, n);
            rts.endTso !in c.tsos &&
            (c.fault.Some? ==> c.tsos != [] && c.fault == Some(MemoryError(c.tsos[|c.tsos| - 1])) &&
                               c.tsos[|c.tsos| - 1] !in rts.tsos) &&
            (forall k | 0 <= k < |c.tsos| - 1 :: c.tsos[k] in rts.tsos) &&
            (c.fault.None? ==> forall k | 0 <= k < |c.tsos| :: c.tsos[k] in rts.tsos)
    decreases n
  {
    if p != rts.endTso && p in rts.tsos {
      var rest := Chain(rts, Next(rts.tsos[p], kind), kind, n - 1);
      ChainShape(rts, Next(rts.tsos[p], kind), kind, n - 1);
      var c := Chain(rts, p, kind, n);
      assert c.tsos == [p] + rest.tsos;
      assert forall k | 1 <= k < |c.tsos| :: c.tsos[k] == rest.tsos[k - 1];
    }
  }

  /** A list's walk does not depend on which sufficient bound is used to reason about it. */
  lemma {:induction false} ChainBoundIrrelevant(rts: Rts, p: int, kind: LinkKind, n: nat, m: nat)
    requires EndsWithin(rts, p, kind, n) && EndsWithin(rts, p, kind, m)
    ensures Chain(rts, p, kind, n) == Chain(rts, p, kind, m)
    decreases n
  {
    if p != rts.endTso && p in rts.tsos {
      ChainBoundIrrelevant(rts, Next(rts.tsos[p], kind), kind, n - 1, m - 1);
    }
  }

  /** A suffix of a walk is the walk from the TSO it starts at. */
  lemma {:induction false} ChainSuffix(rts: Rts, p: int, kind: LinkKind, n: nat, k: nat)
    requires EndsWithin(rts, p, kind, n)
    requires k < |Chain(rts, p, kind, n).tsos|
    ensures var c := Chain(rts, p, kind, n);
            exists m: nat :: m <= n && EndsWithin(rts, c.tsos[k], kind, m) &&
                             c.tsos[k..] == Chain(rts, c.tsos[k], kind, m).tsos
    decreases n
  {
    var c := Chain(rts, p, kind, n);
    if k == 0 {
      assert c.tsos[0..] == c.tsos;
      assert c.tsos[0] == p;
    } else {
      var q := Next(rts.tsos[p], kind);
      var rest := Chain(rts, q, kind, n - 1);
      assert c.tsos == [p] + rest.tsos;
      ChainSuffix(rts, q, kind, n - 1, k - 1);
      var m: nat :| m <= n - 1 && EndsWithin(rts, rest.tsos[k - 1], kind, m) &&
                    rest.tsos[k - 1..] == Chain(rts, rest.tsos[k - 1], kind, m).tsos;
      assert c.tsos[k] == rest.tsos[k - 1];
      assert c.tsos[k..] == rest.tsos[k - 1..];
      assert m <= n && EndsWithin(rts, c.tsos[k], kind, m) && c.tsos[k..] == Chain(rts, c.tsos[k], kind, m).tsos;
    }
  }

  /** A list that ends is not cyclic: no TSO is yielded twice by one walk. */
  lemma ChainDistinct(rts: Rts, p: int, kind: LinkKind, n: nat, i: nat, j: nat)
    requires EndsWithin(rts, p, kind, n)
    requires i < j < |Chain(rts, p, kind, n).tsos|
    ensures Chain(rts, p, kind, n).tsos[i] != Chain(rts, p, kind, n).tsos[j]
  {
    var c := Chain(rts, p, kind, n);
    if c.tsos[i] == c.tsos[j] {
      ChainSuffix(rts, p, kind, n, i);
      ChainSuffix(rts, p, kind, n, j);
      var mi: nat :| mi <= n && EndsWithin(rts, c.tsos[i], kind, mi) &&
                     c.tsos[i..] == Chain(rts, c.tsos[i], kind, mi).tsos;
      var mj: nat :| mj <= n && EndsWithin(rts, c.tsos[j], kind, mj) &&
                     c.tsos[j..] == Chain(rts, c.tsos[j], kind, mj).tsos;
      ChainBoundIrrelevant(rts, c.tsos[i], kind, mi, mj);
      assert false;
    }
  }

  /** The walks of `Chains` never yield the sentinel either. */
  lemma {:induction false} ChainsAvoidSentinel(rts: Rts, heads: seq<int>, kind: LinkKind, n: nat)
    requires forall k | 0 <= k < |heads| :: EndsWithin(rts, heads[k], kind, n)
    ensures rts.endTso !in Chains(rts, heads, kind, n).tsos
    decreases |heads|
  {
    if heads != [] {
      ChainShape(rts, heads[0], kind, n);
      if Chain(rts, heads[0], kind, n).fault.None? {
        ChainsAvoidSentinel(rts, heads[1..], kind, n);
      }
    }
  }

  /** `all_tsos` never yields `stg_END_TSO_QUEUE_closure`. */
  lemma AllTsosAvoidSentinel(rts: Rts, n: nat)
    requires ListsEnd(rts, n)
    ensures rts.endTso !in AllTsosSpec(rts, n).tsos
  {
    ChainsAvoidSentinel(rts, RunQueueHeads(rts.capabilities), Link, n);
    ChainsAvoidSentinel(rts, rts.generations, GlobalLink, n);
  }

  /** Reference definition of `running_tsos`: the non-null current TSOs, in capability order. */
  function CurrentTsos(caps: seq<Capability>): (r: seq<int>)
    ensures |r| <= |caps|
    ensures forall k | 0 <= k < |caps| && caps[k].currentTso != 0 :: caps[k].currentTso in r
    ensures forall x | x in r :: x != 0 && exists k | 0 <= k < |caps| :: caps[k].currentTso == x
  {
    if caps == [] then []
    else
      var rest := CurrentTsos(caps[1..]);
      assert forall k | 1 <= k < |caps| :: caps[k] == caps[1..][k - 1];
      if caps[0].currentTso == 0 then rest else [caps[0].currentTso] + rest
  }

  /** `running_tsos`, collected. */
  method RunningTsos(caps: seq<Capability>) returns (r: seq<int>)
    ensures r == CurrentTsos(caps)
  {
    r := [];
    var i := 0;
    while i < |caps|
      invariant 0 <= i <= |caps|
      invariant CurrentTsos(caps) == r + CurrentTsos(caps[i..])
    {
      CurrentTsosAt(caps, i, r);
      if caps[i].currentTso != 0 {
        r := r + [caps[i].currentTso];
      }
      i := i + 1;
    }
    assert caps[i..] == [];
  }

  /** One capability of the loop: its current TSO, if not null, then those of the capabilities after it. */
  lemma CurrentTsosAt(caps: seq<Capability>, i: nat, r: seq<int>)
    requires i < |caps|
    ensures caps[i].currentTso == 0 ==> r + CurrentTsos(caps[i..]) == r + CurrentTsos(caps[i + 1..])
    ensures caps[i].currentTso != 0 ==>
              r + CurrentTsos(caps[i..]) == (r + [caps[i].currentTso]) + CurrentTsos(caps[i + 1..])
  {
    assert caps[i..][0] == caps[i] && caps[i..][1..] == caps[i + 1..];
  }

  /** `TSO.why_str`: the label of each known `why_blocked` value. */
  function WhyStr(why: int): Option<string> {
    match why
    case 0 => Some("not blocked")
    case 1 => Some("waiting for MVar")
    case 2 => Some("waiting for black hole")
    case 3 => Some("waiting on read")
    case 4 => Some("waiting on write")
    case 5 => Some("sleep")
    case 6 => Some("blocked on STM")
    case 7 => Some("blocked on proc")
    case 10 => Some("blocked on ccall")
    case 11 => Some("blocked on interruptible ccall")
    case 12 => Some("throwto")
    case 13 => Some("migrating")
    case 14 => Some("waiting for MVar read")
    case _ => None
  }

  /**
   * What `TSO.status` reports: a label, or `status N` (`StatusCode(N)`) for a
   * `why_blocked` value the table does not know.
   */
  datatype Status = Killed | Completed | Label(text: string) | StatusCode(why: int)

  function StatusOf(t: Tso): (s: Status)
    ensures s == Killed <==> t.whatNext == ThreadKilled
    ensures s == Completed <==> t.whatNext == ThreadComplete
    ensures s.Label? <==> t.whatNext != ThreadKilled && t.whatNext != ThreadComplete && WhyStr(t.whyBlocked).Some?
    ensures s.Label? ==> WhyStr(t.whyBlocked) == Some(s.text)
    ensures s.StatusCode? <==> t.whatNext != ThreadKilled && t.whatNext != ThreadComplete && WhyStr(t.whyBlocked).None?
    ensures s.StatusCode? ==> s.why == t.whyBlocked
  {
    if t.whatNext == ThreadKilled then Killed
    else if t.whatNext == ThreadComplete then Completed
    else match WhyStr(t.whyBlocked)
      case Some(text) => Label(text)
      case None => StatusCode(t.whyBlocked)
  }

  /** `TSO.running`: it agrees with `status`, running exactly when the status reads "not blocked". */
  function Running(t: Tso): (r: bool)
    ensures r <==> StatusOf(t) == Label("not blocked")
  {
    if t.whatNext == ThreadKilled then false
    else if t.whatNext == ThreadComplete then false
    else t.whyBlocked == NotBlocked
  }

  /** A running thread is neither killed nor completed, and not blocked. */
  lemma RunningIffNotBlocked(t: Tso)
    ensures Running(t) <==> t.whatNext != ThreadKilled && t.whatNext != ThreadComplete && t.whyBlocked == NotBlocked
  {
  }
}
