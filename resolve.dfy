/**
 * Finding the Haskell function a return address belongs to:
 * `Closure.funcname` and its helpers `pc_funcname`, `block_funcname` and
 * `guess_funcname`, and the memo table of `Closure.cached_funcname`
 * (gdb-ghcrts.py:197-243, 313-360). What gdb knows about the program's
 * symbols and debug information is given as data (`Host`).
 */
module Resolve {
  import opened Common
  import Names

  /** A lexical block of the debug information: its function, if any, and the enclosing block. */
  datatype Block = Block(func: Option<string>, superblock: Option<Block>)

  /**
   * One line-table row: its line and the name of the function of the block
   * that holds the row's address (`None` when gdb has no such block or
   * function).
   */
  datatype LineEntry = LineEntry(line: int, func: Option<string>)

  /** What `gdb.find_pc_line` tells about an address whose symbol table is known. */
  datatype PcLine = PcLine(line: int, table: seq<LineEntry>)

  /**
   * gdb's view of the program. `blockForPc` holds the addresses for which
   * `gdb.block_for_pc` returns a block (a missing address raises or gives
   * `None`); `infoSymbol` the output of `info symbol` for the addresses for
   * which the command succeeds; `lines` the addresses `find_pc_line` finds
   * a symbol table for.
   */
  datatype Host = Host(blockForPc: map<int, Block>, infoSymbol: map<int, string>, lines: map<int, PcLine>)

  /** Python's `sub in s` for strings. */
  predicate Occurs(sub: string, s: string)
    decreases |s|
  {
    (|sub| <= |s| && s[..|sub|] == sub) || (s != [] && Occurs(sub, s[1..]))
  }

  /**
   * `pc_funcname`: the first word of `info symbol`'s output when that output
   * mentions `_info`, otherwise `None`.
   */
  function PcFuncname(host: Host, pc: int): (r: Option<string>)
    ensures r.Some? <==> pc in host.infoSymbol && Occurs("_info", host.infoSymbol[pc])
    ensures r.Some? ==> var out := host.infoSymbol[pc];
                        ' ' !in r.value && |r.value| <= |out| && out[..|r.value|] == r.value &&
                        (|r.value| < |out| ==> out[|r.value|] == ' ')
  {
    if pc in host.infoSymbol && Occurs("_info", host.infoSymbol[pc]) then
      var out := host.infoSymbol[pc];
      var word := Names.Partition(out, ' ').0;
      assert ' ' in out ==> out[..|word|] == word && out[|word|] == ' ' by {
        if ' ' in out {
          var after := Names.Partition(out, ' ').1;
          assert out == word + [' '] + after;
        }
      }
      Some(word)
    else None
  }

  /** The blocks enclosing `b`, innermost first: the blocks `b.superblock` climbs through. */
  function Ancestors(b: Block): seq<Block>
    decreases b
  {
    match b.superblock
    case None => []
    case Some(up) => [up] + Ancestors(up)
  }

  /**
   * The superblock climb of `Closure.funcname`: the name of the nearest
   * enclosing block whose function has a non-empty name, or `None` when no
   * enclosing block has one.
   */
  function EnclosingName(b: Block): (r: Option<string>)
    ensures r.None? <==> forall k | 0 <= k < |Ancestors(b)| :: !Truthy(Ancestors(b)[k].func)
    ensures r.Some? ==> exists k | 0 <= k < |Ancestors(b)| ::
                          Ancestors(b)[k].func == r && forall j | 0 <= j < k :: !Truthy(Ancestors(b)[j].func)
    ensures r.Some? ==> r.value != ""
    decreases b
  {
    match b.superblock
    case None => None
    case Some(up) =>
      var above := Ancestors(up);
      assert Ancestors(b) == [up] + above;
      if Truthy(up.func) then
        assert Ancestors(b)[0] == up;
        up.func
      else
        EnclosingStep(up, above, Ancestors(b), EnclosingName(up));
        EnclosingName(up)
  }

  /** One step of the climb: past an unnamed block, the nearest named ancestor is one further up. */
  lemma EnclosingStep(up: Block, above: seq<Block>, anc: seq<Block>, r: Option<string>)
    requires anc == [up] + above && !Truthy(up.func)
    requires r.None? <==> forall k | 0 <= k < |above| :: !Truthy(above[k].func)
    requires r.Some? ==> exists k | 0 <= k < |above| :: above[k].func == r && forall j | 0 <= j < k :: !Truthy(above[j].func)
    requires r.Some? ==> r.value != ""
    ensures r.None? <==> forall k | 0 <= k < |anc| :: !Truthy(anc[k].func)
    ensures r.Some? ==> exists k | 0 <= k < |anc| :: anc[k].func == r && forall j | 0 <= j < k :: !Truthy(anc[j].func)
  {
    assert forall k | 1 <= k < |anc| :: anc[k] == above[k - 1];
    assert anc[0] == up;
    if r.Some? {
      var k :| 0 <= k < |above| && above[k].func == r && forall j | 0 <= j < k :: !Truthy(above[j].func);
      assert anc[k + 1].func == r;
      assert Truthy(anc[k + 1].func);
    } else {
      forall k | 0 <= k < |anc|
        ensures !Truthy(anc[k].func)
      {
        if k > 0 {
          assert anc[k] == above[k - 1];
        }
      }
    }
  }

  /** The name of a line-table row looks like an ordinary function from a package. */
  predicate PackageLike(name: string) {
    Occurs("zm", name) && Occurs("zi", name) && Occurs("_", name)
  }

  /** A row `guess_funcname` may pick: at or before the address's line, and with a package-like function. */
  predicate Qualifies(e: LineEntry, pcline: int) {
    e.line <= pcline && e.func.Some? && PackageLike(e.func.value)
  }

  /**
   * The state of `guess_funcname`'s loop, `(line, f)`, after the rows of
   * `table`: a row replaces the current choice when it qualifies and its
   * line is strictly greater.
   */
  function Scan(table: seq<LineEntry>, pcline: int): (r: (int, Option<string>))
    ensures r.0 >= 0
    decreases |table|
  {
    if table == [] then (0, None)
    else
      var prev := Scan(table[..|table| - 1], pcline);
      var e := table[|table| - 1];
      if Qualifies(e, pcline) && e.line > prev.0 then (e.line, e.func) else prev
  }

  /** `guess_funcname`: `None` without a symbol table. */
  function Guess(host: Host, pc: int): Option<string> {
    if pc in host.lines then Scan(host.lines[pc].table, host.lines[pc].line).1 else None
  }

  /**
   * What the scan chooses: no name when no row with a positive line
   * qualifies; otherwise the function of the first qualifying row with the
   * greatest line.
   */
  lemma {:induction false} ScanChoosesFirstBest(table: seq<LineEntry>, pcline: int)
    ensures var (line, f) := Scan(table, pcline);
            (f.None? <==> forall k | 0 <= k < |table| :: !(Qualifies(table[k], pcline) && table[k].line > 0)) &&
            (f.None? ==> line == 0) &&
            (f.Some? ==> exists k | 0 <= k < |table| ::
               Qualifies(table[k], pcline) && table[k].line == line > 0 && table[k].func == f &&
               (forall j | 0 <= j < |table| && Qualifies(table[j], pcline) :: table[j].line <= line) &&
               (forall j | 0 <= j < k && Qualifies(table[j], pcline) :: table[j].line < line))
    decreases |table|
  {
    if table != [] {
      var init := table[..|table| - 1];
      ScanChoosesFirstBest(init, pcline);
      assert forall j | 0 <= j < |init| :: init[j] == table[j];
      var prev := Scan(init, pcline);
      var e := table[|table| - 1];
      if !(Qualifies(e, pcline) && e.line > prev.0) && prev.1.Some? {
        var k :| 0 <= k < |init| &&
          Qualifies(init[k], pcline) && init[k].line == prev.0 > 0 && init[k].func == prev.1 &&
          (forall j | 0 <= j < |init| && Qualifies(init[j], pcline) :: init[j].line <= prev.0) &&
          (forall j | 0 <= j < k && Qualifies(init[j], pcline) :: init[j].line < prev.0);
        assert table[k] == init[k];
      }
      if Qualifies(e, pcline) && e.line > prev.0 {
        var k := |table| - 1;
        assert table[k] == e;
      }
    }
  }

  /** `guess_funcname` as the plugin runs it, one line-table row at a time. */
  method GuessFuncname(host: Host, pc: int) returns (f: Option<string>)
    ensures f == Guess(host, pc)
  {
    if pc !in host.lines {
      return None;
    }
    var pcline := host.lines[pc].line;
    var table := host.lines[pc].table;
    var line := 0;
    f := None;
    var i := 0;
    while i < |table|
      invariant 0 <= i <= |table|
      invariant (line, f) == Scan(table[..i], pcline)
    {
      var l := table[i];
      assert table[..i + 1][..i] == table[..i] && table[..i + 1][i] == l;
      if l.line <= pcline && l.line > line && l.func.Some? && PackageLike(l.func.value) {
        line := l.line;
        f := l.func;
      }
      i := i + 1;
    }
    assert table[..i] == table;
  }

  /**
   * The tier that named an address: its own block, an enclosing block, the
   * symbol table (`closure` when the address's block has an enclosing
   * block), the line-table heuristic, or none.
   */
  datatype Resolution = Exact(name: string) | Enclosing(name: string) | Symbol(name: string, closure: bool)
                      | Guessed(name: string) | Unknown

  /** The block gdb gives for an address, if any. */
  function BlockAt(host: Host, pc: int): Option<Block> {
    if pc in host.blockForPc then Some(host.blockForPc[pc]) else None
  }

  /** Which tier of `Closure.funcname` names `pc`, in the plugin's order. */
  function Tier(host: Host, pc: int, pretty: bool): (r: Resolution)
    ensures r.Exact? <==> BlockAt(host, pc).Some? && Truthy(BlockAt(host, pc).value.func)
    ensures r.Enclosing? <==> BlockAt(host, pc).Some? && !Truthy(BlockAt(host, pc).value.func) &&
                              EnclosingName(BlockAt(host, pc).value).Some?
    ensures r.Symbol? ==> !r.Exact? && Truthy(PcFuncname(host, pc)) &&
                          (BlockAt(host, pc).Some? ==> EnclosingName(BlockAt(host, pc).value).None?) &&
                          (r.closure <==> BlockAt(host, pc).Some? && BlockAt(host, pc).value.superblock.Some?)
    ensures r.Guessed? ==> pretty && PcFuncname(host, pc).None? && Truthy(Guess(host, pc))
    ensures r.Unknown? ==> !Truthy(PcFuncname(host, pc)) &&
                           (pretty && PcFuncname(host, pc).None? ==> !Truthy(Guess(host, pc)))
  {
    var block := BlockAt(host, pc);
    if block.Some? && Truthy(block.value.func) then Exact(block.value.func.value)
    else if block.Some? && EnclosingName(block.value).Some? then Enclosing(EnclosingName(block.value).value)
    else
      var func := PcFuncname(host, pc);
      if Truthy(func) then Symbol(func.value, block.Some? && block.value.superblock.Some?)
      else if pretty && func.None? && Truthy(Guess(host, pc)) then Guessed(Guess(host, pc).value)
      else Unknown
  }

  /** `clean`: `pretty_funcname` or `clean_funcname`, on a name that is present. */
  function Clean(name: string, pretty: bool): string {
    if pretty then Names.PrettyFuncname(Some(name)).value else Names.CleanFuncname(Some(name)).value
  }

  /** The suffix that marks how a name was found. */
  function Suffix(r: Resolution): string {
    match r
    case Exact(_) => ""
    case Enclosing(_) => ":closure"
    case Symbol(_, closure) => if closure then ":closure" else ""
    case Guessed(_) => ":??"
    case Unknown => ""
  }

  /** `Closure.funcname`: the name of the tier that applies, cleaned and marked with the tier's suffix. */
  function Funcname(host: Host, pc: int, pretty: bool): (r: string)
    ensures Tier(host, pc, pretty).Unknown? ==> r == "??"
  {
    var t := Tier(host, pc, pretty);
    if t.Unknown? then "??" else Clean(t.name, pretty) + Suffix(t)
  }

  /**
   * The tiers of `Closure.funcname` in the plugin's order, stated on gdb's
   * answers: the address's named block, with no suffix; else the nearest
   * named enclosing block, with `:closure`; else the symbol table, with
   * `:closure` when the address's block has an enclosing block; else, for
   * pretty names only and only when `info symbol` found nothing, the
   * line-table guess, with `:??`; else `??`.
   */
  lemma FuncnameTiers(host: Host, pc: int, pretty: bool)
    ensures var b := BlockAt(host, pc);
            var r := Funcname(host, pc, pretty);
            var sym := PcFuncname(host, pc);
            var noBlockName := b.None? || (!Truthy(b.value.func) && EnclosingName(b.value).None?);
            (b.Some? && Truthy(b.value.func) ==> r == Clean(b.value.func.value, pretty)) &&
            (b.Some? && !Truthy(b.value.func) && EnclosingName(b.value).Some? ==>
               r == Clean(EnclosingName(b.value).value, pretty) + ":closure") &&
            (noBlockName && Truthy(sym) ==>
               r == Clean(sym.value, pretty) + (if b.Some? && b.value.superblock.Some? then ":closure" else "")) &&
            (noBlockName && !Truthy(sym) && pretty && sym.None? && Truthy(Guess(host, pc)) ==>
               r == Clean(Guess(host, pc).value, pretty) + ":??") &&
            (noBlockName && !Truthy(sym) && !(pretty && sym.None? && Truthy(Guess(host, pc))) ==> r == "??")
  {
  }

  /**
   * A named block of the address's own wins whatever the symbol table and
   * the line table say; the heuristic is consulted only for pretty names.
   */
  lemma FuncnameLocality(host: Host, other: Host, pc: int, pretty: bool)
    requires BlockAt(host, pc) == BlockAt(other, pc)
    requires BlockAt(host, pc).Some? && Truthy(BlockAt(host, pc).value.func)
    ensures Funcname(host, pc, pretty) == Funcname(other, pc, pretty) == Clean(BlockAt(host, pc).value.func.value, pretty)
  {
  }

  /** Without `pretty` the line-table heuristic never decides the name. */
  lemma PlainFuncnameIgnoresLines(host: Host, pc: int, lines: map<int, PcLine>)
    ensures Funcname(host, pc, false) == Funcname(host.(lines := lines), pc, false)
  {
    assert BlockAt(host, pc) == BlockAt(host.(lines := lines), pc);
    assert PcFuncname(host, pc) == PcFuncname(host.(lines := lines), pc);
  }

  /**
   * The memo table of `Closure.cached_funcname`: pretty names by return
   * address. Every cached name is what `funcname(pretty=True)` gives for
   * its address.
   */
  class FuncnameCache {
    const host: Host
    var cache: map<int, string>

    predicate Valid()
      reads this
    {
      forall pc | pc in cache :: cache[pc] == Funcname(host, pc, true)
    }

    constructor (host: Host)
      ensures Valid() && this.host == host && cache == map[]
    {
      this.host := host;
      cache := map[];
    }

    /** Look the name up, resolving and remembering it on a miss. */
    method CachedFuncname(pc: int) returns (f: string)
      requires Valid()
      modifies this
      ensures Valid()
      ensures f == Funcname(host, pc, true)
      ensures cache == old(cache)[pc := f]
    {
      if pc !in cache {
        f := Funcname(host, pc, true);
        cache := cache[pc := f];
      } else {
        f := cache[pc];
      }
    }
  }
}
