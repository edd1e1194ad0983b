# gdb-ghcrts in Dafny

A model of the algorithmic core of `gdb-ghcrts.py`, a gdb plugin that inspects
the runtime system (RTS) of a program compiled by GHC. It adds the commands
`info tsos` and `info tsoprofile`. The model covers:

- **Z-decoding** of GHC symbol names (`zdecode` and its `ztrans` table), in
  `zdecode.dfy`.
- **Name clean-up** (`clean_funcname`, `pretty_funcname`) and the Python string
  operations they use, in `names.dfy`.
- **The frame-size rule** of `Closure.frame_size`, which follows the RTS's
  `stack_frame_sizeW` for 64-bit targets. It reads the return-info table that
  sits just before a frame's code. This is in `frames.dfy`. The `RET_FUN`
  branch of the code reads the frame's `size` from the wrong word (see
  Findings). Both that code as written and the RTS rule are modelled, and
  the stack walk uses the RTS rule.
- **The stack walk** `TSO.walk_stack`, in `stack.dfy`.
- **Thread enumeration** (`all_tsos`, `running_tsos`) and the thread
  classifications `TSO.is_end`, `TSO.status` and `TSO.running`, in
  `threads.dfy`.
- **Function-name resolution** (`Closure.funcname`, `pc_funcname`,
  `block_funcname`, `guess_funcname`) and the memo table of
  `Closure.cached_funcname`, in `resolve.dfy`.
- **The `info tsoprofile` command**, in `profile.dfy`. For each running
  thread it prints one line: `PROFILE;` followed by the names of the thread's
  frames, outermost first, joined by `;`.

Target memory is a read-only map. A read outside the map is a
`gdb.MemoryError`, modelled as a `Fault` value.

gdb's own knowledge of the program is given as data (`Resolve.Host`). That
covers `gdb.block_for_pc` with the function and enclosing block of a block,
the output of `info symbol`, and `gdb.find_pc_line` with its line table.

Every loop of the plugin that steps a cursor or grows a result is a method
with loop invariants, proved equal to a reference function. The properties
are proved about those functions. The one loop that only climbs a chain of
enclosing blocks (gdb-ghcrts.py:339-344) is the recursive function
`Resolve.EnclosingName`.

`Closure.cached_funcname` mutates a dictionary, so it is a class
(`Resolve.FuncnameCache`) whose invariant is that every cached name is what
`funcname(pretty=True)` gives for its address.

Some behaviour of the code is easy to misread. The model follows the code in
each of these cases:

- `all_tsos` does not remove duplicates. A thread on a run queue is also on
  its generation's thread list, and is listed twice.
- The lists `all_tsos` follows have no cycle bound. Termination is a
  precondition (`Threads.EndsWithin`): every list reaches the sentinel or an
  unreadable TSO.
- `info tsoprofile` catches only `gdb.MemoryError`. The `NotImplementedError`
  raised for a `RET_BIG` or `RET_BCO` frame is not caught, so it ends the
  whole command, not just the current thread (`Profile.Outcome.Aborted`).
- The command samples the threads of `running_tsos`: the non-null
  `rCurrentTSO` of each capability. It does not consult `TSO.running`.
- A sample is reversed after the names are filtered. With `-u` the
  innermost-first walk `[A, A, B, A]` prints `PROFILE;A;B;A`. Without it, the
  same walk prints `PROFILE;A;B;A;A`.
- `ztrans` maps `ZC` to `ZC`, not to `:`. It has no entries for the other
  codes of GHC's full Z-encoding (`zc`, `zr`, `zv`, tuples, code points), so
  such tokens are copied verbatim.
- The `closure` flag of the symbol-table tier is set as soon as the
  address's block has an enclosing block. It does not matter whether any
  enclosing block has a name.

## Model

| member | source | states |
|---|---|---|
| ZEncoding.ZDecode | gdb-ghcrts.py:408-425 | The decoding loop returns `Decode(input)` for every string, with no precondition. Each iteration strictly shortens the rest of the input, so decoding always terminates and never fails. |
| ZEncoding.Find | gdb-ghcrts.py:410-411 | `str.find`: -1 exactly when the character is absent. Otherwise it is the index of an occurrence with none before it. |
| ZEncoding.TranslateIsTableLookup | gdb-ghcrts.py:424-450 | A token becomes its `ztrans` entry when it has one. Any other token, a one-character tail included, is kept as it is (`ztrans.get(tok, tok)`). |
| ZEncoding.DecodeIdentity | gdb-ghcrts.py:412-414 | A string without `z` or `Z` decodes to itself. |
| ZEncoding.DecodePlainPrefix | gdb-ghcrts.py:419 | Text before the first escape lead is copied unchanged in front of the decoding of what follows. |
| ZEncoding.DecodeToken | gdb-ghcrts.py:419-424 | A plain run, then a two-character token, then the rest: the run unchanged, then the token's table entry (or the token itself when unknown), then the rest decoded. So `ZZ` gives `Z` and `ZC` stays `ZC`. |
| ZEncoding.DecodeTrailingEscape | gdb-ghcrts.py:422-424 | A lone `z` or `Z` at the very end forms a one-character token and is copied verbatim. |
| ZEncoding.DecodeNotLonger | gdb-ghcrts.py:427-450 | Decoding never makes a name longer. |
| ZEncoding.DecodeAppend | gdb-ghcrts.py:409-425 | Decoding distributes over concatenation when the first part does not end with a lone escape lead. |
| ZEncoding.EncodeCharDecodes | gdb-ghcrts.py:427-450 | Each character's encoding is either the character itself (not an escape lead) or a token whose table entry is that character. |
| ZEncoding.DecodeEncode | gdb-ghcrts.py:427-450 | The decoder inverts an encoder built from the table: `Decode(Encode(s)) == s` for every string. |
| ZEncoding.DoctestReadP | gdb-ghcrts.py:403-404 | The first doctest, in front of any tail. `base_TextziParserCombinatorsziReadP_zdfAlternativePzuzdczlzbzg` decodes to `base_Text.ParserCombinators.ReadP_$fAlternativeP_$c<\|>`. The doctest's tail `_info` decodes to itself (DecodeIdentity). |
| ZEncoding.DoctestTimeZone | gdb-ghcrts.py:405-406 | The second doctest, in front of any tail. `timezm1zi9zi3_DataziTimeziLocalTimeziInternalziTimeZZone_TimeZZ` decodes to `time-1.9.3_Data.Time.LocalTime.Internal.TimeZone_TimeZ`. The tail here is `one_con_info`, which decodes to itself. |
| Names.StripSuffix | gdb-ghcrts.py:251-254 | When `s` ends with the suffix, the result followed by the suffix is `s`. Otherwise `s` is unchanged. |
| Names.Partition | gdb-ghcrts.py:266-267 | `partition` on one character: when the separator occurs, head + separator + tail is the input and the head holds no separator. Otherwise the result is `(s, "")`. |
| Names.RStrip | gdb-ghcrts.py:268 | `rstrip`: the result is a prefix of `s` that does not end with a stripped character, and everything cut off is stripped characters. |
| Names.StripInfoSuffixes | gdb-ghcrts.py:251-255 | `clean_funcname` removes nothing, `_info`, `_ret_info` or `_info_ret_info`. It leaves the name unchanged exactly when the name does not end with `_info`. |
| Names.CleanFuncname | gdb-ghcrts.py:245-256 | `None` stays `None`. A name is Z-decoded, then a trailing `_ret_info` is stripped, then a trailing `_info`. |
| Names.PrettyFuncname | gdb-ghcrts.py:262-263 | `None` is returned exactly for `None`. |
| Names.PrettifyPackage | gdb-ghcrts.py:264-272 | A cleaned name without `-` is returned unchanged. With `-`, the name splits at its first `_` into the package part `pkg` and the rest, which is empty when there is no `_`. `cut` is `pkg` up to its first `.`. The result is `cut` with its trailing digits and hyphens removed, then `:`, then the rest. |
| Names.PartitionAt | gdb-ghcrts.py:266 | `partition` splits at the first separator: `x + sep + y` with no separator in `x` gives `(x, y)`. |
| Names.PrettyPackaged | gdb-ghcrts.py:258-272 | A symbol that decodes to `pkg-ver.more_rest_info` is shown as `pkg:rest`. Here `pkg` does not end with a digit or `-`, and `ver` is digits and hyphens. |
| Names.PrettyPackagedShape | gdb-ghcrts.py:258-272 | For any plain pieces laid out like the doctest's symbol, `pretty_funcname` gives `pkg:` followed by the decoded text after the first `_`. |
| Names.DoctestPrettyFuncname | gdb-ghcrts.py:259-261 | The doctest: `aesonzm1zi4zi6zi0zmI0PKQM6ADfIKvzzTI4BNoug_DataziAttoparsecziTime_zdwf_info` is shown as `aeson:Data.Attoparsec.Time_$wf`. |
| Frames.Pc | gdb-ghcrts.py:304-306 | The return address is the frame's first word. An unreadable word faults at the frame's address. |
| Frames.RetInfoOf | gdb-ghcrts.py:299-302 | The return-info table is the one just before the return address's code. It fails exactly when the word or the table cannot be read. |
| Frames.SmallFrameSize | gdb-ghcrts.py:290-292 | A small-bitmap frame measures between 1 and 64 words. |
| Frames.FrameSize | gdb-ghcrts.py:279-292 | The frame rule as `stack_frame_sizeW` intends it (see Findings). The size is defined exactly when all of these hold: the table is readable; the kind is neither `RET_BIG` nor `RET_BCO`; and for `RET_FUN`, the frame's second word (its `size` field) is readable. A defined size is positive whenever the `RET_FUN` header is. |
| Frames.FrameSizeByKind | gdb-ghcrts.py:279-292 | The intended rule kind by kind. `RET_FUN` gives header words + the frame's own `size` field at `sp + 1`, or faults at `sp + 1`. `RET_BIG` and `RET_BCO` raise `NotImplementedError`. Every other kind gives `1 + (bitmap & 0x3f)`, in 1..64. |
| Frames.FrameSizeAsWritten | gdb-ghcrts.py:279-292 | The frame rule as the code is written. It agrees with FrameSize except for `RET_FUN`. For a `RET_FUN` frame it reads `size` from the word after the return address, and an unreadable word faults there. |
| Frames.AsWrittenAgreesOnlyByChance | gdb-ghcrts.py:283-285 | For a readable `RET_FUN` frame, the two rules agree exactly when the code word after the return address equals the frame's own `size` field. |
| Frames.RetFunSizeMisread | gdb-ghcrts.py:284 | A `RET_FUN` frame whose `size` is 3, with 7 in the code word after its return address and a 3-word header, measures 6 words by the RTS rule and 10 words as the code is written. |
| Frames.SmallFrameSizeIgnoresHighBits | gdb-ghcrts.py:291-292 | Bits of the bitmap above the low six do not change the size. |
| Stack.WalkStack | gdb-ghcrts.py:149-159 | The cursor loop yields exactly the frames, and the fault, of the reference walk from `sp` to `stack + stack_size`. |
| Stack.WalkFrames | gdb-ghcrts.py:149-159 | The first frame is at `sp`. Each next frame is the previous one plus its frame size. Every frame lies in `[sp, top)`. The walk is empty exactly when `sp >= top`. |
| Stack.WalkIncreasing | gdb-ghcrts.py:156-159 | Frame addresses strictly increase, so no frame is yielded twice. |
| Stack.WalkEnd | gdb-ghcrts.py:156-159 | A walk without a fault stops once the cursor after its last frame is at or past the top. A walk with a fault ends with the frame whose size raised that fault. |
| Threads.RunQueueHeads | gdb-ghcrts.py:80-82 | The run-queue head of every capability, in capability order. |
| Threads.FollowList | gdb-ghcrts.py:83-85 | The `while not t.is_end()` loop yields exactly the reference chain of one list. |
| Threads.FollowLists | gdb-ghcrts.py:80-92 | The outer loop over capabilities or generations yields the chains one after the other, stopping at the first fault. |
| Threads.AllTsos | gdb-ghcrts.py:73-92 | `all_tsos` yields every run queue in capability order, then every generation's list in generation order. |
| Threads.ChainShape | gdb-ghcrts.py:83-85 | A chain never holds the sentinel. All its TSOs are readable, except that a faulting chain ends with the unreadable TSO it faulted on. |
| Threads.ChainSuffix | gdb-ghcrts.py:83-85 | Every suffix of a chain is the chain from the TSO it starts at. |
| Threads.ChainDistinct | gdb-ghcrts.py:83-85 | A list that ends yields no TSO twice. |
| Threads.ChainsAvoidSentinel | gdb-ghcrts.py:80-92 | Consecutive chains never yield the sentinel. |
| Threads.AllTsosAvoidSentinel | gdb-ghcrts.py:114-116 | `all_tsos` never yields `stg_END_TSO_QUEUE_closure`: `is_end` compares addresses, and the sentinel ends a list. |
| Threads.CurrentTsos | gdb-ghcrts.py:94-103 | Every non-null `rCurrentTSO` is listed, and only those; there are never more than there are capabilities. |
| Threads.RunningTsos | gdb-ghcrts.py:94-103 | The loop over capabilities yields exactly CurrentTsos, in capability order. |
| Threads.StatusOf | gdb-ghcrts.py:129-137 | A thread is `killed` or `completed` exactly by its `what_next`. Any other thread gets the `why_str` label of its `why_blocked` when the table has one. Otherwise it gets `status N`, with N its `why_blocked`. |
| Threads.Running | gdb-ghcrts.py:139-147 | `running()` is true exactly when `status()` reads `not blocked`. |
| Threads.RunningIffNotBlocked | gdb-ghcrts.py:139-147 | `running()` holds exactly when `what_next` is neither ThreadKilled nor ThreadComplete and `why_blocked` is NotBlocked, which is exactly when the status reads `not blocked`. |
| Resolve.PcFuncname | gdb-ghcrts.py:199-207 | A name is returned exactly when `info symbol` succeeds and mentions `_info`. The name is the output's first space-free word. |
| Resolve.EnclosingName | gdb-ghcrts.py:339-344 | The superblock climb finds no name exactly when no enclosing block has a named function. Otherwise it finds the name of the nearest enclosing block that has one, and that name is not empty. |
| Resolve.ScanChoosesFirstBest | gdb-ghcrts.py:219-243 | `guess_funcname` returns `None` exactly when no row at or before the address's line, with a positive line, has a package-like function. Otherwise it returns the function of the first such row with the greatest line. |
| Resolve.GuessFuncname | gdb-ghcrts.py:219-243 | The loop over the line table computes the reference scan. Without a symbol table the result is `None`. |
| Resolve.Tier | gdb-ghcrts.py:324-360 | Which tier names an address, in the plugin's order: exact block, enclosing block, symbol table, heuristic guess (pretty only, and only when `info symbol` returned `None`), or none. |
| Resolve.FuncnameTiers | gdb-ghcrts.py:324-360 | The name each tier gives. The exact block gives its cleaned name; an enclosing block gives `:closure`; the symbol table gives `:closure` iff the block has an enclosing block; the guess gives `:??`; otherwise `??`. |
| Resolve.Funcname | gdb-ghcrts.py:360 | When no tier applies, the name is `??`. |
| Resolve.FuncnameLocality | gdb-ghcrts.py:332-336 | A named block wins whatever the symbol table and the line table say. |
| Resolve.PlainFuncnameIgnoresLines | gdb-ghcrts.py:354-358 | Without `pretty`, the line table never affects the name. |
| Resolve.FuncnameCache.constructor | gdb-ghcrts.py:313 | The cache starts empty and valid. |
| Resolve.FuncnameCache.CachedFuncname | gdb-ghcrts.py:315-322 | It returns `funcname(pretty=True)` of the address, records it under the address and changes nothing else. The cache stays valid. |
| Profile.Reverse | gdb-ghcrts.py:68 | `list.reverse`: element `k` of the result is element `n-1-k` of the input. |
| Profile.KeptFiltered | gdb-ghcrts.py:59-64 | Every kept name is a name of the walk, and no more are kept than walked. Without `-v`, no kept name is `??` or starts with `stg_`. |
| Profile.KeptEverythingUnlessSkipped | gdb-ghcrts.py:59-64 | Without `-u`, a walk whose names are never skipped is kept whole. |
| Profile.KeptEverything | gdb-ghcrts.py:56-67 | With `-v` and without `-u`, every name is kept. |
| Profile.KeptNoAdjacentRepeats | gdb-ghcrts.py:65-67 | With `-u`, no two neighbouring kept names are equal. |
| Profile.KeptIsSpec | gdb-ghcrts.py:56-67 | Without `-u`, the loop keeps exactly the names that are not skipped, in walk order (`Filter`). With `-u`, it keeps the same names with every run of equal neighbours folded to one (`Collapse`). So a name is dropped only when it is skipped or repeats the name just kept. |
| Profile.ProfileLine | gdb-ghcrts.py:56-69 | The loop with `stack` and `prev`, then the reversal and the join, prints `PROFILE;` followed by the kept names, outermost first, joined by `;`. |
| Profile.UniqFoldsRuns | gdb-ghcrts.py:56-69 | The walk `[f, f, g, h]` gives `PROFILE;h;g;f` with `-u` and `PROFILE;h;g;f;f` without. |
| Profile.UniqKeepsReturningNames | gdb-ghcrts.py:65-69 | `-u` compares with the last kept name only. `[A, A, B, A]` gives `PROFILE;A;B;A` with it and `PROFILE;A;B;A;A` without. |
| Profile.FrameNames | gdb-ghcrts.py:58-59 | One name per frame. |
| Profile.FrameNamesByIndex | gdb-ghcrts.py:58-59 | The name of each frame is `funcname(pretty=True)` of its return address. |
| Profile.ReadablePrefix | gdb-ghcrts.py:58-59 | The number of frames, from the first, whose return address can be read. The frame after them, if any, cannot be read. |
| Profile.NameFrames | gdb-ghcrts.py:58-59 | Names the frames through the cache, in walk order. Naming stops exactly at the first frame whose return address cannot be read. The names are the pretty names of the frames before it. The cache keeps every entry and gains exactly those frames' return addresses. |
| Profile.WalkFramesReadable | gdb-ghcrts.py:149-159 | A walk that ends without a fault has read the return address of every frame it yielded. |
| Profile.SampleThread | gdb-ghcrts.py:55-71 | One thread gives its sample; or `error:` with the faulting address after a memory fault; or the uncaught `NotImplementedError` that ends the command. The cache gains exactly the return addresses of the frames named before any fault, and keeps its other entries. |
| Profile.OneLinePerThread | gdb-ghcrts.py:54-71 | The command prints at most one line per running thread, and exactly one per thread unless it was aborted. |
| Profile.InfoTsoProfile | gdb-ghcrts.py:50-71 | The command's output for the threads of `running_tsos` equals the reference output. The shared name cache keeps every entry it had, and every entry it holds is the pretty name of its address. |

## Findings

| source | as written | input that shows it | evidently intended | confidence | as-written member | corrected member |
|---|---|---|---|---|---|---|
| gdb-ghcrts.py:284 | `self.obj` is the frame's `StgClosure` struct, not its address. Casting it to `StgRetFun*` yields the frame's first word, the return address. So `size` is read from the word after the return address, inside the code. | A `RET_FUN` frame at 100 with return address 500, `size` 3 at 101, the word 7 at 501 and a 3-word header: the code measures 10 words, the RTS 6. | `self.obj.address.cast(StgRetFun_p)`: read `size` from the frame's second word, as `stack_frame_sizeW` does and as `pc()` (gdb-ghcrts.py:305) casts the address. | not executed; relies on gdb's struct-to-pointer cast taking the struct's first word | Frames.FrameSizeAsWritten, Frames.RetFunSizeMisread | Frames.FrameSize, Frames.FrameSizeByKind |

## Left out

- `info tsos` (`InfoTsos`, gdb-ghcrts.py:26-42), `print_frame`, `lineno`, `info`, `types_str` and `why_str`'s use in printing: this is output formatting. `TSO.why_str` itself is `Threads.WhyStr`.
- Command registration, argument splitting and the instantiation of the commands (gdb-ghcrts.py:44-53, 452-453): the flags `-u` and `-v` are booleans.
- The Python 2 compatibility shim (gdb-ghcrts.py:13-14) and the gdb type lookups (gdb-ghcrts.py:17-22). The header size of a `RET_FUN` frame is the parameter `Memory.retFunWords`.
- `gdb.block_for_pc`, `gdb.find_pc_line`, the line-table iterator and `info symbol` are given as data (`Resolve.Host`); their behaviour is not modelled. A line-table row carries the name of its address's function directly.
- Machine words are unbounded integers: 64-bit wrap-around of addresses and of the `size` field is not modelled.
- Stack.WalkStack: sizes frames by the intended rule (`Frames.FrameSize`), not by FrameSizeAsWritten (see Findings). A walk that meets a `RET_FUN` frame therefore steps by the frame's own `size` field, where the plugin would step by the code word after the return address.
- Stack.WalkStack: requires the `RET_FUN` header size to be positive. Otherwise the cursor could stand still and the plugin would loop forever.
- Threads.AllTsos: requires every list to end (`ListsEnd`). The plugin has no bound, and a cyclic list would make it loop forever.
- A readable TSO is assumed to have a readable stack object. The capability and generation arrays are assumed readable.
- The cache lives for the whole gdb session, shared by every command. The model passes one `FuncnameCache` object to the command.
- Profile.SampleThread: the stack is walked first and the frames are named afterwards, whereas the plugin names each frame as the walk yields it. The line printed and the names cached are the same either way, because a frame's name is read before its size.
- Addresses are counted in machine words, so `sp + frame_size` is integer addition. `walk_stack`'s `long(...)` comparisons exist only in Python 2 and are modelled as plain integer comparison.
- Names.PrettyFuncname: its own contract states only the `None` case; the rewrite of a package name is stated by PrettifyPackage.
- Frames.RetInfoOf: when the info table before a return address cannot be read, the fault names the return address. The plugin's `gdb.MemoryError` names the table's own address, one `StgRetInfoTable` before it (gdb-ghcrts.py:301).
- Profile.SampleThread: an unreadable TSO faults at the TSO's address. The plugin faults at the address of the field it reads, `stackobj`.
- Threads.AllTsos: an unreadable TSO is yielded and then faults at its own address. The plugin faults at the address of the `_link` or `global_link` field it reads.
- Profile.InfoTsoProfile: the cache is said to keep its entries, but the entries it gains across threads are stated only per thread, by SampleThread.
