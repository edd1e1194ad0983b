/**
 * Clean-up of symbol names for display: `clean_funcname` and
 * `pretty_funcname` (gdb-ghcrts.py:245-272), with the few string operations
 * of Python they use (`endswith`, `partition`, `rstrip`, `in`).
 */
module Names {
  import opened Common
  import ZEncoding

  predicate EndsWith(s: string, suffix: string) {
    |suffix| <= |s| && s[|s| - |suffix|..] == suffix
  }

  /** `s[:-len(suffix)]` when `s.endswith(suffix)`, otherwise `s`. */
  function StripSuffix(s: string, suffix: string): (r: string)
    ensures EndsWith(s, suffix) ==> r + suffix == s
    ensures !EndsWith(s, suffix) ==> r == s
  {
    if EndsWith(s, suffix) then s[..|s| - |suffix|] else s
  }

  /**
   * `s.partition(sep)` for a one-character separator: the text before the
   * first `sep` and the text after it, or `(s, "")` when `sep` is absent.
   */
  function Partition(s: string, sep: char): (r: (string, string))
    ensures sep in s ==> r.0 + [sep] + r.1 == s && sep !in r.0
    ensures sep !in s ==> r == (s, "")
  {
    var i := ZEncoding.Find(s, sep);
    if i < 0 then (s, "")
    else
      SplitAround(s, i);
      (s[..i], s[i + 1..])
  }

  /** A string is the text before an index, the character there and the text after it. */
  lemma SplitAround(s: string, i: nat)
    requires i < |s|
    ensures s[..i] + [s[i]] + s[i + 1..] == s
  {
    assert s == s[..i] + s[i..];
    assert s[i..] == [s[i]] + s[i + 1..];
  }

  /**
   * `s.rstrip(chars)`: the longest prefix of `s` that does not end with one
   * of `chars`; everything cut off is made of `chars`.
   */
  function RStrip(s: string, chars: set<char>): (r: string)
    ensures |r| <= |s| && s[..|r|] == r
    ensures r == [] || r[|r| - 1] !in chars
    ensures forall i | |r| <= i < |s| :: s[i] in chars
    decreases |s|
  {
    if s == [] || s[|s| - 1] !in chars then s
    else RStrip(s[..|s| - 1], chars)
  }

  /** The characters `pretty_funcname` strips from the end of a package name. */
  const VersionChars: set<char> := {'1', '2', '3', '4', '5', '6', '7', '8', '9', '0', '-'}

  /** The decorations `clean_funcname` removes: a trailing `_ret_info`, then a trailing `_info`. */
  function StripInfo(d: string): string {
    StripSuffix(StripSuffix(d, "_ret_info"), "_info")
  }

  /**
   * The suffix StripInfo removes is one of four, and it removes nothing
   * exactly when the name does not end with `_info` (`_ret_info` itself
   * ends with `_info`).
   */
  lemma StripInfoSuffixes(d: string)
    ensures var c := StripInfo(d);
            d == c || d == c + "_info" || d == c + "_ret_info" || d == c + "_info_ret_info"
    ensures StripInfo(d) == d <==> !EndsWith(d, "_info")
  {
    var d1 := StripSuffix(d, "_ret_info");
    var c := StripSuffix(d1, "_info");
    if EndsWith(d, "_ret_info") {
      assert EndsWith(d, "_info") by {
        assert d[|d| - 5..] == d[|d| - 9..][4..];
      }
      assert |c| < |d|;
      if EndsWith(d1, "_info") {
        assert d == c + "_info" + "_ret_info" by {
          assert d1 + "_ret_info" == d;
          assert c + "_info" == d1;
        }
        assert "_info" + "_ret_info" == "_info_ret_info";
        assert d == c + "_info_ret_info";
      }
    } else if EndsWith(d, "_info") {
      assert |c| < |d|;
    }
  }

  /** `clean_funcname`: `None` stays `None`; a name is decoded, then stripped. */
  function CleanFuncname(f: Option<string>): (r: Option<string>)
    ensures r.None? <==> f.None?
    ensures f.Some? ==> r.value == StripInfo(ZEncoding.Decode(f.value))
  {
    match f
    case None => None
    case Some(name) => Some(StripInfo(ZEncoding.Decode(name)))
  }

  /**
   * The rewrite `pretty_funcname` applies to a cleaned name: a name that
   * holds a `-` names a package with its version and hash, and is shown as
   * `pkg:rest`; any other name is left as it is.
   */
  function Prettify(c: string): string {
    if '-' in c then
      var (pkg, rest) := Partition(c, '_');
      RStrip(Partition(pkg, '.').0, VersionChars) + ":" + rest
    else c
  }

  /** `pretty_funcname`: `None` stays `None`; a name is cleaned, then rewritten. */
  function PrettyFuncname(f: Option<string>): (r: Option<string>)
    ensures r.None? <==> f.None?
    ensures f.Some? ==> r.value == Prettify(CleanFuncname(f).value)
  {
    match CleanFuncname(f)
    case None => None
    case Some(c) => Some(Prettify(c))
  }

  /**
   * What the rewrite does: a name with a `-` splits at its first `_` into a
   * package part `pkg` and the rest (empty when there is no `_`); `cut` is
   * `pkg` up to its first `.`; the result is `cut` without its trailing
   * digits and hyphens, then `:`, then the rest. A name without `-` is
   * returned unchanged.
   */
  lemma PrettifyPackage(c: string)
    ensures '-' in c ==> exists pkg, rest, cut, p ::
              c == (if '_' in c then pkg + "_" + rest else pkg) && '_' !in pkg && ('_' !in c ==> rest == "") &&
              |cut| <= |pkg| && pkg[..|cut|] == cut && '.' !in cut && (|cut| == |pkg| || pkg[|cut|] == '.') &&
              |p| <= |cut| && cut[..|p|] == p && (p == [] || p[|p| - 1] !in VersionChars) &&
              (forall i | |p| <= i < |cut| :: cut[i] in VersionChars) &&
              Prettify(c) == p + ":" + rest
    ensures '-' !in c ==> Prettify(c) == c
  {
    if '-' in c {
      var (pkg, rest) := Partition(c, '_');
      var (cut, after) := Partition(pkg, '.');
      var p := RStrip(cut, VersionChars);
      if '.' in pkg {
        assert pkg == cut + ['.'] + after;
        assert pkg[..|cut|] == cut && pkg[|cut|] == '.';
      }
      assert c == (if '_' in c then pkg + "_" + rest else pkg);
      assert Prettify(c) == p + ":" + rest;
    }
  }

  /** `partition` splits at a separator that the text before it does not hold. */
  lemma PartitionAt(x: string, sep: char, y: string)
    requires sep !in x
    ensures Partition(x + [sep] + y, sep) == (x, y)
  {
    var s := x + [sep] + y;
    var i := ZEncoding.Find(s, sep);
    assert s[|x|] == sep;
    assert s[..|x|] == x;
    assert s[|x| + 1..] == y;
  }

  /** `rstrip` removes a tail made only of the stripped characters, and stops at the first other one. */
  lemma {:induction false} RStripTail(x: string, y: string, chars: set<char>)
    requires x != [] && x[|x| - 1] !in chars
    requires forall k | 0 <= k < |y| :: y[k] in chars
    ensures RStrip(x + y, chars) == x
    decreases |y|
  {
    if y == [] {
      assert x + y == x;
    } else {
      var y' := y[..|y| - 1];
      assert (x + y)[..|x + y| - 1] == x + y';
      RStripTail(x, y', chars);
    }
  }

  /** A name ending in `_info`, but not in `_ret_info`, loses exactly `_info`. */
  lemma StripInfoOnce(c: string)
    requires c != [] && c[|c| - 1] != 't'
    ensures StripInfo(c + "_info") == c
  {
    var d := c + "_info";
    assert !EndsWith(d, "_ret_info") by {
      assert d[|d| - 6] == c[|c| - 1];
    }
    assert d[..|d| - 5] == c;
  }

  /** A separator absent from three pieces is absent from them joined by another character. */
  lemma NotInJoined(a: string, x: char, b: string, c: char)
    requires c !in a && c !in b && c != x
    ensures c !in a + [x] + b
  {
    var s := a + [x] + b;
    assert forall k | 0 <= k < |s| :: s[k] == (if k < |a| then a[k] else if k == |a| then x else b[k - |a| - 1]);
  }

  /** The package rewrite of a cleaned name `pkg-ver.more_rest`. */
  lemma PackageOf(pkg: string, ver: string, more: string, rest: string)
    requires pkg != [] && pkg[|pkg| - 1] !in VersionChars
    requires forall k | 0 <= k < |ver| :: ver[k] in VersionChars
    requires '.' !in pkg && '.' !in ver && '_' !in pkg && '_' !in ver && '_' !in more
    ensures var p := pkg + "-" + ver + "." + more;
            var c := p + "_" + rest;
            '-' in c && Partition(c, '_') == (p, rest) &&
            RStrip(Partition(p, '.').0, VersionChars) == pkg
  {
    var head := pkg + "-" + ver;
    var p := head + "." + more;
    var c := p + "_" + rest;
    assert c[|pkg|] == '-';
    NotInJoined(pkg, '-', ver, '_');
    NotInJoined(head, '.', more, '_');
    PartitionAt(p, '_', rest);
    NotInJoined(pkg, '-', ver, '.');
    PartitionAt(head, '.', more);
    assert head == pkg + ("-" + ver);
    RStripTail(pkg, "-" + ver, VersionChars);
  }

  /**
   * The general form of the `pretty_funcname` doctest: a symbol that decodes
   * to `pkg-ver.more_rest_info`, with a package name `pkg` and a version
   * `ver` made of digits and hyphens, is shown as `pkg:rest`.
   */
  lemma PrettyPackaged(name: string, pkg: string, ver: string, more: string, rest: string)
    requires ZEncoding.Decode(name) == pkg + "-" + ver + "." + more + "_" + rest + "_info"
    requires pkg != [] && pkg[|pkg| - 1] !in VersionChars
    requires forall k | 0 <= k < |ver| :: ver[k] in VersionChars
    requires '.' !in pkg && '.' !in ver && '_' !in pkg && '_' !in ver && '_' !in more
    requires rest != [] && rest[|rest| - 1] != 't'
    ensures PrettyFuncname(Some(name)) == Some(pkg + ":" + rest)
  {
    var c := pkg + "-" + ver + "." + more + "_" + rest;
    assert c[|c| - 1] == rest[|rest| - 1];
    StripInfoOnce(c);
    PackageOf(pkg, ver, more, rest);
  }

  /**
   * The decoding step of the `pretty_funcname` doctest, for any plain pieces
   * around its tokens: the decoded name has the form `pkg-ver.more_rest_info`.
   */
  lemma PackagedShape(a: string, b: string, c: string, d: string, e: string, f: string,
                      g1: string, g2: string, h: string, i: string, j: string)
    requires ZEncoding.Plain(a) && ZEncoding.Plain(b) && ZEncoding.Plain(c) && ZEncoding.Plain(d)
    requires ZEncoding.Plain(e) && ZEncoding.Plain(f) && ZEncoding.Plain(g1) && ZEncoding.Plain(g2)
    requires ZEncoding.Plain(h) && ZEncoding.Plain(i) && ZEncoding.Plain(j)
    ensures
      var s9: string := j + "_info";
      var s8: string := i + "zd" + s9;
      var s7: string := h + "zi" + s8;
      var s6: string := g1 + "_" + g2 + "zi" + s7;
      var s5: string := f + "zz" + s6;
      var s4: string := e + "zm" + s5;
      var s3: string := d + "zi" + s4;
      var s2: string := c + "zi" + s3;
      var s1: string := b + "zi" + s2;
      var s0: string := a + "zm" + s1;
      var more: string := c + "." + (d + "." + (e + "-" + (f + "z" + g1)));
      var rest: string := g2 + "." + (h + "." + (i + "$" + j));
      ZEncoding.Decode(s0) == a + "-" + b + "." + more + "_" + rest + "_info"
  {
    var s9: string := j + "_info";
    var o8: string := i + "$" + s9;
    ZEncoding.DoctestTokens();
    ZEncoding.DecodeIdentity(s9);
    ZEncoding.TokenThen(i, "zd", s9, s9);
    ZEncoding.EightTokens(a, "zm", b, "zi", c, "zi", d, "zi", e, "zm", f, "zz", g1 + "_" + g2, "zi", h, "zi",
                          i + "zd" + s9, o8);
    Reassociate(a, b, c, d, e, f, g1, g2, h, i, j);
  }

  /** The decoded pieces of PackagedShape, regrouped around the first `_`. */
  lemma Reassociate(a: string, b: string, c: string, d: string, e: string, f: string,
                    g1: string, g2: string, h: string, i: string, j: string)
    ensures
      var rest: string := g2 + "." + (h + "." + (i + "$" + j));
      var more: string := c + "." + (d + "." + (e + "-" + (f + "z" + g1)));
      a + "-" + (b + "." + (c + "." + (d + "." + (e + "-" + (f + "z" + (g1 + "_" + g2 + "." + (h + "." + (i + "$" + (j + "_info")))))))))
        == a + "-" + b + "." + more + "_" + rest + "_info"
  {
    var rest: string := g2 + "." + (h + "." + (i + "$" + j));
    var o6 := g1 + "_" + g2 + "." + (h + "." + (i + "$" + (j + "_info")));
    assert o6 == g1 + "_" + rest + "_info";
    var more: string := c + "." + (d + "." + (e + "-" + (f + "z" + g1)));
    var o2 := c + "." + (d + "." + (e + "-" + (f + "z" + o6)));
    assert o2 == more + "_" + rest + "_info";
  }

  /**
   * PackagedShape and PrettyPackaged together: the symbol is shown as
   * `a:rest`, when the pieces before the first `_` hold no `_`, the version
   * `b` is digits and hyphens, and the name does not end in `_ret_info`.
   */
  lemma PrettyPackagedShape(a: string, b: string, c: string, d: string, e: string, f: string,
                            g1: string, g2: string, h: string, i: string, j: string)
    requires ZEncoding.Plain(a) && ZEncoding.Plain(b) && ZEncoding.Plain(c) && ZEncoding.Plain(d)
    requires ZEncoding.Plain(e) && ZEncoding.Plain(f) && ZEncoding.Plain(g1) && ZEncoding.Plain(g2)
    requires ZEncoding.Plain(h) && ZEncoding.Plain(i) && ZEncoding.Plain(j)
    requires '_' !in a && '_' !in b && '_' !in c && '_' !in d && '_' !in e && '_' !in f && '_' !in g1
    requires '.' !in a && '.' !in b && a != [] && a[|a| - 1] !in VersionChars
    requires forall k | 0 <= k < |b| :: b[k] in VersionChars
    requires j != [] && j[|j| - 1] != 't'
    ensures
      var s0: string := a + "zm" + (b + "zi" + (c + "zi" + (d + "zi" + (e + "zm" + (f + "zz" +
                        (g1 + "_" + g2 + "zi" + (h + "zi" + (i + "zd" + (j + "_info")))))))));
      PrettyFuncname(Some(s0)) == Some(a + ":" + (g2 + "." + (h + "." + (i + "$" + j))))
  {
    var s0: string := a + "zm" + (b + "zi" + (c + "zi" + (d + "zi" + (e + "zm" + (f + "zz" +
                      (g1 + "_" + g2 + "zi" + (h + "zi" + (i + "zd" + (j + "_info")))))))));
    var more: string := c + "." + (d + "." + (e + "-" + (f + "z" + g1)));
    var rest: string := g2 + "." + (h + "." + (i + "$" + j));
    PackagedShape(a, b, c, d, e, f, g1, g2, h, i, j);
    assert rest[|rest| - 1] == j[|j| - 1];
    PrettyPackaged(s0, a, b, more, rest);
  }

  /** The plain pieces of the `pretty_funcname` doctest. */
  lemma AesonPieces()
    ensures ZEncoding.Plain("aeson") && ZEncoding.Plain("1") && ZEncoding.Plain("4") && ZEncoding.Plain("6")
    ensures ZEncoding.Plain("0") && ZEncoding.Plain("I0PKQM6ADfIKv") && ZEncoding.Plain("TI4BNoug")
  {
  }

  /** The rest of the plain pieces of the `pretty_funcname` doctest. */
  lemma AesonPiecesAfterSeparator()
    ensures ZEncoding.Plain("Data") && ZEncoding.Plain("Attoparsec") && ZEncoding.Plain("Time_") && ZEncoding.Plain("wf")
  {
  }

  /** Where the separators of the `pretty_funcname` doctest lie. */
  lemma AesonSeparators()
    ensures '_' !in "aeson" && '_' !in "1" && '_' !in "4" && '_' !in "6" && '_' !in "0"
    ensures '_' !in "I0PKQM6ADfIKv" && '_' !in "TI4BNoug"
    ensures '.' !in "aeson" && '.' !in "1" && "aeson"[|"aeson"| - 1] !in VersionChars
    ensures forall k | 0 <= k < |"1"| :: "1"[k] in VersionChars
    ensures "wf"[|"wf"| - 1] != 't'
  {
  }

  /** Doctest of `pretty_funcname` (gdb-ghcrts.py:259-261). */
  lemma DoctestPrettyFuncname()
    ensures PrettyFuncname(Some("aeson" + "zm" + ("1" + "zi" + ("4" + "zi" + ("6" + "zi" + ("0" + "zm" +
              ("I0PKQM6ADfIKv" + "zz" + ("TI4BNoug" + "_" + "Data" + "zi" + ("Attoparsec" + "zi" +
              ("Time_" + "zd" + ("wf" + "_info")))))))))))
         == Some("aeson" + ":" + ("Data" + "." + ("Attoparsec" + "." + ("Time_" + "$" + "wf"))))
  {
    AesonPieces();
    AesonPiecesAfterSeparator();
    AesonSeparators();
    PrettyPackagedShape("aeson", "1", "4", "6", "0", "I0PKQM6ADfIKv", "TI4BNoug", "Data", "Attoparsec", "Time_", "wf");
  }
}
