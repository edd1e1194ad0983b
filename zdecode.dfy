/**
 * GHC's Z-encoding of symbol names and the decoder the plugin uses
 * (`zdecode` and its `ztrans` table, gdb-ghcrts.py:399-450).
 *
 * The encoding writes each character that may not appear in a linker symbol
 * as a two-character token led by `z` (lower-case table) or `Z` (upper-case
 * table). The decoder scans left to right, copies text up to the nearest
 * escape lead verbatim, consumes two characters as a token and translates it
 * through the table; an unknown token, and a lone lead at the very end of the
 * input, are copied as they are.
 */
module ZEncoding {

  /** The `ztrans` table. Note that `ZC` maps to itself (a `:` stays encoded). */
  const ZTrans: map<string, string> := map[
    "ZC" := "ZC", "ZL" := "(", "ZM" := "[", "ZN" := "]", "ZR" := ")", "ZZ" := "Z",
    "za" := "&", "zb" := "|", "zd" := "$", "ze" := "=", "zg" := ">", "zh" := "#",
    "zi" := ".", "zl" := "<", "zm" := "-", "zn" := "!", "zp" := "+", "zq" := "'",
    "zs" := "/", "zt" := "*", "zu" := "_", "zz" := "z"]

  predicate IsEscape(c: char) {
    c == 'z' || c == 'Z'
  }

  /** Text that holds no escape lead, as `s.find` sees it. */
  predicate Plain(s: string) {
    'z' !in s && 'Z' !in s
  }

  /**
   * The table entry for the token `lead c`, or the token itself when the
   * table has none. Written as a case analysis on the two characters; the
   * lemma TranslateIsTableLookup shows it agrees with the table.
   */
  function TranslatePair(lead: char, c: char): string {
    if lead == 'Z' then
      match c
      case 'C' => "ZC"
      case 'L' => "("
      case 'M' => "["
      case 'N' => "]"
      case 'R' => ")"
      case 'Z' => "Z"
      case _ => [lead, c]
    else if lead == 'z' then
      match c
      case 'a' => "&"
      case 'b' => "|"
      case 'd' => "$"
      case 'e' => "="
      case 'g' => ">"
      case 'h' => "#"
      case 'i' => "."
      case 'l' => "<"
      case 'm' => "-"
      case 'n' => "!"
      case 'p' => "+"
      case 'q' => "'"
      case 's' => "/"
      case 't' => "*"
      case 'u' => "_"
      case 'z' => "z"
      case _ => [lead, c]
    else [lead, c]
  }

  /** `ztrans.get(tok, tok)`: a known token is translated, any other is kept. */
  function Translate(tok: string): string {
    if |tok| == 2 then TranslatePair(tok[0], tok[1]) else tok
  }

  /** The case analysis above is exactly a lookup in `ztrans` with the token as default. */
  lemma TranslateIsTableLookup(tok: string)
    ensures Translate(tok) == if tok in ZTrans then ZTrans[tok] else tok
  {
    if |tok| == 2 {
      assert tok == [tok[0], tok[1]];
      PairIsTableLookup(tok[0], tok[1]);
    } else {
      assert forall k | k in ZTrans :: |k| == 2;
    }
  }

  lemma PairIsTableLookup(lead: char, c: char)
    ensures TranslatePair(lead, c) == if [lead, c] in ZTrans then ZTrans[[lead, c]] else [lead, c]
  {
  }

  /**
   * Reference definition of the decoder, one piece at a time: a character
   * that is not an escape lead is copied; a lead and the character after it
   * form a token that is translated; a lead at the very end is copied.
   */
  function Decode(s: string): string
    decreases |s|
  {
    if s == [] then []
    else if IsEscape(s[0]) && |s| >= 2 then TranslatePair(s[0], s[1]) + Decode(s[2..])
    else [s[0]] + Decode(s[1..])
  }

  /** `s.find(c)`: the index of the first `c` in `s`, or -1 when there is none. */
  function Find(s: string, c: char): (i: int)
    ensures -1 <= i < |s|
    ensures i == -1 <==> c !in s
    ensures 0 <= i ==> s[i] == c && c !in s[..i]
  {
    if s == [] then -1
    else if s[0] == c then 0
    else
      var j := Find(s[1..], c);
      assert s[1..][..if j < 0 then 0 else j] == s[1..if j < 0 then 1 else j + 1];
      if j < 0 then -1 else j + 1
  }

  /**
   * The decoder as the plugin runs it: `res` grows and `s` shrinks by a
   * verbatim run plus one token per iteration.
   */
  method ZDecode(input: string) returns (res: string)
    ensures res == Decode(input)
  {
    res := "";
    var s := input;
    while s != ""
      invariant res + Decode(s) == Decode(input)
      decreases |s|
    {
      var idxLower := Find(s, 'z');
      var idxUpper := Find(s, 'Z');
      if idxLower < 0 && idxUpper < 0 {
        DecodeIdentity(s);
        res := res + s;
        return;
      }
      var idx;
      if idxLower < 0 {
        idx := idxUpper;
      } else if idxUpper < 0 {
        idx := idxLower;
      } else {
        idx := if idxLower < idxUpper then idxLower else idxUpper;
        NotInShorterPrefix(s, 'z', idx, idxLower);
        NotInShorterPrefix(s, 'Z', idx, idxUpper);
      }
      var next := TokenEnd(s, idx);
      DecodeAtFirstEscape(s, idx);
      var tok := s[idx..next];
      LoopStep(input, res, s, idx, next);
      res := res + s[..idx];
      s := s[next..];
      res := res + Translate(tok);
    }
    assert Decode(s) == "";
  }

  lemma LoopStep(input: string, res: string, s: string, idx: nat, next: nat)
    requires idx < next <= |s|
    requires res + Decode(s) == Decode(input)
    requires Decode(s) == s[..idx] + Translate(s[idx..next]) + Decode(s[next..])
    ensures res + s[..idx] + Translate(s[idx..next]) + Decode(s[next..]) == Decode(input)
  {
    AppendPieces(res, s[..idx], Translate(s[idx..next]), Decode(s[next..]));
  }

  lemma AppendPieces(r: string, a: string, b: string, c: string)
    ensures r + (a + b + c) == r + a + b + c
  {
  }

  /** A character missing from a prefix is missing from every shorter prefix. */
  lemma NotInShorterPrefix(s: string, c: char, i: nat, j: nat)
    requires i <= j <= |s| && c !in s[..j]
    ensures c !in s[..i]
  {
    assert s[..i] == s[..j][..i];
  }

  /** Text before the first escape lead is copied unchanged. */
  lemma {:induction false} DecodePlainPrefix(p: string, t: string)
    requires Plain(p)
    ensures Decode(p + t) == p + Decode(t)
  {
    if p == [] {
      assert p + t == t;
    } else {
      var q := p[1..];
      assert Plain(q) by {
        assert forall c | c in q :: c in p;
      }
      calc {
        Decode(p + t);
      == { PlainHead(p, t); }
        [p[0]] + Decode(q + t);
      == { DecodePlainPrefix(q, t); }
        [p[0]] + (q + Decode(t));
      == { assert [p[0]] + q == p; }
        p + Decode(t);
      }
    }
  }

  /** A first character that is not an escape lead is copied on its own. */
  lemma PlainHead(p: string, t: string)
    requires p != [] && !IsEscape(p[0])
    ensures Decode(p + t) == [p[0]] + Decode(p[1..] + t)
  {
    assert (p + t)[0] == p[0] && (p + t)[1..] == p[1..] + t;
  }

  /** Decoding is the identity on text without any escape lead. */
  lemma DecodeIdentity(s: string)
    requires Plain(s)
    ensures Decode(s) == s
  {
    DecodePlainPrefix(s, "");
    assert s + "" == s;
  }

  /** One iteration of the loop: verbatim run, one token, the rest. */
  lemma DecodeAtFirstEscape(s: string, idx: int)
    requires 0 <= idx < |s| && IsEscape(s[idx]) && Plain(s[..idx])
    ensures Decode(s) == s[..idx] + Translate(s[idx..TokenEnd(s, idx)]) + Decode(s[TokenEnd(s, idx)..])
  {
    var next := TokenEnd(s, idx);
    var p, tok, rest := s[..idx], s[idx..next], s[next..];
    SplitThree(s, idx, next);
    DecodePlainPrefix(p, tok + rest);
    DecodeEscapeHead(tok, rest);
    Associate(p, Translate(tok), Decode(rest));
  }

  /** A string is its three pieces around two cut points. */
  lemma SplitThree(s: string, i: nat, j: nat)
    requires i <= j <= |s|
    ensures s == s[..i] + (s[i..j] + s[j..])
  {
  }

  lemma Associate(a: string, b: string, c: string)
    ensures a + (b + c) == a + b + c
  {
  }

  /** A token at the front: two characters, or a lone lead at the very end. */
  lemma DecodeEscapeHead(tok: string, rest: string)
    requires tok != [] && IsEscape(tok[0]) && (|tok| == 2 || (|tok| == 1 && rest == []))
    ensures Decode(tok + rest) == Translate(tok) + Decode(rest)
  {
    var t := tok + rest;
    assert t[..|tok|] == tok && t[|tok|..] == rest;
  }

  /** Where the token that starts at `idx` ends: two characters on, or the end of `s`. */
  function TokenEnd(s: string, idx: nat): (e: nat)
    requires idx < |s|
    ensures idx < e <= |s|
  {
    if idx + 2 <= |s| then idx + 2 else |s|
  }

  /**
   * A two-character token after a verbatim run: a known token becomes its
   * table entry (so `ZZ` gives `Z` and `ZC` stays `ZC`), an unknown one is
   * copied as it is.
   */
  lemma DecodeToken(p: string, tok: string, rest: string)
    requires Plain(p) && |tok| == 2 && IsEscape(tok[0])
    ensures Decode(p + tok + rest) ==
      p + (if tok in ZTrans then ZTrans[tok] else tok) + Decode(rest)
  {
    DecodeTokenStep(p, tok, rest);
    TranslateIsTableLookup(tok);
  }

  /** DecodeToken with the token's translation left as Translate. */
  lemma DecodeTokenStep(p: string, tok: string, rest: string)
    requires Plain(p) && |tok| == 2 && IsEscape(tok[0])
    ensures Decode(p + tok + rest) == p + Translate(tok) + Decode(rest)
  {
    var s := p + tok + rest;
    assert s[..|p|] == p && s[|p|] == tok[0];
    assert TokenEnd(s, |p|) == |p| + 2;
    assert s[|p|..|p| + 2] == tok && s[|p| + 2..] == rest;
    DecodeAtFirstEscape(s, |p|);
  }

  /** A token after a verbatim run, when what follows is known to decode to `out`. */
  lemma TokenThen(p: string, tok: string, rest: string, out: string)
    requires Plain(p) && |tok| == 2 && IsEscape(tok[0])
    requires Decode(rest) == out
    ensures Decode(p + tok + rest) == p + Translate(tok) + out
  {
    DecodeTokenStep(p, tok, rest);
  }

  /** A lone escape lead at the very end of the input is copied verbatim. */
  lemma DecodeTrailingEscape(p: string, c: char)
    requires Plain(p) && IsEscape(c)
    ensures Decode(p + [c]) == p + [c]
  {
    var s := p + [c];
    assert s[..|p|] == p && s[|p|] == c;
    assert TokenEnd(s, |p|) == |s|;
    DecodeAtFirstEscape(s, |p|);
    assert s[|p|..|s|] == [c] && s[|s|..] == [];
  }

  /** Decoding never lengthens a name: every table entry is at most as long as its token. */
  lemma {:induction false} DecodeNotLonger(s: string)
    ensures |Decode(s)| <= |s|
    decreases |s|
  {
    if s != [] {
      if IsEscape(s[0]) {
        var n := if |s| < 2 then |s| else 2;
        assert |Translate(s[..n])| <= n;
        DecodeNotLonger(s[n..]);
      } else {
        DecodeNotLonger(s[1..]);
      }
    }
  }

  /**
   * Text that decodes as a whole number of tokens: it does not end with a
   * lone escape lead that would pair up with whatever follows.
   */
  predicate Complete(s: string)
    decreases |s|
  {
    s == [] ||
    var n := if IsEscape(s[0]) then 2 else 1;
    n <= |s| && Complete(s[n..])
  }

  /** Decoding is compositional at token boundaries. */
  lemma {:induction false} DecodeAppend(a: string, b: string)
    requires Complete(a)
    ensures Decode(a + b) == Decode(a) + Decode(b)
    decreases |a|
  {
    if a == [] {
      assert a + b == b;
    } else {
      var n := if IsEscape(a[0]) then 2 else 1;
      assert (a + b)[0] == a[0];
      assert (a + b)[..n] == a[..n];
      assert (a + b)[n..] == a[n..] + b;
      DecodeAppend(a[n..], b);
    }
  }

  /**
   * An encoder for the table: each character that the table produces from a
   * token other than `ZC` is written as that token, every other character
   * (`:` included, since `ZC` decodes to itself) is kept.
   */
  function EncodeChar(c: char): string {
    match c
      case '(' => "ZL"
      case '[' => "ZM"
      case ']' => "ZN"
      case ')' => "ZR"
      case 'Z' => "ZZ"
      case '&' => "za"
      case '|' => "zb"
      case '$' => "zd"
      case '=' => "ze"
      case '>' => "zg"
      case '#' => "zh"
      case '.' => "zi"
      case '<' => "zl"
      case '-' => "zm"
      case '!' => "zn"
      case '+' => "zp"
      case '\'' => "zq"
      case '/' => "zs"
      case '*' => "zt"
      case '_' => "zu"
      case 'z' => "zz"
      case _ => [c]
  }

  function Encode(s: string): string
    decreases |s|
  {
    if s == [] then [] else EncodeChar(s[0]) + Encode(s[1..])
  }

  /** Each encoded character is a single plain character or a token the table maps back. */
  lemma EncodeCharDecodes(c: char)
    ensures IsEscape(c) ==> |EncodeChar(c)| == 2
    ensures |EncodeChar(c)| == 2 ==> IsEscape(EncodeChar(c)[0]) && EncodeChar(c) in ZTrans && ZTrans[EncodeChar(c)] == [c]
    ensures |EncodeChar(c)| != 2 ==> EncodeChar(c) == [c]
  {
  }

  /** Decoding undoes encoding, for every string. */
  lemma {:induction false} DecodeEncode(s: string)
    ensures Decode(Encode(s)) == s
    decreases |s|
  {
    if s != [] {
      var e := EncodeChar(s[0]);
      assert Encode(s) == e + Encode(s[1..]);
      EncodeCharDecodes(s[0]);
      DecodeEncode(s[1..]);
      if |e| == 2 {
        DecodeToken("", e, Encode(s[1..]));
        assert "" + e + Encode(s[1..]) == e + Encode(s[1..]);
      } else {
        DecodePlainPrefix(e, Encode(s[1..]));
      }
      assert [s[0]] + s[1..] == s;
    }
  }

  /** A token: an escape lead and the character after it. */
  predicate Token(t: string) {
    |t| == 2 && IsEscape(t[0])
  }

  /**
   * Decoding goes piece by piece: two plain pieces, each followed by a
   * token, in front of a tail whose decoding is known.
   */
  lemma {:induction false} TwoTokens(p1: string, t1: string, p2: string, t2: string, rest: string, out: string)
    requires Plain(p1) && Plain(p2) && Token(t1) && Token(t2)
    requires Decode(rest) == out
    ensures Decode(p1 + t1 + (p2 + t2 + rest)) == p1 + Translate(t1) + (p2 + Translate(t2) + out)
  {
    TokenThen(p2, t2, rest, out);
    TokenThen(p1, t1, p2 + t2 + rest, p2 + Translate(t2) + out);
  }

  /** TwoTokens twice. */
  lemma {:induction false} FourTokens(p1: string, t1: string, p2: string, t2: string,
                                      p3: string, t3: string, p4: string, t4: string, rest: string, out: string)
    requires Plain(p1) && Plain(p2) && Plain(p3) && Plain(p4)
    requires Token(t1) && Token(t2) && Token(t3) && Token(t4)
    requires Decode(rest) == out
    ensures Decode(p1 + t1 + (p2 + t2 + (p3 + t3 + (p4 + t4 + rest))))
         == p1 + Translate(t1) + (p2 + Translate(t2) + (p3 + Translate(t3) + (p4 + Translate(t4) + out)))
  {
    TwoTokens(p3, t3, p4, t4, rest, out);
    TwoTokens(p1, t1, p2, t2, p3 + t3 + (p4 + t4 + rest), p3 + Translate(t3) + (p4 + Translate(t4) + out));
  }

  /** FourTokens twice. */
  lemma {:induction false} EightTokens(p1: string, t1: string, p2: string, t2: string,
                                       p3: string, t3: string, p4: string, t4: string,
                                       p5: string, t5: string, p6: string, t6: string,
                                       p7: string, t7: string, p8: string, t8: string, rest: string, out: string)
    requires Plain(p1) && Plain(p2) && Plain(p3) && Plain(p4) && Plain(p5) && Plain(p6) && Plain(p7) && Plain(p8)
    requires Token(t1) && Token(t2) && Token(t3) && Token(t4) && Token(t5) && Token(t6) && Token(t7) && Token(t8)
    requires Decode(rest) == out
    ensures Decode(p1 + t1 + (p2 + t2 + (p3 + t3 + (p4 + t4 + (p5 + t5 + (p6 + t6 + (p7 + t7 + (p8 + t8 + rest))))))))
         == p1 + Translate(t1) + (p2 + Translate(t2) + (p3 + Translate(t3) + (p4 + Translate(t4) +
            (p5 + Translate(t5) + (p6 + Translate(t6) + (p7 + Translate(t7) + (p8 + Translate(t8) + out)))))))
  {
    FourTokens(p5, t5, p6, t6, p7, t7, p8, t8, rest, out);
    FourTokens(p1, t1, p2, t2, p3, t3, p4, t4, p5 + t5 + (p6 + t6 + (p7 + t7 + (p8 + t8 + rest))),
               p5 + Translate(t5) + (p6 + Translate(t6) + (p7 + Translate(t7) + (p8 + Translate(t8) + out))));
  }

  /** The tokens of the doctests and what each decodes to. */
  lemma DoctestTokens()
    ensures Token("zi") && Token("zd") && Token("zu") && Token("zl") && Token("zb") && Token("zg")
    ensures Token("zm") && Token("zz") && Token("ZZ")
    ensures Translate("zi") == "." && Translate("zd") == "$" && Translate("zu") == "_"
    ensures Translate("zl") == "<" && Translate("zb") == "|" && Translate("zg") == ">"
    ensures Translate("zm") == "-" && Translate("zz") == "z" && Translate("ZZ") == "Z"
  {
  }

  /** The plain pieces of the first doctest. */
  lemma ReadPPieces()
    ensures Plain("base_Text") && Plain("ParserCombinators") && Plain("ReadP_") && Plain("fAlternativeP")
    ensures Plain("c") && Plain("")
  {
  }

  /**
   * First doctest of `zdecode` (gdb-ghcrts.py:403-404), the input and the
   * expected output each written as its pieces around the tokens, in front
   * of any tail; the doctest's tail `_info` decodes to itself
   * (DecodeIdentity).
   */
  lemma DoctestReadP(tail: string)
    ensures Decode("base_Text" + "zi" + ("ParserCombinators" + "zi" + ("ReadP_" + "zd" + ("fAlternativeP" + "zu" +
                   ("" + "zd" + ("c" + "zl" + ("" + "zb" + ("" + "zg" + tail))))))))
         == "base_Text" + "." + ("ParserCombinators" + "." + ("ReadP_" + "$" + ("fAlternativeP" + "_" +
            ("" + "$" + ("c" + "<" + ("" + "|" + ("" + ">" + Decode(tail))))))))
  {
    DoctestTokens();
    ReadPPieces();
    EightTokens("base_Text", "zi", "ParserCombinators", "zi", "ReadP_", "zd", "fAlternativeP", "zu",
                "", "zd", "c", "zl", "", "zb", "", "zg", tail, Decode(tail));
  }

  /** The plain pieces of the second doctest. */
  lemma TimeZonePieces()
    ensures Plain("time") && Plain("1") && Plain("9") && Plain("3_Data") && Plain("Time")
    ensures Plain("LocalTime") && Plain("Internal") && Plain("one_Time")
  {
  }

  /**
   * Second doctest of `zdecode` (gdb-ghcrts.py:405-406), in front of any
   * tail (the doctest's is `one_con_info`): `ZZ` decodes to `Z`.
   */
  lemma DoctestTimeZone(tail: string)
    ensures Decode("time" + "zm" + ("1" + "zi" + ("9" + "zi" + ("3_Data" + "zi" + ("Time" + "zi" + ("LocalTime" + "zi" +
                   ("Internal" + "zi" + ("Time" + "ZZ" + ("one_Time" + "ZZ" + tail)))))))))
         == "time" + "-" + ("1" + "." + ("9" + "." + ("3_Data" + "." + ("Time" + "." + ("LocalTime" + "." +
            ("Internal" + "." + ("Time" + "Z" + ("one_Time" + "Z" + Decode(tail)))))))))
  {
    DoctestTokens();
    TimeZonePieces();
    TokenThen("one_Time", "ZZ", tail, Decode(tail));
    EightTokens("time", "zm", "1", "zi", "9", "zi", "3_Data", "zi", "Time", "zi", "LocalTime", "zi",
                "Internal", "zi", "Time", "ZZ", "one_Time" + "ZZ" + tail, "one_Time" + "Z" + Decode(tail));
  }
}
