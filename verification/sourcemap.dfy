/**
 * Source-map generation for the transpiler: the Base64 VLQ encoding of the
 * "Base64 VLQ" section of the Source Map Revision 3 format (ECMA-426), the
 * `mappings` string built from the edits the transpiler made, and the
 * rewriting of the source-index field of an existing `mappings` string.
 *
 * The cursors that walk the original and the transpiled code are the ones of
 * `Position`; `sourcemap.ts` carries its own copy of `advanceTo` and
 * `advanceNewLine`, identical to the ones there.
 */
module Sourcemap {
  import opened Wrappers
  import opened Position

  // ---------------------------------------------------------------------
  // Base64 VLQ
  // ---------------------------------------------------------------------

  /** `VLQ_ENCODE`: the 64 digits, in order of value. */
  const Alphabet: string := "ABCDEFGHIJKLMNOP" + "QRSTUVWXYZabcdef" + "ghijklmnopqrstuv" + "wxyz0123456789+/"


  /** The digit of value `d`, by character ranges. */
  function Digit(d: nat): char
    requires d < 64
  {
    if d < 26 then ('A' as int + d) as char
    else if d < 52 then ('a' as int + (d - 26)) as char
    else if d < 62 then ('0' as int + (d - 52)) as char
    else if d == 62 then '+' else '/'
  }

  /** `Digit` spells out `VLQ_ENCODE`. */
  lemma AlphabetDigit(d: nat)
    requires d < 64
    ensures |Alphabet| == 64 && Alphabet[d] == Digit(d)
  {
    if d < 16 { } else if d < 32 { } else if d < 48 { } else { }
  }

  /** `VLQ_DECODE`: the value of a digit, `None` for a character outside the alphabet. */
  function DecodeDigit(c: char): (r: Option<nat>)
    ensures r.Some? ==> r.value < 64 && !IsDelim(c)
  {
    if 'A' <= c <= 'Z' then Some(c as int - 'A' as int)
    else if 'a' <= c <= 'z' then Some(c as int - 'a' as int + 26)
    else if '0' <= c <= '9' then Some(c as int - '0' as int + 52)
    else if c == '+' then Some(62)
    else if c == '/' then Some(63)
    else None
  }

  /** The decode table knows exactly the alphabet's characters. */
  lemma DecodeDigitInverse(c: char)
    ensures DecodeDigit(c).Some? ==> Digit(DecodeDigit(c).value) == c
  {
  }

  /** The decode table inverts the alphabet: `VLQ_DECODE[VLQ_ENCODE[d]] == d`. */
  lemma DecodeAlphabet(d: nat)
    requires d < 64
    ensures DecodeDigit(Alphabet[d]) == Some(d) && DecodeDigit(Digit(d)) == Some(d)
  {
    AlphabetDigit(d);
  }

  /**
   * The zig-zag step on 32-bit integers: the magnitude shifted left one bit,
   * the sign in bit 0, read back as an unsigned 32-bit value (`<<` and `|`
   * work on 32 bits, `>>>` reads the result as unsigned).
   */
  function ZigZag(v: int): (u: nat)
    ensures u < 0x1_0000_0000
  {
    if v < 0 then (2 * -v + 1) % 0x1_0000_0000 else (2 * v) % 0x1_0000_0000
  }

  /**
   * The shape of a VLQ: one or more digits of the alphabet, bit `0x20` (the
   * continuation bit) set on every digit but the last.
   */
  predicate IsVlq(s: string) {
    && |s| >= 1
    && (forall k :: 0 <= k < |s| ==> DecodeDigit(s[k]).Some?)
    && (forall k :: 0 <= k < |s| - 1 ==> DecodeDigit(s[k]).value >= 32)
    && DecodeDigit(s[|s| - 1]).value < 32
  }

  /** The digits of `u`, five bits at a time from the least significant. */
  function EncodeDigits(u: nat): (s: string)
    ensures |s| >= 1
    decreases u
  {
    if u < 32 then [Digit(u)] else [Digit(u % 32 + 32)] + EncodeDigits(u / 32)
  }

  lemma {:induction false} DigitsShape(u: nat)
    ensures IsVlq(EncodeDigits(u))
    decreases u
  {
    var s := EncodeDigits(u);
    if u < 32 {
      DecodeAlphabet(u);
    } else {
      DecodeAlphabet(u % 32 + 32);
      var rest := EncodeDigits(u / 32);
      DigitsShape(u / 32);
      assert forall k :: 1 <= k < |s| ==> s[k] == rest[k - 1];
    }
  }

  /** `encodeVLQ`: the digits of the zig-zag form; it starts with a digit, never with `,` or `;`. */
  function EncodeVLQ(v: int): (s: string)
    ensures |s| >= 1 && !IsDelim(s[0])
  {
    DigitsShape(ZigZag(v));
    EncodeDigits(ZigZag(v))
  }

  /**
   * `encodeVLQ` yields a well-formed VLQ: never empty, every digit in the
   * alphabet, the continuation bit on all digits but the last; zero is `"A"`.
   */
  lemma EncodeVlqShape(v: int)
    ensures IsVlq(EncodeVLQ(v))
    ensures v == 0 ==> EncodeVLQ(v) == "A"
  {
    DigitsShape(ZigZag(v));
    if v == 0 {
      assert ZigZag(v) == 0 && EncodeDigits(0) == [Digit(0)];
    }
  }

  /** Reads one unsigned VLQ at the start of `s`: its value and how many characters it takes. */
  function DecodeDigits(s: string): (r: Option<(nat, nat)>)
    ensures r.Some? ==> 1 <= r.value.1 <= |s|
    decreases |s|
  {
    if s == [] then None
    else match DecodeDigit(s[0])
      case None => None
      case Some(d) =>
        if d < 32 then Some((d, 1))
        else match DecodeDigits(s[1..])
          case None => None
          case Some((u, n)) => Some((d - 32 + 32 * u, n + 1))
  }

  /** Reads one signed VLQ at the start of `s`, as a decoder of the format does. */
  function DecodeVLQ(s: string): (r: Option<(int, nat)>)
    ensures r.Some? ==> 1 <= r.value.1 <= |s|
  {
    match DecodeDigits(s)
    case None => None
    case Some((u, n)) => Some((UnZigZag(u), n))
  }

  /** The inverse of the zig-zag step: bit 0 is the sign, the rest the magnitude. */
  function UnZigZag(u: nat): int {
    if u % 2 == 1 then -(u / 2) else u / 2
  }

  /** The zig-zag step is undone on every value whose doubled magnitude fits 32 bits. */
  lemma ZigZagInverse(v: int)
    requires InVlqRange(v)
    ensures UnZigZag(ZigZag(v)) == v
  {
    if v < 0 {
      assert ZigZag(v) == 2 * -v + 1;
    } else {
      assert ZigZag(v) == 2 * v;
    }
  }

  lemma {:induction false} DigitsRoundTrip(u: nat, rest: string)
    ensures DecodeDigits(EncodeDigits(u) + rest) == Some((u, |EncodeDigits(u)|))
    decreases u
  {
    var s := EncodeDigits(u) + rest;
    if u < 32 {
      DecodeAlphabet(u);
      assert s[0] == Digit(u);
    } else {
      var d := u % 32 + 32;
      var tail := EncodeDigits(u / 32);
      DigitsRoundTrip(u / 32, rest);
      DigitsStep(u, d, tail, rest);
    }
  }

  lemma DigitsStep(u: nat, d: nat, tail: string, rest: string)
    requires u >= 32 && d == u % 32 + 32 && tail == EncodeDigits(u / 32)
    requires DecodeDigits(tail + rest) == Some((u / 32, |tail|))
    ensures DecodeDigits(EncodeDigits(u) + rest) == Some((u, |EncodeDigits(u)|))
  {
    var s := EncodeDigits(u) + rest;
    DecodeAlphabet(d);
    assert EncodeDigits(u) == [Digit(d)] + tail;
    assert s[0] == Digit(d) && s[1..] == tail + rest;
    assert d - 32 + 32 * (u / 32) == u;
  }

  /**
   * Decoding `encodeVLQ(v)` gives back `v` and stops right after it, for
   * every `v` whose zig-zag form fits in 32 bits.
   */
  lemma VlqRoundTrip(v: int, rest: string)
    requires InVlqRange(v)
    ensures DecodeVLQ(EncodeVLQ(v) + rest) == Some((v, |EncodeVLQ(v)|))
  {
    DigitsRoundTrip(ZigZag(v), rest);
    ZigZagInverse(v);
  }

  /** Past 31 bits the shift wraps: `2^31` encodes as `0` does. */
  lemma VlqWraps()
    ensures EncodeVLQ(0x8000_0000) == EncodeVLQ(0) == "A"
  {
    assert ZigZag(0x8000_0000) == 0;
  }

  // ---------------------------------------------------------------------
  // The `mappings` string
  // ---------------------------------------------------------------------

  /**
   * What `buildSourcemap` appends: `addSegment` with its three deltas
   * (transpiled column, original line, original column), or `addLine`.
   */
  datatype Tok = Seg(tc: int, ol: int, oc: int) | NewLine

  /** The VLQs of `vs`, one after the other. */
  function EncodeAll(vs: seq<int>): (s: string)
    ensures vs == [] <==> s == []
    ensures vs != [] ==> !IsDelim(s[0])
    decreases |vs|
  {
    if vs == [] then [] else EncodeVLQ(vs[0]) + EncodeAll(vs[1..])
  }

  /** The VLQs of a segment's four fields, one after the other. */
  lemma EncodeFour(a: int, b: int, c: int, d: int)
    ensures EncodeAll([a, b, c, d]) == EncodeVLQ(a) + (EncodeVLQ(b) + (EncodeVLQ(c) + EncodeVLQ(d)))
  {
    var e := [a, b, c, d];
    assert e[1..] == [b, c, d] && [b, c, d][1..] == [c, d] && [c, d][1..] == [d] && [d][1..] == [];
    assert EncodeAll([d]) == EncodeVLQ(d) + [];
    assert EncodeAll([c, d]) == EncodeVLQ(c) + EncodeVLQ(d);
    assert EncodeAll([b, c, d]) == EncodeVLQ(b) + (EncodeVLQ(c) + EncodeVLQ(d));
  }

  /**
   * The text `addSegment` or `addLine` appends for one token: a segment is
   * the VLQs of its transpiled column, the source index and its two original
   * fields, preceded by `,` when `sep` (`needsSeparator`) is set; a line is `;`.
   */
  function TokText(tok: Tok, sourceIndex: int, sep: bool): string {
    match tok
    case NewLine => ";"
    case Seg(tc, ol, oc) => (if sep then "," else "") + EncodeAll([tc, sourceIndex, ol, oc])
  }

  /** `needsSeparator` after `toks`: set by a segment, cleared by a line. */
  function SepAfter(toks: seq<Tok>, sep: bool): bool {
    if toks == [] then sep else toks[|toks| - 1].Seg?
  }

  /** The text appended for `toks`, starting with the separator flag `sep`. */
  function Render(toks: seq<Tok>, sourceIndex: int, sep: bool): string
    decreases |toks|
  {
    if toks == [] then ""
    else TokText(toks[0], sourceIndex, sep) + Render(toks[1..], sourceIndex, toks[0].Seg?)
  }

  /** The `mappings` string for `toks` under source index `sourceIndex`. */
  function Mapping(toks: seq<Tok>, sourceIndex: int): string {
    Render(toks, sourceIndex, false)
  }

  /** One decoded entry of a `mappings` string: a segment and its fields, or a line break. */
  datatype Entry = Segment(fields: seq<int>) | LineBreak

  predicate IsDelim(c: char) {
    c == ',' || c == ';'
  }

  /** No `,` or `;` in `s`. */
  predicate NoDelim(s: string) {
    forall k :: 0 <= k < |s| ==> !IsDelim(s[k])
  }

  /** Where the segment at the start of `s` ends: at the first `,` or `;`, or at the end. */
  function SegEnd(s: string): (n: nat)
    ensures n <= |s|
    ensures s != [] && !IsDelim(s[0]) ==> n >= 1
    decreases |s|
  {
    if s == [] || IsDelim(s[0]) then 0 else 1 + SegEnd(s[1..])
  }

  /** The VLQ fields of one segment's text, which must be read to its end. */
  function Fields(s: string): (r: Option<seq<int>>)
    decreases |s|
  {
    if s == [] then Some([])
    else match DecodeVLQ(s)
      case None => None
      case Some((v, n)) =>
        match Fields(s[n..])
        case None => None
        case Some(vs) => Some([v] + vs)
  }

  /**
   * Decodes a `mappings` string as the format defines it: `;` ends a line,
   * `,` separates two segments of a line, a segment is a run of VLQs.
   * `afterComma` says a segment must come next.
   */
  function Parse(s: string, afterComma: bool): Option<seq<Entry>>
    decreases |s|
  {
    if s == [] then (if afterComma then None else Some([]))
    else if s[0] == ';' then
      if afterComma then None
      else match Parse(s[1..], false)
        case None => None
        case Some(es) => Some([LineBreak] + es)
    else if s[0] == ',' then None
    else
      var n := SegEnd(s);
      match Fields(s[..n])
      case None => None
      case Some(fs) =>
        var rest := s[n..];
        match (if rest != [] && rest[0] == ',' then Parse(rest[1..], true) else Parse(rest, false))
        case None => None
        case Some(es) => Some([Segment(fs)] + es)
  }

  /** The entries `toks` stand for: every segment has four fields, the source index second. */
  function Expected(toks: seq<Tok>, sourceIndex: int): (es: seq<Entry>)
    ensures |es| == |toks|
    decreases |toks|
  {
    if toks == [] then []
    else [match toks[0]
      case NewLine => LineBreak
      case Seg(tc, ol, oc) => Segment([tc, sourceIndex, ol, oc])] + Expected(toks[1..], sourceIndex)
  }

  predicate InVlqRange(v: int) {
    -0x8000_0000 < v < 0x8000_0000
  }

  /** Every delta in `toks` lies within `bound` of zero. */
  predicate Within(toks: seq<Tok>, bound: int) {
    forall k :: 0 <= k < |toks| && toks[k].Seg? ==>
      -bound <= toks[k].tc <= bound && -bound <= toks[k].ol <= bound && -bound <= toks[k].oc <= bound
  }

  /** A VLQ holds digits only. */
  lemma VlqNoDelim(v: int)
    ensures NoDelim(EncodeVLQ(v))
  {
    EncodeVlqShape(v);
  }

  lemma {:induction false} EncodeAllNoDelim(vs: seq<int>)
    ensures NoDelim(EncodeAll(vs))
    decreases |vs|
  {
    if vs != [] {
      var e, r := EncodeVLQ(vs[0]), EncodeAll(vs[1..]);
      VlqNoDelim(vs[0]);
      EncodeAllNoDelim(vs[1..]);
      assert EncodeAll(vs) == e + r;
      assert forall k :: |e| <= k < |e| + |r| ==> (e + r)[k] == r[k - |e|];
    }
  }

  /** Text without delimiters, then a delimiter or the end: the segment is exactly that text. */
  lemma {:induction false} SegEndOf(a: string, tail: string)
    requires NoDelim(a) && (tail == [] || IsDelim(tail[0]))
    ensures SegEnd(a + tail) == |a|
    decreases |a|
  {
    if a == [] {
      assert a + tail == tail;
    } else {
      assert (a + tail)[0] == a[0] && (a + tail)[1..] == a[1..] + tail;
      SegEndOf(a[1..], tail);
    }
  }

  /** The VLQs of `vs`, read to their end, give back `vs`. */
  lemma {:induction false} FieldsOfAll(vs: seq<int>)
    requires forall k :: 0 <= k < |vs| ==> InVlqRange(vs[k])
    ensures Fields(EncodeAll(vs)) == Some(vs)
    decreases |vs|
  {
    if vs != [] {
      var e, r := EncodeVLQ(vs[0]), EncodeAll(vs[1..]);
      var s := e + r;
      assert EncodeAll(vs) == s;
      VlqRoundTrip(vs[0], r);
      assert s[|e|..] == r;
      FieldsOfAll(vs[1..]);
      assert [vs[0]] + vs[1..] == vs;
    }
  }

  /** Appending a token appends its text, with the flag the earlier tokens left. */
  lemma {:induction false} RenderSnoc(toks: seq<Tok>, tok: Tok, si: int, sep: bool)
    ensures Render(toks + [tok], si, sep) == Render(toks, si, sep) + TokText(tok, si, SepAfter(toks, sep))
    decreases |toks|
  {
    if toks == [] {
      assert [] + [tok] == [tok];
    } else {
      var sep' := toks[0].Seg?;
      assert (toks + [tok])[0] == toks[0] && (toks + [tok])[1..] == toks[1..] + [tok];
      RenderSnoc(toks[1..], tok, si, sep');
      assert SepAfter(toks[1..], sep') == SepAfter(toks, sep);
      var a, b, c := TokText(toks[0], si, sep), Render(toks[1..], si, sep'), TokText(tok, si, SepAfter(toks, sep));
      assert Render(toks + [tok], si, sep) == a + (b + c);
      assert Render(toks, si, sep) == a + b;
      Assoc(a, b, c);
    }
  }

  lemma Assoc(a: string, b: string, c: string)
    ensures a + (b + c) == (a + b) + c
  {
  }

  /** After a segment, the rendering goes on with a `,`, a `;`, or nothing. */
  lemma RenderAfterSegment(toks: seq<Tok>, si: int)
    ensures var r := Render(toks, si, true);
      && (r == [] || IsDelim(r[0]))
      && (toks != [] && toks[0].Seg? ==> r == "," + Render(toks, si, false))
      && (toks == [] || toks[0].NewLine? ==> r == Render(toks, si, false))
  {
    if toks != [] {
      var rest := Render(toks[1..], si, toks[0].Seg?);
      match toks[0]
      case NewLine =>
      case Seg(tc, ol, oc) =>
        var body := EncodeAll([tc, si, ol, oc]);
        assert Render(toks, si, true) == "," + body + rest;
        assert Render(toks, si, false) == "" + body + rest;
    }
  }

  /** The leading segment of a rendering is its four VLQs, decoding to its deltas around the source index. */
  lemma SegFields(toks: seq<Tok>, sourceIndex: int)
    requires InVlqRange(sourceIndex) && toks != [] && toks[0].Seg?
    requires InVlqRange(toks[0].tc) && InVlqRange(toks[0].ol) && InVlqRange(toks[0].oc)
    ensures var s := Mapping(toks, sourceIndex);
      var tail := Render(toks[1..], sourceIndex, true);
      var n := SegEnd(s);
      && s != [] && !IsDelim(s[0])
      && Fields(s[..n]) == Some([toks[0].tc, sourceIndex, toks[0].ol, toks[0].oc])
      && s[n..] == tail
  {
    var vs := [toks[0].tc, sourceIndex, toks[0].ol, toks[0].oc];
    var body := EncodeAll(vs);
    var tail := Render(toks[1..], sourceIndex, true);
    var s := Mapping(toks, sourceIndex);
    assert s == body + tail;
    RenderAfterSegment(toks[1..], sourceIndex);
    EncodeAllNoDelim(vs);
    SegEndOf(body, tail);
    assert s[..|body|] == body && s[|body|..] == tail;
    FieldsOfAll(vs);
    assert s[0] == body[0];
  }

  /** What follows a segment: a `,` and the next segment, or the rest as it stands. */
  lemma SegTail(toks: seq<Tok>, si: int)
    ensures var tail := Render(toks, si, true);
      var next := Render(toks, si, false);
      if tail != [] && tail[0] == ',' then tail[1..] == next && next != [] && !IsDelim(next[0]) else tail == next
  {
    RenderAfterSegment(toks, si);
    var tail := Render(toks, si, true);
    if tail != [] && tail[0] == ',' {
      var next := Render(toks, si, false);
      var body := EncodeAll([toks[0].tc, si, toks[0].ol, toks[0].oc]);
      assert TokText(toks[0], si, false) == body by {
        assert "" + body == body;
      }
      assert next[0] == body[0];
    }
  }

  lemma ExpectedSeg(toks: seq<Tok>, sourceIndex: int)
    requires toks != [] && toks[0].Seg?
    ensures Expected(toks, sourceIndex)
      == [Segment([toks[0].tc, sourceIndex, toks[0].ol, toks[0].oc])] + Expected(toks[1..], sourceIndex)
  {
  }

  /** The rest of `toks` decodes to its entries: then so does `toks`, when it starts with a segment. */
  lemma RenderParsesSeg(toks: seq<Tok>, sourceIndex: int)
    requires InVlqRange(sourceIndex) && toks != [] && toks[0].Seg?
    requires InVlqRange(toks[0].tc) && InVlqRange(toks[0].ol) && InVlqRange(toks[0].oc)
    requires Parse(Mapping(toks[1..], sourceIndex), false) == Some(Expected(toks[1..], sourceIndex))
    ensures Parse(Mapping(toks, sourceIndex), false) == Some(Expected(toks, sourceIndex))
  {
    SegFields(toks, sourceIndex);
    SegTail(toks[1..], sourceIndex);
    ExpectedSeg(toks, sourceIndex);
  }

  /**
   * Round trip: decoding what `addSegment`/`addLine` wrote gives back the
   * entries, with the source index as every segment's second field, as long
   * as every value fits the 32-bit shift.
   */
  lemma {:induction false} RenderParses(toks: seq<Tok>, sourceIndex: int)
    requires InVlqRange(sourceIndex) && Within(toks, 0x7fff_ffff)
    ensures Parse(Mapping(toks, sourceIndex), false) == Some(Expected(toks, sourceIndex))
    decreases |toks|
  {
    if toks != [] {
      assert Within(toks[1..], 0x7fff_ffff) by {
        forall k | 0 <= k < |toks[1..]| && toks[1..][k].Seg?
          ensures -0x7fff_ffff <= toks[1..][k].tc <= 0x7fff_ffff && -0x7fff_ffff <= toks[1..][k].ol <= 0x7fff_ffff
            && -0x7fff_ffff <= toks[1..][k].oc <= 0x7fff_ffff
        {
          assert toks[1..][k] == toks[k + 1];
        }
      }
      RenderParses(toks[1..], sourceIndex);
      if toks[0].NewLine? {
        var s := Mapping(toks, sourceIndex);
        var next := Mapping(toks[1..], sourceIndex);
        assert s == ";" + next && s[1..] == next;
        assert Expected(toks, sourceIndex) == [LineBreak] + Expected(toks[1..], sourceIndex);
      } else {
        RenderParsesSeg(toks, sourceIndex);
      }
    }
  }
}
