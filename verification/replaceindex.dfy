/**
 * `replaceSourceIndex`: rewrites the source-index field (the second VLQ) of
 * every segment of a `mappings` string, keeping every `,` and `;` and every
 * other field as it stands.
 *
 * The source walks the string with an index; here the index is the suffix it
 * points at, which is all the source ever looks at. `Version` selects the
 * code as written or with `endOfSegmentOrLine` also closing a segment at the
 * end of the string.
 */
module SourceIndex {
  import Sourcemap

  datatype Version = AsWritten | Corrected

  /** `(VLQ_DECODE[c] ?? 0) & 0b100000`: the continuation bit, off for a character outside the alphabet. */
  predicate ContBit(c: char) {
    match Sourcemap.DecodeDigit(c)
    case None => false
    case Some(d) => d >= 32
  }

  /**
   * `nextValue`: takes characters up to and including the first one without
   * the continuation bit, or to the end; returns them and what is left.
   */
  function TakeValue(s: string): (r: (string, string))
    ensures r.0 + r.1 == s
    ensures s != [] ==> |r.1| < |s|
    decreases |s|
  {
    if s == [] then ([], [])
    else if ContBit(s[0]) then
      var (v, rest) := TakeValue(s[1..]);
      assert [s[0]] + (v + rest) == s;
      ([s[0]] + v, rest)
    else
      assert [s[0]] + s[1..] == s;
      ([s[0]], s[1..])
  }

  /**
   * `endOfSegmentOrLine`: at a `,` or `;` it copies it and steps over it.
   * As written the end of the string is not an end of segment; corrected, it is.
   */
  function EndOf(s: string, version: Version): (r: (bool, string, string))
    ensures !r.0 ==> r.1 == [] && r.2 == s
    ensures r.0 && s != [] ==> r.1 == [s[0]] && r.2 == s[1..] && Sourcemap.IsDelim(s[0])
    ensures r.0 && s == [] ==> version == Corrected && r.1 == [] && r.2 == []
  {
    if s != [] && Sourcemap.IsDelim(s[0]) then (true, [s[0]], s[1..])
    else if s == [] && version == Corrected then (true, [], [])
    else (false, [], s)
  }

  /**
   * One pass of the `while (index < length)` loop: a `,`/`;`, or a segment
   * with the text it contributes (its transpiled column, then the new source
   * index for the old one, the original line and column, and a name index)
   * and the delimiter after it.
   */
  function Pass(s: string, vlq: string, version: Version): (r: (string, string))
    requires s != []
    ensures |r.1| < |s|
  {
    var (e1, d1, s1) := EndOf(s, version);
    if e1 then (d1, s1)
    else
      var (v0, s2) := TakeValue(s1);
      var (e2, d2, s3) := EndOf(s2, version);
      if e2 then (v0 + d2, s3)
      else
        var (_, s4) := TakeValue(s3);
        var (v2, s5) := TakeValue(s4);
        var (v3, s6) := TakeValue(s5);
        var (e3, d3, s7) := EndOf(s6, version);
        if e3 then (v0 + vlq + v2 + v3 + d3, s7)
        else
          var (v4, s8) := TakeValue(s7);
          var (_, d4, s9) := EndOf(s8, version);
          (v0 + vlq + v2 + v3 + v4 + d4, s9)
  }

  /** The loop: passes until the string is used up, their texts joined. */
  function Replace(s: string, vlq: string, version: Version): string
    decreases |s|
  {
    if s == [] then []
    else
      var (out, rest) := Pass(s, vlq, version);
      out + Replace(rest, vlq, version)
  }

  /** `replaceSourceIndex(mapping, newSourceIndex)`. */
  function ReplaceSourceIndex(mapping: string, newSourceIndex: int, version: Version): (r: string)
    ensures forall cs :: WellFormed(cs) && Text(cs) == mapping ==>
      r == Text(SetIndices(cs, Sourcemap.EncodeVLQ(newSourceIndex)))
           + (if version == AsWritten && EndsWithOneField(cs) then Sourcemap.EncodeVLQ(newSourceIndex) else [])
  {
    var vlq := Sourcemap.EncodeVLQ(newSourceIndex);
    assert forall cs :: WellFormed(cs) && Text(cs) == mapping ==>
      Replace(mapping, vlq, version) == Text(SetIndices(cs, vlq)) + (if version == AsWritten && EndsWithOneField(cs) then vlq else [])
    by {
      forall cs | WellFormed(cs) && Text(cs) == mapping {
        ReplaceChunks(cs, vlq, version);
      }
    }
    Replace(mapping, vlq, version)
  }

  // ---------------------------------------------------------------------
  // What a `mappings` string is made of
  // ---------------------------------------------------------------------

  /** A piece of a `mappings` string: a `,` or `;`, or the VLQs of one segment. */
  datatype Chunk = Punct(c: char) | Group(values: seq<string>)

  /** The text of a segment: its fields one after another. */
  function Join(vs: seq<string>): (r: string)
    ensures vs != [] ==> |r| >= |vs[0]|
    decreases |vs|
  {
    if vs == [] then [] else vs[0] + Join(vs[1..])
  }

  function ChunkText(c: Chunk): string {
    match c
    case Punct(ch) => [ch]
    case Group(vs) => Join(vs)
  }

  function Text(cs: seq<Chunk>): string
    decreases |cs|
  {
    if cs == [] then [] else ChunkText(cs[0]) + Text(cs[1..])
  }

  /** A segment with 1, 4 or 5 fields, each a VLQ; or a `,` or `;`. */
  predicate ChunkOk(c: Chunk) {
    match c
    case Punct(ch) => Sourcemap.IsDelim(ch)
    case Group(vs) => |vs| in {1, 4, 5} && forall j :: 0 <= j < |vs| ==> Sourcemap.IsVlq(vs[j])
  }

  /** A well-formed `mappings` string: well-formed chunks, and a segment is followed by a delimiter or the end. */
  predicate WellFormed(cs: seq<Chunk>)
    decreases |cs|
  {
    cs == [] || (ChunkOk(cs[0]) && (cs[0].Group? && |cs| > 1 ==> cs[1].Punct?) && WellFormed(cs[1..]))
  }

  /** A segment with its source index (when it has one) set to `vlq`. */
  function SetIndex(c: Chunk, vlq: string): Chunk {
    if c.Group? && |c.values| >= 4 then Group([c.values[0], vlq] + c.values[2..]) else c
  }

  /** Every segment with its source index set to `vlq`, everything else as it was. */
  function SetIndices(cs: seq<Chunk>, vlq: string): (r: seq<Chunk>)
    ensures |r| == |cs|
    decreases |cs|
  {
    if cs == [] then [] else [SetIndex(cs[0], vlq)] + SetIndices(cs[1..], vlq)
  }

  /** The string ends with a one-field segment: the case the code as written gets wrong. */
  predicate EndsWithOneField(cs: seq<Chunk>) {
    cs != [] && cs[|cs| - 1].Group? && |cs[|cs| - 1].values| == 1
  }

  // ---------------------------------------------------------------------
  // One pass at a time
  // ---------------------------------------------------------------------

  /** `nextValue` reads exactly one VLQ. */
  lemma {:induction false} TakeVlq(v: string, rest: string)
    requires Sourcemap.IsVlq(v)
    ensures TakeValue(v + rest) == (v, rest)
    decreases |v|
  {
    var s := v + rest;
    assert s[0] == v[0];
    if |v| == 1 {
      assert !ContBit(v[0]);
      assert s[1..] == rest && [v[0]] == v;
    } else {
      assert ContBit(v[0]);
      var w := v[1..];
      assert Sourcemap.IsVlq(w) by {
        assert forall k :: 0 <= k < |w| ==> w[k] == v[k + 1];
      }
      assert s[1..] == w + rest;
      TakeVlq(w, rest);
      assert [v[0]] + w == v;
    }
  }

  /** A delimiter is copied on its own. */
  lemma PassPunct(c: char, tail: string, vlq: string, version: Version)
    requires Sourcemap.IsDelim(c)
    ensures Pass([c] + tail, vlq, version) == ([c], tail)
  {
    assert ([c] + tail)[1..] == tail;
  }

  /** What `endOfSegmentOrLine` does after a segment: takes the delimiter, if there is one. */
  function After(tail: string): string {
    if tail == [] then [] else [tail[0]]
  }

  function Beyond(tail: string): string {
    if tail == [] then [] else tail[1..]
  }

  /** After a segment's last field, `endOfSegmentOrLine` at a delimiter or, corrected, at the end. */
  lemma EndAfter(tail: string, version: Version)
    requires tail == [] || Sourcemap.IsDelim(tail[0])
    ensures tail != [] || version == Corrected ==> EndOf(tail, version) == (true, After(tail), Beyond(tail))
    ensures tail == [] && version == AsWritten ==> EndOf(tail, version) == (false, [], [])
  {
  }

  /** A VLQ never starts with a delimiter, so `endOfSegmentOrLine` does not stop before it. */
  lemma NoEndAt(v: string, rest: string, version: Version)
    requires Sourcemap.IsVlq(v)
    ensures EndOf(v + rest, version) == (false, [], v + rest)
  {
    assert (v + rest)[0] == v[0];
  }

  lemma PassOne(v0: string, tail: string, vlq: string, version: Version)
    requires Sourcemap.IsVlq(v0) && (tail == [] || Sourcemap.IsDelim(tail[0]))
    ensures tail != [] || version == Corrected ==> Pass(v0 + tail, vlq, version) == (v0 + After(tail), Beyond(tail))
    ensures tail == [] && version == AsWritten ==> Pass(v0 + tail, vlq, version) == (v0 + vlq, [])
  {
    NoEndAt(v0, tail, version);
    TakeVlq(v0, tail);
    EndAfter(tail, version);
    if tail == [] && version == AsWritten {
      assert TakeValue([]) == ([], []);
      assert v0 + vlq + [] + [] + [] + [] == v0 + vlq;
    }
  }

  lemma PassFour(v0: string, v1: string, v2: string, v3: string, tail: string, vlq: string, version: Version)
    requires Sourcemap.IsVlq(v0) && Sourcemap.IsVlq(v1) && Sourcemap.IsVlq(v2) && Sourcemap.IsVlq(v3)
    requires tail == [] || Sourcemap.IsDelim(tail[0])
    ensures Pass(v0 + (v1 + (v2 + (v3 + tail))), vlq, version) == (v0 + (vlq + (v2 + v3)) + After(tail), Beyond(tail))
  {
    var s1 := v1 + (v2 + (v3 + tail));
    NoEndAt(v0, s1, version);
    TakeVlq(v0, s1);
    NoEndAt(v1, v2 + (v3 + tail), version);
    TakeVlq(v1, v2 + (v3 + tail));
    TakeVlq(v2, v3 + tail);
    TakeVlq(v3, tail);
    EndAfter(tail, version);
    assert v0 + vlq + v2 + v3 == v0 + (vlq + (v2 + v3));
    if tail == [] && version == AsWritten {
      assert TakeValue([]) == ([], []);
      assert v0 + vlq + v2 + v3 + [] + [] == v0 + (vlq + (v2 + v3)) + After(tail);
    }
  }

  lemma PassFive(v0: string, v1: string, v2: string, v3: string, v4: string, tail: string, vlq: string, version: Version)
    requires Sourcemap.IsVlq(v0) && Sourcemap.IsVlq(v1) && Sourcemap.IsVlq(v2) && Sourcemap.IsVlq(v3) && Sourcemap.IsVlq(v4)
    requires tail == [] || Sourcemap.IsDelim(tail[0])
    ensures Pass(v0 + (v1 + (v2 + (v3 + (v4 + tail)))), vlq, version) ==
      (v0 + (vlq + (v2 + (v3 + v4))) + After(tail), Beyond(tail))
  {
    var s1 := v1 + (v2 + (v3 + (v4 + tail)));
    NoEndAt(v0, s1, version);
    TakeVlq(v0, s1);
    NoEndAt(v1, v2 + (v3 + (v4 + tail)), version);
    TakeVlq(v1, v2 + (v3 + (v4 + tail)));
    TakeVlq(v2, v3 + (v4 + tail));
    TakeVlq(v3, v4 + tail);
    NoEndAt(v4, tail, version);
    TakeVlq(v4, tail);
    EndAfter(tail, version);
    assert v0 + vlq + v2 + v3 + v4 == v0 + (vlq + (v2 + (v3 + v4)));
  }

  lemma JoinFour(vs: seq<string>)
    requires |vs| == 4
    ensures Join(vs) == vs[0] + (vs[1] + (vs[2] + vs[3]))
  {
    assert Join(vs[3..]) == vs[3] by { assert Join(vs[4..]) == []; }
    assert Join(vs[2..]) == vs[2] + Join(vs[3..]);
  }

  lemma JoinFive(vs: seq<string>)
    requires |vs| == 5
    ensures Join(vs) == vs[0] + (vs[1] + (vs[2] + (vs[3] + vs[4])))
  {
    assert Join(vs[4..]) == vs[4] by { assert Join(vs[5..]) == []; }
    assert Join(vs[3..]) == vs[3] + Join(vs[4..]);
    assert Join(vs[2..]) == vs[2] + Join(vs[3..]);
  }

  /**
   * One pass over a well-formed segment and what follows it: the segment
   * with its source index replaced, then the delimiter; as written, a
   * one-field segment at the very end also gets `vlq` appended.
   */
  lemma PassGroup(vs: seq<string>, tail: string, vlq: string, version: Version)
    requires ChunkOk(Group(vs)) && (tail == [] || Sourcemap.IsDelim(tail[0]))
    ensures Pass(Join(vs) + tail, vlq, version) ==
      (ChunkText(SetIndex(Group(vs), vlq)) + After(tail) + (if tail == [] && version == AsWritten && |vs| == 1 then vlq else []),
       Beyond(tail))
  {
    var extra: string := if tail == [] && version == AsWritten && |vs| == 1 then vlq else [];
    if |vs| == 1 {
      assert Join(vs) == vs[0] by { assert Join(vs[1..]) == []; }
      PassOne(vs[0], tail, vlq, version);
      if extra == [] {
        assert vs[0] + After(tail) + extra == vs[0] + After(tail);
      } else {
        assert After(tail) == [];
        assert vs[0] + After(tail) + extra == vs[0] + vlq;
      }
    } else {
      var u := [vs[0], vlq] + vs[2..];
      var out := ChunkText(SetIndex(Group(vs), vlq));
      assert out == Join(u);
      assert out + After(tail) + extra == out + After(tail);
      if |vs| == 4 {
        GroupFour(vs, u, tail, vlq, version);
      } else {
        GroupFive(vs, u, tail, vlq, version);
      }
    }
  }

  lemma GroupFour(vs: seq<string>, u: seq<string>, tail: string, vlq: string, version: Version)
    requires |vs| == 4 && u == [vs[0], vlq] + vs[2..] && Sourcemap.IsVlq(vs[0])
    requires forall j :: 0 <= j < |vs| ==> Sourcemap.IsVlq(vs[j])
    requires tail == [] || Sourcemap.IsDelim(tail[0])
    ensures Pass(Join(vs) + tail, vlq, version) == (Join(u) + After(tail), Beyond(tail))
  {
    JoinFour(vs);
    JoinFour(u);
    assert Join(vs) + tail == vs[0] + (vs[1] + (vs[2] + (vs[3] + tail)));
    PassFour(vs[0], vs[1], vs[2], vs[3], tail, vlq, version);
  }

  lemma GroupFive(vs: seq<string>, u: seq<string>, tail: string, vlq: string, version: Version)
    requires |vs| == 5 && u == [vs[0], vlq] + vs[2..] && Sourcemap.IsVlq(vs[0])
    requires forall j :: 0 <= j < |vs| ==> Sourcemap.IsVlq(vs[j])
    requires tail == [] || Sourcemap.IsDelim(tail[0])
    ensures Pass(Join(vs) + tail, vlq, version) == (Join(u) + After(tail), Beyond(tail))
  {
    JoinFive(vs);
    JoinFive(u);
    assert Join(vs) + tail == vs[0] + (vs[1] + (vs[2] + (vs[3] + (vs[4] + tail))));
    PassFive(vs[0], vs[1], vs[2], vs[3], vs[4], tail, vlq, version);
  }

  // ---------------------------------------------------------------------
  // The whole string
  // ---------------------------------------------------------------------

  /** Text and indices of a non-empty chunk list: its first chunk, then the rest. */
  lemma Unfold(cs: seq<Chunk>, vlq: string)
    requires cs != []
    ensures Text(cs) == ChunkText(cs[0]) + Text(cs[1..])
    ensures Text(SetIndices(cs, vlq)) == ChunkText(SetIndex(cs[0], vlq)) + Text(SetIndices(cs[1..], vlq))
  {
    var r := SetIndices(cs, vlq);
    assert r[0] == SetIndex(cs[0], vlq) && r[1..] == SetIndices(cs[1..], vlq);
  }

  lemma Regroup(a: string, b: string, c: string, d: string)
    ensures a + b + [] + (c + d) == a + (b + c) + d
    ensures a + b + c + d == a + (b + c) + d
  {
  }

  /** The loop after a delimiter. */
  lemma ReplacePunct(c: char, tail: string, vlq: string, version: Version)
    requires Sourcemap.IsDelim(c)
    ensures Replace([c] + tail, vlq, version) == [c] + Replace(tail, vlq, version)
  {
    PassPunct(c, tail, vlq, version);
  }

  /** The loop after a segment and the delimiter that follows it. */
  lemma ReplaceGroup(vs: seq<string>, tail: string, vlq: string, version: Version)
    requires ChunkOk(Group(vs)) && (tail == [] || Sourcemap.IsDelim(tail[0]))
    ensures Replace(Join(vs) + tail, vlq, version) ==
      ChunkText(SetIndex(Group(vs), vlq)) + After(tail) + (if tail == [] && version == AsWritten && |vs| == 1 then vlq else [])
      + Replace(Beyond(tail), vlq, version)
  {
    PassGroup(vs, tail, vlq, version);
  }

  /**
   * `replaceSourceIndex` on a well-formed `mappings` string: corrected, it
   * sets the source index of every segment that has one and changes nothing
   * else, delimiters and other fields included. As written, it does the same
   * except that a string ending in a one-field segment gets `vlq` appended.
   */
  lemma {:induction false} ReplaceChunks(cs: seq<Chunk>, vlq: string, version: Version)
    requires WellFormed(cs)
    ensures Replace(Text(cs), vlq, version) ==
      Text(SetIndices(cs, vlq)) + (if version == AsWritten && EndsWithOneField(cs) then vlq else [])
    decreases |cs|, 1
  {
    if cs == [] {
    } else if cs[0].Punct? {
      ChunksPunct(cs, vlq, version);
    } else if |cs| == 1 {
      ChunksLast(cs, vlq, version);
    } else {
      ChunksGroup(cs, vlq, version);
    }
  }

  lemma {:induction false} ChunksPunct(cs: seq<Chunk>, vlq: string, version: Version)
    requires WellFormed(cs) && cs != [] && cs[0].Punct?
    ensures Replace(Text(cs), vlq, version) ==
      Text(SetIndices(cs, vlq)) + (if version == AsWritten && EndsWithOneField(cs) then vlq else [])
    decreases |cs|, 0
  {
    Unfold(cs, vlq);
    var c := cs[0].c;
    var e: string := if version == AsWritten && EndsWithOneField(cs) then vlq else [];
    ReplacePunct(c, Text(cs[1..]), vlq, version);
    ReplaceChunks(cs[1..], vlq, version);
    assert EndsWithOneField(cs[1..]) == EndsWithOneField(cs) by {
      assert |cs| > 1 ==> cs[1..][|cs[1..]| - 1] == cs[|cs| - 1];
    }
    var r1 := Text(SetIndices(cs[1..], vlq));
    assert Replace(Text(cs[1..]), vlq, version) == r1 + e;
    assert Replace(Text(cs), vlq, version) == [c] + (r1 + e);
    assert ChunkText(SetIndex(cs[0], vlq)) == [c];
    Regroup([], [c], r1, e);
  }

  lemma ChunksLast(cs: seq<Chunk>, vlq: string, version: Version)
    requires WellFormed(cs) && |cs| == 1 && cs[0].Group?
    ensures Replace(Text(cs), vlq, version) ==
      Text(SetIndices(cs, vlq)) + (if version == AsWritten && EndsWithOneField(cs) then vlq else [])
  {
    Unfold(cs, vlq);
    var vs := cs[0].values;
    var g := ChunkText(SetIndex(cs[0], vlq));
    var e: string := if version == AsWritten && EndsWithOneField(cs) then vlq else [];
    assert Text(cs[1..]) == [] && Text(SetIndices(cs[1..], vlq)) == [] by { assert cs[1..] == []; }
    ReplaceGroup(vs, [], vlq, version);
    assert Replace(Text(cs), vlq, version) == g + [] + e + [];
    Regroup(g, [], e, []);
  }

  lemma {:induction false} ChunksGroup(cs: seq<Chunk>, vlq: string, version: Version)
    requires WellFormed(cs) && |cs| > 1 && cs[0].Group?
    ensures Replace(Text(cs), vlq, version) ==
      Text(SetIndices(cs, vlq)) + (if version == AsWritten && EndsWithOneField(cs) then vlq else [])
    decreases |cs|, 0
  {
    Unfold(cs, vlq);
    var vs := cs[0].values;
    var g := ChunkText(SetIndex(cs[0], vlq));
    var e: string := if version == AsWritten && EndsWithOneField(cs) then vlq else [];
    var tail := Text(cs[1..]);
    var rest := cs[1..];
    assert rest[0].Punct? && WellFormed(rest);
    var c := rest[0].c;
    Unfold(rest, vlq);
    assert tail == [c] + Text(rest[1..]);
    ReplaceGroup(vs, tail, vlq, version);
    assert rest[1..] == cs[2..];
    ReplaceChunks(cs[2..], vlq, version);
    assert |cs| > 2 ==> cs[2..][|cs[2..]| - 1] == cs[|cs| - 1];
    var r2 := Text(SetIndices(cs[2..], vlq));
    assert After(tail) == [c] && Beyond(tail) == Text(cs[2..]);
    assert Replace(Text(cs), vlq, version) == g + [c] + [] + (r2 + e);
    assert Text(SetIndices(cs, vlq)) == g + ([c] + r2);
    Regroup(g, [c], r2, e);
  }

  /**
   * The smallest string the code as written gets wrong: the one-field
   * segment `"A"`, given source index 0, comes back as `"AA"`; corrected it
   * stays `"A"`.
   */
  lemma TrailingOneField()
    ensures WellFormed([Group(["A"])]) && Text([Group(["A"])]) == "A"
    ensures ReplaceSourceIndex("A", 0, AsWritten) == "AA"
    ensures ReplaceSourceIndex("A", 0, Corrected) == "A"
  {
    Sourcemap.EncodeVlqShape(0);
    var cs := [Group(["A"])];
    assert Sourcemap.IsVlq("A") by { assert Sourcemap.DecodeDigit('A').value == 0; }
    assert WellFormed(cs) by { assert cs[1..] == []; }
    assert Text(cs) == "A" by { assert Join(["A"][1..]) == [] && cs[1..] == []; }
    assert Text(SetIndices(cs, "A")) == "A" by {
      assert SetIndices(cs, "A") == cs by { assert cs[1..] == []; }
    }
    ReplaceChunks(cs, "A", AsWritten);
    ReplaceChunks(cs, "A", Corrected);
  }

  // ---------------------------------------------------------------------
  // On the strings `buildSourcemap` writes
  // ---------------------------------------------------------------------

  /** The chunks `addSegment` or `addLine` writes for one token. */
  function TokChunks(tok: Sourcemap.Tok, sourceIndex: int, sep: bool): seq<Chunk> {
    match tok
    case NewLine => [Punct(';')]
    case Seg(tc, ol, oc) =>
      var g := Group([Sourcemap.EncodeVLQ(tc), Sourcemap.EncodeVLQ(sourceIndex), Sourcemap.EncodeVLQ(ol), Sourcemap.EncodeVLQ(oc)]);
      if sep then [Punct(','), g] else [g]
  }

  /** The chunks of `Sourcemap.Render(toks, sourceIndex, sep)`. */
  function ChunksOf(toks: seq<Sourcemap.Tok>, sourceIndex: int, sep: bool): seq<Chunk>
    decreases |toks|
  {
    if toks == [] then [] else TokChunks(toks[0], sourceIndex, sep) + ChunksOf(toks[1..], sourceIndex, toks[0].Seg?)
  }

  lemma {:induction false} TextAppend(a: seq<Chunk>, b: seq<Chunk>)
    ensures Text(a + b) == Text(a) + Text(b)
    decreases |a|
  {
    if a != [] {
      assert (a + b)[0] == a[0] && (a + b)[1..] == a[1..] + b;
      TextAppend(a[1..], b);
    } else {
      assert a + b == b;
    }
  }

  lemma {:induction false} SetIndicesAppend(a: seq<Chunk>, b: seq<Chunk>, vlq: string)
    ensures SetIndices(a + b, vlq) == SetIndices(a, vlq) + SetIndices(b, vlq)
    decreases |a|
  {
    if a != [] {
      assert (a + b)[0] == a[0] && (a + b)[1..] == a[1..] + b;
      SetIndicesAppend(a[1..], b, vlq);
    } else {
      assert a + b == b;
    }
  }

  lemma {:induction false} WellFormedAppend(a: seq<Chunk>, b: seq<Chunk>)
    requires WellFormed(a) && WellFormed(b)
    requires a != [] && a[|a| - 1].Group? && b != [] ==> b[0].Punct?
    ensures WellFormed(a + b)
    decreases |a|
  {
    if a != [] {
      assert (a + b)[0] == a[0] && (a + b)[1..] == a[1..] + b;
      assert a[1..] != [] ==> a[1..][|a[1..]| - 1] == a[|a| - 1];
      WellFormedAppend(a[1..], b);
    } else {
      assert a + b == b;
    }
  }

  /** One token's chunks spell its text. */
  lemma TokChunksText(tok: Sourcemap.Tok, sourceIndex: int, sep: bool)
    ensures Text(TokChunks(tok, sourceIndex, sep)) == Sourcemap.TokText(tok, sourceIndex, sep)
  {
    match tok
    case NewLine =>
      assert Text([Punct(';')]) == [';'] + Text([]);
    case Seg(tc, ol, oc) =>
      var vs := [Sourcemap.EncodeVLQ(tc), Sourcemap.EncodeVLQ(sourceIndex), Sourcemap.EncodeVLQ(ol), Sourcemap.EncodeVLQ(oc)];
      JoinFour(vs);
      Sourcemap.EncodeFour(tc, sourceIndex, ol, oc);
      var g := Group(vs);
      assert Text([g]) == Join(vs) by { assert [g][1..] == []; }
      if sep {
        assert [Punct(','), g] == [Punct(',')] + [g];
        TextAppend([Punct(',')], [g]);
        assert Text([Punct(',')]) == [','] + Text([]);
      }
  }

  lemma {:induction false} ChunksText(toks: seq<Sourcemap.Tok>, sourceIndex: int, sep: bool)
    ensures Text(ChunksOf(toks, sourceIndex, sep)) == Sourcemap.Render(toks, sourceIndex, sep)
    decreases |toks|
  {
    if toks != [] {
      TextAppend(TokChunks(toks[0], sourceIndex, sep), ChunksOf(toks[1..], sourceIndex, toks[0].Seg?));
      TokChunksText(toks[0], sourceIndex, sep);
      ChunksText(toks[1..], sourceIndex, toks[0].Seg?);
    }
  }

  /** One token's chunks, with the source index replaced, are those of the new index. */
  lemma TokChunksIndex(tok: Sourcemap.Tok, sourceIndex: int, sep: bool, n: int)
    ensures SetIndices(TokChunks(tok, sourceIndex, sep), Sourcemap.EncodeVLQ(n)) == TokChunks(tok, n, sep)
  {
    var vlq := Sourcemap.EncodeVLQ(n);
    match tok
    case NewLine =>
      assert SetIndices([Punct(';')], vlq) == [Punct(';')] + SetIndices([], vlq);
    case Seg(tc, ol, oc) =>
      var vs := [Sourcemap.EncodeVLQ(tc), Sourcemap.EncodeVLQ(sourceIndex), Sourcemap.EncodeVLQ(ol), Sourcemap.EncodeVLQ(oc)];
      var g := Group(vs);
      assert SetIndex(g, vlq) == Group([Sourcemap.EncodeVLQ(tc), vlq, Sourcemap.EncodeVLQ(ol), Sourcemap.EncodeVLQ(oc)]) by {
        assert vs[2..] == [Sourcemap.EncodeVLQ(ol), Sourcemap.EncodeVLQ(oc)];
      }
      assert SetIndices([g], vlq) == [SetIndex(g, vlq)] + SetIndices([], vlq);
      if sep {
        assert SetIndices([Punct(','), g], vlq) == [Punct(',')] + SetIndices([g], vlq) by {
          assert [Punct(','), g][1..] == [g];
        }
      }
  }

  lemma {:induction false} ChunksIndex(toks: seq<Sourcemap.Tok>, sourceIndex: int, sep: bool, n: int)
    ensures SetIndices(ChunksOf(toks, sourceIndex, sep), Sourcemap.EncodeVLQ(n)) == ChunksOf(toks, n, sep)
    decreases |toks|
  {
    if toks != [] {
      SetIndicesAppend(TokChunks(toks[0], sourceIndex, sep), ChunksOf(toks[1..], sourceIndex, toks[0].Seg?), Sourcemap.EncodeVLQ(n));
      TokChunksIndex(toks[0], sourceIndex, sep, n);
      ChunksIndex(toks[1..], sourceIndex, toks[0].Seg?, n);
    }
  }

  /** One token's chunks: well-formed, ending in a four-field segment exactly for a segment. */
  lemma TokChunksWellFormed(tok: Sourcemap.Tok, sourceIndex: int, sep: bool)
    ensures var a := TokChunks(tok, sourceIndex, sep);
      && WellFormed(a) && a != [] && (sep ==> a[0].Punct?)
      && (a[|a| - 1].Group? <==> tok.Seg?) && (a[|a| - 1].Group? ==> |a[|a| - 1].values| == 4)
  {
    var a := TokChunks(tok, sourceIndex, sep);
    match tok
    case NewLine =>
      assert a[1..] == [];
    case Seg(tc, ol, oc) =>
      forall v | v in [tc, sourceIndex, ol, oc] ensures Sourcemap.IsVlq(Sourcemap.EncodeVLQ(v)) {
        Sourcemap.EncodeVlqShape(v);
      }
      var g := a[|a| - 1];
      assert WellFormed([g]) by { assert [g][1..] == []; }
      if sep {
        assert a[1..] == [g];
      }
  }

  /**
   * The chunks of a rendered token list are well-formed, have four fields
   * per segment (so none at the end has one), and after a segment they
   * start with a delimiter.
   */
  lemma {:induction false} ChunksWellFormed(toks: seq<Sourcemap.Tok>, sourceIndex: int, sep: bool)
    ensures var cs := ChunksOf(toks, sourceIndex, sep);
      && WellFormed(cs) && !EndsWithOneField(cs)
      && (sep && cs != [] ==> cs[0].Punct?)
    decreases |toks|
  {
    if toks != [] {
      var a := TokChunks(toks[0], sourceIndex, sep);
      var b := ChunksOf(toks[1..], sourceIndex, toks[0].Seg?);
      ChunksWellFormed(toks[1..], sourceIndex, toks[0].Seg?);
      TokChunksWellFormed(toks[0], sourceIndex, sep);
      WellFormedAppend(a, b);
      assert (a + b)[|a + b| - 1] == if b == [] then a[|a| - 1] else b[|b| - 1];
    }
  }

  /**
   * `replaceSourceIndex` undoes the choice of source index in
   * `buildSourcemap`'s output: replacing it in a map written for one index
   * gives the map written for the other, as written and corrected alike,
   * since every segment there has four fields.
   */
  lemma ReplaceRendered(toks: seq<Sourcemap.Tok>, sourceIndex: int, n: int, version: Version)
    ensures ReplaceSourceIndex(Sourcemap.Mapping(toks, sourceIndex), n, version) == Sourcemap.Mapping(toks, n)
  {
    var cs := ChunksOf(toks, sourceIndex, false);
    ChunksText(toks, sourceIndex, false);
    ChunksWellFormed(toks, sourceIndex, false);
    ReplaceChunks(cs, Sourcemap.EncodeVLQ(n), version);
    ChunksIndex(toks, sourceIndex, false, n);
    ChunksText(toks, n, false);
  }
}
