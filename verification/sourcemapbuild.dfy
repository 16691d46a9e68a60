/**
 * `buildSourcemap`: walks the original and the transpiled code side by side,
 * guided by the edits the transpiler made, and writes one `mappings` segment
 * per stretch of code and one `;` per line of the transpiled code.
 *
 * Next to the text the model keeps the tokens it wrote (`Tok`) and, for every
 * segment, the two offsets it stands for (`Mark`); neither is computed by the
 * source, they only name what the text means.
 */
module SourcemapBuild {
  import opened Wrappers
  import opened Position
  import opened Sourcemap

  /** An edit: at offset `at` of the original, `delta` characters inserted (positive) or removed (negative). */
  datatype Edit = Edit(at: int, delta: int)

  // ---------------------------------------------------------------------
  // Ordering the edits
  // ---------------------------------------------------------------------

  /** Edits that change nothing are dropped. */
  function Changing(edits: seq<Edit>): (r: seq<Edit>)
    ensures forall k :: 0 <= k < |r| ==> r[k].delta != 0
    ensures forall e :: e in edits && e.delta != 0 <==> e in r
    decreases |edits|
  {
    if edits == [] then []
    else (if edits[0].delta != 0 then [edits[0]] else []) + Changing(edits[1..])
  }

  predicate Ascending(s: seq<Edit>) {
    forall k :: 0 < k < |s| ==> s[k - 1].at <= s[k].at
  }

  /** Places `x` after every edit of `s` whose offset is not above its own. */
  function Insert(x: Edit, s: seq<Edit>): (r: seq<Edit>)
    ensures multiset(r) == multiset(s) + multiset{x}
    ensures |r| == |s| + 1 && (r[0] == x || (s != [] && r[0] == s[0]))
    decreases |s|
  {
    if s == [] || x.at < s[0].at then [x] + s
    else
      assert s == [s[0]] + s[1..];
      [s[0]] + Insert(x, s[1..])
  }

  lemma {:induction false} InsertAscending(x: Edit, s: seq<Edit>)
    requires Ascending(s)
    ensures Ascending(Insert(x, s))
    decreases |s|
  {
    if !(s == [] || x.at < s[0].at) {
      var t := Insert(x, s[1..]);
      InsertAscending(x, s[1..]);
      var r := [s[0]] + t;
      assert r == Insert(x, s);
      forall k | 0 < k < |r|
        ensures r[k - 1].at <= r[k].at
      {
        if k > 1 {
          assert r[k - 1] == t[k - 2] && r[k] == t[k - 1];
        } else if |s| > 1 {
          assert s[0].at <= s[1].at;
        }
      }
    }
  }

  /** A stable sort on `at`, as `Array.prototype.sort` with `(a, b) => a.at - b.at` is. */
  function Sort(s: seq<Edit>): (r: seq<Edit>)
    ensures multiset(r) == multiset(s) && Ascending(r)
    decreases |s|
  {
    if s == [] then []
    else
      assert s == s[..|s| - 1] + [s[|s| - 1]];
      InsertAscending(s[|s| - 1], Sort(s[..|s| - 1]));
      Insert(s[|s| - 1], Sort(s[..|s| - 1]))
  }

  /** The edits `buildSourcemap` walks through: the changing ones, by ascending offset. */
  function SortedEdits(edits: seq<Edit>): (r: seq<Edit>)
    ensures Ascending(r) && multiset(r) == multiset(Changing(edits))
    ensures forall k :: 0 <= k < |r| ==> r[k].delta != 0
  {
    var r := Sort(Changing(edits));
    assert forall k :: 0 <= k < |r| ==> r[k] in multiset(Changing(edits));
    r
  }

  /** Exactly the changing edits are walked through, each as often as it was given. */
  lemma SortedEditsAreChanging(edits: seq<Edit>, e: Edit)
    ensures e in SortedEdits(edits) <==> e in edits && e.delta != 0
    ensures e.delta != 0 ==> multiset(SortedEdits(edits))[e] == multiset(edits)[e]
  {
    CountChanging(edits, e);
    assert e in SortedEdits(edits) <==> e in multiset(SortedEdits(edits));
    assert e in Changing(edits) <==> e in multiset(Changing(edits));
  }

  lemma {:induction false} CountChanging(edits: seq<Edit>, e: Edit)
    ensures e.delta != 0 ==> multiset(Changing(edits))[e] == multiset(edits)[e]
    decreases |edits|
  {
    if edits != [] {
      CountChanging(edits[1..], e);
      assert edits == [edits[0]] + edits[1..];
    }
  }

  // ---------------------------------------------------------------------
  // What the tokens mean
  // ---------------------------------------------------------------------

  /** The offsets a segment stands for, in the transpiled and in the original code. */
  datatype Mark = Mark(t: nat, o: nat)

  /** Absolute values a decoder reconstructs: transpiled line and column, original line and column. */
  datatype Abs = Abs(tline: int, tcol: int, oline: int, ocol: int)

  /** How a decoder moves on one token: a line resets the transpiled column, a segment adds its deltas. */
  function Advance(a: Abs, tok: Tok): Abs {
    match tok
    case NewLine => Abs(a.tline + 1, 0, a.oline, a.ocol)
    case Seg(tc, ol, oc) => Abs(a.tline, a.tcol + tc, a.oline + ol, a.ocol + oc)
  }

  /** Where a decoder stands after `toks`. */
  function Walk(toks: seq<Tok>): Abs
    decreases |toks|
  {
    if toks == [] then Abs(0, 0, 0, 0)
    else Advance(Walk(toks[..|toks| - 1]), toks[|toks| - 1])
  }

  /** The absolute values of every segment of `toks`, in order. */
  function Points(toks: seq<Tok>): seq<Abs>
    decreases |toks|
  {
    if toks == [] then []
    else
      var init := toks[..|toks| - 1];
      Points(init) + (if toks[|toks| - 1].Seg? then [Advance(Walk(init), toks[|toks| - 1])] else [])
  }

  lemma WalkSnoc(toks: seq<Tok>, tok: Tok)
    ensures Walk(toks + [tok]) == Advance(Walk(toks), tok)
    ensures Points(toks + [tok]) == Points(toks) + (if tok.Seg? then [Advance(Walk(toks), tok)] else [])
  {
    assert (toks + [tok])[..|toks|] == toks;
  }

  lemma WithinSnoc(toks: seq<Tok>, tok: Tok, bound: int)
    requires Within(toks, bound)
    requires tok.Seg? ==> -bound <= tok.tc <= bound && -bound <= tok.ol <= bound && -bound <= tok.oc <= bound
    ensures Within(toks + [tok], bound)
  {
    var r := toks + [tok];
    forall k | 0 <= k < |r| && r[k].Seg?
      ensures -bound <= r[k].tc <= bound && -bound <= r[k].ol <= bound && -bound <= r[k].oc <= bound
    {
      if k < |toks| {
        assert r[k] == toks[k];
      }
    }
  }

  lemma WithinWeaken(toks: seq<Tok>, b1: int, b2: int)
    requires Within(toks, b1) && b1 <= b2
    ensures Within(toks, b2)
  {
  }

  /** Line `line` and column `col` are those of offset `at` in `code`. */
  predicate ValidAt(code: string, at: nat, line: int, col: int) {
    line >= 0 && col >= 0 && Valid(code, Pos(at, line, col))
  }

  /** Both offsets only move forward from one segment to the next. */
  predicate Monotone(marks: seq<Mark>) {
    forall k :: 0 < k < |marks| ==> marks[k - 1].t <= marks[k].t && marks[k - 1].o <= marks[k].o
  }

  /** Every segment's absolute values are the line and column of its offsets in the two codes. */
  predicate MarksMatch(original: string, transpiled: string, points: seq<Abs>, marks: seq<Mark>) {
    && |points| == |marks|
    && forall k :: 0 <= k < |marks| ==>
         ValidAt(transpiled, marks[k].t, points[k].tline, points[k].tcol)
         && ValidAt(original, marks[k].o, points[k].oline, points[k].ocol)
  }

  // ---------------------------------------------------------------------
  // The state of `buildSourcemap`
  // ---------------------------------------------------------------------

  /**
   * The local state of `buildSourcemap`: the two cursors, `mapping`,
   * `needsSeparator`, the three `*Prev*` values, and the tokens and marks
   * written so far.
   */
  datatype Builder = Builder(
    o: Pos, t: Pos, mapping: string, sep: bool,
    tPrevCol: int, oPrevLine: int, oPrevCol: int,
    toks: seq<Tok>, marks: seq<Mark>)

  /**
   * `addSegment(tc, ol, oc)`: appends the segment, sets `needsSeparator`; the
   * mark is the cursors' offsets. The four VLQs are written one after the
   * other.
   */
  function AddSegment(b: Builder, sourceIndex: int, tc: int, ol: int, oc: int): Builder {
    b.(mapping := b.mapping + ((if b.sep then "," else "") + EncodeAll([tc, sourceIndex, ol, oc])),
       sep := true, toks := b.toks + [Seg(tc, ol, oc)], marks := b.marks + [Mark(b.t.at, b.o.at)])
  }

  /** `addLine()`: appends `;` and clears `needsSeparator`. */
  function AddLine(b: Builder): Builder {
    b.(mapping := b.mapping + ";", sep := false, toks := b.toks + [NewLine])
  }

  /** A segment for the cursors as they stand, then the `*Prev*` values set to them. */
  function Emit(b: Builder, sourceIndex: int): Builder {
    var b' := AddSegment(b, sourceIndex, b.t.column - b.tPrevCol, b.o.line - b.oPrevLine, b.o.column - b.oPrevCol);
    b'.(tPrevCol := b.t.column, oPrevLine := b.o.line, oPrevCol := b.o.column)
  }

  /** The `*Prev*` values equal the cursors: the next segment would be all zero. */
  predicate Synced(b: Builder) {
    b.tPrevCol == b.t.column && b.oPrevLine == b.o.line && b.oPrevCol == b.o.column
  }

  /** `mapping` and `needsSeparator` are what the tokens render to. */
  predicate TextOk(b: Builder, sourceIndex: int) {
    b.mapping == Mapping(b.toks, sourceIndex) && b.sep == SepAfter(b.toks, false)
  }

  /** A decoder of the tokens stands where the `*Prev*` values say, and every delta is bounded by the code. */
  predicate PrevOk(original: string, transpiled: string, b: Builder) {
    && Walk(b.toks) == Abs(b.t.line, b.tPrevCol, b.oPrevLine, b.oPrevCol)
    && 0 <= b.tPrevCol <= |transpiled| && 0 <= b.oPrevLine <= |original| && 0 <= b.oPrevCol <= |original|
    && Within(b.toks, |original| + |transpiled|)
  }

  /** The marks match the points, move forward, and lie behind the cursors. */
  predicate MarksOk(original: string, transpiled: string, b: Builder) {
    && MarksMatch(original, transpiled, Points(b.toks), b.marks)
    && Monotone(b.marks)
    && (b.marks != [] ==> b.marks[|b.marks| - 1].t <= b.t.at && b.marks[|b.marks| - 1].o <= b.o.at)
  }

  /** The loop invariant of `buildSourcemap`. */
  predicate Tracks(original: string, transpiled: string, sourceIndex: int, b: Builder) {
    && Valid(original, b.o) && Valid(transpiled, b.t)
    && TextOk(b, sourceIndex)
    && PrevOk(original, transpiled, b)
    && MarksOk(original, transpiled, b)
  }

  /** The state before the first segment. */
  function Start(original: string, transpiled: string): Builder {
    Builder(CreatePosition(original), CreatePosition(transpiled), "", false, 0, 0, 0, [], [])
  }

  /** The invariant holds before the first segment. */
  lemma StartTracks(original: string, transpiled: string, sourceIndex: int)
    ensures var b := Start(original, transpiled);
      Tracks(original, transpiled, sourceIndex, b) && Synced(b) && b.t.at == 0
  {
  }

  lemma TextSeg(b: Builder, b': Builder, sourceIndex: int, tc: int, ol: int, oc: int)
    requires TextOk(b, sourceIndex)
    requires b'.mapping == b.mapping + ((if b.sep then "," else "") + EncodeAll([tc, sourceIndex, ol, oc]))
    requires b'.sep && b'.toks == b.toks + [Seg(tc, ol, oc)]
    ensures TextOk(b', sourceIndex)
  {
    RenderSnoc(b.toks, Seg(tc, ol, oc), sourceIndex, false);
  }

  lemma TextLine(b: Builder, sourceIndex: int)
    requires TextOk(b, sourceIndex)
    ensures TextOk(AddLine(b), sourceIndex)
  {
    RenderSnoc(b.toks, NewLine, sourceIndex, false);
  }

  /** A segment for the cursors keeps the invariant and syncs the `*Prev*` values. */
  lemma EmitKeeps(original: string, transpiled: string, sourceIndex: int, b: Builder)
    requires Tracks(original, transpiled, sourceIndex, b)
    ensures var b' := Emit(b, sourceIndex);
      Tracks(original, transpiled, sourceIndex, b') && Synced(b') && b'.o == b.o && b'.t == b.t
  {
    var seg := Seg(b.t.column - b.tPrevCol, b.o.line - b.oPrevLine, b.o.column - b.oPrevCol);
    var b' := Emit(b, sourceIndex);
    assert b'.toks == b.toks + [seg];
    EmitText(b, sourceIndex);
    EmitPrev(original, transpiled, b, b', seg);
    EmitMarks(original, transpiled, b, b');
  }

  lemma EmitText(b: Builder, sourceIndex: int)
    requires TextOk(b, sourceIndex)
    ensures TextOk(Emit(b, sourceIndex), sourceIndex)
  {
    var b' := Emit(b, sourceIndex);
    TextSeg(b, b', sourceIndex, b.t.column - b.tPrevCol, b.o.line - b.oPrevLine, b.o.column - b.oPrevCol);
  }

  lemma EmitPrev(original: string, transpiled: string, b: Builder, b': Builder, seg: Tok)
    requires PrevOk(original, transpiled, b) && Valid(original, b.o) && Valid(transpiled, b.t)
    requires seg == Seg(b.t.column - b.tPrevCol, b.o.line - b.oPrevLine, b.o.column - b.oPrevCol)
    requires b'.toks == b.toks + [seg] && b'.t == b.t
    requires b'.tPrevCol == b.t.column && b'.oPrevLine == b.o.line && b'.oPrevCol == b.o.column
    ensures PrevOk(original, transpiled, b')
    ensures Points(b'.toks) == Points(b.toks) + [Abs(b.t.line, b.t.column, b.o.line, b.o.column)]
  {
    WalkSnoc(b.toks, seg);
    ValidBounds(original, b.o);
    ValidBounds(transpiled, b.t);
    WithinSnoc(b.toks, seg, |original| + |transpiled|);
  }

  lemma EmitMarks(original: string, transpiled: string, b: Builder, b': Builder)
    requires MarksOk(original, transpiled, b) && Valid(original, b.o) && Valid(transpiled, b.t)
    requires b'.o == b.o && b'.t == b.t && b'.marks == b.marks + [Mark(b.t.at, b.o.at)]
    requires Points(b'.toks) == Points(b.toks) + [Abs(b.t.line, b.t.column, b.o.line, b.o.column)]
    ensures MarksOk(original, transpiled, b')
  {
    var ps, ms := Points(b'.toks), b'.marks;
    forall k | 0 <= k < |ms|
      ensures ValidAt(transpiled, ms[k].t, ps[k].tline, ps[k].tcol)
      ensures ValidAt(original, ms[k].o, ps[k].oline, ps[k].ocol)
    {
      if k < |b.marks| {
        assert ms[k] == b.marks[k] && ps[k] == Points(b.toks)[k];
      } else {
        assert Pos(ms[k].t, ps[k].tline, ps[k].tcol) == b.t;
        assert Pos(ms[k].o, ps[k].oline, ps[k].ocol) == b.o;
      }
    }
    forall k | 0 < k < |ms|
      ensures ms[k - 1].t <= ms[k].t && ms[k - 1].o <= ms[k].o
    {
      assert ms[k - 1] == b.marks[k - 1];
      if k < |b.marks| {
        assert ms[k] == b.marks[k];
      }
    }
    assert ms[|ms| - 1] == Mark(b.t.at, b.o.at);
  }

  /** Moving the cursors forward, the transpiled one within its line, keeps the invariant. */
  lemma MoveKeeps(original: string, transpiled: string, sourceIndex: int, b: Builder, o: Pos, t: Pos)
    requires Tracks(original, transpiled, sourceIndex, b)
    requires Valid(original, o) && Valid(transpiled, t) && b.o.at <= o.at && b.t.at <= t.at && t.line == b.t.line
    ensures Tracks(original, transpiled, sourceIndex, b.(o := o, t := t))
  {
  }

  /** `addLine`, then both cursors over a line break each, keeps the invariant with the column base reset. */
  lemma LineKeeps(original: string, transpiled: string, sourceIndex: int, b: Builder, o: Pos, t: Pos)
    requires Tracks(original, transpiled, sourceIndex, b)
    requires Valid(original, o) && Valid(transpiled, t) && b.o.at <= o.at && b.t.at <= t.at && t.line == b.t.line + 1
    ensures Tracks(original, transpiled, sourceIndex, AddLine(b).(o := o, t := t, tPrevCol := 0))
  {
    TextLine(b, sourceIndex);
    WalkSnoc(b.toks, NewLine);
    WithinSnoc(b.toks, NewLine, |original| + |transpiled|);
  }

  // ---------------------------------------------------------------------
  // Edits that describe the two codes
  // ---------------------------------------------------------------------

  /** The two builds: as written, or with the end of the code ending the last line. */
  datatype Build = AsWritten | Corrected

  /** No `"\r"` in `code`: every line break is a single `"\n"`. */
  predicate NoCR(code: string) {
    forall i :: 0 <= i < |code| ==> code[i] != '\r'
  }

  /** Without `"\r"` a line break starts exactly at a `"\n"`. */
  lemma NoCRMatch(code: string, i: nat)
    requires NoCR(code)
    ensures MatchAt(code, i) == (if i < |code| && code[i] == '\n' then 1 else 0)
  {
  }

  /**
   * `original[o..]` turns into `transpiled[t..]` by the edits `sorted[k..]`:
   * up to the next edit the two codes agree; an insertion then covers
   * `delta` characters of the transpiled code, a removal `-delta` characters
   * of the original; after the last edit they agree to the end.
   */
  predicate Describes(original: string, o: nat, transpiled: string, t: nat, sorted: seq<Edit>, k: nat)
    decreases |sorted| - k
  {
    && o <= |original| && t <= |transpiled| && k <= |sorted|
    && (if k == |sorted| then original[o..] == transpiled[t..]
        else
          var e := sorted[k];
          && o <= e.at <= |original| && t + (e.at - o) <= |transpiled|
          && original[o..e.at] == transpiled[t..t + (e.at - o)]
          && (if e.delta > 0 then Describes(original, e.at, transpiled, t + (e.at - o) + e.delta, sorted, k + 1)
              else Describes(original, e.at - e.delta, transpiled, t + (e.at - o), sorted, k + 1)))
  }

  /** Where the stretch the two codes share ends in the original: the next edit, or the end. */
  function KeepEnd(original: string, sorted: seq<Edit>, k: nat): int {
    if k < |sorted| then sorted[k].at else |original|
  }

  /** Where the text after the last edit starts in the transpiled code. */
  function TailStart(o: int, t: int, sorted: seq<Edit>, k: nat): int
    decreases |sorted| - k
  {
    if k >= |sorted| then t
    else
      var e := sorted[k];
      if e.delta > 0 then TailStart(e.at, t + (e.at - o) + e.delta, sorted, k + 1)
      else TailStart(e.at - e.delta, t + (e.at - o), sorted, k + 1)
  }

  /** On described codes the tail starts ahead of the cursor and inside the transpiled code. */
  lemma {:induction false} TailStartBounds(original: string, o: nat, transpiled: string, t: nat, sorted: seq<Edit>, k: nat)
    requires Describes(original, o, transpiled, t, sorted, k)
    ensures t <= TailStart(o, t, sorted, k) <= |transpiled|
    decreases |sorted| - k
  {
    if k < |sorted| {
      var e := sorted[k];
      if e.delta > 0 {
        TailStartBounds(original, e.at, transpiled, t + (e.at - o) + e.delta, sorted, k + 1);
      } else {
        TailStartBounds(original, e.at - e.delta, transpiled, t + (e.at - o), sorted, k + 1);
      }
    }
  }

  /** The transpiled text after the last edit. */
  function TailOf(original: string, transpiled: string, sorted: seq<Edit>): string
    requires Describes(original, 0, transpiled, 0, sorted, 0)
  {
    TailStartBounds(original, 0, transpiled, 0, sorted, 0);
    transpiled[TailStart(0, 0, sorted, 0)..]
  }

  /** The inputs the success condition is stated for: no `"\r"`, and edits that describe the two codes. */
  predicate Consistent(original: string, transpiled: string, edits: seq<Edit>) {
    Described(original, transpiled, SortedEdits(edits))
  }

  /** The transpiled code after the last edit. */
  function Trailing(original: string, transpiled: string, edits: seq<Edit>): string
    requires Consistent(original, transpiled, edits)
  {
    TailOf(original, transpiled, SortedEdits(edits))
  }

  /** Empty, or ending in a line break. */
  predicate EndsWithBreak(s: string) {
    s == [] || s[|s| - 1] == '\n'
  }

  lemma EndsWithBreakFrom(transpiled: string, tail: nat)
    requires tail <= |transpiled|
    ensures EndsWithBreak(transpiled[tail..]) <==> tail == |transpiled| || transpiled[|transpiled| - 1] == '\n'
  {
    if tail < |transpiled| {
      assert transpiled[tail..][|transpiled| - tail - 1] == transpiled[|transpiled| - 1];
    }
  }

  /** The shared stretch fits in both codes and the two agree on it. */
  lemma DescribesAgree(original: string, o: nat, transpiled: string, t: nat, sorted: seq<Edit>, k: nat)
    requires Describes(original, o, transpiled, t, sorted, k)
    ensures o <= KeepEnd(original, sorted, k) <= |original|
    ensures t + (KeepEnd(original, sorted, k) - o) <= |transpiled|
    ensures forall i :: o <= i < KeepEnd(original, sorted, k) ==> original[i] == transpiled[t + (i - o)]
  {
    var n := KeepEnd(original, sorted, k) - o;
    assert original[o..o + n] == transpiled[t..t + n];
    forall i | o <= i < KeepEnd(original, sorted, k)
      ensures original[i] == transpiled[t + (i - o)]
    {
      assert original[o..o + n][i - o] == transpiled[t..t + n][i - o];
    }
  }

  /** Both cursors moving together inside the shared stretch stay described, with the same tail. */
  lemma DescribesShift(original: string, o: nat, transpiled: string, t: nat, sorted: seq<Edit>, k: nat, j: nat)
    requires Describes(original, o, transpiled, t, sorted, k) && o + j <= KeepEnd(original, sorted, k)
    ensures Describes(original, o + j, transpiled, t + j, sorted, k)
    ensures TailStart(o + j, t + j, sorted, k)
            == if k == |sorted| then t + j else TailStart(o, t, sorted, k)
  {
    DescribesAgree(original, o, transpiled, t, sorted, k);
    var n := KeepEnd(original, sorted, k) - o;
    assert original[o..o + n] == transpiled[t..t + n];
    assert original[o + j..o + n] == original[o..o + n][j..];
    assert transpiled[t + j..t + n] == transpiled[t..t + n][j..];
  }

  /** At the edit itself the edit applies: an insertion moves the transpiled cursor, a removal the original one. */
  lemma DescribesEdit(original: string, o: nat, transpiled: string, t: nat, sorted: seq<Edit>, k: nat)
    requires Describes(original, o, transpiled, t, sorted, k) && k < |sorted| && o == sorted[k].at
    ensures var e := sorted[k];
      if e.delta > 0 then
        && Describes(original, o, transpiled, t + e.delta, sorted, k + 1)
        && TailStart(o, t, sorted, k) == TailStart(o, t + e.delta, sorted, k + 1)
      else
        && Describes(original, o - e.delta, transpiled, t, sorted, k + 1)
        && TailStart(o, t, sorted, k) == TailStart(o - e.delta, t, sorted, k + 1)
  {
  }

  /**
   * Where the start of a pass leaves the cursors of two described codes: at
   * the end of the shared stretch, or both on a line break inside it, from
   * where crossing it keeps them described.
   */
  lemma ApproachDescribed(original: string, transpiled: string, sorted: seq<Edit>, k: nat, o: nat, t: nat, o2: nat, t2: nat)
    requires NoCR(original) && NoCR(transpiled) && Describes(original, o, transpiled, t, sorted, k) && t < |transpiled|
    requires var target := t + (KeepEnd(original, sorted, k) - o);
      && t <= t2 && NoMatch(transpiled, t, t2)
      && (t < target ==> t2 == Min(target, |transpiled|) || (t2 < target && MatchAt(transpiled, t2) > 0))
      && (target <= t ==> t2 == t)
    requires o + (t2 - t) <= |original| ==> o2 == o + (t2 - t)
    ensures o2 == o + (t2 - t) && o2 <= KeepEnd(original, sorted, k)
    ensures Describes(original, o2, transpiled, t2, sorted, k)
    ensures TailStart(o2, t2, sorted, k)
            == if k == |sorted| then t2 else TailStart(o, t, sorted, k)
    ensures o2 < KeepEnd(original, sorted, k) ==>
      && t2 < |transpiled| && transpiled[t2] == '\n' && original[o2] == '\n'
      && Describes(original, o2 + 1, transpiled, t2 + 1, sorted, k)
      && TailStart(o2 + 1, t2 + 1, sorted, k)
         == if k == |sorted| then t2 + 1 else TailStart(o, t, sorted, k)
  {
    DescribesAgree(original, o, transpiled, t, sorted, k);
    DescribesShift(original, o, transpiled, t, sorted, k, t2 - t);
    if o2 < KeepEnd(original, sorted, k) {
      NoCRMatch(transpiled, t2);
      DescribesShift(original, o, transpiled, t, sorted, k, t2 - t + 1);
    }
  }

  /**
   * What the start of a pass does with the transpiled cursor: from `t` it
   * moves, without crossing a line break, to `target`, to the end of the
   * code, or to the first line break before `target`.
   */
  predicate Approached(transpiled: string, t: nat, t2: nat, target: int) {
    && t <= t2 && NoMatch(transpiled, t, t2)
    && (t < target && t < |transpiled| ==> t2 == Min(target, |transpiled|) || (t2 < target && MatchAt(transpiled, t2) > 0))
    && (target <= t ==> t2 == t)
  }

  /** The loop state as the edits describe it: corresponding offsets `o` and `t`, next edit `k`, and `offset == t - o`. */
  predicate SimAt(original: string, transpiled: string, sorted: seq<Edit>, k: nat, o: nat, t: nat, offset: int) {
    && NoCR(original) && NoCR(transpiled)
    && Describes(original, o, transpiled, t, sorted, k) && offset == t - o
  }

  /** A pass whose start lands on the next edit: applying the edit keeps the state described, with the same tail. */
  lemma PassToEdit(original: string, transpiled: string, sorted: seq<Edit>, k: nat, o: nat, t: nat, offset: int,
                   o2: nat, t2: nat, target: int)
    requires SimAt(original, transpiled, sorted, k, o, t, offset) && t < |transpiled|
    requires k < |sorted| && target == sorted[k].at + offset
    requires Approached(transpiled, t, t2, target) && (o + (t2 - t) <= |original| ==> o2 == o + (t2 - t))
    requires o2 == sorted[k].at
    ensures var e := sorted[k];
      && (e.delta > 0 ==>
            && t2 + e.delta <= |transpiled| && SimAt(original, transpiled, sorted, k + 1, o2, t2 + e.delta, offset + e.delta)
            && TailStart(o2, t2 + e.delta, sorted, k + 1) == TailStart(o, t, sorted, k))
      && (e.delta <= 0 ==>
            && o2 <= e.at - e.delta <= |original| && SimAt(original, transpiled, sorted, k + 1, e.at - e.delta, t2, offset + e.delta)
            && TailStart(e.at - e.delta, t2, sorted, k + 1) == TailStart(o, t, sorted, k))
  {
    DescribesAgree(original, o, transpiled, t, sorted, k);
    ApproachDescribed(original, transpiled, sorted, k, o, t, o2, t2);
    DescribesEdit(original, o2, transpiled, t2, sorted, k);
  }

  /**
   * A pass whose start stops short of the next edit: both cursors are on a
   * line break, which the pass crosses, or, after the last edit only, both
   * are at the end of their code.
   */
  lemma PassToLine(original: string, transpiled: string, sorted: seq<Edit>, k: nat, o: nat, t: nat, offset: int,
                   o2: nat, t2: nat, target: int)
    requires SimAt(original, transpiled, sorted, k, o, t, offset) && t < |transpiled|
    requires target == if k < |sorted| then sorted[k].at + offset else |transpiled|
    requires Approached(transpiled, t, t2, target) && (o + (t2 - t) <= |original| ==> o2 == o + (t2 - t))
    requires !(k < |sorted| && o2 == sorted[k].at)
    ensures t2 < |transpiled| ==>
      && MatchAt(original, o2) == 1 && MatchAt(transpiled, t2) == 1 && transpiled[t2] == '\n'
      && SimAt(original, transpiled, sorted, k, o2 + 1, t2 + 1, offset)
      && TailStart(o2 + 1, t2 + 1, sorted, k)
         == (if k == |sorted| then t2 + 1 else TailStart(o, t, sorted, k))
      && TailStart(o, t, sorted, k) <= TailStart(o2 + 1, t2 + 1, sorted, k)
    ensures t2 >= |transpiled| ==>
      && k == |sorted| && t2 == |transpiled| && MatchAt(original, o2) == 0
      && SimAt(original, transpiled, sorted, k, o2, t2, offset)
  {
    DescribesAgree(original, o, transpiled, t, sorted, k);
    ApproachDescribed(original, transpiled, sorted, k, o, t, o2, t2);
    NoCRMatch(original, o2);
    NoCRMatch(transpiled, t2);
  }

  // ---------------------------------------------------------------------
  // The walk
  // ---------------------------------------------------------------------

  /**
   * The loop at `const limit = transpiled.at + edit.delta`: over inserted
   * code the transpiled cursor moves line by line up to `limit`, writing `;`
   * for every line break it crosses; `advanceNewLine` throws when the
   * cursor stops short of `limit` at the end of the code.
   */
  method InsertedCode(original: string, transpiled: string, sourceIndex: int, b: Builder, limit: int)
    returns (r: Result<Builder>)
    requires Tracks(original, transpiled, sourceIndex, b)
    requires b.oPrevLine == b.o.line && b.oPrevCol == b.o.column && b.tPrevCol <= b.t.column
    ensures r.Ok? ==> var c := r.value;
      && Tracks(original, transpiled, sourceIndex, c)
      && c.o == b.o && c.oPrevLine == b.o.line && c.oPrevCol == b.o.column
      && c.tPrevCol <= c.t.column && b.t.at <= c.t.at
    ensures r.Err? ==> r.error == "invalid state: not at a newline"
    ensures limit <= |transpiled| ==> r.Ok?
    ensures r.Ok? && NoCR(transpiled) && b.t.at <= limit ==> r.value.t.at == limit
  {
    var c := b;
    while true
      invariant Tracks(original, transpiled, sourceIndex, c)
      invariant c.o == b.o && c.oPrevLine == b.o.line && c.oPrevCol == b.o.column
      invariant c.tPrevCol <= c.t.column && b.t.at <= c.t.at
      invariant NoCR(transpiled) && b.t.at <= limit ==> c.t.at <= limit
      decreases |transpiled| - c.t.at
    {
      var t, _ := AdvanceTo(transpiled, c.t, limit, true);
      MoveKeeps(original, transpiled, sourceIndex, c, c.o, t);
      c := c.(t := t);
      if c.t.at < limit {
        match AdvanceNewLine(transpiled, c.t)
        case Err(e) =>
          return Err(e);
        case Ok(t2) =>
          if NoCR(transpiled) {
            NoCRMatch(transpiled, c.t.at);
          }
          AdvanceNewLineValid(transpiled, c.t);
          LineKeeps(original, transpiled, sourceIndex, c, c.o, t2);
          c := AddLine(c).(t := t2, tPrevCol := 0);
      } else {
        break;
      }
    }
    r := Ok(c);
  }

  /**
   * The start of a pass: a segment for where both cursors stand, then the
   * transpiled cursor up to `target` or the next line break, and the original
   * one forward by as much, with a second segment when they moved.
   */
  method Approach(original: string, transpiled: string, sourceIndex: int, b: Builder, target: int)
    returns (c: Builder)
    requires Tracks(original, transpiled, sourceIndex, b)
    ensures Tracks(original, transpiled, sourceIndex, c) && Synced(c) && b.t.at <= c.t.at
    ensures Approached(transpiled, b.t.at, c.t.at, target)
    ensures NoCR(original) && b.o.at + (c.t.at - b.t.at) <= |original| ==> c.o.at == b.o.at + (c.t.at - b.t.at)
  {
    EmitKeeps(original, transpiled, sourceIndex, b);
    c := Emit(b, sourceIndex);
    var t, skip := AdvanceTo(transpiled, c.t, target, true);
    if skip > 0 {
      var o, _ := AdvanceTo(original, c.o, c.o.at + skip, false);
      if NoCR(original) {
        NoCRMatch(original, c.o.at + skip - 1);
      }
      MoveKeeps(original, transpiled, sourceIndex, c, o, t);
      c := c.(o := o, t := t);
      EmitKeeps(original, transpiled, sourceIndex, c);
      c := Emit(c, sourceIndex);
    } else {
      assert t == c.t;
    }
  }

  /** With the original cursor where the last segment left it, the column-only segment is `Emit`. */
  lemma EmitColumn(b: Builder, sourceIndex: int)
    requires b.oPrevLine == b.o.line && b.oPrevCol == b.o.column
    ensures AddSegment(b, sourceIndex, b.t.column - b.tPrevCol, 0, 0).(tPrevCol := b.t.column) == Emit(b, sourceIndex)
  {
  }

  /** With the transpiled cursor where the last segment left it, the original-only segment is `Emit`. */
  lemma EmitOriginal(b: Builder, sourceIndex: int)
    requires b.tPrevCol == b.t.column
    ensures AddSegment(b, sourceIndex, 0, b.o.line - b.oPrevLine, b.o.column - b.oPrevCol)
              .(oPrevLine := b.o.line, oPrevCol := b.o.column) == Emit(b, sourceIndex)
  {
  }

  /** The edit reached: inserted code walked over in the transpiled code, or removed code skipped in the original. */
  method ApplyEdit(original: string, transpiled: string, sourceIndex: int, b: Builder, edit: Edit)
    returns (r: Result<Builder>)
    requires Tracks(original, transpiled, sourceIndex, b) && Synced(b)
    ensures r.Ok? ==> Tracks(original, transpiled, sourceIndex, r.value) && b.t.at <= r.value.t.at
    ensures r.Err? ==> r.error == "invalid state: not at a newline"
    ensures edit.delta > 0 && b.t.at + edit.delta <= |transpiled| ==> r.Ok?
    ensures edit.delta > 0 && r.Ok? && NoCR(transpiled) ==> r.value.t.at == b.t.at + edit.delta && r.value.o.at == b.o.at
    ensures edit.delta <= 0 ==> r.Ok? && r.value.t.at == b.t.at
    ensures edit.delta <= 0 && NoCR(original) && b.o.at <= edit.at - edit.delta ==>
      r.value.o.at == Min(edit.at - edit.delta, |original|)
  {
    if edit.delta > 0 {
      r := InsertEdit(original, transpiled, sourceIndex, b, edit.delta);
    } else {
      var c := RemoveEdit(original, transpiled, sourceIndex, b, edit.at - edit.delta);
      r := Ok(c);
    }
  }

  /** An insertion of `delta` characters: walk the transpiled cursor over them, then one segment for the last line. */
  method InsertEdit(original: string, transpiled: string, sourceIndex: int, b: Builder, delta: int)
    returns (r: Result<Builder>)
    requires Tracks(original, transpiled, sourceIndex, b) && Synced(b)
    ensures r.Ok? ==> Tracks(original, transpiled, sourceIndex, r.value) && b.t.at <= r.value.t.at
    ensures r.Err? ==> r.error == "invalid state: not at a newline"
    ensures b.t.at + delta <= |transpiled| ==> r.Ok?
    ensures delta > 0 && r.Ok? && NoCR(transpiled) ==> r.value.t.at == b.t.at + delta && r.value.o.at == b.o.at
  {
    var res := InsertedCode(original, transpiled, sourceIndex, b, b.t.at + delta);
    if res.Err? {
      return Err(res.error);
    }
    var c := res.value;
    if c.t.column > c.tPrevCol {
      EmitColumn(c, sourceIndex);
      EmitKeeps(original, transpiled, sourceIndex, c);
      c := AddSegment(c, sourceIndex, c.t.column - c.tPrevCol, 0, 0).(tPrevCol := c.t.column);
    }
    r := Ok(c);
  }

  /** A removal up to offset `to` of the original: move the original cursor there and emit one segment. */
  method RemoveEdit(original: string, transpiled: string, sourceIndex: int, b: Builder, to: int)
    returns (c': Builder)
    requires Tracks(original, transpiled, sourceIndex, b) && Synced(b)
    ensures Tracks(original, transpiled, sourceIndex, c') && c'.t.at == b.t.at
    ensures NoCR(original) && b.o.at <= to ==> c'.o.at == Min(to, |original|)
  {
    var o, _ := AdvanceTo(original, b.o, to, false);
    if NoCR(original) && b.o.at < to {
      NoCRMatch(original, to - 1);
    }
    MoveKeeps(original, transpiled, sourceIndex, b, o, b.t);
    var c := b.(o := o);
    EmitOriginal(c, sourceIndex);
    EmitKeeps(original, transpiled, sourceIndex, c);
    c' := AddSegment(c, sourceIndex, 0, c.o.line - c.oPrevLine, c.o.column - c.oPrevCol)
            .(oPrevLine := c.o.line, oPrevCol := c.o.column);
  }

  /** No edit here: `addLine`, then both cursors over their line break; either throws when there is none. */
  method CrossLine(original: string, transpiled: string, sourceIndex: int, b: Builder)
    returns (r: Result<Builder>)
    requires Tracks(original, transpiled, sourceIndex, b)
    ensures r.Ok? ==> Tracks(original, transpiled, sourceIndex, r.value) && b.t.at < r.value.t.at
    ensures r.Err? ==> r.error == "invalid state: not at a newline"
    ensures r.Ok? <==> MatchAt(original, b.o.at) > 0 && MatchAt(transpiled, b.t.at) > 0
    ensures r.Ok? ==>
      r.value.o.at == b.o.at + MatchAt(original, b.o.at) && r.value.t.at == b.t.at + MatchAt(transpiled, b.t.at)
  {
    match AdvanceNewLine(original, b.o)
    case Err(e) =>
      return Err(e);
    case Ok(o) =>
      match AdvanceNewLine(transpiled, b.t)
      case Err(e) =>
        return Err(e);
      case Ok(t) =>
        AdvanceNewLineValid(original, b.o);
        AdvanceNewLineValid(transpiled, b.t);
        LineKeeps(original, transpiled, sourceIndex, b, o, t);
        r := Ok(AddLine(b).(o := o, t := t, tPrevCol := 0));
  }

  /**
   * The end of a pass that stops short of the next edit: cross the line
   * break, or, in the corrected build, stop at the end of the code.
   */
  method LineEnd(original: string, transpiled: string, sourceIndex: int, c: Builder, build: Build)
    returns (r: Result<Builder>)
    requires Tracks(original, transpiled, sourceIndex, c)
    ensures r.Ok? ==> Tracks(original, transpiled, sourceIndex, r.value) && c.t.at <= r.value.t.at
    ensures r.Ok? && c.t.at == r.value.t.at ==> r.value.t.at >= |transpiled|
    ensures r.Err? ==> r.error == "invalid state: not at a newline"
    ensures build == Corrected && c.t.at >= |transpiled| ==> r == Ok(c)
    ensures !(build == Corrected && c.t.at >= |transpiled|) ==>
      && (r.Ok? <==> MatchAt(original, c.o.at) > 0 && MatchAt(transpiled, c.t.at) > 0)
      && (r.Ok? ==> r.value.o.at == c.o.at + MatchAt(original, c.o.at) && r.value.t.at == c.t.at + MatchAt(transpiled, c.t.at))
  {
    if build == Corrected && c.t.at >= |transpiled| {
      r := Ok(c);
    } else {
      r := CrossLine(original, transpiled, sourceIndex, c);
    }
  }

  /**
   * The loop state of `buildSourcemap` as the edits describe it: the cursors
   * are at corresponding offsets of two described codes, `k` is the next
   * edit, `offset` the distance between the cursors, and `tail0`, where the
   * text after the last edit starts, is still ahead of the walk or, after the
   * last edit, behind it.
   */
  predicate Phase(original: string, transpiled: string, sorted: seq<Edit>, b: Builder, k: nat, offset: int, tail0: int) {
    && SimAt(original, transpiled, sorted, k, b.o.at, b.t.at, offset)
    && tail0 <= TailStart(b.o.at, b.t.at, sorted, k)
    && (k < |sorted| ==> TailStart(b.o.at, b.t.at, sorted, k) == tail0)
  }

  /** Once past `tail0`, the transpiled cursor stands just after a line break. */
  predicate AfterBreak(transpiled: string, t: nat, tail0: int) {
    tail0 < t ==> 0 < t <= |transpiled| && transpiled[t - 1] == '\n'
  }

  /** A pass that lands on the next edit and applies it keeps the phase, and stays before the tail. */
  lemma EditKeeps(original: string, transpiled: string, sorted: seq<Edit>, b: Builder, k: nat, offset: int, tail0: int,
                  c: Builder, target: int, r: Result<Builder>, build: Build)
    requires Walking(original, transpiled, sorted, b, k, offset, build, tail0) && b.t.at < |transpiled|
    requires k < |sorted| && target == sorted[k].at + offset
    requires Approached(transpiled, b.t.at, c.t.at, target)
    requires NoCR(original) && b.o.at + (c.t.at - b.t.at) <= |original| ==> c.o.at == b.o.at + (c.t.at - b.t.at)
    requires c.o.at == sorted[k].at
    requires sorted[k].delta > 0 && c.t.at + sorted[k].delta <= |transpiled| ==> r.Ok?
    requires sorted[k].delta > 0 && r.Ok? && NoCR(transpiled) ==>
      r.value.t.at == c.t.at + sorted[k].delta && r.value.o.at == c.o.at
    requires sorted[k].delta <= 0 ==> r.Ok? && r.value.t.at == c.t.at
    requires sorted[k].delta <= 0 && NoCR(original) && c.o.at <= sorted[k].at - sorted[k].delta ==>
      r.value.o.at == Min(sorted[k].at - sorted[k].delta, |original|)
    ensures r.Ok? && Walking(original, transpiled, sorted, r.value, k + 1, offset + sorted[k].delta, build, tail0)
  {
    PassToEdit(original, transpiled, sorted, k, b.o.at, b.t.at, offset, c.o.at, c.t.at, target);
    TailStartBounds(original, r.value.o.at, transpiled, r.value.t.at, sorted, k + 1);
  }

  /**
   * A pass that stops short of the next edit keeps the phase: crossing a
   * line break after the last edit leaves the cursor just after it, and the
   * as-written build fails only at the end of the code after the last edit.
   */
  lemma BreakKeeps(original: string, transpiled: string, sorted: seq<Edit>, b: Builder, k: nat, offset: int, tail0: int,
                  c: Builder, target: int, r: Result<Builder>, build: Build)
    requires Walking(original, transpiled, sorted, b, k, offset, build, tail0) && b.t.at < |transpiled|
    requires target == if k < |sorted| then sorted[k].at + offset else |transpiled|
    requires Approached(transpiled, b.t.at, c.t.at, target)
    requires NoCR(original) && b.o.at + (c.t.at - b.t.at) <= |original| ==> c.o.at == b.o.at + (c.t.at - b.t.at)
    requires !(k < |sorted| && c.o.at == sorted[k].at)
    requires build == Corrected && c.t.at >= |transpiled| ==> r == Ok(c)
    requires !(build == Corrected && c.t.at >= |transpiled|) ==>
      && (r.Ok? <==> MatchAt(original, c.o.at) > 0 && MatchAt(transpiled, c.t.at) > 0)
      && (r.Ok? ==> r.value.o.at == c.o.at + MatchAt(original, c.o.at) && r.value.t.at == c.t.at + MatchAt(transpiled, c.t.at))
    ensures r.Ok? ==> Walking(original, transpiled, sorted, r.value, k, offset, build, tail0)
    ensures r.Err? ==> build == AsWritten && k == |sorted| && NoMatch(transpiled, b.t.at, |transpiled|)
  {
    PassToLine(original, transpiled, sorted, k, b.o.at, b.t.at, offset, c.o.at, c.t.at, target);
    if r.Ok? {
      TailStartBounds(original, r.value.o.at, transpiled, r.value.t.at, sorted, k);
    }
  }

  /** The inputs the walk is described for: no `"\r"`, and sorted edits that describe the two codes. */
  predicate Described(original: string, transpiled: string, sorted: seq<Edit>) {
    NoCR(original) && NoCR(transpiled) && Describes(original, 0, transpiled, 0, sorted, 0)
  }

  /** The loop invariant the success condition rests on. */
  predicate Walking(original: string, transpiled: string, sorted: seq<Edit>, b: Builder, k: nat, offset: int,
                    build: Build, tail0: int) {
    Phase(original, transpiled, sorted, b, k, offset, tail0) && (build == AsWritten ==> AfterBreak(transpiled, b.t.at, tail0))
  }

  /** The walk starts described, with the tail ahead of it. */
  lemma PhaseStart(original: string, transpiled: string, sorted: seq<Edit>, build: Build)
    requires Described(original, transpiled, sorted)
    ensures Walking(original, transpiled, sorted, Start(original, transpiled), 0, 0, build, TailStart(0, 0, sorted, 0))
    ensures 0 <= TailStart(0, 0, sorted, 0) <= |transpiled|
    ensures TailOf(original, transpiled, sorted) == transpiled[TailStart(0, 0, sorted, 0)..]
  {
    TailStartBounds(original, 0, transpiled, 0, sorted, 0);
  }

  /** At the end of the code the walk has seen the whole tail; each of its lines ended in a line break. */
  lemma PhaseDone(original: string, transpiled: string, sorted: seq<Edit>, b: Builder, k: nat, offset: int, tail0: int)
    requires Walking(original, transpiled, sorted, b, k, offset, AsWritten, tail0) && b.t.at >= |transpiled|
    requires Described(original, transpiled, sorted) && tail0 == TailStart(0, 0, sorted, 0)
    ensures EndsWithBreak(TailOf(original, transpiled, sorted))
  {
    TailStartBounds(original, b.o.at, transpiled, b.t.at, sorted, k);
    TailStartBounds(original, 0, transpiled, 0, sorted, 0);
    EndsWithBreakFrom(transpiled, tail0);
  }

  /** Stuck after the last edit with no line break left: the tail does not end in one. */
  lemma PhaseStuck(original: string, transpiled: string, sorted: seq<Edit>, b: Builder, offset: int, build: Build, tail0: int)
    requires Walking(original, transpiled, sorted, b, |sorted|, offset, build, tail0)
    requires b.t.at < |transpiled| && NoMatch(transpiled, b.t.at, |transpiled|)
    requires Described(original, transpiled, sorted) && tail0 == TailStart(0, 0, sorted, 0)
    ensures !EndsWithBreak(TailOf(original, transpiled, sorted))
  {
    assert MatchAt(transpiled, |transpiled| - 1) == 0;
    TailStartBounds(original, 0, transpiled, 0, sorted, 0);
    EndsWithBreakFrom(transpiled, tail0);
  }

  /**
   * One pass of the `while (transpiled.at < transpiledCode.length)` loop.
   * With no edit left the target is the end of the code, as
   * `NO_EDIT.at = Infinity` makes it, and no offset equals it. The corrected
   * build ends the loop when the transpiled cursor reaches the end instead of
   * looking for a line break there.
   *
   * On described codes a pass never fails inside a stretch the edits lead
   * through; it fails only in the text after the last edit, when that text
   * runs to the end without a line break.
   */
  method BuildStep(original: string, transpiled: string, sourceIndex: int, sorted: seq<Edit>,
                   b: Builder, editIndex: nat, offset: int, build: Build, ghost tail0: int)
    returns (r: Result<Builder>, editIndex': nat, offset': int)
    requires Tracks(original, transpiled, sourceIndex, b) && editIndex <= |sorted| && b.t.at < |transpiled|
    ensures r.Ok? ==>
      && Tracks(original, transpiled, sourceIndex, r.value) && editIndex' <= |sorted|
      && b.t.at <= r.value.t.at && (b.t.at < r.value.t.at || editIndex' == editIndex + 1)
    ensures r.Err? ==> r.error == "invalid state: not at a newline"
    ensures Walking(original, transpiled, sorted, b, editIndex, offset, build, tail0) && r.Ok? ==>
      Walking(original, transpiled, sorted, r.value, editIndex', offset', build, tail0)
    ensures Walking(original, transpiled, sorted, b, editIndex, offset, build, tail0) && r.Err? ==>
      build == AsWritten && editIndex == |sorted| && NoMatch(transpiled, b.t.at, |transpiled|)
  {
    editIndex', offset' := editIndex, offset;
    var edit := if editIndex < |sorted| then Some(sorted[editIndex]) else None;
    var target := if edit.Some? then edit.value.at + offset else |transpiled|;
    var c := Approach(original, transpiled, sourceIndex, b, target);
    if edit.Some? && c.o.at == edit.value.at {
      r := EditPass(original, transpiled, sourceIndex, sorted, b, editIndex, offset, c, target, build, tail0);
      offset' := offset + sorted[editIndex].delta;
      editIndex' := editIndex + 1;
    } else {
      r := BreakPass(original, transpiled, sourceIndex, sorted, b, editIndex, offset, c, target, build, tail0);
    }
  }

  /** The end of a pass that has reached edit `k`: apply it. */
  method EditPass(original: string, transpiled: string, sourceIndex: int, sorted: seq<Edit>,
                  b: Builder, k: nat, offset: int, c: Builder, target: int, build: Build, ghost tail0: int)
    returns (r: Result<Builder>)
    requires Tracks(original, transpiled, sourceIndex, c) && Synced(c) && b.t.at <= c.t.at
    requires b.t.at < |transpiled| && k < |sorted| && target == sorted[k].at + offset && c.o.at == sorted[k].at
    requires Approached(transpiled, b.t.at, c.t.at, target)
    requires NoCR(original) && b.o.at + (c.t.at - b.t.at) <= |original| ==> c.o.at == b.o.at + (c.t.at - b.t.at)
    ensures r.Ok? ==> Tracks(original, transpiled, sourceIndex, r.value) && c.t.at <= r.value.t.at
    ensures r.Err? ==> r.error == "invalid state: not at a newline"
    ensures Walking(original, transpiled, sorted, b, k, offset, build, tail0) ==>
      r.Ok? && Walking(original, transpiled, sorted, r.value, k + 1, offset + sorted[k].delta, build, tail0)
  {
    r := ApplyEdit(original, transpiled, sourceIndex, c, sorted[k]);
    if Walking(original, transpiled, sorted, b, k, offset, build, tail0) {
      EditKeeps(original, transpiled, sorted, b, k, offset, tail0, c, target, r, build);
    }
  }

  /** The end of a pass that stops short of the next edit: cross a line break, or stop at the end. */
  method BreakPass(original: string, transpiled: string, sourceIndex: int, sorted: seq<Edit>,
                   b: Builder, k: nat, offset: int, c: Builder, target: int, build: Build, ghost tail0: int)
    returns (r: Result<Builder>)
    requires Tracks(original, transpiled, sourceIndex, c) && b.t.at <= c.t.at
    requires b.t.at < |transpiled| && k <= |sorted|
    requires target == if k < |sorted| then sorted[k].at + offset else |transpiled|
    requires Approached(transpiled, b.t.at, c.t.at, target)
    requires NoCR(original) && b.o.at + (c.t.at - b.t.at) <= |original| ==> c.o.at == b.o.at + (c.t.at - b.t.at)
    requires !(k < |sorted| && c.o.at == sorted[k].at)
    ensures r.Ok? ==> Tracks(original, transpiled, sourceIndex, r.value) && b.t.at < r.value.t.at
    ensures r.Err? ==> r.error == "invalid state: not at a newline"
    ensures Walking(original, transpiled, sorted, b, k, offset, build, tail0) && r.Ok? ==>
      Walking(original, transpiled, sorted, r.value, k, offset, build, tail0)
    ensures Walking(original, transpiled, sorted, b, k, offset, build, tail0) && r.Err? ==>
      build == AsWritten && k == |sorted| && NoMatch(transpiled, b.t.at, |transpiled|)
  {
    r := LineEnd(original, transpiled, sourceIndex, c, build);
    if Walking(original, transpiled, sorted, b, k, offset, build, tail0) {
      BreakKeeps(original, transpiled, sorted, b, k, offset, tail0, c, target, r, build);
    }
  }

  /** When the transpiled cursor reaches the end, the tokens cover every line and the text decodes to them. */
  lemma Finish(original: string, transpiled: string, sourceIndex: int, b: Builder)
    requires Tracks(original, transpiled, sourceIndex, b) && b.t.at >= |transpiled|
    ensures b.mapping == Mapping(b.toks, sourceIndex)
    ensures Walk(b.toks).tline == CountLF(transpiled, |transpiled|)
    ensures MarksMatch(original, transpiled, Points(b.toks), b.marks) && Monotone(b.marks)
    ensures Within(b.toks, |original| + |transpiled|)
    ensures InVlqRange(sourceIndex) && |original| + |transpiled| <= 0x7fff_ffff ==>
      Parse(b.mapping, false) == Some(Expected(b.toks, sourceIndex))
  {
    if InVlqRange(sourceIndex) && |original| + |transpiled| <= 0x7fff_ffff {
      WithinWeaken(b.toks, |original| + |transpiled|, 0x7fff_ffff);
      RenderParses(b.toks, sourceIndex);
    }
  }

  /**
   * `buildSourcemap`: the `mappings` string for turning `original` into
   * `transpiled` by `edits`, written with source index `sourceIndex`.
   * Besides the text it returns the tokens the text is made of and, for every
   * segment, the offsets it stands for. It fails where `advanceNewLine`
   * throws. When the edits describe the two codes, that happens exactly when
   * the transpiled code after the last edit is not empty and does not end in
   * a line break: the walk then reaches the end of the code and looks for a
   * line break there. The corrected build stops at the end and never fails
   * on described codes.
   */
  method BuildSourcemap(original: string, transpiled: string, edits: seq<Edit>, sourceIndex: int, build: Build)
    returns (r: Result<string>, toks: seq<Tok>, marks: seq<Mark>)
    ensures r.Ok? ==> r.value == Mapping(toks, sourceIndex)
    ensures r.Ok? ==> Walk(toks).tline == CountLF(transpiled, |transpiled|)
    ensures r.Ok? ==> MarksMatch(original, transpiled, Points(toks), marks) && Monotone(marks)
    ensures r.Ok? ==> Within(toks, |original| + |transpiled|)
    ensures r.Ok? && InVlqRange(sourceIndex) && |original| + |transpiled| <= 0x7fff_ffff ==>
      Parse(r.value, false) == Some(Expected(toks, sourceIndex))
    ensures r.Err? ==> r.error == "invalid state: not at a newline"
    ensures transpiled == [] ==> r == Ok("") && toks == [] && marks == []
    ensures Consistent(original, transpiled, edits) && build == AsWritten ==>
      (r.Ok? <==> EndsWithBreak(Trailing(original, transpiled, edits)))
    ensures Consistent(original, transpiled, edits) && build == Corrected ==> r.Ok?
  {
    var res := Walkthrough(original, transpiled, SortedEdits(edits), sourceIndex, build);
    match res
    case Err(e) =>
      r, toks, marks := Err(e), [], [];
    case Ok(b) =>
      Finish(original, transpiled, sourceIndex, b);
      r, toks, marks := Ok(b.mapping), b.toks, b.marks;
  }

  /** The main loop of `buildSourcemap`, from the start until the transpiled cursor reaches the end. */
  method Walkthrough(original: string, transpiled: string, sorted: seq<Edit>, sourceIndex: int, build: Build)
    returns (r: Result<Builder>)
    ensures r.Ok? ==> Tracks(original, transpiled, sourceIndex, r.value) && r.value.t.at >= |transpiled|
    ensures transpiled == [] ==> r.Ok?
    ensures r.Ok? && transpiled == [] ==> r.value.mapping == [] && r.value.toks == [] && r.value.marks == []
    ensures r.Err? ==> r.error == "invalid state: not at a newline"
    ensures Described(original, transpiled, sorted) && build == Corrected ==> r.Ok?
    ensures Described(original, transpiled, sorted) && build == AsWritten ==>
      (r.Ok? <==> EndsWithBreak(TailOf(original, transpiled, sorted)))
  {
    StartTracks(original, transpiled, sourceIndex);
    if Described(original, transpiled, sorted) {
      PhaseStart(original, transpiled, sorted, build);
    }
    r := WalkFrom(original, transpiled, sorted, sourceIndex, build, Start(original, transpiled), 0, 0, TailStart(0, 0, sorted, 0));
  }

  /**
   * The `while (transpiled.at < transpiledCode.length)` loop from state `b`
   * on, written as a tail-recursive walk: one pass, then the rest.
   */
  method WalkFrom(original: string, transpiled: string, sorted: seq<Edit>, sourceIndex: int, build: Build,
                  b: Builder, editIndex: nat, offset: int, ghost tail0: int)
    returns (r: Result<Builder>)
    requires Tracks(original, transpiled, sourceIndex, b) && editIndex <= |sorted|
    ensures r.Ok? ==> Tracks(original, transpiled, sourceIndex, r.value) && r.value.t.at >= |transpiled|
    ensures b.t.at >= |transpiled| ==> r == Ok(b)
    ensures r.Err? ==> r.error == "invalid state: not at a newline"
    ensures (Described(original, transpiled, sorted) && tail0 == TailStart(0, 0, sorted, 0) &&
             Walking(original, transpiled, sorted, b, editIndex, offset, build, tail0)) ==>
      && (build == Corrected ==> r.Ok?)
      && (build == AsWritten ==> (r.Ok? <==> EndsWithBreak(TailOf(original, transpiled, sorted))))
    decreases |transpiled| - b.t.at, |sorted| - editIndex
  {
    ghost var walking := Described(original, transpiled, sorted) && tail0 == TailStart(0, 0, sorted, 0) &&
      Walking(original, transpiled, sorted, b, editIndex, offset, build, tail0);
    if b.t.at >= |transpiled| {
      if walking && build == AsWritten {
        PhaseDone(original, transpiled, sorted, b, editIndex, offset, tail0);
      }
      return Ok(b);
    }
    var res, ei, off := BuildStep(original, transpiled, sourceIndex, sorted, b, editIndex, offset, build, tail0);
    if res.Err? {
      if walking {
        PhaseStuck(original, transpiled, sorted, b, offset, build, tail0);
      }
      return Err(res.error);
    }
    r := WalkFrom(original, transpiled, sorted, sourceIndex, build, res.value, ei, off, tail0);
  }

  /** As written, `buildSourcemap("abc", "abc", [])` throws: the code does not end in a line break. */
  method TrailingTextThrows() returns (r: Result<string>)
    ensures r == Err("invalid state: not at a newline")
  {
    assert SortedEdits([]) == [];
    assert Consistent("abc", "abc", []);
    assert Trailing("abc", "abc", []) == "abc";
    var toks, marks;
    r, toks, marks := BuildSourcemap("abc", "abc", [], 0, AsWritten);
  }

  /** With the end of the code ending the last line, the same call gives a map. */
  method TrailingTextMaps() returns (r: Result<string>)
    ensures r.Ok?
  {
    assert SortedEdits([]) == [];
    assert Consistent("abc", "abc", []);
    var toks, marks;
    r, toks, marks := BuildSourcemap("abc", "abc", [], 0, Corrected);
  }
}
