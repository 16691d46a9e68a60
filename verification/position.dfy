/**
 * A line/column cursor over a string, as the transpiler uses it to locate
 * offsets and to walk both the original and the transpiled code when it
 * builds a source map.
 *
 * A line ends at `"\n"` or `"\r\n"` (the pattern `/\r?\n/`); a lone `"\r"` is
 * an ordinary character. A cursor is `Valid` for a string when its line is
 * the number of `"\n"` before its offset and its column the distance from the
 * start of that line: that is the invariant every operation here keeps.
 */
module Position {
  import opened Wrappers

  /** A cursor: offset into the code, zero-based line and column. */
  datatype Pos = Pos(at: nat, line: nat, column: nat)

  function Min(a: int, b: int): int {
    if a <= b then a else b
  }

  /** Length of the match of `/\r?\n/` that starts at `i`, 0 when none starts there. */
  function MatchAt(code: string, i: nat): (n: nat)
    ensures n <= 2 && (n > 0 ==> i + n <= |code| && code[i + n - 1] == '\n')
    ensures i < |code| && code[i] == '\n' ==> n == 1
  {
    if i < |code| && code[i] == '\n' then 1
    else if i + 1 < |code| && code[i] == '\r' && code[i + 1] == '\n' then 2
    else 0
  }

  /** No line break starts at any offset in `[a, b)`. */
  predicate NoMatch(code: string, a: nat, b: nat) {
    forall j :: a <= j < b ==> MatchAt(code, j) == 0
  }

  /** The pattern's `exec` from `lastIndex = from`: the first offset where a line break starts. */
  function FindNewline(code: string, from: nat): (r: Option<nat>)
    ensures r.Some? ==> from <= r.value < |code| && MatchAt(code, r.value) > 0 && NoMatch(code, from, r.value)
    ensures r.None? ==> NoMatch(code, from, |code|)
    decreases |code| - from
  {
    if from >= |code| then None
    else if MatchAt(code, from) > 0 then Some(from)
    else FindNewline(code, from + 1)
  }

  /** Number of `"\n"` among the first `n` characters. */
  function CountLF(code: string, n: nat): nat
    requires n <= |code|
  {
    if n == 0 then 0 else CountLF(code, n - 1) + (if code[n - 1] == '\n' then 1 else 0)
  }

  /** Offset where the line holding offset `n` starts: just after the last `"\n"` before `n`. */
  function LineStart(code: string, n: nat): (s: nat)
    requires n <= |code|
    ensures s <= n
  {
    if n == 0 then 0 else if code[n - 1] == '\n' then n else LineStart(code, n - 1)
  }

  /** The cursor sits at `at` with the line and column that offset has in `code`. */
  predicate Valid(code: string, p: Pos) {
    && p.at <= |code|
    && p.line == CountLF(code, p.at)
    && p.column == p.at - LineStart(code, p.at)
  }

  lemma {:induction false} SpanKeepsLine(code: string, a: nat, b: nat)
    requires a <= b <= |code| && NoMatch(code, a, b)
    ensures CountLF(code, b) == CountLF(code, a) && LineStart(code, b) == LineStart(code, a)
    decreases b
  {
    if b > a {
      assert MatchAt(code, b - 1) == 0;
      SpanKeepsLine(code, a, b - 1);
    }
  }

  lemma BreakStartsLine(code: string, i: nat)
    requires MatchAt(code, i) > 0
    ensures var e := i + MatchAt(code, i);
      CountLF(code, e) == CountLF(code, i) + 1 && LineStart(code, e) == e
  {
    if MatchAt(code, i) == 2 {
      assert code[i] == '\r';
    }
  }

  /** A valid cursor's line and column never exceed its offset. */
  lemma {:induction false} ValidBounds(code: string, p: Pos)
    requires Valid(code, p)
    ensures p.line <= p.at && p.column <= p.at
  {
    CountBound(code, p.at);
  }

  lemma {:induction false} CountBound(code: string, n: nat)
    requires n <= |code|
    ensures CountLF(code, n) <= n
  {
    if n > 0 {
      CountBound(code, n - 1);
    }
  }

  /** `createPosition`: a cursor at the start of `code`. */
  function CreatePosition(code: string): (p: Pos)
    ensures Valid(code, p) && p.at == 0
  {
    Pos(0, 0, 0)
  }

  /**
   * `advanceNewLine`: steps over the line break at the cursor, or throws when
   * none starts there.
   */
  function AdvanceNewLine(code: string, p: Pos): (r: Result<Pos>)
    ensures r.Ok? <==> MatchAt(code, p.at) > 0
    ensures r.Ok? ==>
      (&& r.value.line == p.line + 1 && r.value.column == 0
       && r.value.at == p.at + MatchAt(code, p.at) && r.value.at <= |code|)
  {
    if p.at < |code| && code[p.at] == '\n' then Ok(Pos(p.at + 1, p.line + 1, 0))
    else if p.at < |code| && code[p.at] == '\r' && p.at + 1 < |code| && code[p.at + 1] == '\n' then
      Ok(Pos(p.at + 2, p.line + 1, 0))
    else Err("invalid state: not at a newline")
  }

  /** Stepping over a line break keeps a cursor valid. */
  lemma AdvanceNewLineValid(code: string, p: Pos)
    requires Valid(code, p) && AdvanceNewLine(code, p).Ok?
    ensures Valid(code, AdvanceNewLine(code, p).value)
  {
    BreakStartsLine(code, p.at);
  }

  /**
   * `advanceTo`: moves the cursor towards offset `to`, never past the end,
   * and returns how far it moved. Without `stopAtEol` it crosses line breaks,
   * taking a `"\r\n"` whole even when `to` falls between its two characters;
   * with `stopAtEol` it stops at the first line break before `to`.
   */
  method AdvanceTo(code: string, p: Pos, to: int, stopAtEol: bool) returns (q: Pos, skip: int)
    ensures skip == q.at - p.at && p.at <= q.at
    ensures p.at <= |code| ==> q.at <= |code|
    ensures to <= p.at || |code| <= p.at ==> q == p
    ensures Valid(code, p) ==> Valid(code, q)
    ensures stopAtEol ==> q.line == p.line && q.column == p.column + (q.at - p.at) && NoMatch(code, p.at, q.at)
    ensures stopAtEol && p.at < to && p.at < |code| ==>
      q.at == Min(to, |code|) || (q.at < to && MatchAt(code, q.at) > 0)
    ensures stopAtEol && q.at < Min(to, |code|) ==> AdvanceNewLine(code, q).Ok?
    ensures !stopAtEol && p.at < to && p.at < |code| ==>
      q.at == Min(to, |code|) || (q.at == to + 1 && MatchAt(code, to - 1) == 2)
  {
    var at: nat, line: nat, column: nat := p.at, p.line, p.column;
    while at < to && at < |code|
      invariant p.at <= at && (p.at <= |code| ==> at <= |code|)
      invariant to <= p.at || |code| <= p.at ==> at == p.at && line == p.line && column == p.column
      invariant Valid(code, p) ==> Valid(code, Pos(at, line, column))
      invariant stopAtEol ==>
        (&& (at == p.at || at == Min(to, |code|))
         && line == p.line && column == p.column + (at - p.at) && NoMatch(code, p.at, at))
      invariant !stopAtEol && p.at < to ==> at <= to || (at == to + 1 && MatchAt(code, to - 1) == 2)
      decreases |code| - at
    {
      ghost var cur := Pos(at, line, column);
      match FindNewline(code, at)
      case Some(i) =>
        if i < to {
          if stopAtEol {
            if Valid(code, cur) {
              SpanKeepsLine(code, at, i);
            }
            column := column + (i - at);
            at := i;
            break;
          } else {
            if Valid(code, cur) {
              SpanKeepsLine(code, at, i);
              BreakStartsLine(code, i);
            }
            line := line + 1;
            column := 0;
            at := i + MatchAt(code, i);
          }
        } else {
          if Valid(code, cur) {
            SpanKeepsLine(code, at, to);
          }
          column := column + (to - at);
          at := to;
          break;
        }
      case None =>
        var stop := Min(to, |code|);
        if Valid(code, cur) {
          SpanKeepsLine(code, at, stop);
        }
        column := column + (stop - at);
        at := stop;
    }
    q := Pos(at, line, column);
    skip := at - p.at;
  }

  /**
   * `positionAt`: a fresh cursor advanced to offset `n`. It is valid, stays
   * at the start for `n <= 0`, and otherwise lands on `n` clamped to the end,
   * or one past `n` when `n` splits a `"\r\n"`.
   */
  method PositionAt(code: string, n: int) returns (p: Pos)
    ensures Valid(code, p)
    ensures n <= 0 ==> p == Pos(0, 0, 0)
    ensures 0 < n ==> p.at == Min(n, |code|) || (p.at == n + 1 && MatchAt(code, n - 1) == 2)
  {
    var start := CreatePosition(code);
    var skip;
    p, skip := AdvanceTo(code, start, n, false);
  }
}
