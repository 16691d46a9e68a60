/**
 * The "current owner" pointer that `withLifecycle` (and its older twin
 * `withContext`) sets while a block runs, and which `getLifecycle`
 * (`getContext`) reads.
 *
 * A block is foreign code; it is modelled as a small program over the
 * pointer: it may read the current owner, run a nested block under another
 * owner, throw, or catch what a nested part throws. The outcome is the list
 * of owners the reads saw, the pointer afterwards, and whether the block
 * threw.
 */
module Scope {
  import opened Wrappers

  datatype Stmt =
    | Read                                // getLifecycle() / getContext()
    | Enter(owner: int, body: seq<Stmt>)  // withLifecycle(owner, body)
    | Raise                               // a throw
    | Catch(body: seq<Stmt>)              // try { body } catch { }

  /** What the `finally` of the scoping function does with the pointer. */
  datatype Policy =
    | RestorePrevious                     // withLifecycle
    | ResetToNull                         // withContext

  datatype Outcome = Outcome(seen: seq<Option<int>>, cur: Option<int>, threw: bool)

  /** Runs `s` with the pointer at `cur`, scoping nested blocks by `p`. */
  function Exec(p: Policy, cur: Option<int>, s: seq<Stmt>): (r: Outcome)
    decreases s
    ensures p == RestorePrevious ==> r.cur == cur
  {
    if |s| == 0 then Outcome([], cur, false)
    else
      match s[0]
      case Read =>
        var rest := Exec(p, cur, s[1..]);
        Outcome([cur] + rest.seen, rest.cur, rest.threw)
      case Raise =>
        Outcome([], cur, true)
      case Enter(o, body) =>
        var inner := Exec(p, Some(o), body);
        var after := if p == RestorePrevious then cur else None;
        if inner.threw then Outcome(inner.seen, after, true)
        else
          var rest := Exec(p, after, s[1..]);
          Outcome(inner.seen + rest.seen, rest.cur, rest.threw)
      case Catch(body) =>
        var inner := Exec(p, cur, body);
        var rest := Exec(p, inner.cur, s[1..]);
        Outcome(inner.seen + rest.seen, rest.cur, rest.threw)
  }

  /**
   * Static scoping, the reference: a read sees the owner of the innermost
   * enclosing block, or `env` outside of every block.
   */
  function Scoped(env: Option<int>, s: seq<Stmt>): (r: (seq<Option<int>>, bool))
    decreases s
    ensures forall i :: 0 <= i < |r.0| ==> r.0[i] == env || r.0[i].Some?
  {
    if |s| == 0 then ([], false)
    else
      match s[0]
      case Read =>
        var rest := Scoped(env, s[1..]);
        ([env] + rest.0, rest.1)
      case Raise =>
        ([], true)
      case Enter(o, body) =>
        var inner := Scoped(Some(o), body);
        if inner.1 then (inner.0, true)
        else
          var rest := Scoped(env, s[1..]);
          (inner.0 + rest.0, rest.1)
      case Catch(body) =>
        var inner := Scoped(env, body);
        var rest := Scoped(env, s[1..]);
        (inner.0 + rest.0, rest.1)
  }

  /**
   * Restoring the previous owner in `finally` gives static scoping: every
   * read sees its innermost enclosing owner, and the pointer is back where
   * it was afterwards, whether the block returned or threw.
   */
  lemma {:induction false} RestoreIsScoped(cur: Option<int>, s: seq<Stmt>)
    decreases s
    ensures Exec(RestorePrevious, cur, s).seen == Scoped(cur, s).0
    ensures Exec(RestorePrevious, cur, s).threw == Scoped(cur, s).1
    ensures Exec(RestorePrevious, cur, s).cur == cur
  {
    if |s| > 0 {
      match s[0]
      case Read =>
        RestoreIsScoped(cur, s[1..]);
      case Raise =>
      case Enter(o, body) =>
        RestoreIsScoped(Some(o), body);
        RestoreIsScoped(cur, s[1..]);
      case Catch(body) =>
        RestoreIsScoped(cur, body);
        RestoreIsScoped(cur, s[1..]);
    }
  }
}
