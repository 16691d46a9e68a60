/**
 * `Context`: the older generation of `Lifecycle`. It has no mounted flag,
 * its mount callbacks are plain (a mount callback's result is not
 * registered anywhere), and `withContext` clears the current context in its
 * `finally` instead of restoring the previous one.
 */
module Context {
  import opened Wrappers
  import opened Dependency
  import opened Callbacks
  import opened Teardown
  import opened Scope

  datatype Ctx = Ctx(mounts: CbList, unmounts: CbList)

  /** `onMounted`: appends a callback object `id` to the mount list. */
  function OnMounted(c: Ctx, id: int, cb: Callback): (r: Ctx)
    requires id !in c.mounts.nodes
    requires c.mounts.tail.Some? ==> c.mounts.tail.value in c.mounts.nodes
    ensures r.unmounts == c.unmounts
    ensures r.mounts.tail == Some(id) && id in r.mounts.nodes && r.mounts.nodes[id] == Node(cb, None)
  {
    c.(mounts := Append(c.mounts, id, cb))
  }

  /** `onUnmounted`: appends a callback object `id` to the unmount list. */
  function OnUnmounted(c: Ctx, id: int, cb: Callback): (r: Ctx)
    requires id !in c.unmounts.nodes
    requires c.unmounts.tail.Some? ==> c.unmounts.tail.value in c.unmounts.nodes
    ensures r.mounts == c.mounts
    ensures r.unmounts.tail == Some(id) && id in r.unmounts.nodes && r.unmounts.nodes[id] == Node(cb, None)
  {
    c.(unmounts := Append(c.unmounts, id, cb))
  }

  /**
   * Registration keeps the order of registration: the new callback is last
   * in its list, the earlier ones keep their places, and the other list is
   * untouched.
   */
  lemma RegistrationOrder(c: Ctx, mids: seq<int>, uids: seq<int>, id: int, cb: Callback)
    requires Holds(c.mounts, mids) && Holds(c.unmounts, uids)
    ensures id !in c.mounts.nodes ==>
      && Holds(OnMounted(c, id, cb).mounts, mids + [id])
      && CbsOf(OnMounted(c, id, cb).mounts, mids + [id]) == CbsOf(c.mounts, mids) + [cb]
    ensures id !in c.unmounts.nodes ==>
      && Holds(OnUnmounted(c, id, cb).unmounts, uids + [id])
      && CbsOf(OnUnmounted(c, id, cb).unmounts, uids + [id]) == CbsOf(c.unmounts, uids) + [cb]
  {
    if id !in c.mounts.nodes {
      AppendHolds(c.mounts, mids, id, cb);
    }
    if id !in c.unmounts.nodes {
      AppendHolds(c.unmounts, uids, id, cb);
    }
  }

  /**
   * `getContext`: throws in a dev build when no context is current. It is
   * `Lifecycle.GetLifecycle` but for the message: the two generations of the
   * API each define it.
   */
  function GetContext(current: Option<LcId>, dev: bool): (r: Result<Option<LcId>>)
    ensures r.Err? <==> dev && current.None?
    ensures r.Ok? ==> r.value == current
  {
    if dev && current.None? then Err("Cannot get current context. Are you creating an Atom outside of a Component?")
    else Ok(current)
  }

  /** `withContext(owner, block)` as written: the `finally` sets the current context to null. */
  function WithContext(current: Option<LcId>, owner: LcId, block: seq<Stmt>): (r: Outcome)
    ensures r.seen == Exec(ResetToNull, Some(owner), block).seen
    ensures r.threw == Exec(ResetToNull, Some(owner), block).threw
  {
    var s := [Enter(owner, block)];
    assert s[1..] == [];
    assert Exec(ResetToNull, None, s[1..]) == Outcome([], None, false);
    assert Exec(ResetToNull, Some(owner), block).seen + [] == Exec(ResetToNull, Some(owner), block).seen;
    Exec(ResetToNull, current, s)
  }

  /**
   * Whatever the block does, no context is current afterwards, whether the
   * block returned or threw.
   */
  lemma WithContextClears(current: Option<LcId>, owner: LcId, block: seq<Stmt>)
    ensures WithContext(current, owner, block).cur == None
  {
    var s := [Enter(owner, block)];
    assert s[1..] == [];
    assert Exec(ResetToNull, None, s[1..]) == Outcome([], None, false);
  }

  /**
   * A nested `withContext` loses the outer context: after the inner block
   * returns, a read in the outer block sees null instead of the outer
   * context, and the outer caller's context is gone too.
   */
  lemma WithContextLosesOuter()
    ensures WithContext(None, 1, [Enter(2, []), Read]).seen == [None]
    ensures Scoped(Some(1), [Enter(2, []), Read]).0 == [Some(1)]
    ensures WithContext(Some(7), 1, []).cur == None
    ensures WithContextRestoring(Some(7), 1, []).cur == Some(7)
  {
    var s := [Enter(2, []), Read];
    assert s[1..] == [Read] && [Read][1..] == [];
    var t := [Enter(1, s)];
    assert t[1..] == [];
  }

  /** `withContext` with the `finally` of `withLifecycle`: restores the previous context. */
  function WithContextRestoring(current: Option<LcId>, owner: LcId, block: seq<Stmt>): (r: Outcome)
  {
    Exec(RestorePrevious, current, [Enter(owner, block)])
  }

  /** The restoring version scopes reads statically and gives the previous context back. */
  lemma WithContextRestoringScoped(current: Option<LcId>, owner: LcId, block: seq<Stmt>)
    ensures WithContextRestoring(current, owner, block).cur == current
    ensures WithContextRestoring(current, owner, block).seen == Scoped(Some(owner), block).0
    ensures WithContextRestoring(current, owner, block).threw == Scoped(Some(owner), block).1
  {
    RestoreIsScoped(Some(owner), block);
    var s := [Enter(owner, block)];
    assert s[1..] == [];
    var inner := Exec(RestorePrevious, Some(owner), block);
    assert Exec(RestorePrevious, current, s[1..]) == Outcome([], current, false);
    assert inner.seen + [] == inner.seen;
  }

  /**
   * `contextMounted`: invokes the mount callbacks in order, each at most
   * once, and clears head and tail even when one throws. Nothing a callback
   * returns is registered.
   */
  method ContextMounted(c: Ctx, ghost mids: seq<int>) returns (c': Ctx, trace: seq<Callback>, threw: bool)
    requires Holds(c.mounts, mids)
    ensures (trace, threw) == Run(CbsOf(c.mounts, mids))
    ensures c'.mounts.head == None && c'.mounts.tail == None
    ensures c'.unmounts == c.unmounts
  {
    var r, scratch, scratchNext;
    ghost var scratchIds;
    trace, threw, r, scratch, scratchIds, scratchNext := Drain(c.mounts, mids, Empty, [], 0);
    c' := Ctx(r, c.unmounts);
  }

  /**
   * `contextUnmounted`: tears down every owned edge, exactly as
   * `notifyUnmounted` does, then drains the unmount list in order, clearing
   * head and tail even when a callback throws.
   */
  method ContextUnmounted(a: Arena, l: LcId, c: Ctx, ghost av: map<AtomId, seq<Handle>>,
                          ghost ov: map<LcId, seq<Handle>>, ghost uids: seq<int>)
      returns (a': Arena, c': Ctx, trace: seq<Callback>, threw: bool)
    requires WellFormed(a, av, ov) && l in a.owners && Holds(c.unmounts, uids)
    ensures l in ov
    ensures WellFormed(a', Strip(av, Elems(ov[l])), ov[l := []])
    ensures a'.owners == a.owners[l := NoEnds] && a'.edges.Keys == a.edges.Keys
    ensures forall h :: h in ov[l] ==> a'.edges[h].IsDead()
    ensures forall g :: g in a.edges && g !in ov[l] ==> Survives(a'.edges[g], a.edges[g])
    ensures c'.mounts == c.mounts
    ensures (trace, threw) == Run(CbsOf(c.unmounts, uids))
    ensures c'.unmounts.head == None && c'.unmounts.tail == None
  {
    a' := TeardownEdges(a, l, av, ov);
    var r, scratch, scratchNext;
    ghost var scratchIds;
    trace, threw, r, scratch, scratchIds, scratchNext := Drain(c.unmounts, uids, Empty, [], 0);
    c' := Ctx(c.mounts, r);
  }
}
