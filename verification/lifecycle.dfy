/**
 * `Lifecycle`: the mounted flag, the mount and unmount callback lists, and
 * the owned-edge list of a component, with `notifyMounted` and
 * `notifyUnmounted` driving them, and the current-lifecycle pointer set by
 * `withLifecycle` and read by `getLifecycle`.
 *
 * The owned-edge list lives in the dependency arena under the lifecycle's
 * id; the rest of the lifecycle object is an `Lc` value.
 */
module Lifecycle {
  import opened Wrappers
  import opened Dependency
  import opened Callbacks
  import opened Teardown
  import opened Scope

  datatype Lc = Lc(mounted: bool, mounts: CbList, unmounts: CbList)

  /** A lifecycle nothing has been registered on. */
  const Fresh := Lc(false, Empty, Empty)

  /** `onMounted`: appends a callback object `id` to the mount list. */
  function OnMounted(lc: Lc, id: int, cb: Callback): (r: Lc)
    requires id !in lc.mounts.nodes
    requires lc.mounts.tail.Some? ==> lc.mounts.tail.value in lc.mounts.nodes
    ensures r.mounted == lc.mounted && r.unmounts == lc.unmounts
    ensures r.mounts.tail == Some(id) && id in r.mounts.nodes && r.mounts.nodes[id] == Node(cb, None)
  {
    lc.(mounts := Append(lc.mounts, id, cb))
  }

  /** `onUnmounted`: appends a callback object `id` to the unmount list. */
  function OnUnmounted(lc: Lc, id: int, cb: Callback): (r: Lc)
    requires id !in lc.unmounts.nodes
    requires lc.unmounts.tail.Some? ==> lc.unmounts.tail.value in lc.unmounts.nodes
    ensures r.mounted == lc.mounted && r.mounts == lc.mounts
    ensures r.unmounts.tail == Some(id) && id in r.unmounts.nodes && r.unmounts.nodes[id] == Node(cb, None)
  {
    lc.(unmounts := Append(lc.unmounts, id, cb))
  }

  /**
   * `mounted(block)`: registers `invokeMountedCallback(lifecycle, block)`;
   * `throws` and `dispose` say what the block will do when invoked.
   */
  function Mounted(lc: Lc, id: int, name: int, throws: bool, dispose: Option<Callback>): (r: Lc)
    requires id !in lc.mounts.nodes
    requires lc.mounts.tail.Some? ==> lc.mounts.tail.value in lc.mounts.nodes
    ensures id in r.mounts.nodes && r.mounts.nodes[id].cb.kind == Block(dispose)
  {
    OnMounted(lc, id, Callback(name, throws, Block(dispose)))
  }

  /** `unmounted(block)`: registers the block as a plain unmount callback. */
  function Unmounted(lc: Lc, id: int, name: int, throws: bool): (r: Lc)
    requires id !in lc.unmounts.nodes
    requires lc.unmounts.tail.Some? ==> lc.unmounts.tail.value in lc.unmounts.nodes
    ensures id in r.unmounts.nodes && r.unmounts.nodes[id].cb.kind == Plain
  {
    OnUnmounted(lc, id, Callback(name, throws, Plain))
  }

  /**
   * Registration keeps the order of registration: the new callback is last
   * in its list, the earlier ones keep their places, and the other list is
   * untouched.
   */
  lemma RegistrationOrder(lc: Lc, mids: seq<int>, uids: seq<int>, id: int, cb: Callback)
    requires Holds(lc.mounts, mids) && Holds(lc.unmounts, uids)
    ensures id !in lc.mounts.nodes ==>
      && Holds(OnMounted(lc, id, cb).mounts, mids + [id])
      && CbsOf(OnMounted(lc, id, cb).mounts, mids + [id]) == CbsOf(lc.mounts, mids) + [cb]
    ensures id !in lc.unmounts.nodes ==>
      && Holds(OnUnmounted(lc, id, cb).unmounts, uids + [id])
      && CbsOf(OnUnmounted(lc, id, cb).unmounts, uids + [id]) == CbsOf(lc.unmounts, uids) + [cb]
  {
    if id !in lc.mounts.nodes {
      AppendHolds(lc.mounts, mids, id, cb);
    }
    if id !in lc.unmounts.nodes {
      AppendHolds(lc.unmounts, uids, id, cb);
    }
  }

  /**
   * `getLifecycle`: throws in a dev build when no lifecycle is current.
   * `Context.GetContext` is the same function with its own message.
   */
  function GetLifecycle(current: Option<LcId>, dev: bool): (r: Result<Option<LcId>>)
    ensures r.Err? <==> dev && current.None?
    ensures r.Ok? ==> r.value == current
  {
    if dev && current.None? then Err("Cannot get current lifecycle. Are you creating an Atom outside of a Component?")
    else Ok(current)
  }

  /** `withLifecycle(owner, block)` run with `current` as the current lifecycle. */
  function WithLifecycle(current: Option<LcId>, owner: LcId, block: seq<Stmt>): (r: Outcome)
    ensures r.cur == current
    ensures r.seen == Exec(RestorePrevious, Some(owner), block).seen
    ensures r.threw == Exec(RestorePrevious, Some(owner), block).threw
  {
    var s := [Enter(owner, block)];
    assert s[1..] == [];
    assert Exec(RestorePrevious, current, s[1..]) == Outcome([], current, false);
    assert Exec(RestorePrevious, Some(owner), block).seen + [] == Exec(RestorePrevious, Some(owner), block).seen;
    Exec(RestorePrevious, current, s)
  }

  /**
   * Nesting is safe: inside the block every read sees its innermost
   * enclosing lifecycle, and afterwards the previous lifecycle is current
   * again, whether the block returned or threw.
   */
  lemma WithLifecycleScoped(current: Option<LcId>, owner: LcId, block: seq<Stmt>)
    ensures WithLifecycle(current, owner, block).cur == current
    ensures WithLifecycle(current, owner, block).seen == Scoped(Some(owner), block).0
    ensures WithLifecycle(current, owner, block).threw == Scoped(Some(owner), block).1
  {
    RestoreIsScoped(Some(owner), block);
    var s := [Enter(owner, block)];
    assert s[1..] == [];
    var inner := Exec(RestorePrevious, Some(owner), block);
    assert Exec(RestorePrevious, current, s[1..]) == Outcome([], current, false);
    assert inner.seen + [] == inner.seen;
  }

  /** Every read inside `withLifecycle(owner, …)` outside of any nested block sees `owner`. */
  lemma GetInsideWithLifecycle(current: Option<LcId>, owner: LcId, dev: bool)
    ensures WithLifecycle(current, owner, [Read]).seen == [Some(owner)]
    ensures GetLifecycle(Some(owner), dev) == Ok(Some(owner))
  {
    WithLifecycleScoped(current, owner, [Read]);
    assert [Read][1..] == [];
  }

  /**
   * `notifyMounted`: sets `mounted` and drains the mount list, in order and
   * at most once each; head and tail are cleared even when a callback
   * throws, and each completed mount block's disposer is appended to the
   * unmount list of the same lifecycle. `next` is the next unused callback
   * object id.
   */
  method NotifyMounted(lc: Lc, ghost mids: seq<int>, ghost uids: seq<int>, next: int)
      returns (lc': Lc, trace: seq<Callback>, threw: bool, ghost uids': seq<int>, next': int)
    requires Holds(lc.mounts, mids) && Holds(lc.unmounts, uids) && FreshFrom(lc.unmounts, next)
    ensures lc'.mounted
    ensures (trace, threw) == Run(CbsOf(lc.mounts, mids))
    ensures lc'.mounts.head == None && lc'.mounts.tail == None
    ensures Holds(lc'.unmounts, uids') && FreshFrom(lc'.unmounts, next')
    ensures CbsOf(lc'.unmounts, uids') == CbsOf(lc.unmounts, uids) + Disposers(trace)
  {
    var r, u;
    trace, threw, r, u, uids', next' := Drain(lc.mounts, mids, lc.unmounts, uids, next);
    lc' := Lc(true, r, u);
  }

  /**
   * `notifyUnmounted`: clears `mounted`, tears down every owned edge (see
   * `Teardown.TeardownEdges`), then drains the unmount list, in order and at
   * most once each, clearing head and tail even when a callback throws.
   */
  method NotifyUnmounted(a: Arena, l: LcId, lc: Lc, ghost av: map<AtomId, seq<Handle>>,
                         ghost ov: map<LcId, seq<Handle>>, ghost uids: seq<int>)
      returns (a': Arena, lc': Lc, trace: seq<Callback>, threw: bool)
    requires WellFormed(a, av, ov) && l in a.owners && Holds(lc.unmounts, uids)
    ensures l in ov
    ensures WellFormed(a', Strip(av, Elems(ov[l])), ov[l := []])
    ensures a'.owners == a.owners[l := NoEnds] && a'.edges.Keys == a.edges.Keys
    ensures forall h :: h in ov[l] ==> a'.edges[h].IsDead()
    ensures forall g :: g in a.edges && g !in ov[l] ==> Survives(a'.edges[g], a.edges[g])
    ensures !lc'.mounted && lc'.mounts == lc.mounts
    ensures (trace, threw) == Run(CbsOf(lc.unmounts, uids))
    ensures lc'.unmounts.head == None && lc'.unmounts.tail == None
  {
    a' := TeardownEdges(a, l, av, ov);
    var r, scratch, scratchNext;
    ghost var scratchIds;
    trace, threw, r, scratch, scratchIds, scratchNext := Drain(lc.unmounts, uids, Empty, [], 0);
    lc' := Lc(false, lc.mounts, r);
  }
}
