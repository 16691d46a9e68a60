/**
 * Mount and unmount callback lists.
 *
 * A lifecycle keeps each kind of callback in a singly linked FIFO list with a
 * head and a tail reference; registration appends at the tail and the list is
 * drained exactly once, in order, with head and tail cleared even when a
 * callback throws. Callback objects become integer ids into a node map; the
 * order of a list is described by a `seq` of ids (its view).
 *
 * What a callback does when invoked is foreign code; it is modelled by the
 * callback value itself: whether it throws, and, for a callback created by
 * `mounted`, the disposer its block returns.
 */
module Callbacks {
  import opened Wrappers

  /**
   * `Plain` callbacks are invoked for their effect only. `Block` stands for
   * `invokeMountedCallback`: its block's result, when truthy, is registered
   * as an unmount callback.
   */
  datatype Kind = Plain | Block(dispose: Option<Callback>)

  datatype Callback = Callback(name: int, throws: bool, kind: Kind)

  /** A registered callback object and its `next` link (`$mn` or `$un`). */
  datatype Node = Node(cb: Callback, next: Option<int>)

  datatype CbList = CbList(nodes: map<int, Node>, head: Option<int>, tail: Option<int>)

  const Empty := CbList(map[], None, None)

  ghost predicate Distinct(ids: seq<int>) {
    forall i, j :: 0 <= i < j < |ids| ==> ids[i] != ids[j]
  }

  /** Following `next` from the head visits exactly `ids`, ending at the tail. */
  ghost predicate Holds(c: CbList, ids: seq<int>) {
    && (forall i :: 0 <= i < |ids| ==> ids[i] in c.nodes)
    && Distinct(ids)
    && c.head == (if |ids| == 0 then None else Some(ids[0]))
    && c.tail == (if |ids| == 0 then None else Some(ids[|ids| - 1]))
    && (forall i {:trigger c.nodes[ids[i]]} :: 0 <= i < |ids| ==>
          c.nodes[ids[i]].next == (if i == |ids| - 1 then None else Some(ids[i + 1])))
  }

  /** The callbacks of the list, in list order. */
  function CbsOf(c: CbList, ids: seq<int>): (r: seq<Callback>)
    requires forall i :: 0 <= i < |ids| ==> ids[i] in c.nodes
    ensures |r| == |ids|
    ensures forall i :: 0 <= i < |ids| ==> r[i] == c.nodes[ids[i]].cb
  {
    seq(|ids|, j requires 0 <= j < |ids| => c.nodes[ids[j]].cb)
  }

  /**
   * `onMounted` / `onUnmounted`: links a new callback object `id` after the
   * tail, or makes it the head of an empty list, and makes it the tail.
   */
  function Append(c: CbList, id: int, cb: Callback): (r: CbList)
    requires id !in c.nodes
    requires c.tail.Some? ==> c.tail.value in c.nodes
    ensures r.nodes.Keys == c.nodes.Keys + {id}
    ensures r.tail == Some(id) && r.nodes[id] == Node(cb, None)
  {
    var nodes := c.nodes[id := Node(cb, None)];
    if c.tail.Some? then
      CbList(nodes[c.tail.value := nodes[c.tail.value].(next := Some(id))], c.head, Some(id))
    else
      CbList(nodes, Some(id), Some(id))
  }

  /** Registration keeps every earlier callback in its place and puts the new one last. */
  lemma AppendHolds(c: CbList, ids: seq<int>, id: int, cb: Callback)
    requires Holds(c, ids) && id !in c.nodes
    ensures c.tail.Some? ==> c.tail.value in c.nodes
    ensures Holds(Append(c, id, cb), ids + [id])
    ensures CbsOf(Append(c, id, cb), ids + [id]) == CbsOf(c, ids) + [cb]
  {
    var r := Append(c, id, cb);
    var t := ids + [id];
    forall i | 0 <= i < |t|
      ensures t[i] in r.nodes
      ensures r.nodes[t[i]].next == (if i == |t| - 1 then None else Some(t[i + 1]))
    {
      if i < |ids| {
        assert t[i] == ids[i];
        assert c.nodes[ids[i]].next == (if i == |ids| - 1 then None else Some(ids[i + 1]));
      }
    }
  }

  /**
   * Reference semantics of invoking callbacks in order: the callbacks that
   * were invoked, and whether the last of them threw (which stops the run).
   */
  function Run(cbs: seq<Callback>): (r: (seq<Callback>, bool))
    ensures |r.0| <= |cbs|
  {
    if |cbs| == 0 then ([], false)
    else if cbs[0].throws then ([cbs[0]], true)
    else
      var rest := Run(cbs[1..]);
      ([cbs[0]] + rest.0, rest.1)
  }

  /**
   * A run invokes every callback when none throws, and otherwise exactly the
   * callbacks up to and including the first that throws.
   */
  lemma {:induction false} RunStopsAtFirstThrow(cbs: seq<Callback>)
    ensures Run(cbs).1 <==> exists i :: 0 <= i < |cbs| && cbs[i].throws
    ensures !Run(cbs).1 ==> Run(cbs).0 == cbs
    ensures Run(cbs).1 ==> (var n := |Run(cbs).0|;
      n > 0 && cbs[n - 1].throws && forall i :: 0 <= i < n - 1 ==> !cbs[i].throws)
  {
    if |cbs| > 0 && !cbs[0].throws {
      RunStopsAtFirstThrow(cbs[1..]);
      if exists i :: 0 <= i < |cbs| && cbs[i].throws {
        var i :| 0 <= i < |cbs| && cbs[i].throws;
        assert cbs[1..][i - 1].throws;
      }
      var n := |Run(cbs).0|;
      forall i | 0 <= i < n - 1 ensures !cbs[i].throws {
        if i > 0 { assert cbs[i] == cbs[1..][i - 1]; }
      }
    }
  }

  /** The disposers returned by the mount blocks among `cbs` that completed. */
  function Disposers(cbs: seq<Callback>): (r: seq<Callback>)
    ensures |r| <= |cbs|
  {
    if |cbs| == 0 then []
    else
      var d := if !cbs[0].throws && cbs[0].kind.Block? && cbs[0].kind.dispose.Some?
               then [cbs[0].kind.dispose.value] else [];
      d + Disposers(cbs[1..])
  }

  lemma {:induction false} DisposersAppend(a: seq<Callback>, b: seq<Callback>)
    ensures Disposers(a + b) == Disposers(a) + Disposers(b)
  {
    if |a| > 0 {
      assert (a + b)[1..] == a[1..] + b;
      DisposersAppend(a[1..], b);
    } else {
      assert a + b == b;
    }
  }

  /** One more completed callback: the run from `i` is that callback followed by the run from `i + 1`. */
  lemma RunStep(cbs: seq<Callback>, i: int, trace: seq<Callback>)
    requires 0 <= i < |cbs| && !cbs[i].throws
    requires Run(cbs) == (trace + Run(cbs[i..]).0, Run(cbs[i..]).1)
    ensures Run(cbs) == ((trace + [cbs[i]]) + Run(cbs[i + 1..]).0, Run(cbs[i + 1..]).1)
  {
    var rest := Run(cbs[i + 1..]);
    assert cbs[i..][1..] == cbs[i + 1..];
    assert Run(cbs[i..]) == ([cbs[i]] + rest.0, rest.1);
    assert trace + ([cbs[i]] + rest.0) == (trace + [cbs[i]]) + rest.0;
  }

  lemma RunThrow(cbs: seq<Callback>, i: int, trace: seq<Callback>)
    requires 0 <= i < |cbs| && cbs[i].throws
    requires Run(cbs) == (trace + Run(cbs[i..]).0, Run(cbs[i..]).1)
    ensures Run(cbs) == (trace + [cbs[i]], true)
  {
    assert cbs[i..][0] == cbs[i];
  }

  lemma RunDone(cbs: seq<Callback>, trace: seq<Callback>)
    requires Run(cbs) == (trace + Run(cbs[|cbs|..]).0, Run(cbs[|cbs|..]).1)
    ensures Run(cbs) == (trace, false)
  {
    assert cbs[|cbs|..] == [];
    assert trace + [] == trace;
  }

  /** The disposers of one callback. */
  lemma DisposersOne(cb: Callback)
    ensures Disposers([cb]) == (if !cb.throws && cb.kind.Block? && cb.kind.dispose.Some? then [cb.kind.dispose.value] else [])
  {
    assert [cb][1..] == [];
  }

  /** Registering the disposer of one more completed mount block keeps the unmount list in step. */
  lemma DisposerRegistered(u0: seq<Callback>, u: CbList, uids: seq<int>, next: int, trace: seq<Callback>, cb: Callback)
    requires Holds(u, uids) && FreshFrom(u, next)
    requires CbsOf(u, uids) == u0 + Disposers(trace)
    requires !cb.throws && cb.kind.Block? && cb.kind.dispose.Some?
    ensures u.tail.Some? ==> u.tail.value in u.nodes
    ensures next !in u.nodes
    ensures Holds(Append(u, next, cb.kind.dispose.value), uids + [next])
    ensures FreshFrom(Append(u, next, cb.kind.dispose.value), next + 1)
    ensures CbsOf(Append(u, next, cb.kind.dispose.value), uids + [next]) == u0 + Disposers(trace + [cb])
  {
    var d := cb.kind.dispose.value;
    DisposersSnoc(trace, cb);
    AppendHolds(u, uids, next, d);
    var a := Append(u, next, d);
    assert a.nodes.Keys == u.nodes.Keys + {next};
    assert CbsOf(a, uids + [next]) == CbsOf(u, uids) + [d];
    assert u0 + Disposers(trace) + [d] == u0 + (Disposers(trace) + [d]);
  }

  /** The disposers of a trace with one more callback. */
  lemma DisposersSnoc(trace: seq<Callback>, cb: Callback)
    ensures Disposers(trace + [cb]) ==
      Disposers(trace) + (if !cb.throws && cb.kind.Block? && cb.kind.dispose.Some? then [cb.kind.dispose.value] else [])
  {
    DisposersAppend(trace, [cb]);
    DisposersOne(cb);
  }

  /** A completed callback that registers nothing leaves the unmount list in step. */
  lemma DisposerSkipped(u0: seq<Callback>, us: seq<Callback>, trace: seq<Callback>, cb: Callback)
    requires us == u0 + Disposers(trace)
    requires !(!cb.throws && cb.kind.Block? && cb.kind.dispose.Some?)
    ensures us == u0 + Disposers(trace + [cb])
  {
    DisposersSnoc(trace, cb);
    assert Disposers(trace) + [] == Disposers(trace);
  }

  /** Ids of an unmount list are all below `next`, so `next` is a fresh object. */
  ghost predicate FreshFrom(c: CbList, next: int) {
    forall k :: k in c.nodes ==> k < next
  }

  /** The node the drain reaches at step `i` is still the `i`-th node of the list. */
  lemma NodeAt(c: CbList, ids: seq<int>, nodes: map<int, Node>, i: int)
    requires Holds(c, ids) && 0 <= i < |ids| && nodes.Keys == c.nodes.Keys
    requires forall j :: i <= j < |ids| ==> nodes[ids[j]] == c.nodes[ids[j]]
    ensures ids[i] in nodes && nodes[ids[i]].cb == CbsOf(c, ids)[i]
    ensures nodes[ids[i]].next == (if i == |ids| - 1 then None else Some(ids[i + 1]))
  {
    assert c.nodes[ids[i]].next == (if i == |ids| - 1 then None else Some(ids[i + 1]));
  }

  /** Clearing the `next` of the `i`-th node leaves the nodes after it alone. */
  lemma ClearStep(c: CbList, ids: seq<int>, nodes: map<int, Node>, i: int)
    requires Holds(c, ids) && 0 <= i < |ids| && nodes.Keys == c.nodes.Keys
    requires forall j :: i <= j < |ids| ==> nodes[ids[j]] == c.nodes[ids[j]]
    ensures var n := nodes[ids[i] := nodes[ids[i]].(next := None)];
      n.Keys == c.nodes.Keys && forall j :: i + 1 <= j < |ids| ==> n[ids[j]] == c.nodes[ids[j]]
  {
    var n := nodes[ids[i] := nodes[ids[i]].(next := None)];
    forall j | i + 1 <= j < |ids| ensures n[ids[j]] == c.nodes[ids[j]] {
      assert ids[j] != ids[i];
    }
  }

  /**
   * One completed callback: a mount block's disposer is appended to the
   * unmount list as fresh object `next`; anything else registers nothing.
   */
  method Register(ghost u0: seq<Callback>, u: CbList, ghost uids: seq<int>, next: int, ghost trace: seq<Callback>, cb: Callback)
      returns (u': CbList, ghost uids': seq<int>, next': int)
    requires Holds(u, uids) && FreshFrom(u, next) && !cb.throws
    requires CbsOf(u, uids) == u0 + Disposers(trace)
    ensures Holds(u', uids') && FreshFrom(u', next') && next <= next'
    ensures CbsOf(u', uids') == u0 + Disposers(trace + [cb])
  {
    if cb.kind.Block? && cb.kind.dispose.Some? {
      DisposerRegistered(u0, u, uids, next, trace, cb);
      u', uids', next' := Append(u, next, cb.kind.dispose.value), uids + [next], next + 1;
    } else {
      DisposerSkipped(u0, CbsOf(u, uids), trace, cb);
      u', uids', next' := u, uids, next;
    }
  }

  /**
   * The drain loop shared by `notifyMounted`, `notifyUnmounted`,
   * `contextMounted` and `contextUnmounted`: invokes the callbacks from the
   * head, reading each `next` before the call and clearing it after, and in
   * the `finally` clears head and tail. A completed mount block's disposer
   * is appended to `u`, the lifecycle's unmount list, with fresh id `next`.
   */
  method Drain(c: CbList, ghost ids: seq<int>, u: CbList, ghost uids: seq<int>, next: int)
      returns (trace: seq<Callback>, threw: bool, r: CbList, u': CbList, ghost uids': seq<int>, next': int)
    requires Holds(c, ids) && Holds(u, uids) && FreshFrom(u, next)
    ensures (trace, threw) == Run(CbsOf(c, ids))
    ensures r.head == None && r.tail == None && r.nodes.Keys == c.nodes.Keys
    ensures Holds(u', uids') && FreshFrom(u', next') && next <= next'
    ensures CbsOf(u', uids') == CbsOf(u, uids) + Disposers(trace)
  {
    ghost var cbs := CbsOf(c, ids);
    var cur := c.head;
    var nodes := c.nodes;
    ghost var i := 0;
    trace, threw := [], false;
    u', uids', next' := u, uids, next;
    assert cbs[0..] == cbs && [] + Run(cbs).0 == Run(cbs).0;
    assert Disposers([]) == [] && CbsOf(u, uids) + [] == CbsOf(u, uids);
    while cur.Some?
      invariant 0 <= i <= |ids|
      invariant cur == (if i < |ids| then Some(ids[i]) else None)
      invariant nodes.Keys == c.nodes.Keys
      invariant forall j :: i <= j < |ids| ==> nodes[ids[j]] == c.nodes[ids[j]]
      invariant !threw
      invariant Run(cbs) == (trace + Run(cbs[i..]).0, Run(cbs[i..]).1)
      invariant Holds(u', uids') && FreshFrom(u', next') && next <= next'
      invariant CbsOf(u', uids') == CbsOf(u, uids) + Disposers(trace)
      decreases |ids| - i
    {
      var id := cur.value;
      NodeAt(c, ids, nodes, i);
      var node := nodes[id];
      var tmp := node.next;
      if node.cb.throws {
        RunThrow(cbs, i, trace);
        DisposerSkipped(CbsOf(u, uids), CbsOf(u', uids'), trace, node.cb);
        trace := trace + [node.cb];
        threw := true;
        break;
      }
      RunStep(cbs, i, trace);
      u', uids', next' := Register(CbsOf(u, uids), u', uids', next', trace, node.cb);
      trace := trace + [node.cb];
      ClearStep(c, ids, nodes, i);
      nodes := nodes[id := node.(next := None)];
      cur := tmp;
      i := i + 1;
    }
    if !threw {
      RunDone(cbs, trace);
    }
    r := CbList(nodes, None, None);
  }
}
