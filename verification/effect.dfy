/**
 * `Effect`: a block re-run whenever an atom it read changes.
 *
 * Every run bumps the effect's epoch and tags the edge of each atom it reads
 * with that epoch; a notification arriving over an edge with an older epoch
 * comes from an atom the latest run did not read, so the edge is unlinked
 * lazily instead of scheduling a run. The scheduler is a FIFO queue of jobs;
 * the block itself is foreign code, described by a `Body`.
 */
module Effect {
  import opened Wrappers
  import opened Dependency
  import opened Callbacks
  import Lifecycle

  /**
   * The fields of an effect object. `deps` is `None` until the first
   * resolve creates the map; `resolveCached` says whether `$resolve` has been
   * created; `dispose` is the disposer the last completed run returned.
   */
  datatype Eff = Eff(id: int, lc: LcId, epoch: int, willUnmount: bool,
                     deps: Option<map<AtomId, Handle>>, resolveCached: bool, dispose: Option<int>)

  /** A scheduled update: the `$resolve` callback of effect `effect`, queued for lifecycle `lc`. */
  datatype Job = Job(lc: LcId, effect: int)

  /**
   * What one run of the block does: the atoms it reads, in order, and then
   * either it throws or it returns a disposer (or nothing).
   */
  datatype Body = Body(accesses: seq<AtomId>, throws: bool, dispose: Option<int>)

  /** The object `effect(block, lifecycle)` builds before its first run. */
  function Create(id: int, lc: LcId): (e: Eff)
    ensures e.epoch == 1 && e.deps.None? && !e.willUnmount && e.dispose.None? && !e.resolveCached
  {
    Eff(id, lc, 1, false, None, false, None)
  }

  /** Every edge the effect recorded exists in the arena. */
  ghost predicate DepsIn(e: Eff, a: Arena) {
    e.deps.Some? && forall x :: x in e.deps.value ==> e.deps.value[x] in a.edges
  }

  /** Every recorded edge is live, targets the atom it is recorded under, and belongs to the effect's lifecycle. */
  ghost predicate DepsLive(e: Eff, a: Arena) {
    && e.deps.Some?
    && forall x :: x in e.deps.value ==>
         && e.deps.value[x] in a.edges
         && a.edges[e.deps.value[x]].target == Some(x)
         && a.edges[e.deps.value[x]].owner == Some(e.lc)
  }

  /** Handles at or above `unused` are not in use yet. */
  ghost predicate Below(a: Arena, unused: Handle) {
    forall h :: h in a.edges ==> h < unused
  }

  /** What `reportAccess` needs of the running effect and the arena. */
  ghost predicate ReportReady(e: Eff, a: Arena, x: AtomId, h: Handle) {
    && DepsIn(e, a) && Closed(a) && x in a.atoms && e.lc in a.owners && h !in a.edges
  }

  /**
   * `reportAccess(x)` with `cur` the running effect, `h` the handle a new
   * edge would get: a no-op outside of an effect; a tracked atom only has its
   * edge's epoch refreshed; an untracked one gets one new edge, linked and
   * recorded.
   */
  function ReportAccess(cur: Option<Eff>, a: Arena, x: AtomId, h: Handle): (r: (Arena, Option<Eff>))
    requires cur.Some? ==> ReportReady(cur.value, a, x, h)
    ensures cur.None? ==> r == (a, cur)
    ensures r.0.atoms.Keys == a.atoms.Keys && r.0.owners.Keys == a.owners.Keys
    ensures r.0.edges.Keys <= a.edges.Keys + {h}
    ensures cur.Some? ==> (r.1.Some? && r.1.value.deps.Some? && x in r.1.value.deps.value
      && r.1.value == cur.value.(deps := r.1.value.deps)
      && r.1.value.deps.value[x] in r.0.edges
      && r.0.edges[r.1.value.deps.value[x]].arg == cur.value.epoch)
    ensures cur.Some? && x in cur.value.deps.value ==> r.0.edges.Keys == a.edges.Keys && r.1 == cur
    ensures cur.Some? && x !in cur.value.deps.value ==>
      && r.0.edges.Keys == a.edges.Keys + {h}
      && r.1.value.deps.value == cur.value.deps.value[x := h]
      && r.0.edges[h].target == Some(x) && r.0.edges[h].owner == Some(cur.value.lc)
  {
    if cur.None? then (a, cur)
    else
      var e := cur.value;
      var deps := e.deps.value;
      if x in deps then (SetArg(a, deps[x], e.epoch), cur)
      else (Link(a, e.lc, x, h, e.epoch), Some(e.(deps := Some(deps[x := h]))))
  }

  /** The views after `reportAccess`: a new edge is last in its atom's list and in its lifecycle's list. */
  ghost function ViewsAfterRead(e: Eff, av: map<AtomId, seq<Handle>>, ov: map<LcId, seq<Handle>>, x: AtomId, h: Handle)
    : (r: (map<AtomId, seq<Handle>>, map<LcId, seq<Handle>>))
    requires e.deps.Some? && x in av && e.lc in ov
  {
    if x in e.deps.value then (av, ov) else (av[x := av[x] + [h]], ov[e.lc := ov[e.lc] + [h]])
  }

  /**
   * `reportAccess` keeps the arena well formed, keeps every recorded edge in
   * the arena, and keeps recorded edges live when they were.
   */
  lemma ReportAccessKeeps(e: Eff, a: Arena, av: map<AtomId, seq<Handle>>, ov: map<LcId, seq<Handle>>, x: AtomId, h: Handle)
    requires WellFormed(a, av, ov) && DepsIn(e, a) && x in a.atoms && e.lc in a.owners && h !in a.edges
    ensures Closed(a) && x in av && e.lc in ov
    ensures var r := ReportAccess(Some(e), a, x, h);
      var v := ViewsAfterRead(e, av, ov, x, h);
      && WellFormed(r.0, v.0, v.1)
      && DepsIn(r.1.value, r.0)
      && (DepsLive(e, a) ==> DepsLive(r.1.value, r.0))
  {
    WellFormedClosed(a, av, ov);
    var deps := e.deps.value;
    var r := ReportAccess(Some(e), a, x, h);
    if x in deps {
      SetArgWellFormed(a, av, ov, deps[x], e.epoch);
    } else {
      LinkWellFormed(a, av, ov, e.lc, x, h, e.epoch);
      LinkKeepsOthers(a, e.lc, x, h, e.epoch);
      if DepsLive(e, a) {
        forall y | y in r.1.value.deps.value
          ensures r.1.value.deps.value[y] in r.0.edges
          ensures r.0.edges[r.1.value.deps.value[y]].target == Some(y)
          ensures r.0.edges[r.1.value.deps.value[y]].owner == Some(e.lc)
        {
          if y != x {
            assert deps[y] in a.edges && deps[y] != h;
          }
        }
      }
    }
  }

  /** A well-formed arena delivers every live recorded edge's notifications: the edge is in its atom's list. */
  lemma LiveDepsHeard(e: Eff, a: Arena, av: map<AtomId, seq<Handle>>, ov: map<LcId, seq<Handle>>)
    requires WellFormed(a, av, ov) && DepsLive(e, a)
    ensures forall x :: x in e.deps.value ==> x in av && e.deps.value[x] in av[x]
  {
    forall x | x in e.deps.value ensures x in av && e.deps.value[x] in av[x] {
      assert Placed(a.edges[e.deps.value[x]], e.deps.value[x], av, ov);
    }
  }

  /**
   * The state of `resolve` after the block reported its first `i` accesses:
   * the arena is well formed, recorded edges stay in it (and stay live when
   * they were), and every atom accessed so far is recorded with an edge
   * tagged with the current epoch.
   */
  ghost predicate Progress(e: Eff, a: Arena, e': Eff, a': Arena, av': map<AtomId, seq<Handle>>, ov': map<LcId, seq<Handle>>,
                           unused': Handle, accesses: seq<AtomId>, i: int) {
    && 0 <= i <= |accesses|
    && e'.epoch == e.epoch + 1 && e' == e.(epoch := e'.epoch, deps := e'.deps)
    && WellFormed(a', av', ov') && DepsIn(e', a') && Below(a', unused') && e'.lc in a'.owners
    && a'.atoms.Keys == a.atoms.Keys
    && (e.deps.Some? && DepsLive(e, a) ==> DepsLive(e', a'))
    && (e.deps.None? ==> DepsLive(e', a'))
    && Tracked(e', a', accesses, i)
  }

  /** The first `i` accesses are recorded with edges tagged with the current epoch. */
  ghost predicate Tracked(e: Eff, a: Arena, accesses: seq<AtomId>, i: int)
    requires e.deps.Some? && 0 <= i <= |accesses|
  {
    forall j :: 0 <= j < i ==>
      accesses[j] in e.deps.value && e.deps.value[accesses[j]] in a.edges
      && a.edges[e.deps.value[accesses[j]]].arg == e.epoch
  }

  /** Reporting access number `i` records it and keeps the earlier ones tracked. */
  lemma TrackedStep(e: Eff, a: Arena, accesses: seq<AtomId>, i: int, h: Handle)
    requires 0 <= i < |accesses| && ReportReady(e, a, accesses[i], h) && Tracked(e, a, accesses, i)
    ensures var r := ReportAccess(Some(e), a, accesses[i], h);
      Tracked(r.1.value, r.0, accesses, i + 1)
  {
    var r := ReportAccess(Some(e), a, accesses[i], h);
    ReportAccessKeepsEntries(e, a, accesses[i], h);
    forall j | 0 <= j < i + 1
      ensures accesses[j] in r.1.value.deps.value && r.1.value.deps.value[accesses[j]] in r.0.edges
      ensures r.0.edges[r.1.value.deps.value[accesses[j]]].arg == r.1.value.epoch
    {
      if j < i {
        assert accesses[j] in e.deps.value;
      }
    }
  }

  /** Reporting access number `i` moves `resolve` on to the state after `i + 1` accesses. */
  lemma ResolveStep(e: Eff, a: Arena, e': Eff, a': Arena, av': map<AtomId, seq<Handle>>, ov': map<LcId, seq<Handle>>,
                    unused': Handle, accesses: seq<AtomId>, i: int)
    requires Progress(e, a, e', a', av', ov', unused', accesses, i) && i < |accesses|
    requires forall k :: 0 <= k < |accesses| ==> accesses[k] in a.atoms
    ensures ReportReady(e', a', accesses[i], unused') && accesses[i] in av' && e'.lc in ov'
    ensures var r := ReportAccess(Some(e'), a', accesses[i], unused');
      var v := ViewsAfterRead(e', av', ov', accesses[i], unused');
      Progress(e, a, r.1.value, r.0, v.0, v.1, unused' + 1, accesses, i + 1)
  {
    var x := accesses[i];
    assert x in a'.atoms;
    WellFormedClosed(a', av', ov');
    var r := ReportAccess(Some(e'), a', x, unused');
    var v := ViewsAfterRead(e', av', ov', x, unused');
    var e2 := r.1.value;
    assert WellFormed(r.0, v.0, v.1) && DepsIn(e2, r.0) && (DepsLive(e', a') ==> DepsLive(e2, r.0)) by {
      ReportAccessKeeps(e', a', av', ov', x, unused');
    }
    forall g | g in r.0.edges ensures g < unused' + 1 {
      assert g in a'.edges || g == unused';
    }
    TrackedStep(e', a', accesses, i, unused');
  }

  /**
   * `resolve`: creates the dependency map if missing, bumps the epoch, makes
   * the effect current, runs the block (each read reports an access with the
   * next unused handle), and in the `finally` sets the current effect to
   * null. The result is the block's disposer, or `Err` when it threw.
   */
  method Resolve(e: Eff, a: Arena, body: Body, unused: Handle,
                 ghost av: map<AtomId, seq<Handle>>, ghost ov: map<LcId, seq<Handle>>)
      returns (e': Eff, a': Arena, current: Option<Eff>, result: Result<Option<int>>, unused': Handle,
               ghost av': map<AtomId, seq<Handle>>, ghost ov': map<LcId, seq<Handle>>)
    requires WellFormed(a, av, ov) && e.lc in a.owners && Below(a, unused)
    requires e.deps.Some? ==> DepsIn(e, a)
    requires forall i :: 0 <= i < |body.accesses| ==> body.accesses[i] in a.atoms
    ensures current.None?
    ensures e'.epoch == e.epoch + 1
    ensures e' == e.(epoch := e'.epoch, deps := e'.deps)
    ensures WellFormed(a', av', ov') && DepsIn(e', a') && Below(a', unused')
    ensures e.deps.Some? && DepsLive(e, a) ==> DepsLive(e', a')
    ensures e.deps.None? ==> DepsLive(e', a')
    ensures e'.deps.Some? && Tracked(e', a', body.accesses, |body.accesses|)
    ensures result == (if body.throws then Err("effect block threw") else Ok(body.dispose))
  {
    e' := e.(deps := Some(e.deps.GetOr(map[])), epoch := e.epoch + 1);
    a', unused', av', ov' := a, unused, av, ov;
    current := Some(e');
    var i := 0;
    while i < |body.accesses|
      invariant current == Some(e')
      invariant Progress(e, a, e', a', av', ov', unused', body.accesses, i)
    {
      var x := body.accesses[i];
      ResolveStep(e, a, e', a', av', ov', unused', body.accesses, i);
      ghost var v := ViewsAfterRead(e', av', ov', x, unused');
      av', ov' := v.0, v.1;
      var r := ReportAccess(current, a', x, unused');
      a', current := r.0, r.1;
      e' := current.value;
      unused' := unused' + 1;
      i := i + 1;
    }
    current := None;
    result := if body.throws then Err("effect block threw") else Ok(body.dispose);
  }

  /**
   * One more reported access keeps every earlier entry of the dependency
   * map, and each of their edges keeps its epoch tag or is refreshed to the
   * current epoch.
   */
  lemma ReportAccessKeepsEntries(e: Eff, a: Arena, x: AtomId, h: Handle)
    requires ReportReady(e, a, x, h)
    ensures var r := ReportAccess(Some(e), a, x, h);
      forall y :: y in e.deps.value ==>
        && y in r.1.value.deps.value && r.1.value.deps.value[y] == e.deps.value[y]
        && (r.0.edges[e.deps.value[y]].arg == a.edges[e.deps.value[y]].arg
            || r.0.edges[e.deps.value[y]].arg == e.epoch)
  {
    var deps := e.deps.value;
    if x !in deps {
      LinkKeepsOthers(a, e.lc, x, h, e.epoch);
      forall y | y in deps ensures deps[y] != h { assert deps[y] in a.edges; }
    }
  }

  /**
   * `scheduleEffect`, called with `this` the notifying edge `h` and `epoch`
   * its tag: a tag older than the effect's epoch comes from an atom the
   * latest run did not read, and the edge is unlinked instead; otherwise the
   * cached `$resolve` job (created on first use) is queued for the effect's
   * lifecycle.
   */
  function ScheduleEffect(e: Eff, a: Arena, h: Handle, queue: seq<Job>): (r: Result<(Eff, Arena, seq<Job>)>)
    requires Unlinkable(a, h)
    ensures e.epoch > a.edges[h].arg ==>
      && (r.Err? <==> a.edges[h].target.None?)
      && (r.Ok? ==> r.value.0 == e && r.value.2 == queue && r.value.1.edges.Keys == a.edges.Keys
                    && r.value.1.edges[h].IsDead())
    ensures e.epoch <= a.edges[h].arg ==>
      && r.Ok? && r.value.1 == a && r.value.0 == e.(resolveCached := true)
      && r.value.2 == queue + [Job(e.lc, e.id)]
  {
    if e.epoch > a.edges[h].arg then
      match Unlink(a, h)
      case Err(msg) => Err(msg)
      case Ok(a') => Ok((e, a', queue))
    else
      Ok((e.(resolveCached := true), a, queue + [Job(e.lc, e.id)]))
  }

  /**
   * After a run, every atom the run read notifies over an edge tagged with
   * the effect's epoch, so its notification queues exactly one job and
   * leaves the arena alone.
   */
  lemma ReadAtomSchedules(e: Eff, a: Arena, accesses: seq<AtomId>, j: int, queue: seq<Job>)
    requires e.deps.Some? && 0 <= j < |accesses| && Tracked(e, a, accesses, |accesses|)
    requires Unlinkable(a, e.deps.value[accesses[j]])
    ensures var r := ScheduleEffect(e, a, e.deps.value[accesses[j]], queue);
      r.Ok? && r.value.1 == a && r.value.2 == queue + [Job(e.lc, e.id)]
  {
  }

  /**
   * A notification over a stale edge of a well-formed arena unlinks it: the
   * edge leaves its atom's list and its lifecycle's list and nothing is
   * queued.
   */
  lemma StaleEdgeUnlinked(e: Eff, a: Arena, av: map<AtomId, seq<Handle>>, ov: map<LcId, seq<Handle>>,
                          h: Handle, queue: seq<Job>)
    requires WellFormed(a, av, ov) && h in a.edges && a.edges[h].target.Some? && e.epoch > a.edges[h].arg
    ensures Unlinkable(a, h) && a.edges[h].target.value in av && a.edges[h].owner.Some?
    ensures a.edges[h].owner.value in ov
    ensures var x := a.edges[h].target.value;
      var l := a.edges[h].owner.value;
      var r := ScheduleEffect(e, a, h, queue);
      && r.Ok? && r.value.2 == queue
      && WellFormed(r.value.1, av[x := RemoveAt(av[x], IndexOf(av[x], h))], ov[l := RemoveAt(ov[l], IndexOf(ov[l], h))])
      && h !in RemoveAt(av[x], IndexOf(av[x], h))
  {
    UnlinkWellFormed(a, av, ov, h);
    var x := a.edges[h].target.value;
    assert ListOf(a.edges, a.atoms[x], av[x], AtomSide, x);
    RemoveAtDistinctGone(av[x], IndexOf(av[x], h));
  }

  /** Removing the `k`-th element of a duplicate-free list removes it altogether. */
  lemma RemoveAtDistinctGone(s: seq<Handle>, k: int)
    requires 0 <= k < |s| && Dependency.Distinct(s)
    ensures s[k] !in RemoveAt(s, k)
  {
    var t := RemoveAt(s, k);
    forall i | 0 <= i < |t| ensures t[i] != s[k] {
      assert t[i] == (if i < k then s[i] else s[i + 1]);
    }
  }

  /**
   * A stale edge stays recorded after its lazy unlink, so the atom is lost
   * for good: when a later run reads the atom again, `reportAccess` finds the
   * dead edge, only refreshes its tag, and links nothing; the effect is in
   * no list of that atom and never hears from it again.
   */
  lemma StaleUnlinkLosesAtom(e: Eff, a: Arena, av: map<AtomId, seq<Handle>>, ov: map<LcId, seq<Handle>>,
                             x: AtomId, queue: seq<Job>, n: int, h2: Handle)
    requires WellFormed(a, av, ov) && DepsLive(e, a) && x in e.deps.value
    requires a.edges[e.deps.value[x]].arg < e.epoch && Below(a, h2)
    ensures Unlinkable(a, e.deps.value[x]) && x in av
    ensures var h := e.deps.value[x];
      var r := ScheduleEffect(e, a, h, queue);
      && r.Ok? && r.value.0 == e && !DepsLive(e, r.value.1)
      && ReportReady(e.(epoch := n), r.value.1, x, h2)
      && var r2 := ReportAccess(Some(e.(epoch := n)), r.value.1, x, h2);
         && r2.0.edges.Keys == a.edges.Keys && r2.1.value.deps.value[x] == h
         && r2.0.edges[h].target.None?
         && WellFormed(r2.0, av[x := RemoveAt(av[x], IndexOf(av[x], h))], ov[e.lc := RemoveAt(ov[e.lc], IndexOf(ov[e.lc], h))])
         && h !in RemoveAt(av[x], IndexOf(av[x], h))
  {
    var h := e.deps.value[x];
    StaleEdgeUnlinked(e, a, av, ov, h, queue);
    var a1 := ScheduleEffect(e, a, h, queue).value.1;
    var av1 := av[x := RemoveAt(av[x], IndexOf(av[x], h))];
    var ov1 := ov[e.lc := RemoveAt(ov[e.lc], IndexOf(ov[e.lc], h))];
    WellFormedClosed(a1, av1, ov1);
    SetArgWellFormed(a1, av1, ov1, h, n);
  }

  /** The corrected stale branch: the entry of the unlinked edge is dropped from the dependency map. */
  function Forget(e: Eff, x: AtomId, h: Handle): (r: Eff)
    requires e.deps.Some?
    ensures r == e.(deps := r.deps) && r.deps.Some?
    ensures x in e.deps.value && e.deps.value[x] == h ==> r.deps.value == e.deps.value - {x}
    ensures !(x in e.deps.value && e.deps.value[x] == h) ==> r == e
  {
    if x in e.deps.value && e.deps.value[x] == h then e.(deps := Some(e.deps.value - {x})) else e
  }

  /** `scheduleEffect` whose stale branch also forgets the unlinked edge. */
  function ScheduleEffectFixed(e: Eff, a: Arena, h: Handle, queue: seq<Job>): (r: Result<(Eff, Arena, seq<Job>)>)
    requires Unlinkable(a, h) && e.deps.Some?
    ensures e.epoch <= a.edges[h].arg ==> r == ScheduleEffect(e, a, h, queue)
    ensures e.epoch > a.edges[h].arg ==>
      && (r.Err? <==> a.edges[h].target.None?)
      && (r.Ok? ==> ScheduleEffect(e, a, h, queue) == Ok((e, r.value.1, queue)) && r.value.2 == queue
                    && r.value.0 == e.(deps := r.value.0.deps) && r.value.0.deps.Some?
                    && var x := a.edges[h].target.value;
                       x in r.value.0.deps.value ==> r.value.0.deps.value[x] != h)
  {
    if e.epoch > a.edges[h].arg then
      match Unlink(a, h)
      case Err(msg) => Err(msg)
      case Ok(a') => Ok((Forget(e, a.edges[h].target.value, h), a', queue))
    else
      ScheduleEffect(e, a, h, queue)
  }

  /**
   * With the stale entry forgotten, every recorded edge stays live across a
   * notification, and a later read of the atom links a new edge that is in
   * the atom's list again.
   */
  lemma ScheduleFixedKeepsLive(e: Eff, a: Arena, av: map<AtomId, seq<Handle>>, ov: map<LcId, seq<Handle>>,
                               h: Handle, queue: seq<Job>)
    requires WellFormed(a, av, ov) && DepsLive(e, a) && h in a.edges && a.edges[h].target.Some?
    ensures Unlinkable(a, h)
    ensures var r := ScheduleEffectFixed(e, a, h, queue);
      r.Ok? && DepsLive(r.value.0, r.value.1)
  {
    WellFormedClosed(a, av, ov);
    UnlinkWellFormed(a, av, ov, h);
    UnlinkKeepsOthers(a, h);
    var r := ScheduleEffectFixed(e, a, h, queue);
    if e.epoch > a.edges[h].arg {
      var e1 := r.value.0;
      forall y | y in e1.deps.value
        ensures e1.deps.value[y] in r.value.1.edges
        ensures r.value.1.edges[e1.deps.value[y]].target == Some(y)
        ensures r.value.1.edges[e1.deps.value[y]].owner == Some(e1.lc)
      {
        assert e.deps.value[y] != h;
      }
    }
  }

  /** After the corrected lazy unlink, reading the atom again puts the effect back in the atom's list. */
  lemma StaleUnlinkFixedRelinks(e: Eff, a: Arena, av: map<AtomId, seq<Handle>>, ov: map<LcId, seq<Handle>>,
                                x: AtomId, queue: seq<Job>, n: int, h2: Handle)
    requires WellFormed(a, av, ov) && DepsLive(e, a) && x in e.deps.value
    requires a.edges[e.deps.value[x]].arg < e.epoch && Below(a, h2)
    ensures Unlinkable(a, e.deps.value[x]) && x in av && e.lc in ov
    ensures var h := e.deps.value[x];
      var r := ScheduleEffectFixed(e, a, h, queue);
      var av1 := av[x := RemoveAt(av[x], IndexOf(av[x], h))];
      var ov1 := ov[e.lc := RemoveAt(ov[e.lc], IndexOf(ov[e.lc], h))];
      && r.Ok? && x !in r.value.0.deps.value
      && ReportReady(r.value.0.(epoch := n), r.value.1, x, h2)
      && var r2 := ReportAccess(Some(r.value.0.(epoch := n)), r.value.1, x, h2);
         && r2.1.value.deps.value[x] == h2
         && DepsLive(r2.1.value, r2.0)
         && WellFormed(r2.0, av1[x := av1[x] + [h2]], ov1[e.lc := ov1[e.lc] + [h2]])
  {
    var h := e.deps.value[x];
    StaleEdgeUnlinked(e, a, av, ov, h, queue);
    ScheduleFixedKeepsLive(e, a, av, ov, h, queue);
    var r := ScheduleEffectFixed(e, a, h, queue);
    var e1 := r.value.0.(epoch := n);
    var av1 := av[x := RemoveAt(av[x], IndexOf(av[x], h))];
    var ov1 := ov[e.lc := RemoveAt(ov[e.lc], IndexOf(ov[e.lc], h))];
    assert DepsLive(e1, r.value.1);
    ReportAccessKeeps(e1, r.value.1, av1, ov1, x, h2);
  }

  /** Which `runEffect`: as written, or with the disposer cleared before the block runs. */
  datatype Build = AsWritten | Corrected

  /**
   * The disposer an effect holds after a run that first invoked `d`. As
   * written, a block that throws skips the assignment and leaves `d`, which
   * has already been called, in place.
   */
  function Settle(b: Build, d: Option<int>, result: Result<Option<int>>): Option<int> {
    match result
    case Ok(v) => v
    case Err(_) => if b == AsWritten then d else None
  }

  function OptSeq(d: Option<int>): (r: seq<int>)
    ensures |r| <= 1
  {
    if d.Some? then [d.value] else []
  }

  /**
   * The disposer calls an effect holding `d` makes over the runs `runs`
   * (each first invokes the held disposer) and the final teardown on unmount.
   */
  function Disposals(b: Build, d: Option<int>, runs: seq<Result<Option<int>>>): (r: seq<int>)
    decreases |runs|
    ensures |r| <= |runs| + 1
  {
    if |runs| == 0 then OptSeq(d)
    else OptSeq(d) + Disposals(b, Settle(b, d, runs[0]), runs[1..])
  }

  /** The disposers the completed runs returned, in order. */
  function Returned(runs: seq<Result<Option<int>>>): (r: seq<int>)
    decreases |runs|
    ensures |r| <= |runs|
  {
    if |runs| == 0 then []
    else (if runs[0].Ok? then OptSeq(runs[0].value) else []) + Returned(runs[1..])
  }

  /**
   * A run whose block throws leaves the disposer it already called in place,
   * so the next run (or the teardown) calls it a second time.
   */
  lemma DoubleDispose()
    ensures Returned([Ok(Some(1)), Err("block threw")]) == [1]
    ensures Disposals(AsWritten, None, [Ok(Some(1)), Err("block threw")]) == [1, 1]
    ensures Disposals(Corrected, None, [Ok(Some(1)), Err("block threw")]) == [1]
  {
    var runs: seq<Result<Option<int>>> := [Ok(Some(1)), Err("block threw")];
    assert runs[1..] == [Err("block threw")] && runs[1..][1..] == [];
  }

  /**
   * With the disposer cleared before the block runs, the disposers called
   * are exactly the one held at the start followed by every disposer a
   * completed run returned, in order: each is called once, before the next
   * run or on unmount.
   */
  lemma {:induction false} DisposedOnce(d: Option<int>, runs: seq<Result<Option<int>>>)
    decreases |runs|
    ensures Disposals(Corrected, d, runs) == OptSeq(d) + Returned(runs)
  {
    if |runs| > 0 {
      var d' := Settle(Corrected, d, runs[0]);
      DisposedOnce(d', runs[1..]);
      assert OptSeq(d') == (if runs[0].Ok? then OptSeq(runs[0].value) else []);
    }
  }

  /** The unmount callback `runEffect` registers: `teardownEffect` bound to the effect. */
  function TeardownCallback(e: Eff): (cb: Callback)
    ensures cb.name == e.id && cb.kind == Plain
  {
    Callback(e.id, false, Plain)
  }

  /**
   * `runEffect`: calls the held disposer (`called`), resolves the effect,
   * keeps the returned disposer, and the first time an effect holds a
   * disposer registers its teardown as an unmount callback of its lifecycle
   * (`next` is the next unused callback object id). `threw` says the block
   * threw, in which case nothing is registered, and the disposer held is
   * what `Settle` says for the build: as written the one already called,
   * corrected none.
   */
  method RunEffect(b: Build, e: Eff, a: Arena, lc: Lifecycle.Lc, body: Body, unused: Handle, next: int,
                   ghost av: map<AtomId, seq<Handle>>, ghost ov: map<LcId, seq<Handle>>, ghost uids: seq<int>)
      returns (e': Eff, a': Arena, lc': Lifecycle.Lc, called: Option<int>, threw: bool,
               unused': Handle, next': int, ghost av': map<AtomId, seq<Handle>>, ghost ov': map<LcId, seq<Handle>>,
               ghost uids': seq<int>)
    requires WellFormed(a, av, ov) && e.lc in a.owners && Below(a, unused)
    requires e.deps.Some? ==> DepsIn(e, a)
    requires forall i :: 0 <= i < |body.accesses| ==> body.accesses[i] in a.atoms
    requires Holds(lc.unmounts, uids) && FreshFrom(lc.unmounts, next)
    ensures called == e.dispose && threw == body.throws
    ensures e'.epoch == e.epoch + 1 && e'.id == e.id && e'.lc == e.lc
    ensures e'.dispose == Settle(b, e.dispose, if body.throws then Err("effect block threw") else Ok(body.dispose))
    ensures WellFormed(a', av', ov') && DepsIn(e', a') && Below(a', unused')
    ensures e.deps.Some? && DepsLive(e, a) ==> DepsLive(e', a')
    ensures e.deps.None? ==> DepsLive(e', a')
    ensures e'.deps.Some? && Tracked(e', a', body.accesses, |body.accesses|)
    ensures lc'.mounted == lc.mounted && lc'.mounts == lc.mounts
    ensures Holds(lc'.unmounts, uids') && FreshFrom(lc'.unmounts, next')
    ensures var registers := !body.throws && body.dispose.Some? && !e.willUnmount;
      && CbsOf(lc'.unmounts, uids') == CbsOf(lc.unmounts, uids) + (if registers then [TeardownCallback(e)] else [])
      && e'.willUnmount == (e.willUnmount || registers)
  {
    called := e.dispose;
    var e1 := e.(dispose := None);
    var current, result;
    e1, a', current, result, unused', av', ov' := Resolve(e1, a, body, unused, av, ov);
    threw := result.Err?;
    e' := e1.(dispose := Settle(b, e.dispose, result));
    lc', next', uids' := lc, next, uids;
    if !threw && e'.dispose.Some? && !e'.willUnmount {
      e' := e'.(willUnmount := true);
      AppendHolds(lc.unmounts, uids, next, TeardownCallback(e));
      lc' := Lifecycle.OnUnmounted(lc, next, TeardownCallback(e));
      uids' := uids + [next];
      next' := next + 1;
    }
  }

  /** `teardownEffect`: calls the held disposer (`called`) and drops it. */
  function TeardownEffect(e: Eff): (r: (Option<int>, Eff))
    ensures r.0 == e.dispose && r.1.dispose.None?
    ensures r.1 == e.(dispose := None)
  {
    (e.dispose, e.(dispose := None))
  }

  /** The disposer an effect holding `d` holds after the runs `runs`. */
  function HeldAfter(b: Build, d: Option<int>, runs: seq<Result<Option<int>>>): Option<int>
    decreases |runs|
  {
    if |runs| == 0 then d else HeldAfter(b, Settle(b, d, runs[0]), runs[1..])
  }

  /** The disposers the runs themselves call: each run calls the one held when it starts. */
  function RunCalls(b: Build, d: Option<int>, runs: seq<Result<Option<int>>>): seq<int>
    decreases |runs|
  {
    if |runs| == 0 then [] else OptSeq(d) + RunCalls(b, Settle(b, d, runs[0]), runs[1..])
  }

  /**
   * The teardown on unmount makes the last disposer call: the calls of the
   * runs followed by the teardown's call are all of `Disposals`, and a
   * second teardown calls nothing.
   */
  lemma {:induction false} TeardownAfterRuns(b: Build, d: Option<int>, runs: seq<Result<Option<int>>>, e: Eff)
    requires e.dispose == HeldAfter(b, d, runs)
    decreases |runs|
    ensures Disposals(b, d, runs) == RunCalls(b, d, runs) + OptSeq(TeardownEffect(e).0)
    ensures TeardownEffect(TeardownEffect(e).1).0.None?
  {
    if |runs| > 0 {
      TeardownAfterRuns(b, Settle(b, d, runs[0]), runs[1..], e);
      assert Disposals(b, d, runs) == OptSeq(d) + (RunCalls(b, Settle(b, d, runs[0]), runs[1..]) + OptSeq(e.dispose));
    }
  }
}
