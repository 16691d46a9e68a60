/**
 * `Iterator`'s `onDelta`: turns the change records of one list delta into
 * the new array of mounting groups.
 *
 * Groups are ints; the groups a run may allocate (`split`) are numbered from
 * `next` upwards, above every existing group. Mounting, unmounting and
 * rebinding a group's proxy are trace events. The scan keeps the cursors of
 * the source: `ni` into the new array, `oi` into the old one, `ri` into the
 * pool of recycled groups.
 */
module Iterator {
  import opened Wrappers

  type Group = int

  /** One change record of a list delta; `Cleared` has index -1. */
  datatype Record =
    | Changed(index: int, item: int)
    | Inserted(index: int, item: int)
    | Removed(index: int)
    | Cleared
  {
    function Index(): int {
      if Cleared? then -1 else index
    }
  }

  /**
   * Where a mount's anchor comes from: the first rendered group of the old or new array from
   * some index on, or the iterator's own `before`. A pending insert mounted from `Fill` looks
   * in the new array from `index + 1`. The pending loop (Iterator.ts:155-160) runs before the
   * unchanged tail is copied in (Iterator.ts:168-171), so the tail's slots, and those of later
   * pending inserts, are still holes then: `getAnchor` (`GetAnchor` below) skips them and may
   * fall through to `fallbackAnchor`. `start` records the index asked for, not the group found.
   */
  datatype Where = OldItems | NewItems | Before

  datatype Event =
    | Mount(g: Group, data: int, where: Where, start: int)   // mount(group, template, data, parent, getAnchor(…))
    | Remount(g: Group, data: int, start: int)                // unmount(group) then mount(group, …) in remount mode
    | Unmount(g: Group)
    | Update(g: Group, data: int)                             // updateProxy(group.$data, data, keys)

  /** An insert waiting for a recycled group: its reserved slot and its data. */
  datatype Pending = Pending(index: int, item: int)

  /** Which `onDelta`: as written, or unmounting the old groups on `clear` in remount mode. */
  datatype Build = AsWritten | Corrected

  /** What does not change during one `onDelta`: the old groups, the mode, the length change, the first group it may allocate. */
  datatype Ctx = Ctx(items: seq<Group>, isProxy: bool, lengthDelta: int, base: Group, build: Build)

  /** The locals of `onDelta`; `slots` is `newItems`, a `None` is a hole. */
  datatype Scan = Scan(ni: nat, oi: nat, ri: nat, inserted: nat, slots: seq<Option<Group>>,
                       pending: seq<Pending>, recycled: seq<Group>, trace: seq<Event>, next: Group, cleared: bool)

  function Max(a: int, b: int): int {
    if a < b then b else a
  }

  /** The cursors `(ni, oi)` after the first `k` records. */
  function Pos(changes: seq<Record>, k: int): (r: (int, int))
    requires 0 <= k <= |changes|
    ensures 0 <= r.0 && 0 <= r.1
  {
    if k == 0 then (0, 0) else StepPos(Pos(changes, k - 1), changes[k - 1])
  }

  /** The cursors `(ni, oi)` after one record: the copy up to its index, then its own move. */
  function StepPos(p: (int, int), ch: Record): (r: (int, int))
    requires 0 <= p.0 && 0 <= p.1
    ensures p.0 <= r.0 && p.1 <= r.1
  {
    var ni1 := Max(p.0, ch.Index());
    var oi1 := p.1 + (ni1 - p.0);
    match ch
    case Changed(_, _) => (ni1 + 1, oi1 + 1)
    case Inserted(_, _) => (ni1 + 1, oi1)
    case Removed(_) => (ni1, oi1 + 1)
    case Cleared => (ni1, oi1)
  }

  /** The cursors only move forward. */
  lemma {:induction false} PosMono(changes: seq<Record>, k: int, j: int)
    requires 0 <= k <= j <= |changes|
    decreases j - k
    ensures Pos(changes, k).0 <= Pos(changes, j).0 && Pos(changes, k).1 <= Pos(changes, j).1
  {
    if k < j {
      PosMono(changes, k, j - 1);
    }
  }

  /** The delta starts with a `clear`. */
  predicate StartsCleared(changes: seq<Record>) {
    |changes| > 0 && changes[0].Cleared?
  }

  /**
   * What `onDelta` relies on the list to deliver, for an old array of
   * length `n`: a `clear` only comes first and is followed by inserts at
   * the next free slot only; the records consume no more old groups than
   * there are; and the length change makes the final copy fill the new
   * array exactly (from the rest of the old array, or from nothing after a
   * `clear`).
   */
  ghost predicate Valid(n: int, changes: seq<Record>, lengthDelta: int) {
    && (forall k :: 0 < k < |changes| ==> !changes[k].Cleared?)
    && (StartsCleared(changes) ==>
          forall k :: 1 <= k < |changes| ==> changes[k].Inserted? && changes[k].index <= Pos(changes, k).0)
    && var (ni, oi) := Pos(changes, |changes|);
       && oi <= n && ni <= n + lengthDelta
       && (StartsCleared(changes) ==> n + lengthDelta == ni)
       && (!StartsCleared(changes) ==> oi + (n + lengthDelta - ni) == n)
  }

  /** The old groups placed in the slots, as a multiset; fresh groups are `bound` or above. */
  ghost function Olds(slots: seq<Option<Group>>, bound: Group): multiset<Group>
  {
    if |slots| == 0 then multiset{}
    else
      var last := slots[|slots| - 1];
      Olds(slots[..|slots| - 1], bound) + (if last.Some? && last.value < bound then multiset{last.value} else multiset{})
  }

  /** Filling a hole adds its group to the old ones exactly when it is old. */
  lemma {:induction false} OldsFill(slots: seq<Option<Group>>, i: int, g: Group, bound: Group)
    requires 0 <= i < |slots| && slots[i].None?
    decreases |slots|
    ensures Olds(slots[i := Some(g)], bound) == Olds(slots, bound) + (if g < bound then multiset{g} else multiset{})
  {
    var t := slots[i := Some(g)];
    if i < |slots| - 1 {
      assert t[..|t| - 1] == slots[..|slots| - 1][i := Some(g)];
      OldsFill(slots[..|slots| - 1], i, g, bound);
    } else {
      assert t[..|t| - 1] == slots[..|slots| - 1];
    }
  }

  /** Slots that are all holes hold no group. */
  lemma {:induction false} OldsNone(slots: seq<Option<Group>>, bound: Group)
    requires forall i :: 0 <= i < |slots| ==> slots[i].None?
    decreases |slots|
    ensures Olds(slots, bound) == multiset{}
  {
    if |slots| > 0 {
      OldsNone(slots[..|slots| - 1], bound);
    }
  }

  /** The groups a trace unmounts, as a multiset. */
  ghost function Unmounted(t: seq<Event>): multiset<Group>
  {
    if |t| == 0 then multiset{}
    else Unmounted(t[..|t| - 1]) + (if t[|t| - 1].Unmount? then multiset{t[|t| - 1].g} else multiset{})
  }

  /** Events other than `Unmount` leave the unmounted groups alone. */
  lemma UnmountedAppend(t: seq<Event>, e: Event)
    ensures Unmounted(t + [e]) == Unmounted(t) + (if e.Unmount? then multiset{e.g} else multiset{})
  {
    assert (t + [e])[..|t|] == t;
  }

  /** `unmount` of every group of `gs`, in order. */
  function UnmountAll(gs: seq<Group>): (r: seq<Event>)
    ensures |r| == |gs|
    ensures forall i :: 0 <= i < |gs| ==> r[i] == Unmount(gs[i])
  {
    seq(|gs|, i requires 0 <= i < |gs| => Unmount(gs[i]))
  }

  lemma {:induction false} UnmountedAll(t: seq<Event>, gs: seq<Group>)
    decreases |gs|
    ensures Unmounted(t + UnmountAll(gs)) == Unmounted(t) + multiset(gs)
  {
    if |gs| > 0 {
      var init, g := gs[..|gs| - 1], gs[|gs| - 1];
      UnmountedAll(t, init);
      UnmountAllStep(t, gs);
      Rejoin(Unmounted(t + UnmountAll(gs)), Unmounted(t + UnmountAll(init)), Unmounted(t),
             multiset(init), multiset(gs), g);
    } else {
      assert t + UnmountAll(gs) == t;
    }
  }

  /** Unmounting one more group adds it to the unmounted ones. */
  lemma UnmountAllStep(t: seq<Event>, gs: seq<Group>)
    requires |gs| > 0
    ensures Unmounted(t + UnmountAll(gs)) == Unmounted(t + UnmountAll(gs[..|gs| - 1])) + multiset{gs[|gs| - 1]}
    ensures multiset(gs) == multiset(gs[..|gs| - 1]) + multiset{gs[|gs| - 1]}
  {
    var init, g := gs[..|gs| - 1], gs[|gs| - 1];
    assert UnmountAll(gs) == UnmountAll(init) + [Unmount(g)];
    assert t + UnmountAll(gs) == (t + UnmountAll(init)) + [Unmount(g)];
    UnmountedAppend(t + UnmountAll(init), Unmount(g));
    assert gs == init + [g];
  }

  lemma Rejoin(x: multiset<Group>, y: multiset<Group>, u: multiset<Group>, m: multiset<Group>, z: multiset<Group>, g: Group)
    requires x == y + multiset{g} && y == u + m && z == m + multiset{g}
    ensures x == u + z
  {
  }

  /** The error for a read past the end of the old array or a write past the end of the new one. */
  const OutOfRange := "index out of range"

  /**
   * `while (ni < change.$index) newItems[ni++] = items[oi++]`: copies
   * unchanged groups across until `ni` reaches `stop`. A read or write past
   * an end, which the source does not guard against, is an `Err`.
   */
  function CopyTo(c: Ctx, s: Scan, stop: int): (r: Result<Scan>)
    decreases stop - s.ni
    ensures r.Ok? <==> stop <= s.ni || (s.oi + (stop - s.ni) <= |c.items| && stop <= |s.slots|)
    ensures r.Ok? ==>
      && r.value.ni == Max(s.ni, stop) && r.value.oi == s.oi + (r.value.ni - s.ni)
      && r.value.(slots := s.slots, ni := s.ni, oi := s.oi) == s
      && |r.value.slots| == |s.slots|
      && (forall i :: 0 <= i < |s.slots| && !(s.ni <= i < r.value.ni) ==> r.value.slots[i] == s.slots[i])
      && (forall i :: s.ni <= i < r.value.ni ==> r.value.slots[i] == Some(c.items[s.oi + (i - s.ni)]))
  {
    if stop <= s.ni then Ok(s)
    else if !(s.oi < |c.items| && s.ni < |s.slots|) then Err(OutOfRange)
    else CopyTo(c, s.(slots := s.slots[s.ni := Some(c.items[s.oi])], ni := s.ni + 1, oi := s.oi + 1), stop)
  }

  /** One pass of the `for` loop in `onDelta`: the copy up to the record's index, then the `switch`. */
  function Apply(c: Ctx, s: Scan, ch: Record): (r: Result<Scan>)
  {
    var s :- CopyTo(c, s, ch.Index());
    Switch(c, s, ch)
  }

  /** The `switch` on the record's kind. */
  function Switch(c: Ctx, s: Scan, ch: Record): (r: Result<Scan>)
  {
    match ch
    case Changed(_, item) => Change(c, s, item)
    case Inserted(_, item) => Insert(c, s, item)
    case Removed(_) => Remove(c, s)
    case Cleared => Clear(c, s)
  }

  /**
   * `K_CHANGE`: the old group keeps its place; in proxy mode its proxies are
   * rebound to the new data, otherwise it is unmounted and mounted again
   * with the new data before the next old group.
   */
  function Change(c: Ctx, s: Scan, item: int): (r: Result<Scan>)
  {
    if !(s.oi < |c.items| && s.ni < |s.slots|) then Err(OutOfRange)
    else
      var g := c.items[s.oi];
      var ev := if c.isProxy then [Update(g, item)] else [Remount(g, item, s.oi + 1)];
      Ok(CopyOne(c, s).(trace := s.trace + ev))
  }

  /**
   * `K_INSERT`: takes the next recycled group and rebinds it; failing that,
   * in remount mode or while fewer groups were allocated than the list
   * grows by, allocates and mounts a fresh group; otherwise reserves the
   * slot for a group that a later removal will recycle.
   */
  function Insert(c: Ctx, s: Scan, item: int): (r: Result<Scan>)
  {
    if s.ri < |s.recycled| then
      if s.ni >= |s.slots| then Err(OutOfRange)
      else
        var g := s.recycled[s.ri];
        Ok(s.(slots := s.slots[s.ni := Some(g)], ni := s.ni + 1, ri := s.ri + 1,
              trace := s.trace + [Update(g, item), Mount(g, item, OldItems, s.oi)]))
    else if !c.isProxy || s.inserted < c.lengthDelta then
      if s.ni >= |s.slots| then Err(OutOfRange)
      else
        Ok(s.(slots := s.slots[s.ni := Some(s.next)], ni := s.ni + 1, next := s.next + 1, inserted := s.inserted + 1,
              trace := s.trace + [Mount(s.next, item, OldItems, s.oi)]))
    else
      Ok(s.(pending := s.pending + [Pending(s.ni, item)], ni := s.ni + 1))
  }

  /** `K_REMOVE`: the old group is recycled in proxy mode, unmounted otherwise. */
  function Remove(c: Ctx, s: Scan): (r: Result<Scan>)
  {
    if s.oi >= |c.items| then Err(OutOfRange)
    else if c.isProxy then Ok(s.(recycled := s.recycled + [c.items[s.oi]], oi := s.oi + 1))
    else Ok(s.(trace := s.trace + [Unmount(c.items[s.oi])], oi := s.oi + 1))
  }

  /**
   * `K_CLEAR`: in proxy mode every old group becomes recyclable. As written,
   * remount mode does nothing with the old groups; the corrected build
   * unmounts them all.
   */
  function Clear(c: Ctx, s: Scan): (r: Result<Scan>)
  {
    if c.isProxy then Ok(s.(recycled := c.items, cleared := true))
    else if c.build == Corrected then Ok(s.(trace := s.trace + UnmountAll(c.items), cleared := true))
    else Ok(s.(cleared := true))
  }

  /** The `for` loop over the records, from record `k` on. */
  function ScanFrom(c: Ctx, s: Scan, changes: seq<Record>, k: nat): (r: Result<Scan>)
    requires k <= |changes|
    decreases |changes| - k
  {
    if k == |changes| then Ok(s)
    else
      var s' :- Apply(c, s, changes[k]);
      ScanFrom(c, s', changes, k + 1)
  }

  /** Fulfils the pending inserts, in order, with recycled groups. */
  function Fill(c: Ctx, s: Scan): (r: Result<Scan>)
    decreases |s.pending|
    ensures r.Ok? ==> r.value.pending == []
  {
    if |s.pending| == 0 then Ok(s)
    else
      var p := s.pending[0];
      if !(s.ri < |s.recycled| && 0 <= p.index < |s.slots|) then Err(OutOfRange)
      else Fill(c, FillOne(s))
  }

  /** `newItems[tmp.$index] = recycled[ri++]`, then the rebind and the mount before the next group. */
  function FillOne(s: Scan): Scan
    requires 0 < |s.pending| && s.ri < |s.recycled| && 0 <= s.pending[0].index < |s.slots|
  {
    var p := s.pending[0];
    var g := s.recycled[s.ri];
    s.(pending := s.pending[1..], ri := s.ri + 1, slots := s.slots[p.index := Some(g)],
       trace := s.trace + [Update(g, p.item), Mount(g, p.item, NewItems, p.index + 1)])
  }

  /** Unmounts the recycled groups no insert took. */
  function Retire(s: Scan): (r: Scan)
    ensures r.ri == |s.recycled| || r.ri == s.ri
    ensures Unmounted(r.trace) == Unmounted(s.trace) + multiset(if s.ri <= |s.recycled| then s.recycled[s.ri..] else [])
  {
    if s.ri < |s.recycled| then
      UnmountedAll(s.trace, s.recycled[s.ri..]);
      s.(trace := s.trace + UnmountAll(s.recycled[s.ri..]), ri := |s.recycled|)
    else
      assert s.ri <= |s.recycled| ==> s.recycled[s.ri..] == [];
      s
  }

  /** The state `onDelta` starts from. */
  function Start(c: Ctx): Scan
    requires |c.items| + c.lengthDelta >= 0
  {
    Scan(0, 0, 0, 0, seq(|c.items| + c.lengthDelta, _ => None), [], [], [], c.base, false)
  }

  /**
   * `onDelta(delta)`: the new array of groups (in `slots`) and what was done
   * to the groups (in `trace`). A negative new length is the `RangeError` of
   * `new Array(iMax)`.
   */
  function OnDelta(c: Ctx, changes: seq<Record>): (r: Result<Scan>)
    ensures |c.items| + c.lengthDelta < 0 ==> r.Err?
    ensures r.Ok? ==> r.value.pending == [] && r.value.ni >= |c.items| + c.lengthDelta && r.value.ri >= |r.value.recycled|
  {
    var iMax := |c.items| + c.lengthDelta;
    if iMax < 0 then Err("Invalid array length")
    else
      var s :- Prepare(c, changes);
      CopyTo(c, s, iMax)
  }

  /** Everything `onDelta` does before the final copy: the scan, the pending fill, the retirement of unused groups. */
  function Prepare(c: Ctx, changes: seq<Record>): (r: Result<Scan>)
    requires |c.items| + c.lengthDelta >= 0
    ensures r.Ok? ==> r.value.pending == [] && r.value.ri >= |r.value.recycled|
  {
    var s1 :- ScanFrom(c, Start(c), changes, 0);
    var s2 :- Fill(c, s1);
    Ok(Retire(s2))
  }

  // ---------------------------------------------------------------------
  // Invariants of the scan

  /** The slots reserved by pending inserts. */
  function Idx(p: seq<Pending>): (r: set<int>)
    ensures forall j :: 0 <= j < |p| ==> p[j].index in r
  {
    set j | 0 <= j < |p| :: p[j].index
  }

  predicate Increasing(p: seq<Pending>) {
    forall i, j :: 0 <= i < j < |p| ==> p[i].index < p[j].index
  }

  /** Every old group is below the first group `onDelta` may allocate. */
  ghost predicate Fits(c: Ctx) {
    forall i :: 0 <= i < |c.items| ==> c.items[i] < c.base
  }

  /** The modes in which every old group is either kept or unmounted. */
  predicate Tracks(c: Ctx) {
    c.isProxy || c.build == Corrected
  }

  /**
   * Where the cursors and arrays stand: the new array has its final length,
   * its slots from `ni` on are holes, the holes before `ni` are exactly the
   * pending slots, the recycled groups are old ones, and in remount mode
   * nothing is ever recycled or pending.
   */
  ghost predicate Shape(c: Ctx, s: Scan) {
    && |s.slots| == |c.items| + c.lengthDelta
    && s.oi <= |c.items| && s.ni <= |s.slots| && s.ri <= |s.recycled| && c.base <= s.next
    && (forall i :: s.ni <= i < |s.slots| ==> s.slots[i].None?)
    && (forall i :: 0 <= i < s.ni ==> (s.slots[i].None? <==> i in Idx(s.pending)))
    && Increasing(s.pending)
    && (forall j :: 0 <= j < |s.pending| ==> 0 <= s.pending[j].index < s.ni)
    && (forall j :: 0 <= j < |s.recycled| ==> s.recycled[j] < c.base)
    && (forall i :: 0 <= i < |s.slots| && s.slots[i].Some? ==> s.slots[i].value < s.next)
    && (s.cleared ==> s.oi == 0)
    && (!c.isProxy ==> s.recycled == [] && s.pending == [])
  }

  /**
   * The bookkeeping that makes the pending inserts fit: every slot filled
   * so far came from an old group, a recycled one, a fresh one or a pending
   * insert; and an insert is only left pending once `inserted` reached the
   * length change.
   */
  ghost predicate Count(c: Ctx, s: Scan) {
    && (c.isProxy ==>
          if s.cleared then s.ni == s.ri + s.inserted + |s.pending| && |s.recycled| == |c.items|
          else s.ni - s.oi == s.ri + s.inserted + |s.pending| - |s.recycled|)
    && (|s.pending| > 0 ==> s.inserted >= c.lengthDelta)
  }

  /** The old groups taken so far: all of them after a `clear`, else the first `oi`. */
  function Taken(c: Ctx, s: Scan): seq<Group>
    requires s.oi <= |c.items|
  {
    if s.cleared then c.items else c.items[..s.oi]
  }

  /** Every old group taken is in the new array, still in the recycle pool, or unmounted, and only once. */
  ghost predicate Conserve(c: Ctx, s: Scan)
    requires s.oi <= |c.items| && s.ri <= |s.recycled|
  {
    multiset(Taken(c, s)) == Olds(s.slots, c.base) + multiset(s.recycled[s.ri..]) + Unmounted(s.trace)
  }

  ghost predicate Inv(c: Ctx, s: Scan) {
    && Shape(c, s) && Count(c, s)
    && ((Tracks(c) || !s.cleared) ==> Conserve(c, s))
  }

  /** The state `onDelta` starts from satisfies the invariant. */
  lemma StartInv(c: Ctx)
    requires |c.items| + c.lengthDelta >= 0
    ensures Inv(c, Start(c))
  {
    var s := Start(c);
    OldsNone(s.slots, c.base);
    assert Taken(c, s) == [];
  }

  /** The state after copying one old group across. */
  function CopyOne(c: Ctx, s: Scan): Scan
    requires s.oi < |c.items| && s.ni < |s.slots|
  {
    s.(slots := s.slots[s.ni := Some(c.items[s.oi])], ni := s.ni + 1, oi := s.oi + 1)
  }

  /** Copying one old group across keeps the invariant. */
  lemma CopyOneKeeps(c: Ctx, s: Scan)
    requires Fits(c) && Shape(c, s) && s.oi < |c.items| && s.ni < |s.slots| && !s.cleared
    ensures Shape(c, CopyOne(c, s))
    ensures Count(c, s) ==> Count(c, CopyOne(c, s))
    ensures Conserve(c, s) ==> Conserve(c, CopyOne(c, s))
  {
    CopyOneShape(c, s);
    if Conserve(c, s) {
      CopyOneConserve(c, s);
    }
  }

  lemma CopyOneConserve(c: Ctx, s: Scan)
    requires Fits(c) && s.oi < |c.items| && s.ni < |s.slots| && !s.cleared && s.ri <= |s.recycled|
    requires s.slots[s.ni].None? && Conserve(c, s)
    ensures Conserve(c, CopyOne(c, s))
  {
    var g := c.items[s.oi];
    var t := CopyOne(c, s);
    OldsFill(s.slots, s.ni, g, c.base);
    CopyOneTakes(c, s);
    Retake(multiset(Taken(c, s)), multiset(Taken(c, t)), Olds(s.slots, c.base), Olds(t.slots, c.base), g,
           multiset(s.recycled[s.ri..]), Unmounted(s.trace));
  }

  /** Copying one old group across takes it, and leaves the pool and the trace alone. */
  lemma CopyOneTakes(c: Ctx, s: Scan)
    requires s.oi < |c.items| && s.ni < |s.slots| && !s.cleared
    ensures var t := CopyOne(c, s);
      && multiset(Taken(c, t)) == multiset(Taken(c, s)) + multiset{c.items[s.oi]}
      && t.ri == s.ri && t.recycled == s.recycled && t.trace == s.trace
  {
    assert c.items[..s.oi + 1] == c.items[..s.oi] + [c.items[s.oi]];
  }

  /** The bookkeeping of copying one more old group into the new array. */
  lemma Retake(a: multiset<Group>, a': multiset<Group>, o: multiset<Group>, o': multiset<Group>, g: Group,
               r: multiset<Group>, u: multiset<Group>)
    requires a == o + r + u && a' == a + multiset{g} && o' == o + multiset{g}
    ensures a' == o' + r + u
  {
  }

  lemma CopyOneShape(c: Ctx, s: Scan)
    requires Fits(c) && Shape(c, s) && s.oi < |c.items| && s.ni < |s.slots| && !s.cleared
    ensures Shape(c, CopyOne(c, s))
  {
    var t := CopyOne(c, s);
    assert s.ni !in Idx(s.pending);
    forall i | 0 <= i < t.ni ensures t.slots[i].None? <==> i in Idx(t.pending) {
      if i < s.ni {
        assert t.slots[i] == s.slots[i];
      }
    }
  }

  /** `CopyTo` keeps the invariant when it succeeds. */
  lemma {:induction false} CopyKeeps(c: Ctx, s: Scan, stop: int)
    requires Fits(c) && Shape(c, s) && (s.cleared ==> stop <= s.ni) && CopyTo(c, s, stop).Ok?
    decreases stop - s.ni
    ensures Shape(c, CopyTo(c, s, stop).value)
    ensures Count(c, s) ==> Count(c, CopyTo(c, s, stop).value)
    ensures Conserve(c, s) ==> Conserve(c, CopyTo(c, s, stop).value)
  {
    if stop > s.ni {
      CopyOneKeeps(c, s);
      CopyKeeps(c, CopyOne(c, s), stop);
    }
  }

  /** Events other than `Unmount` leave the unmounted groups alone. */
  lemma QuietEvents(t: seq<Event>, ev: seq<Event>)
    requires forall i :: 0 <= i < |ev| ==> !ev[i].Unmount?
    decreases |ev|
    ensures Unmounted(t + ev) == Unmounted(t)
  {
    if |ev| > 0 {
      QuietEvents(t, ev[..|ev| - 1]);
      assert t + ev == (t + ev[..|ev| - 1]) + [ev[|ev| - 1]];
      UnmountedAppend(t + ev[..|ev| - 1], ev[|ev| - 1]);
    } else {
      assert t + ev == t;
    }
  }

  /** Events that unmount nothing keep the invariant. */
  lemma InvTrace(c: Ctx, u: Scan, t: Scan)
    requires Inv(c, u) && t == u.(trace := t.trace) && Unmounted(t.trace) == Unmounted(u.trace)
    ensures Inv(c, t)
  {
  }

  /** `K_CHANGE` keeps the invariant. */
  lemma ChangeKeeps(c: Ctx, s: Scan, item: int)
    requires Fits(c) && Inv(c, s) && !s.cleared && s.oi < |c.items| && s.ni < |s.slots|
    ensures Change(c, s, item).Ok? && Inv(c, Change(c, s, item).value)
  {
    var u := CopyOne(c, s);
    CopyOneKeeps(c, s);
    var g := c.items[s.oi];
    var ev := if c.isProxy then [Update(g, item)] else [Remount(g, item, s.oi + 1)];
    QuietEvents(s.trace, ev);
    var t := Change(c, s, item).value;
    assert t == u.(trace := s.trace + ev);
    InvTrace(c, u, t);
  }

  /** `K_INSERT` taking a recycled group keeps the invariant. */
  lemma InsertRecycledKeeps(c: Ctx, s: Scan, item: int)
    requires Fits(c) && Inv(c, s) && s.ri < |s.recycled| && s.ni < |s.slots|
    ensures Insert(c, s, item).Ok? && Inv(c, Insert(c, s, item).value)
  {
    InsertShape(c, s, item);
    var t := Insert(c, s, item).value;
    assert Count(c, t);
    if Conserve(c, s) {
      InsertRecycledConserve(c, s, item);
    }
  }

  /** `K_INSERT` fills the next slot, or leaves it pending, and keeps the shape. */
  lemma InsertShape(c: Ctx, s: Scan, item: int)
    requires Fits(c) && Shape(c, s) && s.ni < |s.slots|
    requires s.ri < |s.recycled| || !c.isProxy || s.inserted < c.lengthDelta
    ensures Insert(c, s, item).Ok? && Shape(c, Insert(c, s, item).value)
  {
    var t := Insert(c, s, item).value;
    assert s.ni !in Idx(s.pending);
    forall i | 0 <= i < t.ni ensures t.slots[i].None? <==> i in Idx(t.pending) {
      if i < s.ni {
        assert t.slots[i] == s.slots[i];
      }
    }
  }

  lemma InsertRecycledConserve(c: Ctx, s: Scan, item: int)
    requires s.ri < |s.recycled| && s.recycled[s.ri] < c.base
    requires s.oi <= |c.items| && s.ni < |s.slots| && s.slots[s.ni].None? && Conserve(c, s)
    ensures Insert(c, s, item).Ok? && Conserve(c, Insert(c, s, item).value)
  {
    var g := s.recycled[s.ri];
    var ev := InsertRecycledFields(c, s, item);
    var t := Insert(c, s, item).value;
    OldsFill(s.slots, s.ni, g, c.base);
    QuietEvents(s.trace, ev);
    Regroup(multiset(Taken(c, s)), Olds(s.slots, c.base), Olds(t.slots, c.base), g,
            multiset(s.recycled[s.ri..]), multiset(t.recycled[t.ri..]), Unmounted(s.trace), Unmounted(t.trace));
  }

  /** What `K_INSERT` with a recyclable group changes: the slot it fills, the pool cursor, and two quiet events. */
  lemma InsertRecycledFields(c: Ctx, s: Scan, item: int) returns (ev: seq<Event>)
    requires s.ri < |s.recycled| && s.ni < |s.slots|
    ensures Insert(c, s, item).Ok?
    ensures var t := Insert(c, s, item).value;
      && t.slots == s.slots[s.ni := Some(s.recycled[s.ri])]
      && t.ri == s.ri + 1 && t.recycled == s.recycled && t.oi == s.oi && t.cleared == s.cleared
      && s.recycled[s.ri..] == [s.recycled[s.ri]] + t.recycled[t.ri..]
      && t.trace == s.trace + ev && (forall i :: 0 <= i < |ev| ==> !ev[i].Unmount?)
  {
    ev := [Update(s.recycled[s.ri], item), Mount(s.recycled[s.ri], item, OldItems, s.oi)];
  }

  /** The bookkeeping of moving one group from the recycle pool into the new array. */
  lemma Regroup(a: multiset<Group>, o: multiset<Group>, o': multiset<Group>, g: Group,
                r: multiset<Group>, r': multiset<Group>, u: multiset<Group>, u': multiset<Group>)
    requires a == o + r + u && o' == o + multiset{g} && r == multiset{g} + r' && u' == u
    ensures a == o' + r' + u'
  {
  }

  /** `K_INSERT` allocating a fresh group keeps the invariant. */
  lemma InsertFreshKeeps(c: Ctx, s: Scan, item: int)
    requires Fits(c) && Inv(c, s) && s.ri >= |s.recycled| && (!c.isProxy || s.inserted < c.lengthDelta)
    requires s.ni < |s.slots|
    ensures Insert(c, s, item).Ok? && Inv(c, Insert(c, s, item).value)
  {
    InsertShape(c, s, item);
    var t := Insert(c, s, item).value;
    assert Count(c, t);
    if Conserve(c, s) {
      InsertFreshConserve(c, s, item);
    }
  }

  lemma InsertFreshConserve(c: Ctx, s: Scan, item: int)
    requires s.ri == |s.recycled| && (!c.isProxy || s.inserted < c.lengthDelta) && c.base <= s.next
    requires s.oi <= |c.items| && s.ni < |s.slots| && s.slots[s.ni].None? && Conserve(c, s)
    ensures Insert(c, s, item).Ok? && Conserve(c, Insert(c, s, item).value)
  {
    var t := Insert(c, s, item).value;
    assert t == s.(slots := s.slots[s.ni := Some(s.next)], ni := s.ni + 1, next := s.next + 1,
                   inserted := s.inserted + 1, trace := s.trace + [Mount(s.next, item, OldItems, s.oi)]);
    OldsFill(s.slots, s.ni, s.next, c.base);
    assert Olds(t.slots, c.base) == Olds(s.slots, c.base);
    QuietEvents(s.trace, [Mount(s.next, item, OldItems, s.oi)]);
    assert Unmounted(t.trace) == Unmounted(s.trace);
    assert Taken(c, t) == Taken(c, s);
  }

  /** `K_INSERT` leaving the slot pending keeps the invariant. */
  lemma InsertPendingKeeps(c: Ctx, s: Scan, item: int)
    requires Fits(c) && Inv(c, s) && s.ri >= |s.recycled| && c.isProxy && s.inserted >= c.lengthDelta
    requires s.ni < |s.slots|
    ensures Insert(c, s, item).Ok? && Inv(c, Insert(c, s, item).value)
  {
    var t := Insert(c, s, item).value;
    IdxAppend(s.pending, Pending(s.ni, item));
    forall i | 0 <= i < t.ni ensures t.slots[i].None? <==> i in Idx(t.pending) {
      if i < s.ni {
        assert i != s.ni;
      }
    }
    assert Shape(c, t);
  }

  lemma IdxAppend(p: seq<Pending>, x: Pending)
    ensures Idx(p + [x]) == Idx(p) + {x.index}
  {
    var q := p + [x];
    forall i | i in Idx(q) ensures i in Idx(p) + {x.index} {
      var j :| 0 <= j < |q| && q[j].index == i;
      if j < |p| {
        assert p[j] == q[j];
      }
    }
    forall i | i in Idx(p) ensures i in Idx(q) {
      var j :| 0 <= j < |p| && p[j].index == i;
      assert q[j] == p[j];
    }
    assert q[|p|] == x;
  }

  /** `K_REMOVE` keeps the invariant. */
  lemma RemoveKeeps(c: Ctx, s: Scan)
    requires Fits(c) && Inv(c, s) && !s.cleared && s.oi < |c.items|
    ensures Remove(c, s).Ok? && Inv(c, Remove(c, s).value)
  {
    RemoveShape(c, s);
    RemoveConserve(c, s);
  }

  lemma RemoveShape(c: Ctx, s: Scan)
    requires Fits(c) && Shape(c, s) && Count(c, s) && !s.cleared && s.oi < |c.items|
    ensures Remove(c, s).Ok? && Shape(c, Remove(c, s).value) && Count(c, Remove(c, s).value)
  {
  }

  lemma RemoveConserve(c: Ctx, s: Scan)
    requires Fits(c) && s.ri <= |s.recycled| && !s.cleared && s.oi < |c.items| && Conserve(c, s)
    ensures Remove(c, s).Ok? && Conserve(c, Remove(c, s).value)
  {
    var g := c.items[s.oi];
    RemoveFields(c, s);
    var t := Remove(c, s).value;
    Lose(multiset(Taken(c, s)), multiset(Taken(c, t)), Olds(s.slots, c.base), g, multiset(s.recycled[s.ri..]),
         multiset(t.recycled[t.ri..]), Unmounted(s.trace), Unmounted(t.trace));
  }

  /** What `K_REMOVE` changes: it takes the old group, then recycles or unmounts it. */
  lemma RemoveFields(c: Ctx, s: Scan)
    requires s.ri <= |s.recycled| && !s.cleared && s.oi < |c.items|
    ensures Remove(c, s).Ok?
    ensures var t := Remove(c, s).value; var g := c.items[s.oi];
      && t.slots == s.slots && t.ri == s.ri && t.cleared == s.cleared && t.oi == s.oi + 1 && t.ri <= |t.recycled|
      && multiset(Taken(c, t)) == multiset(Taken(c, s)) + multiset{g}
      && (c.isProxy ==> multiset(t.recycled[t.ri..]) == multiset(s.recycled[s.ri..]) + multiset{g} && t.trace == s.trace)
      && (!c.isProxy ==> t.recycled == s.recycled && Unmounted(t.trace) == Unmounted(s.trace) + multiset{g})
  {
    var g := c.items[s.oi];
    var t := Remove(c, s).value;
    assert c.items[..t.oi] == c.items[..s.oi] + [g];
    if c.isProxy {
      assert t.recycled[t.ri..] == s.recycled[s.ri..] + [g];
    } else {
      UnmountedAppend(s.trace, Unmount(g));
    }
  }

  /** The bookkeeping of taking one more old group out of the new array: it is recycled or unmounted. */
  lemma Lose(a: multiset<Group>, a': multiset<Group>, o: multiset<Group>, g: Group,
             r: multiset<Group>, r': multiset<Group>, u: multiset<Group>, u': multiset<Group>)
    requires a == o + r + u && a' == a + multiset{g}
    requires (r' == r + multiset{g} && u' == u) || (r' == r && u' == u + multiset{g})
    ensures a' == o + r' + u'
  {
  }

  /** `K_CLEAR` at the start keeps the invariant; the as-written remount mode no longer accounts for the old groups. */
  lemma ClearKeeps(c: Ctx)
    requires Fits(c) && |c.items| + c.lengthDelta >= 0
    ensures Clear(c, Start(c)).Ok? && Inv(c, Clear(c, Start(c)).value)
  {
    OldsNone(Start(c).slots, c.base);
    if c.isProxy {
      ClearRecycles(c);
    } else if c.build == Corrected {
      ClearUnmounts(c);
    }
  }

  /** A proxy list's `clear` moves every old group to the recycle pool. */
  lemma ClearRecycles(c: Ctx)
    requires Fits(c) && |c.items| + c.lengthDelta >= 0 && c.isProxy && Olds(Start(c).slots, c.base) == multiset{}
    ensures Inv(c, Clear(c, Start(c)).value)
  {
    var t := Clear(c, Start(c)).value;
    assert t.recycled[t.ri..] == c.items;
  }

  /** A plain list's corrected `clear` unmounts every old group. */
  lemma ClearUnmounts(c: Ctx)
    requires Fits(c) && |c.items| + c.lengthDelta >= 0 && !c.isProxy && c.build == Corrected
    requires Olds(Start(c).slots, c.base) == multiset{}
    ensures Inv(c, Clear(c, Start(c)).value)
  {
    var t := Clear(c, Start(c)).value;
    UnmountedAll([], c.items);
    assert [] + UnmountAll(c.items) == t.trace;
  }

  /**
   * One record keeps the invariant and moves the cursors as `Pos` says,
   * provided the record fits the arrays and honours the `clear` rules.
   */
  lemma ApplyKeeps(c: Ctx, s: Scan, ch: Record)
    requires Fits(c) && Inv(c, s)
    requires StepPos((s.ni, s.oi), ch).0 <= |s.slots| && StepPos((s.ni, s.oi), ch).1 <= |c.items|
    requires ch.Cleared? ==> s == Start(c)
    requires s.cleared ==> ch.Inserted? && ch.index <= s.ni
    ensures Apply(c, s, ch).Ok? && Inv(c, Apply(c, s, ch).value)
  {
    var m := CopyTo(c, s, ch.Index());
    assert m.Ok?;
    CopyKeeps(c, s, ch.Index());
    var s' := m.value;
    assert Inv(c, s');
    assert ch.Cleared? ==> s' == s;
    SwitchKeeps(c, s', ch);
    assert Apply(c, s, ch) == Switch(c, s', ch);
  }

  /** The `switch` keeps the invariant, on the state the copy left. */
  lemma SwitchKeeps(c: Ctx, s: Scan, ch: Record)
    requires Fits(c) && Inv(c, s)
    requires ch.Changed? ==> !s.cleared && s.oi < |c.items| && s.ni < |s.slots|
    requires ch.Inserted? ==> s.ni < |s.slots|
    requires ch.Removed? ==> !s.cleared && s.oi < |c.items|
    requires ch.Cleared? ==> s == Start(c)
    ensures Switch(c, s, ch).Ok? && Inv(c, Switch(c, s, ch).value)
  {
    match ch
    case Changed(_, item) =>
      ChangeKeeps(c, s, item);
    case Inserted(_, item) =>
      if s.ri < |s.recycled| {
        InsertRecycledKeeps(c, s, item);
      } else if !c.isProxy || s.inserted < c.lengthDelta {
        InsertFreshKeeps(c, s, item);
      } else {
        InsertPendingKeeps(c, s, item);
      }
    case Removed(_) =>
      RemoveKeeps(c, s);
    case Cleared =>
      ClearKeeps(c);
  }

  /** A record moves the cursors as `Pos` says; only `clear` sets the cleared flag. */
  lemma ApplyPos(c: Ctx, s: Scan, ch: Record)
    requires Apply(c, s, ch).Ok?
    ensures var r := Apply(c, s, ch).value;
      (r.ni, r.oi) == StepPos((s.ni, s.oi), ch) && r.cleared == (s.cleared || ch.Cleared?)
  {
  }

  /** One record of a valid delta applies cleanly and keeps what `ScanKeeps` carries. */
  lemma ScanStep(c: Ctx, changes: seq<Record>, k: nat, s: Scan) returns (s': Scan)
    requires Fits(c) && Valid(|c.items|, changes, c.lengthDelta) && k < |changes|
    requires Inv(c, s) && (s.ni, s.oi) == Pos(changes, k)
    requires s.cleared == (k > 0 && StartsCleared(changes)) && (k == 0 ==> s == Start(c))
    ensures Apply(c, s, changes[k]) == Ok(s')
    ensures Inv(c, s') && (s'.ni, s'.oi) == Pos(changes, k + 1) && s'.cleared == StartsCleared(changes)
    ensures ScanFrom(c, s, changes, k) == ScanFrom(c, s', changes, k + 1)
  {
    PosMono(changes, k + 1, |changes|);
    ApplyKeeps(c, s, changes[k]);
    s' := Apply(c, s, changes[k]).value;
    ApplyPos(c, s, changes[k]);
    assert k > 0 ==> !changes[k].Cleared?;
  }

  /**
   * The `for` loop over a valid delta never reads or writes past an end,
   * keeps the invariant, and leaves the cursors where `Pos` says.
   */
  lemma {:induction false} ScanKeeps(c: Ctx, changes: seq<Record>, k: nat, s: Scan) returns (r: Scan)
    requires Fits(c) && Valid(|c.items|, changes, c.lengthDelta) && k <= |changes|
    requires Inv(c, s) && (s.ni, s.oi) == Pos(changes, k)
    requires s.cleared == (k > 0 && StartsCleared(changes)) && (k == 0 ==> s == Start(c))
    decreases |changes| - k
    ensures ScanFrom(c, s, changes, k) == Ok(r)
    ensures Inv(c, r) && (r.ni, r.oi) == Pos(changes, |changes|) && r.cleared == StartsCleared(changes)
  {
    if k < |changes| {
      var s' := ScanStep(c, changes, k, s);
      r := ScanKeeps(c, changes, k + 1, s');
    } else {
      r := s;
      assert ScanFrom(c, s, changes, k) == Ok(s);
    }
  }

  /** Fulfilling the first pending insert keeps the invariant. */
  lemma FillOneKeeps(c: Ctx, s: Scan)
    requires Fits(c) && Inv(c, s) && 0 < |s.pending| && s.ri < |s.recycled|
    ensures 0 <= s.pending[0].index < |s.slots| && s.slots[s.pending[0].index].None? && Inv(c, FillOne(s))
  {
    FillOneShape(c, s);
    if Conserve(c, s) {
      FillOneConserve(c, s);
    }
  }

  lemma FillOneShape(c: Ctx, s: Scan)
    requires Fits(c) && Shape(c, s) && Count(c, s) && 0 < |s.pending| && s.ri < |s.recycled|
    ensures 0 <= s.pending[0].index < |s.slots| && s.slots[s.pending[0].index].None?
    ensures Shape(c, FillOne(s)) && Count(c, FillOne(s))
  {
    var p := s.pending[0];
    assert p.index in Idx(s.pending);
    var t := FillOne(s);
    assert s.pending == [p] + t.pending;
    IdxCons(p, t.pending);
    forall i | 0 <= i < t.ni ensures t.slots[i].None? <==> i in Idx(t.pending) {
      if i != p.index {
        assert t.slots[i] == s.slots[i];
      }
    }
  }

  lemma FillOneConserve(c: Ctx, s: Scan)
    requires 0 < |s.pending| && s.ri < |s.recycled| && 0 <= s.pending[0].index < |s.slots|
    requires s.slots[s.pending[0].index].None? && s.recycled[s.ri] < c.base
    requires s.oi <= |c.items| && Conserve(c, s)
    ensures Conserve(c, FillOne(s))
  {
    var p := s.pending[0];
    var g := s.recycled[s.ri];
    var t := FillOne(s);
    var ev := FillOneFields(s);
    OldsFill(s.slots, p.index, g, c.base);
    assert s.recycled[s.ri..] == [g] + t.recycled[t.ri..];
    QuietEvents(s.trace, ev);
    Regroup(multiset(Taken(c, s)), Olds(s.slots, c.base), Olds(t.slots, c.base), g,
            multiset(s.recycled[s.ri..]), multiset(t.recycled[t.ri..]), Unmounted(s.trace), Unmounted(t.trace));
  }

  /** What `FillOne` changes: the hole it fills, the pool cursor, and two events that unmount nothing. */
  lemma FillOneFields(s: Scan) returns (ev: seq<Event>)
    requires 0 < |s.pending| && s.ri < |s.recycled| && 0 <= s.pending[0].index < |s.slots|
    ensures var t := FillOne(s);
      && t.slots == s.slots[s.pending[0].index := Some(s.recycled[s.ri])]
      && t.ri == s.ri + 1 && t.recycled == s.recycled && t.oi == s.oi && t.cleared == s.cleared
      && t.trace == s.trace + ev && (forall i :: 0 <= i < |ev| ==> !ev[i].Unmount?)
  {
    var p := s.pending[0];
    ev := [Update(s.recycled[s.ri], p.item), Mount(s.recycled[s.ri], p.item, NewItems, p.index + 1)];
  }

  /** The first pending slot is reserved by no later pending insert. */
  lemma IdxCons(p: Pending, q: seq<Pending>)
    requires Increasing([p] + q)
    ensures Idx([p] + q) == Idx(q) + {p.index} && p.index !in Idx(q)
  {
    var r := [p] + q;
    assert r[0] == p;
    forall j | 0 <= j < |q| ensures q[j] == r[j + 1] && p.index < q[j].index {
    }
    forall i | i in Idx(r) ensures i in Idx(q) + {p.index} {
      var j :| 0 <= j < |r| && r[j].index == i;
      if j > 0 {
        assert r[j] == q[j - 1];
      }
    }
  }

  /** Fulfilling all pending inserts succeeds when enough groups wait in the pool, and keeps the invariant. */
  lemma {:induction false} FillKeeps(c: Ctx, s: Scan)
    requires Fits(c) && Inv(c, s) && |s.pending| <= |s.recycled| - s.ri
    decreases |s.pending|
    ensures Fill(c, s).Ok?
    ensures var r := Fill(c, s).value;
      && Inv(c, r) && r.pending == [] && r.ri == s.ri + |s.pending|
      && r.(slots := s.slots, trace := s.trace, pending := s.pending, ri := s.ri) == s
  {
    if |s.pending| > 0 {
      FillOneKeeps(c, s);
      FillKeeps(c, FillOne(s));
    }
  }

  /** After the scan, the pool holds enough groups for every pending insert. */
  lemma PoolSuffices(c: Ctx, changes: seq<Record>, s: Scan)
    requires Valid(|c.items|, changes, c.lengthDelta) && Inv(c, s)
    requires (s.ni, s.oi) == Pos(changes, |changes|) && s.cleared == StartsCleared(changes)
    ensures |s.pending| <= |s.recycled| - s.ri
  {
  }

  /** Unmounting the unused recycled groups keeps the shape and moves them from the pool to the unmounted ones. */
  lemma RetireKeeps(c: Ctx, s: Scan)
    requires Shape(c, s) && s.pending == []
    ensures Shape(c, Retire(s)) && Retire(s).ri == |s.recycled|
    ensures Conserve(c, s) ==> Conserve(c, Retire(s))
  {
  }

  /**
   * `onDelta` on a delta the list can deliver: it never reads or writes
   * past an end; the new array has the new length and no holes; every
   * group in it is old or allocated by this run; and, in proxy mode and in
   * the corrected remount mode, every old group ends up exactly once either
   * in the new array or unmounted.
   */
  lemma OnDeltaSound(c: Ctx, changes: seq<Record>) returns (r: Scan)
    requires Fits(c) && Valid(|c.items|, changes, c.lengthDelta)
    ensures OnDelta(c, changes) == Ok(r)
    ensures
      && |r.slots| == |c.items| + c.lengthDelta
      && (forall i :: 0 <= i < |r.slots| ==> r.slots[i].Some? && r.slots[i].value < r.next)
      && c.base <= r.next
      && ((Tracks(c) || !StartsCleared(changes)) ==> multiset(c.items) == Olds(r.slots, c.base) + Unmounted(r.trace))
  {
    var s := PrepareSound(c, changes);
    FinalCopy(c, changes, s);
    r := CopyTo(c, s, |c.items| + c.lengthDelta).value;
  }

  /** The scan, the pending fill and the retirement of unused groups leave what the final copy needs. */
  lemma PrepareSound(c: Ctx, changes: seq<Record>) returns (s: Scan)
    requires Fits(c) && Valid(|c.items|, changes, c.lengthDelta)
    ensures |c.items| + c.lengthDelta >= 0 && Prepare(c, changes) == Ok(s)
    ensures Shape(c, s) && s.pending == [] && s.ri == |s.recycled|
    ensures (s.ni, s.oi) == Pos(changes, |changes|) && s.cleared == StartsCleared(changes)
    ensures (Tracks(c) || !s.cleared) ==> Conserve(c, s)
  {
    StartInv(c);
    var s1 := ScanKeeps(c, changes, 0, Start(c));
    PoolSuffices(c, changes, s1);
    FillKeeps(c, s1);
    var s2 := Fill(c, s1).value;
    RetireKeeps(c, s2);
    s := Retire(s2);
  }

  /** Before the final copy, every old group copied or changed sits where the plan says. */
  lemma PreparePlaces(c: Ctx, changes: seq<Record>)
    requires Fits(c) && Valid(|c.items|, changes, c.lengthDelta)
    ensures |c.items| + c.lengthDelta >= 0 && Prepare(c, changes).Ok?
    ensures Placed(c, Prepare(c, changes).value, PlanAt(changes, |changes|))
  {
    var s1 := ScanDone(c, changes);
    var plan := PlanAt(changes, |changes|);
    FillFrame(c, s1);
    var s2 := Fill(c, s1).value;
    PlacedFrame(c, s1, s2, plan);
    PlacedFrame(c, s2, Retire(s2), plan);
  }

  /** The `for` loop over a valid delta, as the pending fill finds it. */
  lemma ScanDone(c: Ctx, changes: seq<Record>) returns (s: Scan)
    requires Fits(c) && Valid(|c.items|, changes, c.lengthDelta)
    ensures |c.items| + c.lengthDelta >= 0 && ScanFrom(c, Start(c), changes, 0) == Ok(s)
    ensures Inv(c, s) && |s.pending| <= |s.recycled| - s.ri
    ensures Placed(c, s, PlanAt(changes, |changes|))
  {
    StartInv(c);
    s := ScanKeeps(c, changes, 0, Start(c));
    ScanPlaces(c, changes, 0, Start(c), s);
    PoolSuffices(c, changes, s);
  }

  /** Placement survives any step that keeps `ni`, the length and every filled slot. */
  lemma PlacedFrame(c: Ctx, s: Scan, t: Scan, plan: seq<Origin>)
    requires Placed(c, s, plan) && t.ni == s.ni && |t.slots| == |s.slots|
    requires forall i :: 0 <= i < |s.slots| && s.slots[i].Some? ==> t.slots[i] == s.slots[i]
    ensures Placed(c, t, plan)
  {
  }

  /** The final copy fills the new array up to its end and completes the old groups taken. */
  lemma FinalCopy(c: Ctx, changes: seq<Record>, s: Scan)
    requires Fits(c) && Valid(|c.items|, changes, c.lengthDelta) && Shape(c, s) && s.pending == [] && s.ri == |s.recycled|
    requires (s.ni, s.oi) == Pos(changes, |changes|) && s.cleared == StartsCleared(changes)
    requires (Tracks(c) || !s.cleared) ==> Conserve(c, s)
    ensures CopyTo(c, s, |c.items| + c.lengthDelta).Ok?
    ensures var r := CopyTo(c, s, |c.items| + c.lengthDelta).value;
      && |r.slots| == |c.items| + c.lengthDelta
      && (forall i :: 0 <= i < |r.slots| ==> r.slots[i].Some? && r.slots[i].value < r.next)
      && c.base <= r.next
      && ((Tracks(c) || !StartsCleared(changes)) ==> multiset(c.items) == Olds(r.slots, c.base) + Unmounted(r.trace))
  {
    FinalCopyFrom(c, s);
  }

  /** `FinalCopy` in terms of where the loop left the cursors. */
  lemma FinalCopyFrom(c: Ctx, s: Scan)
    requires Fits(c) && Shape(c, s) && s.pending == [] && s.ri == |s.recycled|
    requires s.ni <= |c.items| + c.lengthDelta
    requires s.cleared ==> s.ni == |c.items| + c.lengthDelta
    requires !s.cleared ==> s.oi + (|c.items| + c.lengthDelta - s.ni) == |c.items|
    requires (Tracks(c) || !s.cleared) ==> Conserve(c, s)
    ensures CopyTo(c, s, |c.items| + c.lengthDelta).Ok?
    ensures var r := CopyTo(c, s, |c.items| + c.lengthDelta).value;
      && |r.slots| == |c.items| + c.lengthDelta
      && (forall i :: 0 <= i < |r.slots| ==> r.slots[i].Some? && r.slots[i].value < r.next)
      && c.base <= r.next
      && ((Tracks(c) || !s.cleared) ==> multiset(c.items) == Olds(r.slots, c.base) + Unmounted(r.trace))
  {
    var iMax := |c.items| + c.lengthDelta;
    CopyKeeps(c, s, iMax);
    var r := CopyTo(c, s, iMax).value;
    assert r.ni == iMax && r.pending == [];
    AllFilled(c, r);
    if Tracks(c) || !s.cleared {
      assert r.cleared == s.cleared && (r.cleared || r.oi == |c.items|);
      AllTaken(c, r);
    }
  }

  /** Once every old group is taken and the pool is used up, each is in the new array or unmounted. */
  lemma AllTaken(c: Ctx, r: Scan)
    requires r.oi <= |c.items| && r.ri == |r.recycled| && Conserve(c, r) && (r.cleared || r.oi == |c.items|)
    ensures multiset(c.items) == Olds(r.slots, c.base) + Unmounted(r.trace)
  {
    assert Taken(c, r) == c.items;
    assert r.recycled[r.ri..] == [];
  }

  /** With nothing pending, a scan that reached the end of the new array left no hole. */
  lemma AllFilled(c: Ctx, r: Scan)
    requires Shape(c, r) && r.ni == |r.slots| && r.pending == []
    ensures forall i :: 0 <= i < |r.slots| ==> r.slots[i].Some? && r.slots[i].value < r.next
  {
    forall i | 0 <= i < |r.slots| ensures r.slots[i].Some? {
      assert i !in Idx(r.pending);
    }
  }

  // ---------------------------------------------------------------------
  // What a delta means for the list, position by position

  /** Where the item at a position of the new list comes from. */
  datatype Origin =
    | Kept(j: int)                 // the old item at index j, untouched
    | Rebound(j: int, item: int)   // the old item at index j, given new data by a `change`
    | Added(item: int)             // an inserted item

  /** `n` old items from index `from` on, untouched. */
  function Run(from: int, n: int): (r: seq<Origin>)
    ensures |r| == Max(n, 0)
    ensures forall t :: 0 <= t < |r| ==> r[t] == Kept(from + t)
  {
    if n <= 0 then [] else Run(from, n - 1) + [Kept(from + n - 1)]
  }

  /** The first `Pos(changes, k).0` positions of the new list after the first `k` records. */
  function PlanAt(changes: seq<Record>, k: int): (r: seq<Origin>)
    requires 0 <= k <= |changes|
    ensures |r| == Pos(changes, k).0
  {
    if k == 0 then [] else PlanAt(changes, k - 1) + Segment(Pos(changes, k - 1), changes[k - 1])
  }

  /** The positions one record plans, from cursors `p`: the untouched old items before it, then its own item. */
  function Segment(p: (int, int), ch: Record): (r: seq<Origin>)
    requires 0 <= p.0 && 0 <= p.1
    ensures |r| == StepPos(p, ch).0 - p.0
  {
    var gap := Max(p.0, ch.Index()) - p.0;
    Run(p.1, gap) + Own(p.1 + gap, ch)
  }

  /** The position a record plans for its own item, with `oi` the old index it reaches. */
  function Own(oi: int, ch: Record): (r: seq<Origin>)
    ensures |r| == (if ch.Changed? || ch.Inserted? then 1 else 0)
  {
    match ch
    case Changed(_, item) => [Rebound(oi, item)]
    case Inserted(_, item) => [Added(item)]
    case Removed(_) => []
    case Cleared => []
  }

  /** The whole new list: the records' positions, then the rest of the old items. */
  function Plan(n: int, changes: seq<Record>, lengthDelta: int): (r: seq<Origin>)
  {
    var (ni, oi) := Pos(changes, |changes|);
    PlanAt(changes, |changes|) + Run(oi, n + lengthDelta - ni)
  }

  /** The old index an origin refers to, if any. */
  function Source(o: Origin): Option<int> {
    if o.Added? then None else Some(o.j)
  }

  /**
   * Old items keep their relative order in the new list, and each old index
   * they refer to was not yet consumed when its position was planned.
   */
  lemma {:induction false} PlanAtOrdered(changes: seq<Record>, k: int)
    requires 0 <= k <= |changes|
    decreases k
    ensures forall i :: 0 <= i < |PlanAt(changes, k)| && Source(PlanAt(changes, k)[i]).Some? ==>
      0 <= Source(PlanAt(changes, k)[i]).value < Pos(changes, k).1
    ensures forall i, i' ::
      (0 <= i < i' < |PlanAt(changes, k)| && Source(PlanAt(changes, k)[i]).Some? && Source(PlanAt(changes, k)[i']).Some?) ==>
      Source(PlanAt(changes, k)[i]).value < Source(PlanAt(changes, k)[i']).value
  {
    if k > 0 {
      PlanAtOrdered(changes, k - 1);
    }
  }

  /** In the whole new list the old items keep their relative order, and each is one of the old items. */
  lemma PlanOrdered(n: int, changes: seq<Record>, lengthDelta: int)
    requires Valid(n, changes, lengthDelta)
    ensures |Plan(n, changes, lengthDelta)| == n + lengthDelta
    ensures forall i :: 0 <= i < |Plan(n, changes, lengthDelta)| && Source(Plan(n, changes, lengthDelta)[i]).Some? ==>
      0 <= Source(Plan(n, changes, lengthDelta)[i]).value < n
    ensures forall i, i' ::
      (0 <= i < i' < |Plan(n, changes, lengthDelta)| &&
       Source(Plan(n, changes, lengthDelta)[i]).Some? && Source(Plan(n, changes, lengthDelta)[i']).Some?) ==>
      Source(Plan(n, changes, lengthDelta)[i]).value < Source(Plan(n, changes, lengthDelta)[i']).value
  {
    PlanAtOrdered(changes, |changes|);
  }

  /** Every position planned so far that refers to an old item holds that item's group. */
  ghost predicate Placed(c: Ctx, s: Scan, plan: seq<Origin>) {
    && |plan| == s.ni <= |s.slots|
    && forall i :: 0 <= i < s.ni && Source(plan[i]).Some? ==>
         0 <= plan[i].j < |c.items| && s.slots[i] == Some(c.items[plan[i].j])
  }

  /** One record places the old groups it copies or changes where the plan says. */
  lemma ApplyPlaces(c: Ctx, s: Scan, ch: Record, plan: seq<Origin>)
    requires Apply(c, s, ch).Ok? && Placed(c, s, plan) && Apply(c, s, ch).value.ni <= |s.slots|
    ensures Placed(c, Apply(c, s, ch).value, plan + Segment((s.ni, s.oi), ch))
  {
    var m := CopyTo(c, s, ch.Index()).value;
    var run := Run(s.oi, Max(s.ni, ch.Index()) - s.ni);
    CopyPlaces(c, s, ch.Index(), plan);
    SwitchPlaces(c, m, ch, plan + run);
    assert plan + Segment((s.ni, s.oi), ch) == plan + run + Own(m.oi, ch);
  }

  /** The copy up to a record's index places the old groups it copies. */
  lemma CopyPlaces(c: Ctx, s: Scan, stop: int, plan: seq<Origin>)
    requires CopyTo(c, s, stop).Ok? && Placed(c, s, plan)
    ensures Placed(c, CopyTo(c, s, stop).value, plan + Run(s.oi, Max(s.ni, stop) - s.ni))
  {
    var r := CopyTo(c, s, stop).value;
    var p := plan + Run(s.oi, Max(s.ni, stop) - s.ni);
    forall i | 0 <= i < r.ni && Source(p[i]).Some?
      ensures 0 <= p[i].j < |c.items| && r.slots[i] == Some(c.items[p[i].j])
    {
      if i >= s.ni {
        assert p[i] == Kept(s.oi + (i - s.ni));
      } else {
        assert p[i] == plan[i];
      }
    }
  }

  /** The `switch` places the old group a `change` keeps. */
  lemma SwitchPlaces(c: Ctx, s: Scan, ch: Record, plan: seq<Origin>)
    requires Switch(c, s, ch).Ok? && Placed(c, s, plan) && Switch(c, s, ch).value.ni <= |s.slots|
    ensures Placed(c, Switch(c, s, ch).value, plan + Own(s.oi, ch))
  {
    var r := Switch(c, s, ch).value;
    var p := plan + Own(s.oi, ch);
    assert |r.slots| == |s.slots|;
    forall i | 0 <= i < r.ni && Source(p[i]).Some?
      ensures 0 <= p[i].j < |c.items| && r.slots[i] == Some(c.items[p[i].j])
    {
      if i < s.ni {
        assert p[i] == plan[i];
      }
    }
  }

  /** A record never changes the length of the new array. */
  lemma ApplyLength(c: Ctx, s: Scan, ch: Record)
    requires Apply(c, s, ch).Ok?
    ensures |Apply(c, s, ch).value.slots| == |s.slots|
  {
    var m := CopyTo(c, s, ch.Index()).value;
    assert |Switch(c, m, ch).value.slots| == |m.slots|;
  }

  /** The `for` loop places every old group it copies or changes where the plan says. */
  lemma {:induction false} ScanPlaces(c: Ctx, changes: seq<Record>, k: nat, s: Scan, r: Scan)
    requires k <= |changes| && (s.ni, s.oi) == Pos(changes, k) && Pos(changes, |changes|).0 <= |s.slots|
    requires ScanFrom(c, s, changes, k) == Ok(r) && Placed(c, s, PlanAt(changes, k))
    decreases |changes| - k
    ensures Placed(c, r, PlanAt(changes, |changes|))
  {
    if k < |changes| {
      var s' := PlacesStep(c, changes, k, s);
      assert ScanFrom(c, s', changes, k + 1) == Ok(r);
      ScanPlaces(c, changes, k + 1, s', r);
    } else {
      assert ScanFrom(c, s, changes, k) == Ok(s);
    }
  }

  /** One pass of the loop extends the placement by the record's segment of the plan. */
  lemma PlacesStep(c: Ctx, changes: seq<Record>, k: nat, s: Scan) returns (s': Scan)
    requires k < |changes| && (s.ni, s.oi) == Pos(changes, k) && Pos(changes, |changes|).0 <= |s.slots|
    requires ScanFrom(c, s, changes, k).Ok? && Placed(c, s, PlanAt(changes, k))
    ensures ScanFrom(c, s, changes, k) == ScanFrom(c, s', changes, k + 1)
    ensures (s'.ni, s'.oi) == Pos(changes, k + 1) && Pos(changes, |changes|).0 <= |s'.slots|
    ensures Placed(c, s', PlanAt(changes, k + 1))
  {
    assert Apply(c, s, changes[k]).Ok?;
    s' := Apply(c, s, changes[k]).value;
    ApplyPos(c, s, changes[k]);
    ApplyLength(c, s, changes[k]);
    PosMono(changes, k + 1, |changes|);
    ApplyPlaces(c, s, changes[k], PlanAt(changes, k));
    assert PlanAt(changes, k + 1) == PlanAt(changes, k) + Segment((s.ni, s.oi), changes[k]);
  }

  /** Fulfilling the pending inserts only fills holes. */
  lemma {:induction false} FillFrame(c: Ctx, s: Scan)
    requires Fits(c) && Inv(c, s) && |s.pending| <= |s.recycled| - s.ri
    decreases |s.pending|
    ensures Fill(c, s).Ok? && |Fill(c, s).value.slots| == |s.slots| && Fill(c, s).value.ni == s.ni
    ensures forall i :: 0 <= i < |s.slots| && s.slots[i].Some? ==> Fill(c, s).value.slots[i] == s.slots[i]
  {
    if |s.pending| > 0 {
      FillOneKeeps(c, s);
      FillFrame(c, FillOne(s));
    }
  }

  /** The final copy places the rest of the old groups where the plan says. */
  lemma FinalPlaces(c: Ctx, changes: seq<Record>, s: Scan)
    requires Valid(|c.items|, changes, c.lengthDelta) && Shape(c, s)
    requires (s.ni, s.oi) == Pos(changes, |changes|) && s.cleared == StartsCleared(changes)
    requires Placed(c, s, PlanAt(changes, |changes|))
    ensures CopyTo(c, s, |c.items| + c.lengthDelta).Ok?
    ensures var r := CopyTo(c, s, |c.items| + c.lengthDelta).value;
      var plan := Plan(|c.items|, changes, c.lengthDelta);
      && |plan| == |r.slots|
      && forall i :: 0 <= i < |r.slots| && Source(plan[i]).Some? ==>
           0 <= Source(plan[i]).value < |c.items| && r.slots[i] == Some(c.items[Source(plan[i]).value])
  {
    PlanOrdered(|c.items|, changes, c.lengthDelta);
    var iMax := |c.items| + c.lengthDelta;
    var r := CopyTo(c, s, iMax).value;
    var plan := Plan(|c.items|, changes, c.lengthDelta);
    var head := PlanAt(changes, |changes|);
    assert plan == head + Run(s.oi, iMax - s.ni);
    forall i | 0 <= i < |r.slots| && Source(plan[i]).Some? ensures r.slots[i] == Some(c.items[Source(plan[i]).value]) {
      if i < s.ni {
        assert plan[i] == head[i];
      } else {
        assert plan[i] == Kept(s.oi + (i - s.ni));
      }
    }
  }

  /**
   * `onDelta` puts every old item the delta keeps or changes, untouched or
   * not, at the position the delta gives it, with the group it had; with
   * `PlanOrdered`, the old groups keep their relative order.
   */
  lemma OnDeltaPlaces(c: Ctx, changes: seq<Record>) returns (r: Scan)
    requires Fits(c) && Valid(|c.items|, changes, c.lengthDelta)
    ensures OnDelta(c, changes) == Ok(r)
    ensures |Plan(|c.items|, changes, c.lengthDelta)| == |r.slots|
    ensures forall i :: 0 <= i < |r.slots| && Source(Plan(|c.items|, changes, c.lengthDelta)[i]).Some? ==>
      && 0 <= Source(Plan(|c.items|, changes, c.lengthDelta)[i]).value < |c.items|
      && r.slots[i] == Some(c.items[Source(Plan(|c.items|, changes, c.lengthDelta)[i]).value])
  {
    PlanOrdered(|c.items|, changes, c.lengthDelta);
    var s := PrepareSound(c, changes);
    PreparePlaces(c, changes);
    FinalPlaces(c, changes, s);
    r := CopyTo(c, s, |c.items| + c.lengthDelta).value;
  }

  // ---------------------------------------------------------------------
  // `clear` in remount mode

  /**
   * As written, a remount-mode iterator that receives a `clear` of its one
   * item neither keeps nor unmounts that item's group: the new array is
   * empty and nothing is unmounted. The corrected build unmounts it.
   */
  lemma ClearLeaks()
    ensures var c := Ctx([1], false, -1, 2, AsWritten);
      && Fits(c) && Valid(1, [Cleared], -1)
      && OnDelta(c, [Cleared]) == Ok(Scan(0, 0, 0, 0, [], [], [], [], 2, true))
      && multiset(c.items) != Olds([], c.base) + Unmounted([])
      && OnDelta(c.(build := Corrected), [Cleared]) == Ok(Scan(0, 0, 0, 0, [], [], [], [Unmount(1)], 2, true))
  {
    var c := Ctx([1], false, -1, 2, AsWritten);
    assert Unmounted([]) == multiset{};
    ClearRun(c, Scan(0, 0, 0, 0, [], [], [], [], 2, true));
    assert [] + UnmountAll([1]) == [Unmount(1)];
    ClearRun(c.(build := Corrected), Scan(0, 0, 0, 0, [], [], [], [Unmount(1)], 2, true));
  }

  /** `onDelta` on a lone `Cleared` record when the list empties, in remount mode. */
  lemma ClearRun(c: Ctx, s: Scan)
    requires c.items == [1] && !c.isProxy && c.lengthDelta == -1 && c.base == 2
    requires s == Scan(0, 0, 0, 0, [], [], [], if c.build == Corrected then UnmountAll([1]) else [], 2, true)
    ensures OnDelta(c, [Cleared]) == Ok(s)
  {
    var s0 := Start(c);
    assert s0 == Scan(0, 0, 0, 0, [], [], [], [], 2, false);
    assert Apply(c, s0, Cleared) == Clear(c, s0);
    assert s0.trace + UnmountAll(c.items) == UnmountAll([1]);
    assert Clear(c, s0) == Ok(s);
    assert ScanFrom(c, s, [Cleared], 1) == Ok(s);
    assert Prepare(c, [Cleared]) == Ok(s);
  }

  // ---------------------------------------------------------------------
  // The initial render and `getAnchor`

  /**
   * The initial render: one fresh group per item of the list, from `base`
   * on, each mounted with its item's data before the iterator's `before`,
   * in list order.
   */
  function InitialRender(data: seq<int>, base: Group): (r: (seq<Group>, seq<Event>))
    ensures |r.0| == |r.1| == |data|
    ensures forall i :: 0 <= i < |data| ==> r.0[i] == base + i && r.1[i] == Mount(base + i, data[i], Before, 0)
  {
    if |data| == 0 then ([], [])
    else
      var (gs, ev) := InitialRender(data[..|data| - 1], base);
      (gs + [base + |data| - 1], ev + [Mount(base + |data| - 1, data[|data| - 1], Before, 0)])
  }

  /**
   * The groups of the initial render are distinct, none is unmounted, and
   * they sit below the next group to allocate, as `onDelta` needs.
   */
  lemma InitialRenderFits(data: seq<int>, base: Group, isProxy: bool, lengthDelta: int, build: Build)
    ensures var (gs, ev) := InitialRender(data, base);
      && Fits(Ctx(gs, isProxy, lengthDelta, base + |data|, build))
      && (forall i, j :: 0 <= i < j < |gs| ==> gs[i] != gs[j])
      && Unmounted(ev) == multiset{}
  {
    var (gs, ev) := InitialRender(data, base);
    QuietEvents([], ev);
    assert [] + ev == ev;
  }

  /** A group has rendered nodes (`item && item.top.length > 0`); a hole is `None`. */
  predicate HasTop(g: Option<seq<int>>) {
    g.Some? && |g.value| > 0
  }

  /**
   * `getAnchor(items, startIndex, fallback)`: the first node of the first
   * group at or after `start` that has rendered nodes, or `fallback` if
   * there is none. Each group is given by its `top` nodes.
   */
  method GetAnchor(items: seq<Option<seq<int>>>, start: nat, fallback: int) returns (r: int)
    ensures (exists i :: start <= i < |items| && HasTop(items[i])) ==>
      exists i :: start <= i < |items| && HasTop(items[i]) && r == items[i].value[0]
                  && forall k :: start <= k < i ==> !HasTop(items[k])
    ensures (forall i :: start <= i < |items| ==> !HasTop(items[i])) ==> r == fallback
  {
    var index := start;
    while index < |items|
      invariant start <= index
      invariant forall k :: start <= k < index && k < |items| ==> !HasTop(items[k])
      decreases |items| - index
    {
      if HasTop(items[index]) {
        return items[index].value[0];
      }
      index := index + 1;
    }
    return fallback;
  }
}
