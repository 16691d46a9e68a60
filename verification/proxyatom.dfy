/**
 * `ProxyAtom`: an atom that either mirrors another atom ("bound") or holds
 * a static, read-only value, and can be rebound with `use`. While bound it
 * keeps one dependency edge to the mirrored atom, owned by its lifecycle;
 * the edge object is created on the first binding and reused afterwards.
 */
module ProxyAtom {
  import opened Wrappers
  import opened Dependency

  /** A JavaScript value as far as `!==` can tell values apart. */
  datatype Val = Undefined | Null | Num(n: int)

  /** The argument of `use`: an atom to mirror, or a plain value. */
  datatype Source = AtomRef(atom: AtomId) | Plain(value: Val)

  /** Which getter and setter are installed, with `$bound` or `$value`. */
  datatype Mode = Bound(atom: AtomId) | Static(value: Val)

  /** The proxy object: its id (the notified argument), lifecycle, `$dep` and mode. */
  datatype Proxy = Proxy(id: int, lc: LcId, dep: Option<Handle>, mode: Mode)

  /** What a write does: forwarded to the mirrored atom, or refused (`false`). */
  datatype Write = Forwarded(atom: AtomId, value: Val) | Refused

  /** The atoms' current values, as the getters need them. */
  type Values = map<AtomId, Val>

  /** The getter's value needs the mirrored atom's value. */
  predicate Readable(p: Proxy, vals: Values) {
    p.mode.Bound? ==> p.mode.atom in vals
  }

  /** `getBoundValue` / `getStaticValue`. */
  function Get(p: Proxy, vals: Values): (v: Val)
    requires Readable(p, vals)
    ensures p.mode.Bound? ==> v == vals[p.mode.atom]
    ensures p.mode.Static? ==> v == p.mode.value
  {
    match p.mode
    case Bound(x) => vals[x]
    case Static(v) => v
  }

  /** `setBoundValue` forwards to the mirrored atom; `setStaticValue` refuses and changes nothing. */
  function Set(p: Proxy, v: Val): (w: Write)
    ensures p.mode.Bound? <==> w.Forwarded?
    ensures w.Forwarded? ==> w == Forwarded(p.mode.atom, v)
  {
    match p.mode
    case Bound(x) => Forwarded(x, v)
    case Static(_) => Refused
  }

  /** The value a source reads as once bound. */
  function SourceVal(src: Source, vals: Values): Val
    requires src.AtomRef? ==> src.atom in vals
  {
    match src
    case AtomRef(x) => vals[x]
    case Plain(v) => v
  }

  /** What `use` needs: a fresh handle for a first binding, a known atom, and an unlinkable `$dep`. */
  ghost predicate UseReady(p: Proxy, a: Arena, src: Source, vals: Values, h: Handle) {
    && Closed(a) && p.lc in a.owners && h !in a.edges && Readable(p, vals)
    && (src.AtomRef? ==> src.atom in a.atoms && src.atom in vals)
    && (p.dep.Some? ==> Unlinkable(a, p.dep.value))
  }

  /** The value of the optional unlink `use` starts with. */
  function UnlinkIf(a: Arena, dep: Option<Handle>, doIt: bool): (r: Result<Arena>)
    requires dep.Some? && doIt ==> Unlinkable(a, dep.value)
    ensures !(dep.Some? && doIt) ==> r == Ok(a)
    ensures dep.Some? && doIt ==> r == Unlink(a, dep.value)
  {
    if dep.Some? && doIt then Unlink(a, dep.value) else Ok(a)
  }

  /**
   * The rest of `use` once the old binding is gone: install the new getter
   * and setter, link the (reused or new) edge to a mirrored atom, and
   * notify iff the value read changed.
   */
  function Rebind(p: Proxy, a: Arena, src: Source, vals: Values, h: Handle, before: Val): (r: (Proxy, Arena, bool))
    requires p.lc in a.owners && Readable(p, vals)
    requires src.AtomRef? ==> src.atom in a.atoms && src.atom in vals
    requires var d := p.dep.GetOr(h); d in a.edges ==> a.edges[d].IsDead()
    ensures r.0.id == p.id && r.0.lc == p.lc
    ensures Readable(r.0, vals) && Get(r.0, vals) == SourceVal(src, vals)
    ensures r.2 <==> before != SourceVal(src, vals)
    ensures src.Plain? ==> r.0.mode == Static(src.value) && r.0.dep == p.dep && r.1 == a
    ensures src.AtomRef? ==> (r.0.mode == Bound(src.atom) && r.0.dep == Some(p.dep.GetOr(h))
                              && r.1 == Link(a, p.lc, src.atom, p.dep.GetOr(h), p.id))
  {
    match src
    case AtomRef(x) =>
      var d := p.dep.GetOr(h);
      (p.(dep := Some(d), mode := Bound(x)), Link(a, p.lc, x, d, p.id), before != vals[x])
    case Plain(v) =>
      (p.(mode := Static(v)), a, before != v)
  }

  /**
   * `use(src)` as written: unlinks `$dep` whenever it is set, even when an
   * earlier static rebinding has already unlinked it, and an `unlink` of a
   * dead edge throws.
   */
  function Use(p: Proxy, a: Arena, src: Source, vals: Values, h: Handle): (r: Result<(Proxy, Arena, bool)>)
    requires UseReady(p, a, src, vals, h)
    ensures p.dep.Some? ==> (r.Err? <==> a.edges[p.dep.value].target.None?)
    ensures p.dep.None? ==> r == Ok(Rebind(p, a, src, vals, h, Get(p, vals)))
    ensures r.Ok? ==> (Readable(r.value.0, vals) && Get(r.value.0, vals) == SourceVal(src, vals)
                       && (r.value.2 <==> Get(p, vals) != SourceVal(src, vals)))
  {
    match UnlinkIf(a, p.dep, true)
    case Err(msg) => Err(msg)
    case Ok(a1) => Ok(Rebind(p, a1, src, vals, h, Get(p, vals)))
  }

  /** `use` with the unlink guarded by the binding: only a bound proxy holds a live edge to drop. */
  function UseFixed(p: Proxy, a: Arena, src: Source, vals: Values, h: Handle): (r: Result<(Proxy, Arena, bool)>)
    requires UseReady(p, a, src, vals, h) && Inv(p, a)
    ensures p.mode.Static? ==> r == Ok(Rebind(p, a, src, vals, h, Get(p, vals)))
    ensures r.Ok? ==> (Readable(r.value.0, vals) && Get(r.value.0, vals) == SourceVal(src, vals)
                       && (r.value.2 <==> Get(p, vals) != SourceVal(src, vals)))
  {
    match UnlinkIf(a, p.dep, p.mode.Bound?)
    case Err(msg) => Err(msg)
    case Ok(a1) => Ok(Rebind(p, a1, src, vals, h, Get(p, vals)))
  }

  /**
   * The proxy's edge is live exactly while it is bound, and then it links
   * the mirrored atom to the proxy's lifecycle; an unbound proxy may hold a
   * dead edge for reuse.
   */
  ghost predicate Inv(p: Proxy, a: Arena) {
    && (p.mode.Bound? ==> p.dep.Some?)
    && (p.dep.Some? ==> p.dep.value in a.edges)
    && (p.dep.Some? && p.mode.Bound? ==>
          a.edges[p.dep.value].target == Some(p.mode.atom) && a.edges[p.dep.value].owner == Some(p.lc))
    && (p.dep.Some? && p.mode.Static? ==> a.edges[p.dep.value].IsDead())
  }

  /** `proxy(v, lifecycle)`: a static proxy with no value and no edge, then `use(v)`. */
  function MakeProxy(id: int, lc: LcId, a: Arena, src: Source, vals: Values, h: Handle): (r: (Proxy, Arena, bool))
    requires Closed(a) && lc in a.owners && h !in a.edges
    requires src.AtomRef? ==> src.atom in a.atoms && src.atom in vals
    ensures Readable(r.0, vals) && Get(r.0, vals) == SourceVal(src, vals)
    ensures r.2 <==> SourceVal(src, vals) != Undefined
    ensures Inv(r.0, r.1)
    ensures src.AtomRef? <==> r.0.dep.Some?
    ensures r.0.id == id && r.0.lc == lc
    ensures src.Plain? ==> r.1 == a
    ensures src.AtomRef? ==> r.0.dep == Some(h) && r.1 == Link(a, lc, src.atom, h, id)
  {
    var p := Proxy(id, lc, None, Static(Undefined));
    assert UseReady(p, a, src, vals, h);
    Use(p, a, src, vals, h).value
  }

  /** Views after an edge `d` is appended to the lists of atom `x` and lifecycle `l`. */
  ghost function Added(av: map<AtomId, seq<Handle>>, ov: map<LcId, seq<Handle>>, x: AtomId, l: LcId, d: Handle)
    : (r: (map<AtomId, seq<Handle>>, map<LcId, seq<Handle>>))
    requires x in av && l in ov
  {
    (av[x := av[x] + [d]], ov[l := ov[l] + [d]])
  }

  /** The first step of the corrected `use`: drop the live edge of a bound proxy. */
  lemma UnbindKeeps(p: Proxy, a: Arena, av: map<AtomId, seq<Handle>>, ov: map<LcId, seq<Handle>>)
      returns (av1: map<AtomId, seq<Handle>>, ov1: map<LcId, seq<Handle>>)
    requires WellFormed(a, av, ov) && Inv(p, a)
    ensures p.dep.Some? && p.mode.Bound? ==> Unlinkable(a, p.dep.value)
    ensures UnlinkIf(a, p.dep, p.mode.Bound?).Ok?
    ensures var a1 := UnlinkIf(a, p.dep, p.mode.Bound?).value;
      && WellFormed(a1, av1, ov1) && Closed(a1)
      && a1.edges.Keys == a.edges.Keys && a1.atoms.Keys == a.atoms.Keys && a1.owners.Keys == a.owners.Keys
      && (p.dep.Some? ==> a1.edges[p.dep.value].IsDead())
  {
    av1, ov1 := av, ov;
    if p.dep.Some? && p.mode.Bound? {
      var d := p.dep.value;
      UnlinkWellFormed(a, av, ov, d);
      var x := p.mode.atom;
      av1 := av[x := RemoveAt(av[x], IndexOf(av[x], d))];
      ov1 := ov[p.lc := RemoveAt(ov[p.lc], IndexOf(ov[p.lc], d))];
    }
    WellFormedClosed(UnlinkIf(a, p.dep, p.mode.Bound?).value, av1, ov1);
  }

  /**
   * The corrected `use` never throws on a proxy that keeps its invariant,
   * keeps the arena well formed, keeps the invariant, and reuses the one
   * edge object once it exists.
   */
  lemma UseFixedKeeps(p: Proxy, a: Arena, av: map<AtomId, seq<Handle>>, ov: map<LcId, seq<Handle>>,
                      src: Source, vals: Values, h: Handle)
      returns (av': map<AtomId, seq<Handle>>, ov': map<LcId, seq<Handle>>)
    requires WellFormed(a, av, ov) && Inv(p, a) && p.lc in a.owners && h !in a.edges && Readable(p, vals)
    requires src.AtomRef? ==> src.atom in a.atoms && src.atom in vals
    ensures UseReady(p, a, src, vals, h)
    ensures var r := UseFixed(p, a, src, vals, h);
      && r.Ok? && Inv(r.value.0, r.value.1) && WellFormed(r.value.1, av', ov')
      && (p.dep.Some? ==> r.value.0.dep == p.dep)
  {
    WellFormedClosed(a, av, ov);
    if p.dep.Some? && p.mode.Static? {
      assert Unlinkable(a, p.dep.value);
    }
    var av1, ov1 := UnbindKeeps(p, a, av, ov);
    var a1 := UnlinkIf(a, p.dep, p.mode.Bound?).value;
    var r := Rebind(p, a1, src, vals, h, Get(p, vals));
    av', ov' := av1, ov1;
    if src.AtomRef? {
      var d := p.dep.GetOr(h);
      LinkWellFormed(a1, av1, ov1, p.lc, src.atom, d, p.id);
      av', ov' := Added(av1, ov1, src.atom, p.lc, d).0, Added(av1, ov1, src.atom, p.lc, d).1;
    }
  }

  /**
   * As written, rebinding a proxy from an atom to a static value leaves the
   * dead edge in `$dep`, so any further `use` — static or atom — unlinks
   * the dead edge and throws.
   */
  lemma RebindAfterStaticThrows(p: Proxy, a: Arena, av: map<AtomId, seq<Handle>>, ov: map<LcId, seq<Handle>>,
                                v: Val, src: Source, vals: Values, h: Handle)
    requires WellFormed(a, av, ov) && Inv(p, a) && p.mode.Bound? && p.lc in a.owners && h !in a.edges
    requires Readable(p, vals) && (src.AtomRef? ==> src.atom in a.atoms && src.atom in vals)
    ensures UseReady(p, a, Plain(v), vals, h)
    ensures var r := Use(p, a, Plain(v), vals, h);
      && r.Ok? && r.value.0.mode == Static(v) && r.value.0.dep == p.dep
      && UseReady(r.value.0, r.value.1, src, vals, h)
      && Use(r.value.0, r.value.1, src, vals, h).Err?
  {
    WellFormedClosed(a, av, ov);
    var d := p.dep.value;
    UnlinkWellFormed(a, av, ov, d);
    var a1 := Unlink(a, d).value;
    var x := p.mode.atom;
    WellFormedClosed(a1, av[x := RemoveAt(av[x], IndexOf(av[x], d))], ov[p.lc := RemoveAt(ov[p.lc], IndexOf(ov[p.lc], d))]);
    assert UseReady(p, a, Plain(v), vals, h);
    var q := Rebind(p, a1, Plain(v), vals, h, Get(p, vals));
    assert Use(p, a, Plain(v), vals, h) == Ok(q);
    assert q.0.mode == Static(v) && q.0.dep == p.dep && q.1 == a1;
    assert Unlinkable(a1, d);
    assert UseReady(q.0, a1, src, vals, h);
    assert a1.edges[d].target.None?;
  }

  /** A concrete instance: bind to atom 0, rebind to 1, rebind to 2, which throws. */
  lemma StaticToStaticThrows()
    ensures var a := Arena(map[], map[0 := NoEnds], map[5 := NoEnds]);
      var vals: Values := map[0 := Num(7)];
      && Closed(a)
      && var p := MakeProxy(9, 5, a, AtomRef(0), vals, 100);
         && p.0.dep == Some(100) && p.2
         && UseReady(p.0, p.1, Plain(Num(1)), vals, 101)
         && var q := Use(p.0, p.1, Plain(Num(1)), vals, 101);
            && q.Ok?
            && UseReady(q.value.0, q.value.1, Plain(Num(2)), vals, 101)
            && Use(q.value.0, q.value.1, Plain(Num(2)), vals, 101).Err?
            && UseFixed(q.value.0, q.value.1, Plain(Num(2)), vals, 101).Ok?
  {
    var a := Arena(map[], map[0 := NoEnds], map[5 := NoEnds]);
    var av: map<AtomId, seq<Handle>> := map[0 := []];
    var ov: map<LcId, seq<Handle>> := map[5 := []];
    var vals: Values := map[0 := Num(7)];
    assert WellFormed(a, av, ov);
    var p := MakeProxy(9, 5, a, AtomRef(0), vals, 100);
    LinkWellFormed(a, av, ov, 5, 0, 100, 9);
    var av1, ov1 := av[0 := [100]], ov[5 := [100]];
    assert av[0] + [100] == [100] && ov[5] + [100] == [100];
    RebindAfterStaticThrows(p.0, p.1, av1, ov1, Num(1), Plain(Num(2)), vals, 101);
    var q := Use(p.0, p.1, Plain(Num(1)), vals, 101);
    UnlinkWellFormed(p.1, av1, ov1, 100);
    var av2 := av1[0 := RemoveAt(av1[0], IndexOf(av1[0], 100))];
    var ov2 := ov1[5 := RemoveAt(ov1[5], IndexOf(ov1[5], 100))];
    WellFormedClosed(q.value.1, av2, ov2);
    var _, _ := UseFixedKeeps(q.value.0, q.value.1, av2, ov2, Plain(Num(2)), vals, 101);
  }

  /**
   * On a proxy that keeps its invariant, `use` as written differs from the
   * corrected one only for a static proxy that still holds its old edge:
   * there it throws.
   */
  lemma UseAsWritten(p: Proxy, a: Arena, src: Source, vals: Values, h: Handle)
    requires UseReady(p, a, src, vals, h) && Inv(p, a)
    ensures p.dep.Some? && p.mode.Static? ==> Use(p, a, src, vals, h).Err?
    ensures !(p.dep.Some? && p.mode.Static?) ==> Use(p, a, src, vals, h) == UseFixed(p, a, src, vals, h)
  {
  }

  /**
   * The corrected `use` touches no other edge's target or owner, and adds at
   * most the fresh handle.
   */
  lemma UseFixedFrame(p: Proxy, a: Arena, av: map<AtomId, seq<Handle>>, ov: map<LcId, seq<Handle>>,
                      src: Source, vals: Values, h: Handle) returns (r: (Proxy, Arena, bool))
    requires WellFormed(a, av, ov) && Inv(p, a) && p.lc in a.owners && h !in a.edges && Readable(p, vals)
    requires src.AtomRef? ==> src.atom in a.atoms && src.atom in vals
    ensures UseReady(p, a, src, vals, h) && UseFixed(p, a, src, vals, h) == Ok(r)
    ensures a.edges.Keys <= r.1.edges.Keys <= a.edges.Keys + {p.dep.GetOr(h)} && r.1.atoms.Keys == a.atoms.Keys && r.1.owners.Keys == a.owners.Keys
    ensures forall g :: g in a.edges && Some(g) != p.dep ==>
      r.1.edges[g].target == a.edges[g].target && r.1.edges[g].owner == a.edges[g].owner
  {
    var _, _ := UseFixedKeeps(p, a, av, ov, src, vals, h);
    r := UseFixed(p, a, src, vals, h).value;
    var _, _ := UnbindKeeps(p, a, av, ov);
    var a1 := UnlinkIf(a, p.dep, p.mode.Bound?).value;
    assert forall g :: g in a.edges && Some(g) != p.dep ==>
      a1.edges[g].target == a.edges[g].target && a1.edges[g].owner == a.edges[g].owner
    by {
      if p.dep.Some? && p.mode.Bound? {
        UnlinkKeepsOthers(a, p.dep.value);
      }
    }
    assert r == Rebind(p, a1, src, vals, h, Get(p, vals));
    if src.AtomRef? {
      LinkKeepsOthers(a1, p.lc, src.atom, p.dep.GetOr(h), p.id);
    }
  }
}
