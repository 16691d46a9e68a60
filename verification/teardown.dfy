/**
 * Edge teardown of a lifecycle (`notifyUnmounted`) or context
 * (`contextUnmounted`): walks the owned-edge list from its head, splices
 * each edge out of its atom's subscriber list, nulls all of the edge's
 * references, and finally clears the owned list's head and tail.
 *
 * The owned list itself is not spliced edge by edge: each edge's owner-side
 * pointers are nulled and the whole list is dropped at the end, so only the
 * atom lists need repairing.
 */
module Teardown {
  import opened Wrappers
  import opened Dependency

  function Elems(s: seq<Handle>): set<Handle> {
    set g | g in s
  }

  /** Every atom's list with the edges in `gone` filtered out. */
  function Strip(av: map<AtomId, seq<Handle>>, gone: set<Handle>): (r: map<AtomId, seq<Handle>>)
    ensures r.Keys == av.Keys
    ensures forall x :: x in r ==> r[x] == Without(av[x], gone)
  {
    map x | x in av :: Without(av[x], gone)
  }

  /**
   * An edge that teardown has not reached keeps its target, owner, owner-side
   * pointers and argument; a dead one is untouched altogether.
   */
  predicate Survives(e: Edge, orig: Edge) {
    && e.target == orig.target && e.owner == orig.owner
    && e.lp == orig.lp && e.ln == orig.ln && e.arg == orig.arg
    && (orig.target.None? ==> e.ap.None? && e.an.None?)
  }

  /** An owned edge is live and sits in its atom's list. */
  ghost predicate InItsAtom(a: Arena, av: map<AtomId, seq<Handle>>, h: Handle) {
    h in a.edges && a.edges[h].target.Some? && a.edges[h].target.value in av && h in av[a.edges[h].target.value]
  }

  /** What teardown needs of the arena it starts from. */
  ghost predicate OwnedFacts(a: Arena, av: map<AtomId, seq<Handle>>, ov: map<LcId, seq<Handle>>, l: LcId) {
    && l in ov && l in a.owners
    && ListOf(a.edges, a.owners[l], ov[l], OwnerSide, l)
    && (forall j :: 0 <= j < |ov[l]| ==> InItsAtom(a, av, ov[l][j]))
    && (forall y :: y in av ==> Distinct(av[y]))
    && (forall y, g :: y in av && g in av[y] ==> g in a.edges && a.edges[g].target == Some(y))
  }

  lemma OwnedFactsOf(a: Arena, av: map<AtomId, seq<Handle>>, ov: map<LcId, seq<Handle>>, l: LcId)
    requires WellFormed(a, av, ov) && l in ov
    ensures OwnedFacts(a, av, ov, l)
  {
    assert ListOf(a.edges, a.owners[l], ov[l], OwnerSide, l);
    forall j | 0 <= j < |ov[l]| ensures InItsAtom(a, av, ov[l][j]) {
      assert Placed(a.edges[ov[l][j]], ov[l][j], av, ov);
    }
    forall y | y in av ensures Distinct(av[y]) {
      assert ListOf(a.edges, a.atoms[y], av[y], AtomSide, y);
    }
    forall y, g | y in av && g in av[y] ensures g in a.edges && a.edges[g].target == Some(y) {
      assert ListOf(a.edges, a.atoms[y], av[y], AtomSide, y);
    }
  }

  /**
   * The state of the teardown loop after the first `i` owned edges of `l`
   * (the set `gone`): the atom lists are `views`, the old lists without
   * `gone`; the visited edges are dead and the others as they were.
   */
  ghost predicate TeardownInv(a: Arena, av: map<AtomId, seq<Handle>>, ov: map<LcId, seq<Handle>>, l: LcId,
                              e: map<Handle, Edge>, atoms: map<AtomId, Ends>,
                              views: map<AtomId, seq<Handle>>, gone: set<Handle>, i: int)
  {
    && l in ov && 0 <= i <= |ov[l]|
    && gone == Elems(ov[l][..i])
    && views == Strip(av, gone)
    && e.Keys == a.edges.Keys
    && AllLists(e, atoms, views, AtomSide)
    && (forall g :: g in a.edges && g !in gone ==> Survives(e[g], a.edges[g]))
    && (forall g :: g in gone ==> g in a.edges && e[g].IsDead() && e[g].arg == a.edges[g].arg)
  }

  lemma TeardownStart(a: Arena, av: map<AtomId, seq<Handle>>, ov: map<LcId, seq<Handle>>, l: LcId)
    requires WellFormed(a, av, ov) && l in ov
    ensures TeardownInv(a, av, ov, l, a.edges, a.atoms, av, {}, 0)
  {
    assert Elems(ov[l][..0]) == {};
    forall x | x in av ensures Without(av[x], {}) == av[x] {
      WithoutNone(av[x]);
    }
    assert Strip(av, {}) == av;
  }

  /** Facts about the edge the loop is at. */
  lemma TeardownAt(a: Arena, av: map<AtomId, seq<Handle>>, ov: map<LcId, seq<Handle>>, l: LcId,
                   e: map<Handle, Edge>, atoms: map<AtomId, Ends>,
                   views: map<AtomId, seq<Handle>>, gone: set<Handle>, i: int)
    requires OwnedFacts(a, av, ov, l)
    requires TeardownInv(a, av, ov, l, e, atoms, views, gone, i) && i < |ov[l]|
    ensures var h := ov[l][i];
      && h in a.edges && h in e && h !in gone
      && e[h].target.Some? && e[h].target == a.edges[h].target
      && e[h].target.value in views && e[h].target.value in atoms
      && h in views[e[h].target.value]
      && e[h].ln == (if i == |ov[l]| - 1 then None else Some(ov[l][i + 1]))
      && e[h].arg == a.edges[h].arg
  {
    var h := ov[l][i];
    assert InItsAtom(a, av, h);
    ChainAt(a.edges, a.owners[l], ov[l], i, OwnerSide);
    assert h !in ov[l][..i];
  }

  lemma ElemsStep(s: seq<Handle>, i: int)
    requires 0 <= i < |s|
    ensures Elems(s[..i + 1]) == Elems(s[..i]) + {s[i]}
  {
    assert s[..i + 1] == s[..i] + [s[i]];
  }

  /** The atom lists after splicing out owned edge `h`: one more edge filtered out. */
  lemma StripStep(av: map<AtomId, seq<Handle>>, gone: set<Handle>, x: AtomId, h: Handle, k: int)
    requires x in av && Distinct(av[x])
    requires 0 <= k < |Without(av[x], gone)| && Without(av[x], gone)[k] == h
    requires forall y :: y in av && y != x ==> h !in av[y]
    ensures Strip(av, gone)[x := RemoveAt(Strip(av, gone)[x], k)] == Strip(av, gone + {h})
  {
    WithoutOneMore(av[x], gone, h, k);
    forall y | y in av && y != x ensures Without(av[y], gone + {h}) == Without(av[y], gone) {
      WithoutAbsent(av[y], gone, h);
    }
  }

  /** One iteration of the teardown loop keeps the loop state. */
  lemma TeardownStep(a: Arena, av: map<AtomId, seq<Handle>>, ov: map<LcId, seq<Handle>>, l: LcId,
                     e: map<Handle, Edge>, atoms: map<AtomId, Ends>,
                     views: map<AtomId, seq<Handle>>, gone: set<Handle>, i: int)
      returns (e3: map<Handle, Edge>, atoms3: map<AtomId, Ends>, views3: map<AtomId, seq<Handle>>)
    requires OwnedFacts(a, av, ov, l)
    requires TeardownInv(a, av, ov, l, e, atoms, views, gone, i) && i < |ov[l]|
    ensures ov[l][i] in e && e[ov[l][i]].target.Some? && e[ov[l][i]].target.value in atoms
    ensures e[ov[l][i]].target.value in views
    ensures PtrIn(Prev(e[ov[l][i]], AtomSide), e) && PtrIn(Next(e[ov[l][i]], AtomSide), e)
    ensures e3 == SpliceSide(e, atoms[e[ov[l][i]].target.value], ov[l][i], AtomSide).0[ov[l][i] := Killed(e[ov[l][i]])]
    ensures atoms3 == atoms[e[ov[l][i]].target.value := SpliceSide(e, atoms[e[ov[l][i]].target.value], ov[l][i], AtomSide).1]
    ensures views3 == views[e[ov[l][i]].target.value :=
                            RemoveAt(views[e[ov[l][i]].target.value], IndexOf(views[e[ov[l][i]].target.value], ov[l][i]))]
    ensures TeardownInv(a, av, ov, l, e3, atoms3, views3, gone + {ov[l][i]}, i + 1)
  {
    TeardownAt(a, av, ov, l, e, atoms, views, gone, i);
    var h := ov[l][i];
    var x := e[h].target.value;
    var w := views[x];
    var k := IndexOf(w, h);
    assert PtrIn(Prev(e[h], AtomSide), e) && PtrIn(Next(e[h], AtomSide), e) by {
      assert ListOf(e, atoms[x], w, AtomSide, x);
      ChainNeighboursIn(e, atoms[x], w, k, AtomSide);
    }
    var r := SpliceSide(e, atoms[x], h, AtomSide);
    e3, atoms3, views3 := r.0[h := Killed(e[h])], atoms[x := r.1], views[x := RemoveAt(w, k)];
    assert e3.Keys == a.edges.Keys by {
      KeysKept(e, r.0, h, Killed(e[h]));
    }
    assert && AllLists(e3, atoms3, views3, AtomSide)
           && (forall g :: g in a.edges && g !in gone + {h} ==> Survives(e3[g], a.edges[g]))
           && (forall g :: g in gone + {h} ==> g in a.edges && e3[g].IsDead() && e3[g].arg == a.edges[g].arg)
    by {
      var e1, xe := SpliceKill(e, atoms, views, x, k);
      TeardownStepFrame(a, av, ov, l, e, atoms, views, gone, i, e1, w);
    }
    assert gone + {h} == Elems(ov[l][..i + 1]) by {
      ElemsStep(ov[l], i);
    }
    assert views3 == Strip(av, gone + {h}) by {
      assert forall y :: y in av && y != x ==> h !in av[y];
      StripStep(av, gone, x, h, k);
    }
  }

  lemma KeysKept(e: map<Handle, Edge>, e1: map<Handle, Edge>, h: Handle, d: Edge)
    requires e1.Keys == e.Keys && h in e
    ensures e1[h := d].Keys == e.Keys
  {
  }

  /**
   * Splicing the `k`-th edge out of atom `x`'s list and killing it leaves
   * every atom list well formed without that edge.
   */
  lemma SpliceKill(e: map<Handle, Edge>, atoms: map<AtomId, Ends>, views: map<AtomId, seq<Handle>>,
                   x: AtomId, k: int)
      returns (e1: map<Handle, Edge>, xe: Ends)
    requires AllLists(e, atoms, views, AtomSide) && x in views && 0 <= k < |views[x]|
    ensures views[x][k] in e
    ensures PtrIn(Prev(e[views[x][k]], AtomSide), e) && PtrIn(Next(e[views[x][k]], AtomSide), e)
    ensures (e1, xe) == SpliceSide(e, atoms[x], views[x][k], AtomSide)
    ensures FrameSplice(e, e1, views[x], AtomSide)
    ensures AllLists(e1[views[x][k] := Killed(e[views[x][k]])], atoms[x := xe], views[x := RemoveAt(views[x], k)], AtomSide)
  {
    assert ListOf(e, atoms[x], views[x], AtomSide, x);
    e1, xe := SpliceStep(e, atoms[x], views[x], k, AtomSide);
    FrameSpliceSame(e1);
    AtomSideAfter(e, e1, e1, atoms, views, x, k, xe, [], Killed(e[views[x][k]]));
  }

  /** The edges other than the spliced one are kept as the loop state needs. */
  lemma TeardownStepFrame(a: Arena, av: map<AtomId, seq<Handle>>, ov: map<LcId, seq<Handle>>, l: LcId,
                          e: map<Handle, Edge>, atoms: map<AtomId, Ends>,
                          views: map<AtomId, seq<Handle>>, gone: set<Handle>, i: int,
                          e1: map<Handle, Edge>, w: seq<Handle>)
    requires TeardownInv(a, av, ov, l, e, atoms, views, gone, i) && i < |ov[l]|
    requires ov[l][i] in a.edges && ov[l][i] !in gone
    requires ov[l][i] in w && FrameSplice(e, e1, w, AtomSide)
    requires forall g :: g in w ==> g in e && e[g].target.Some?
    ensures var h := ov[l][i];
      var e3 := e1[h := Killed(e[h])];
      && (forall g :: g in a.edges && g !in gone + {h} ==> Survives(e3[g], a.edges[g]))
      && (forall g :: g in gone + {h} ==> g in a.edges && e3[g].IsDead() && e3[g].arg == a.edges[g].arg)
  {
    var h := ov[l][i];
    var e3 := e1[h := Killed(e[h])];
    forall g | g in a.edges && g !in gone + {h} ensures Survives(e3[g], a.edges[g]) {
      assert Survives(e[g], a.edges[g]);
      if a.edges[g].target.None? {
        assert g !in w;
      }
    }
    forall g | g in gone + {h} ensures g in a.edges && e3[g].IsDead() && e3[g].arg == a.edges[g].arg {
      if g != h {
        assert e[g].IsDead();
        assert g !in w;
      } else {
        assert Survives(e[h], a.edges[h]);
      }
    }
  }

  /** When the loop has visited every owned edge, the arena is well formed without them. */
  lemma TeardownEnd(a: Arena, av: map<AtomId, seq<Handle>>, ov: map<LcId, seq<Handle>>, l: LcId,
                    e: map<Handle, Edge>, atoms: map<AtomId, Ends>,
                    views: map<AtomId, seq<Handle>>, gone: set<Handle>)
    requires WellFormed(a, av, ov) && l in ov
    requires TeardownInv(a, av, ov, l, e, atoms, views, gone, |ov[l]|)
    ensures l in a.owners && gone == Elems(ov[l])
    ensures WellFormed(Arena(e, atoms, a.owners[l := NoEnds]), views, ov[l := []])
  {
    assert ov[l][..|ov[l]|] == ov[l];
    TeardownEndOwners(a, av, ov, l, e, gone);
    forall g | g in e ensures Placed(e[g], g, views, ov[l := []]) {
      assert Placed(a.edges[g], g, av, ov);
      if g !in gone {
        assert Survives(e[g], a.edges[g]);
      }
    }
  }

  lemma TeardownEndOwners(a: Arena, av: map<AtomId, seq<Handle>>, ov: map<LcId, seq<Handle>>, l: LcId,
                          e: map<Handle, Edge>, gone: set<Handle>)
    requires WellFormed(a, av, ov) && l in ov && gone == Elems(ov[l])
    requires forall g :: g in a.edges && g !in gone ==> g in e && Survives(e[g], a.edges[g])
    ensures AllLists(e, a.owners[l := NoEnds], ov[l := []], OwnerSide)
  {
    var ov' := ov[l := []];
    var owners' := a.owners[l := NoEnds];
    forall m | m in ov' ensures ListOf(e, owners'[m], ov'[m], OwnerSide, m) {
      if m != l {
        assert ListOf(a.edges, a.owners[m], ov[m], OwnerSide, m);
        assert ListOf(a.edges, a.owners[l], ov[l], OwnerSide, l);
        forall g | g in ov[m]
          ensures g in e && Prev(e[g], OwnerSide) == Prev(a.edges[g], OwnerSide)
          ensures Next(e[g], OwnerSide) == Next(a.edges[g], OwnerSide) && Tag(e[g], OwnerSide) == Some(m)
        {
          assert g !in ov[l];
          assert Survives(e[g], a.edges[g]);
        }
        ChainFrame(a.edges, e, a.owners[m], ov[m], OwnerSide);
      }
    }
  }

  /**
   * The edge loop of `notifyUnmounted` (and of `contextUnmounted`): every
   * owned edge is killed and filtered out of its atom's list, every atom list
   * keeps its other edges in their order, other lifecycles' lists are kept,
   * and the owned list ends empty.
   */
  method TeardownEdges(a: Arena, l: LcId, ghost av: map<AtomId, seq<Handle>>, ghost ov: map<LcId, seq<Handle>>)
      returns (r: Arena)
    requires WellFormed(a, av, ov) && l in a.owners
    ensures l in ov
    ensures WellFormed(r, Strip(av, Elems(ov[l])), ov[l := []])
    ensures r.owners == a.owners[l := NoEnds] && r.owners[l] == NoEnds
    ensures r.edges.Keys == a.edges.Keys
    ensures forall h :: h in ov[l] ==> r.edges[h].IsDead() && r.edges[h].arg == a.edges[h].arg
    ensures forall g :: g in a.edges && g !in ov[l] ==> Survives(r.edges[g], a.edges[g])
  {
    OwnedFactsOf(a, av, ov, l);
    var cur := a.owners[l].head;
    var e := a.edges;
    var atoms := a.atoms;
    ghost var views := av;
    ghost var gone: set<Handle> := {};
    ghost var i := 0;
    TeardownStart(a, av, ov, l);
    while cur.Some?
      invariant TeardownInv(a, av, ov, l, e, atoms, views, gone, i)
      invariant cur == (if i < |ov[l]| then Some(ov[l][i]) else None)
      decreases |ov[l]| - i
    {
      var h := cur.value;
      TeardownAt(a, av, ov, l, e, atoms, views, gone, i);
      ghost var e3, atoms3, views3 := TeardownStep(a, av, ov, l, e, atoms, views, gone, i);
      var d := e[h];
      var tmp := d.ln;
      var x := d.target.value;
      views := views3;
      gone := gone + {h};
      var (e1, xe) := SpliceSide(e, atoms[x], h, AtomSide);
      e := e1[h := Killed(d)];
      atoms := atoms[x := xe];
      cur := tmp;
      i := i + 1;
    }
    TeardownEnd(a, av, ov, l, e, atoms, views, gone);
    r := Arena(e, atoms, a.owners[l := NoEnds]);
  }
}
