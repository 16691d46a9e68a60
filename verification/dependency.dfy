/**
 * Dependency edges and the arena that holds them.
 *
 * Every edge sits in two doubly linked lists at once: the subscriber list of
 * the atom it targets (pointers `ap`/`an`) and the owned-edge list of the
 * lifecycle that created it (pointers `lp`/`ln`). Object references become
 * integer handles into a map; the order of each list is described by a `seq`
 * of handles (its view) that the lemmas relate to the pointer fields.
 */
module Dependency {
  import opened Wrappers

  type Handle = int
  type AtomId = int
  type LcId = int

  /** One dependency edge: target atom, owning lifecycle, four neighbour pointers and the callback argument. */
  datatype Edge = Edge(
    target: Option<AtomId>, ap: Option<Handle>, an: Option<Handle>,
    owner: Option<LcId>, lp: Option<Handle>, ln: Option<Handle>,
    arg: int)
  {
    /** An edge whose target has been nulled is dead and must sit in no list. */
    predicate IsDead() {
      target.None? && ap.None? && an.None? && owner.None? && lp.None? && ln.None?
    }
  }

  /** Head and tail of one list (`$dh`/`$dt` of an atom or of a lifecycle). */
  datatype Ends = Ends(head: Option<Handle>, tail: Option<Handle>)

  const NoEnds := Ends(None, None)

  datatype Arena = Arena(edges: map<Handle, Edge>, atoms: map<AtomId, Ends>, owners: map<LcId, Ends>)

  /** Which of the two lists of an edge a pointer walk follows. */
  datatype Side = AtomSide | OwnerSide

  function Prev(e: Edge, side: Side): Option<Handle> {
    if side == AtomSide then e.ap else e.lp
  }

  function Next(e: Edge, side: Side): Option<Handle> {
    if side == AtomSide then e.an else e.ln
  }

  function WithPrev(e: Edge, side: Side, p: Option<Handle>): (r: Edge)
    ensures Prev(r, side) == p && Next(r, side) == Next(e, side)
    ensures r.target == e.target && r.owner == e.owner && r.arg == e.arg
    ensures Prev(r, Other(side)) == Prev(e, Other(side)) && Next(r, Other(side)) == Next(e, Other(side))
  {
    if side == AtomSide then e.(ap := p) else e.(lp := p)
  }

  function WithNext(e: Edge, side: Side, n: Option<Handle>): (r: Edge)
    ensures Next(r, side) == n && Prev(r, side) == Prev(e, side)
    ensures r.target == e.target && r.owner == e.owner && r.arg == e.arg
    ensures Prev(r, Other(side)) == Prev(e, Other(side)) && Next(r, Other(side)) == Next(e, Other(side))
  {
    if side == AtomSide then e.(an := n) else e.(ln := n)
  }

  function Other(side: Side): Side {
    if side == AtomSide then OwnerSide else AtomSide
  }

  /** The edge with every reference nulled, as unlinking leaves it. */
  function Killed(e: Edge): (r: Edge)
    ensures r.IsDead() && r.arg == e.arg
  {
    Edge(None, None, None, None, None, None, e.arg)
  }

  predicate PtrIn(p: Option<Handle>, edges: map<Handle, Edge>) {
    p.Some? ==> p.value in edges
  }

  /** Every reference held in the arena points at an existing edge (a reference cannot dangle). */
  ghost predicate Closed(a: Arena) {
    && (forall h :: h in a.edges ==>
          PtrIn(a.edges[h].ap, a.edges) && PtrIn(a.edges[h].an, a.edges)
          && PtrIn(a.edges[h].lp, a.edges) && PtrIn(a.edges[h].ln, a.edges))
    && (forall x :: x in a.atoms ==> PtrIn(a.atoms[x].head, a.edges) && PtrIn(a.atoms[x].tail, a.edges))
    && (forall l :: l in a.owners ==> PtrIn(a.owners[l].head, a.edges) && PtrIn(a.owners[l].tail, a.edges))
  }

  ghost predicate Distinct(s: seq<Handle>) {
    forall i, j :: 0 <= i < j < |s| ==> s[i] != s[j]
  }

  /**
   * The pointers reachable from `ends` along `side` form exactly the list `s`:
   * head and tail are its ends and each edge links to its neighbours in `s`.
   */
  ghost predicate Chain(edges: map<Handle, Edge>, ends: Ends, s: seq<Handle>, side: Side) {
    && (forall i :: 0 <= i < |s| ==> s[i] in edges)
    && Distinct(s)
    && ends.head == (if |s| == 0 then None else Some(s[0]))
    && ends.tail == (if |s| == 0 then None else Some(s[|s| - 1]))
    && (forall i {:trigger edges[s[i]]} :: 0 <= i < |s| ==>
          Prev(edges[s[i]], side) == (if i == 0 then None else Some(s[i - 1])))
    && (forall i {:trigger edges[s[i]]} :: 0 <= i < |s| ==>
          Next(edges[s[i]], side) == (if i == |s| - 1 then None else Some(s[i + 1])))
  }

  /** The list an edge belongs to on `side`: its target atom, or its owning lifecycle. */
  function Tag(e: Edge, side: Side): Option<int> {
    if side == AtomSide then e.target else e.owner
  }

  /** Two versions of an edge agree on their `side` tag and pointers. */
  predicate SameOn(e: Edge, e': Edge, side: Side) {
    Tag(e, side) == Tag(e', side) && Prev(e, side) == Prev(e', side) && Next(e, side) == Next(e', side)
  }

  /** `s` is the list of atom (or lifecycle) `who`: a chain whose edges all name `who`. */
  ghost predicate ListOf(edges: map<Handle, Edge>, ends: Ends, s: seq<Handle>, side: Side, who: int) {
    && Chain(edges, ends, s, side)
    && (forall h :: h in s ==> h in edges && Tag(edges[h], side) == Some(who))
  }

  /** Every atom (or every lifecycle) has the list its view describes. */
  ghost predicate AllLists(edges: map<Handle, Edge>, lists: map<int, Ends>, views: map<int, seq<Handle>>, side: Side) {
    && views.Keys == lists.Keys
    && (forall y :: y in views ==> ListOf(edges, lists[y], views[y], side, y))
  }

  /**
   * The list views of all atoms (`av`) and all lifecycles (`ov`) describe the
   * arena, and every edge is either live and in exactly its two lists, or dead.
   */
  ghost predicate WellFormed(a: Arena, av: map<AtomId, seq<Handle>>, ov: map<LcId, seq<Handle>>) {
    && AllLists(a.edges, a.atoms, av, AtomSide)
    && AllLists(a.edges, a.owners, ov, OwnerSide)
    && (forall h :: h in a.edges ==> Placed(a.edges[h], h, av, ov))
  }

  /** A live edge is in its atom's list and its owner's list; a dead one has no references at all. */
  ghost predicate Placed(e: Edge, h: Handle, av: map<AtomId, seq<Handle>>, ov: map<LcId, seq<Handle>>) {
    if e.target.None? then e.IsDead()
    else e.owner.Some? && e.target.value in av && h in av[e.target.value]
         && e.owner.value in ov && h in ov[e.owner.value]
  }

  /** `s` with every element of `gone` filtered out, order kept. */
  function Without(s: seq<Handle>, gone: set<Handle>): (r: seq<Handle>)
    ensures |r| <= |s|
    ensures forall h :: h in r <==> h in s && h !in gone
  {
    if |s| == 0 then []
    else if s[0] in gone then Without(s[1..], gone)
    else [s[0]] + Without(s[1..], gone)
  }

  lemma {:induction false} WithoutDistinct(s: seq<Handle>, gone: set<Handle>)
    requires Distinct(s)
    ensures Distinct(Without(s, gone))
  {
    if |s| > 0 {
      WithoutDistinct(s[1..], gone);
      var w := Without(s[1..], gone);
      if s[0] !in gone {
        assert s[0] !in w;
      }
    }
  }

  /** Filtering out one more element of a distinct list removes it at its position. */
  lemma {:induction false} WithoutOneMore(s: seq<Handle>, gone: set<Handle>, h: Handle, k: int)
    requires Distinct(s)
    requires 0 <= k < |Without(s, gone)| && Without(s, gone)[k] == h
    ensures Without(s, gone + {h}) == Without(s, gone)[..k] + Without(s, gone)[k + 1..]
  {
    var w := Without(s, gone);
    var t := Without(s[1..], gone);
    DistinctTail(s);
    if s[0] in gone {
      WithoutSkip(s, gone, h);
      WithoutOneMore(s[1..], gone, h, k);
    } else if k == 0 {
      WithoutSkip(s, gone, h);
      WithoutAbsent(s[1..], gone, h);
      assert w[..0] + w[1..] == t;
    } else {
      WithoutIn(s[1..], gone, h);
      WithoutKeep(s, gone, h);
      WithoutOneMore(s[1..], gone, h, k - 1);
      assert w[..k] == [s[0]] + t[..k - 1] && w[k + 1..] == t[k..];
      assert [s[0]] + (t[..k - 1] + t[k..]) == ([s[0]] + t[..k - 1]) + t[k..];
    }
  }

  lemma DistinctTail(s: seq<Handle>)
    requires Distinct(s) && |s| > 0
    ensures Distinct(s[1..]) && s[0] !in s[1..]
  {
    forall j | 0 <= j < |s[1..]| ensures s[1..][j] != s[0] {
      assert s[1..][j] == s[j + 1];
    }
  }

  /** The first element is filtered out by `gone` or by `h`: both lists skip it. */
  lemma WithoutSkip(s: seq<Handle>, gone: set<Handle>, h: Handle)
    requires |s| > 0 && (s[0] in gone || s[0] == h)
    ensures s[0] in gone ==> Without(s, gone) == Without(s[1..], gone)
    ensures Without(s, gone + {h}) == Without(s[1..], gone + {h})
  {
  }

  /** The first element is neither in `gone` nor `h`: both lists keep it. */
  lemma WithoutKeep(s: seq<Handle>, gone: set<Handle>, h: Handle)
    requires |s| > 0 && s[0] !in gone && s[0] != h
    ensures Without(s, gone) == [s[0]] + Without(s[1..], gone)
    ensures Without(s, gone + {h}) == [s[0]] + Without(s[1..], gone + {h})
  {
  }

  lemma {:induction false} WithoutIn(s: seq<Handle>, gone: set<Handle>, x: Handle)
    ensures x in Without(s, gone) ==> x in s
  {
    if |s| > 0 {
      WithoutIn(s[1..], gone, x);
    }
  }

  lemma {:induction false} WithoutAbsent(s: seq<Handle>, gone: set<Handle>, h: Handle)
    requires h !in s
    ensures Without(s, gone + {h}) == Without(s, gone)
  {
    if |s| > 0 {
      WithoutAbsent(s[1..], gone, h);
    }
  }

  lemma {:induction false} WithoutNone(s: seq<Handle>)
    ensures Without(s, {}) == s
  {
    if |s| > 0 {
      WithoutNone(s[1..]);
    }
  }

  /**
   * Removes edge `h` from the list on `side` whose ends are `ends`, exactly as
   * the inline splice does: the previous neighbour (or the head) is pointed past
   * `h`, then the next neighbour (or the tail) is pointed back past it. The
   * fields of `h` itself are left to the caller.
   */
  function SpliceSide(edges: map<Handle, Edge>, ends: Ends, h: Handle, side: Side): (r: (map<Handle, Edge>, Ends))
    requires h in edges && PtrIn(Prev(edges[h], side), edges) && PtrIn(Next(edges[h], side), edges)
    ensures r.0.Keys == edges.Keys
  {
    var d := edges[h];
    var p := Prev(d, side);
    var n := Next(d, side);
    var (e1, n1) :=
      if p.Some? then (edges[p.value := WithNext(edges[p.value], side, n)], ends)
      else if ends.head == Some(h) then (edges, ends.(head := n))
      else (edges, ends);
    if n.Some? then (e1[n.value := WithPrev(e1[n.value], side, p)], n1)
    else if n1.tail == Some(h) then (e1, n1.(tail := p))
    else (e1, n1)
  }

  /** Only the neighbours of `h` on `side` change, and only in their `side` pointers. */
  lemma SpliceFrame(edges: map<Handle, Edge>, ends: Ends, h: Handle, side: Side)
    requires h in edges && PtrIn(Prev(edges[h], side), edges) && PtrIn(Next(edges[h], side), edges)
    ensures var r := SpliceSide(edges, ends, h, side);
      forall g :: g in edges ==>
        && r.0[g].target == edges[g].target && r.0[g].owner == edges[g].owner && r.0[g].arg == edges[g].arg
        && Prev(r.0[g], Other(side)) == Prev(edges[g], Other(side))
        && Next(r.0[g], Other(side)) == Next(edges[g], Other(side))
        && (Some(g) != Prev(edges[h], side) && Some(g) != Next(edges[h], side) ==> r.0[g] == edges[g])
  {
  }

  /** The splice in terms of the chain: which edges and which ends it rewrites. */
  lemma SpliceEffect(edges: map<Handle, Edge>, ends: Ends, s: seq<Handle>, k: int, side: Side)
    requires Chain(edges, ends, s, side) && 0 <= k < |s|
    ensures PtrIn(Prev(edges[s[k]], side), edges) && PtrIn(Next(edges[s[k]], side), edges)
    ensures var r := SpliceSide(edges, ends, s[k], side);
      var p := if k == 0 then None else Some(s[k - 1]);
      var n := if k == |s| - 1 then None else Some(s[k + 1]);
      && r.1.head == (if k == 0 then n else ends.head)
      && r.1.tail == (if k == |s| - 1 then p else ends.tail)
      && (forall g :: g in edges && Some(g) != p && Some(g) != n ==> r.0[g] == edges[g])
      && (k > 0 ==> Next(r.0[s[k - 1]], side) == n && Prev(r.0[s[k - 1]], side) == Prev(edges[s[k - 1]], side))
      && (k < |s| - 1 ==> Prev(r.0[s[k + 1]], side) == p && Next(r.0[s[k + 1]], side) == Next(edges[s[k + 1]], side))
  {
    assert Prev(edges[s[k]], side) == (if k == 0 then None else Some(s[k - 1]));
    assert Next(edges[s[k]], side) == (if k == |s| - 1 then None else Some(s[k + 1]));
    if k > 0 && k < |s| - 1 {
      assert s[k - 1] != s[k + 1];
    }
  }

  /**
   * Any edge map that rewrites the chain `s` the way the splice of its `k`-th
   * element does (whatever it leaves in that element) describes `s` without it.
   */
  ghost predicate SplicedLike(edges: map<Handle, Edge>, ends: Ends, s: seq<Handle>, k: int, side: Side,
                              e2: map<Handle, Edge>, ends2: Ends)
    requires 0 <= k < |s|
  {
    var p := if k == 0 then None else Some(s[k - 1]);
    var n := if k == |s| - 1 then None else Some(s[k + 1]);
    && e2.Keys == edges.Keys
    && ends2.head == (if k == 0 then n else ends.head)
    && ends2.tail == (if k == |s| - 1 then p else ends.tail)
    && (forall g :: g in edges && Some(g) != p && Some(g) != n && g != s[k] ==>
          Prev(e2[g], side) == Prev(edges[g], side) && Next(e2[g], side) == Next(edges[g], side))
    && (k > 0 ==> s[k - 1] in e2 && s[k - 1] in edges && Next(e2[s[k - 1]], side) == n
                  && Prev(e2[s[k - 1]], side) == Prev(edges[s[k - 1]], side))
    && (k < |s| - 1 ==> s[k + 1] in e2 && s[k + 1] in edges && Prev(e2[s[k + 1]], side) == p
                        && Next(e2[s[k + 1]], side) == Next(edges[s[k + 1]], side))
  }

  lemma SpliceChain(edges: map<Handle, Edge>, ends: Ends, s: seq<Handle>, k: int, side: Side,
                    e2: map<Handle, Edge>, ends2: Ends)
    requires Chain(edges, ends, s, side) && 0 <= k < |s|
    requires SplicedLike(edges, ends, s, k, side, e2, ends2)
    ensures Chain(e2, ends2, RemoveAt(s, k), side)
  {
    var t := RemoveAt(s, k);
    forall i | 0 <= i < |t|
      ensures t[i] in e2
      ensures Prev(e2[t[i]], side) == (if i == 0 then None else Some(t[i - 1]))
      ensures Next(e2[t[i]], side) == (if i == |t| - 1 then None else Some(t[i + 1]))
    {
      SplicedAt(edges, ends, s, k, side, e2, ends2, i);
    }
    RemoveAtDistinct(s, k);
    SplicedEnds(edges, ends, s, k, side, e2, ends2);
  }

  lemma RemoveAtDistinct(s: seq<Handle>, k: int)
    requires Distinct(s) && 0 <= k < |s|
    ensures Distinct(RemoveAt(s, k))
  {
    var t := RemoveAt(s, k);
    forall i, j | 0 <= i < j < |t| ensures t[i] != t[j] {
      assert t[i] == (if i < k then s[i] else s[i + 1]);
      assert t[j] == (if j < k then s[j] else s[j + 1]);
    }
  }

  lemma SplicedEnds(edges: map<Handle, Edge>, ends: Ends, s: seq<Handle>, k: int, side: Side,
                    e2: map<Handle, Edge>, ends2: Ends)
    requires Chain(edges, ends, s, side) && 0 <= k < |s|
    requires SplicedLike(edges, ends, s, k, side, e2, ends2)
    ensures var t := RemoveAt(s, k);
      && ends2.head == (if |t| == 0 then None else Some(t[0]))
      && ends2.tail == (if |t| == 0 then None else Some(t[|t| - 1]))
  {
  }

  lemma SplicedAt(edges: map<Handle, Edge>, ends: Ends, s: seq<Handle>, k: int, side: Side,
                  e2: map<Handle, Edge>, ends2: Ends, i: int)
    requires Chain(edges, ends, s, side) && 0 <= k < |s| && 0 <= i < |s| - 1
    requires SplicedLike(edges, ends, s, k, side, e2, ends2)
    ensures var t := RemoveAt(s, k);
      && t[i] in e2
      && Prev(e2[t[i]], side) == (if i == 0 then None else Some(t[i - 1]))
      && Next(e2[t[i]], side) == (if i == |t| - 1 then None else Some(t[i + 1]))
  {
    var t := RemoveAt(s, k);
    if i < k - 1 {
      UntouchedAt(edges, ends, s, k, side, e2, ends2, i);
      assert t[i] == s[i] && t[i + 1] == s[i + 1];
      assert i > 0 ==> t[i - 1] == s[i - 1];
    } else if i == k - 1 {
      assert t[i] == s[k - 1];
      assert i > 0 ==> t[i - 1] == s[i - 1];
      assert Prev(edges[s[i]], side) == (if i == 0 then None else Some(s[i - 1]));
      assert i < |t| - 1 ==> t[i + 1] == s[k + 1];
    } else if i == k {
      assert t[i] == s[k + 1];
      assert i > 0 ==> t[i - 1] == s[k - 1];
      assert Next(edges[s[k + 1]], side) == (if k + 1 == |s| - 1 then None else Some(s[k + 2]));
      assert i < |t| - 1 ==> t[i + 1] == s[k + 2];
    } else {
      UntouchedAt(edges, ends, s, k, side, e2, ends2, i + 1);
      assert t[i] == s[i + 1] && t[i - 1] == s[i];
      assert i < |t| - 1 ==> t[i + 1] == s[i + 2];
    }
  }

  /** An element of the chain that is neither the spliced one nor one of its neighbours keeps its links. */
  lemma UntouchedAt(edges: map<Handle, Edge>, ends: Ends, s: seq<Handle>, k: int, side: Side,
                    e2: map<Handle, Edge>, ends2: Ends, j: int)
    requires Chain(edges, ends, s, side) && 0 <= k < |s| && 0 <= j < |s|
    requires j != k && j != k - 1 && j != k + 1
    requires SplicedLike(edges, ends, s, k, side, e2, ends2)
    ensures s[j] in e2
    ensures Prev(e2[s[j]], side) == (if j == 0 then None else Some(s[j - 1]))
    ensures Next(e2[s[j]], side) == (if j == |s| - 1 then None else Some(s[j + 1]))
  {
    assert s[j] != s[k];
    assert k > 0 ==> s[j] != s[k - 1];
    assert k < |s| - 1 ==> s[j] != s[k + 1];
    assert s[j] in edges;
    assert Prev(edges[s[j]], side) == (if j == 0 then None else Some(s[j - 1]));
    assert Next(edges[s[j]], side) == (if j == |s| - 1 then None else Some(s[j + 1]));
  }

  /** The splice function does rewrite the chain as `SplicedLike` describes. */
  lemma SpliceIsLike(edges: map<Handle, Edge>, ends: Ends, s: seq<Handle>, k: int, side: Side)
    requires Chain(edges, ends, s, side) && 0 <= k < |s|
    ensures PtrIn(Prev(edges[s[k]], side), edges) && PtrIn(Next(edges[s[k]], side), edges)
    ensures var r := SpliceSide(edges, ends, s[k], side);
      SplicedLike(edges, ends, s, k, side, r.0, r.1)
  {
    SpliceEffect(edges, ends, s, k, side);
  }

  /** A chain only depends on the `side` pointers of its own edges. */
  lemma ChainFrame(edges: map<Handle, Edge>, edges': map<Handle, Edge>, ends: Ends, s: seq<Handle>, side: Side)
    requires Chain(edges, ends, s, side)
    requires forall h :: h in s ==> (h in edges' && Prev(edges'[h], side) == Prev(edges[h], side)
                                     && Next(edges'[h], side) == Next(edges[h], side))
    ensures Chain(edges', ends, s, side)
  {
    assert forall i :: 0 <= i < |s| ==> s[i] in s;
  }

  /** Where the neighbours of an element of a chain sit. */
  lemma ChainNeighbours(edges: map<Handle, Edge>, ends: Ends, s: seq<Handle>, k: int, side: Side)
    requires Chain(edges, ends, s, side) && 0 <= k < |s|
    ensures Prev(edges[s[k]], side).Some? ==> Prev(edges[s[k]], side).value in s
    ensures Next(edges[s[k]], side).Some? ==> Next(edges[s[k]], side).value in s
  {
    assert Prev(edges[s[k]], side) == (if k == 0 then None else Some(s[k - 1]));
    assert Next(edges[s[k]], side) == (if k == |s| - 1 then None else Some(s[k + 1]));
    if k > 0 { assert s[k - 1] in s; }
    if k < |s| - 1 { assert s[k + 1] in s; }
  }

  /** `s` without its `k`-th element. */
  function RemoveAt(s: seq<Handle>, k: int): (r: seq<Handle>)
    requires 0 <= k < |s|
    ensures |r| == |s| - 1
    ensures forall i :: 0 <= i < |r| ==> r[i] == (if i < k then s[i] else s[i + 1])
  {
    s[..k] + s[k + 1..]
  }

  /** Index of an element of a sequence. */
  function IndexOf(s: seq<Handle>, h: Handle): (k: int)
    requires h in s
    ensures 0 <= k < |s| && s[k] == h
    ensures forall j :: 0 <= j < k ==> s[j] != h
  {
    if s[0] == h then 0 else 1 + IndexOf(s[1..], h)
  }

  /** What `unlink(h)` needs of the arena: no reference of `h` dangles. */
  ghost predicate Unlinkable(a: Arena, h: Handle) {
    && h in a.edges && Closed(a)
    && (a.edges[h].target.Some? ==> a.edges[h].target.value in a.atoms)
    && (a.edges[h].owner.Some? ==> a.edges[h].owner.value in a.owners)
  }

  /**
   * `unlink`: removes a live edge from its atom's list and from its owner's
   * list, then nulls its target, owner and four pointers. On a dead edge the
   * atom-side splice dereferences the nulled target, which throws.
   */
  function Unlink(a: Arena, h: Handle): (r: Result<Arena>)
    requires Unlinkable(a, h)
    ensures r.Err? <==> a.edges[h].target.None?
    ensures r.Ok? ==> (r.value.edges.Keys == a.edges.Keys && r.value.edges[h].IsDead()
                       && r.value.atoms.Keys == a.atoms.Keys && r.value.owners.Keys == a.owners.Keys)
  {
    var d := a.edges[h];
    if d.target.None? then Err("Cannot read properties of null (unlink of a dead dependency)")
    else
      var x := d.target.value;
      var (e1, xe) := SpliceSide(a.edges, a.atoms[x], h, AtomSide);
      SpliceFrame(a.edges, a.atoms[x], h, AtomSide);
      if d.owner.Some? then
        var l := d.owner.value;
        var (e2, le) := SpliceSide(e1, a.owners[l], h, OwnerSide);
        Ok(Arena(e2[h := Killed(d)], a.atoms[x := xe], a.owners[l := le]))
      else
        Ok(Arena(e1[h := Killed(d)], a.atoms[x := xe], a.owners))
  }

  /**
   * `link`: appends edge `h` (a new object, or a dead one being reused) to the
   * tail of atom `x`'s subscriber list and to the tail of lifecycle `l`'s
   * owned list, carrying callback argument `arg`.
   */
  function Link(a: Arena, l: LcId, x: AtomId, h: Handle, arg: int): (r: Arena)
    requires x in a.atoms && l in a.owners
    requires h in a.edges ==> a.edges[h].IsDead()
    ensures r.edges.Keys == a.edges.Keys + {h} && r.atoms.Keys == a.atoms.Keys && r.owners.Keys == a.owners.Keys
    ensures r.edges[h].target == Some(x) && r.edges[h].owner == Some(l) && r.edges[h].arg == arg
  {
    var xe := a.atoms[x];
    var le := a.owners[l];
    var e0 := a.edges[h := Edge(Some(x), xe.tail, None, Some(l), le.tail, None, arg)];
    var e1 := if xe.tail.Some? && xe.tail.value in e0 then e0[xe.tail.value := e0[xe.tail.value].(an := Some(h))] else e0;
    var e2 := if le.tail.Some? && le.tail.value in e1 then e1[le.tail.value := e1[le.tail.value].(ln := Some(h))] else e1;
    var xe' := if xe.tail.Some? then xe.(tail := Some(h)) else Ends(Some(h), Some(h));
    var le' := if le.tail.Some? then le.(tail := Some(h)) else Ends(Some(h), Some(h));
    Arena(e2, a.atoms[x := xe'], a.owners[l := le'])
  }

  /** `unlink` leaves every other edge's target, owner and argument as they were. */
  lemma UnlinkKeepsOthers(a: Arena, h: Handle)
    requires h in a.edges && Closed(a)
    requires a.edges[h].target.Some? ==> a.edges[h].target.value in a.atoms
    requires a.edges[h].owner.Some? ==> a.edges[h].owner.value in a.owners
    ensures Unlink(a, h).Ok? ==> forall g :: g in a.edges && g != h ==>
      && Unlink(a, h).value.edges[g].target == a.edges[g].target
      && Unlink(a, h).value.edges[g].owner == a.edges[g].owner
      && Unlink(a, h).value.edges[g].arg == a.edges[g].arg
  {
    var d := a.edges[h];
    if d.target.Some? {
      var x := d.target.value;
      var (e1, xe) := SpliceSide(a.edges, a.atoms[x], h, AtomSide);
      SpliceFrame(a.edges, a.atoms[x], h, AtomSide);
      if d.owner.Some? {
        SpliceFrame(e1, a.owners[d.owner.value], h, OwnerSide);
      }
    }
  }

  /** Rewrites the callback argument of edge `h` (`dep.$a1 = …`), nothing else. */
  function SetArg(a: Arena, h: Handle, v: int): (r: Arena)
    requires h in a.edges
    ensures r.edges.Keys == a.edges.Keys && r.atoms == a.atoms && r.owners == a.owners
    ensures r.edges[h].arg == v
  {
    a.(edges := a.edges[h := a.edges[h].(arg := v)])
  }

  /** The lists do not depend on the callback argument. */
  lemma SetArgWellFormed(a: Arena, av: map<AtomId, seq<Handle>>, ov: map<LcId, seq<Handle>>, h: Handle, v: int)
    requires WellFormed(a, av, ov) && h in a.edges
    ensures WellFormed(SetArg(a, h, v), av, ov)
  {
    var r := SetArg(a, h, v);
    forall g | g in a.edges ensures SameOn(r.edges[g], a.edges[g], AtomSide) && SameOn(r.edges[g], a.edges[g], OwnerSide) {
    }
    AllListsFrame(a.edges, r.edges, a.atoms, av, AtomSide);
    AllListsFrame(a.edges, r.edges, a.owners, ov, OwnerSide);
    forall g | g in r.edges ensures Placed(r.edges[g], g, av, ov) {
      assert Placed(a.edges[g], g, av, ov);
    }
  }

  /** `link` leaves every other edge's target, owner and argument as they were. */
  lemma LinkKeepsOthers(a: Arena, l: LcId, x: AtomId, h: Handle, arg: int)
    requires x in a.atoms && l in a.owners && Closed(a)
    requires h in a.edges ==> a.edges[h].IsDead()
    ensures forall g :: g in a.edges && g != h ==>
      && Link(a, l, x, h, arg).edges[g].target == a.edges[g].target
      && Link(a, l, x, h, arg).edges[g].owner == a.edges[g].owner
      && Link(a, l, x, h, arg).edges[g].arg == a.edges[g].arg
  {
  }

  /** No reference held by a well-formed arena dangles. */
  lemma WellFormedClosed(a: Arena, av: map<AtomId, seq<Handle>>, ov: map<LcId, seq<Handle>>)
    requires WellFormed(a, av, ov)
    ensures Closed(a)
  {
    forall h | h in a.edges
      ensures PtrIn(a.edges[h].ap, a.edges) && PtrIn(a.edges[h].an, a.edges)
      ensures PtrIn(a.edges[h].lp, a.edges) && PtrIn(a.edges[h].ln, a.edges)
    {
      var e := a.edges[h];
      if e.target.Some? {
        assert Placed(e, h, av, ov);
        var x := e.target.value;
        var l := e.owner.value;
        assert ListOf(a.edges, a.atoms[x], av[x], AtomSide, x);
        assert ListOf(a.edges, a.owners[l], ov[l], OwnerSide, l);
        ChainNeighboursIn(a.edges, a.atoms[x], av[x], IndexOf(av[x], h), AtomSide);
        ChainNeighboursIn(a.edges, a.owners[l], ov[l], IndexOf(ov[l], h), OwnerSide);
      } else {
        assert Placed(e, h, av, ov);
      }
    }
    forall x | x in a.atoms ensures PtrIn(a.atoms[x].head, a.edges) && PtrIn(a.atoms[x].tail, a.edges) {
      assert ListOf(a.edges, a.atoms[x], av[x], AtomSide, x);
    }
    forall l | l in a.owners ensures PtrIn(a.owners[l].head, a.edges) && PtrIn(a.owners[l].tail, a.edges) {
      assert ListOf(a.edges, a.owners[l], ov[l], OwnerSide, l);
    }
  }

  lemma ChainNeighboursIn(edges: map<Handle, Edge>, ends: Ends, s: seq<Handle>, k: int, side: Side)
    requires Chain(edges, ends, s, side) && 0 <= k < |s|
    ensures PtrIn(Prev(edges[s[k]], side), edges) && PtrIn(Next(edges[s[k]], side), edges)
  {
    assert Prev(edges[s[k]], side) == (if k == 0 then None else Some(s[k - 1]));
    assert Next(edges[s[k]], side) == (if k == |s| - 1 then None else Some(s[k + 1]));
  }

  /** The pointers of the `k`-th edge of a chain. */
  lemma ChainAt(edges: map<Handle, Edge>, ends: Ends, s: seq<Handle>, k: int, side: Side)
    requires Chain(edges, ends, s, side) && 0 <= k < |s|
    ensures s[k] in edges
    ensures Prev(edges[s[k]], side) == (if k == 0 then None else Some(s[k - 1]))
    ensures Next(edges[s[k]], side) == (if k == |s| - 1 then None else Some(s[k + 1]))
  {
  }

  /** Membership in `s` without its `k`-th element. */
  lemma RemoveAtIn(s: seq<Handle>, k: int, g: Handle)
    requires 0 <= k < |s|
    ensures g in RemoveAt(s, k) ==> g in s
    ensures g in s && g != s[k] ==> g in RemoveAt(s, k)
  {
    var t := RemoveAt(s, k);
    if g in t {
      var i :| 0 <= i < |t| && t[i] == g;
      assert i < k ==> s[i] == g;
      assert i >= k ==> s[i + 1] == g;
    }
    if g in s && g != s[k] {
      var i :| 0 <= i < |s| && s[i] == g;
      if i < k { assert t[i] == g; } else { assert t[i - 1] == g; }
    }
  }

  /** `SplicedLike` only looks at `side` pointers outside the spliced element. */
  lemma SplicedLikeTransfer(edges: map<Handle, Edge>, ends: Ends, s: seq<Handle>, k: int, side: Side,
                            e1: map<Handle, Edge>, e3: map<Handle, Edge>, ends2: Ends)
    requires 0 <= k < |s|
    requires SplicedLike(edges, ends, s, k, side, e1, ends2)
    requires e3.Keys == e1.Keys
    requires forall g :: g in e1 && g != s[k] ==>
      Prev(e3[g], side) == Prev(e1[g], side) && Next(e3[g], side) == Next(e1[g], side)
    requires Distinct(s)
    ensures SplicedLike(edges, ends, s, k, side, e3, ends2)
  {
  }

  /** The lists of one side survive any change that keeps their pointers and tags. */
  lemma AllListsFrame(edges: map<Handle, Edge>, e2: map<Handle, Edge>, lists: map<int, Ends>,
                      views: map<int, seq<Handle>>, side: Side)
    requires AllLists(edges, lists, views, side)
    requires forall g :: g in edges ==> (g in e2 && Tag(e2[g], side) == Tag(edges[g], side)
      && Prev(e2[g], side) == Prev(edges[g], side) && Next(e2[g], side) == Next(edges[g], side))
    ensures AllLists(e2, lists, views, side)
  {
    forall y | y in views ensures ListOf(e2, lists[y], views[y], side, y) {
      assert ListOf(edges, lists[y], views[y], side, y);
      ChainFrame(edges, e2, lists[y], views[y], side);
    }
  }

  /**
   * Splicing the `k`-th edge out of list `x` on one side leaves that list
   * without it and every other list of that side exactly as it was.
   */
  lemma SideSplice(edges: map<Handle, Edge>, e3: map<Handle, Edge>, lists: map<int, Ends>,
                   views: map<int, seq<Handle>>, side: Side, x: int, k: int, ends2: Ends)
    requires AllLists(edges, lists, views, side)
    requires x in views && 0 <= k < |views[x]|
    requires SplicedLike(edges, lists[x], views[x], k, side, e3, ends2)
    requires forall g :: g in edges && g !in views[x] ==>
      Prev(e3[g], side) == Prev(edges[g], side) && Next(e3[g], side) == Next(edges[g], side)
    requires forall g :: g in edges && g != views[x][k] ==> Tag(e3[g], side) == Tag(edges[g], side)
    ensures AllLists(e3, lists[x := ends2], views[x := RemoveAt(views[x], k)], side)
  {
    var views' := views[x := RemoveAt(views[x], k)];
    var lists' := lists[x := ends2];
    forall y | y in views' ensures ListOf(e3, lists'[y], views'[y], side, y) {
      SideSpliceAt(edges, e3, lists, views, side, x, k, ends2, y);
    }
    assert views'.Keys == lists'.Keys;
  }

  /** `SideSplice` for one list: the spliced one, or any other. */
  lemma SideSpliceAt(edges: map<Handle, Edge>, e3: map<Handle, Edge>, lists: map<int, Ends>,
                     views: map<int, seq<Handle>>, side: Side, x: int, k: int, ends2: Ends, y: int)
    requires AllLists(edges, lists, views, side)
    requires x in views && 0 <= k < |views[x]| && y in views
    requires SplicedLike(edges, lists[x], views[x], k, side, e3, ends2)
    requires forall g :: g in edges && g !in views[x] ==>
      Prev(e3[g], side) == Prev(edges[g], side) && Next(e3[g], side) == Next(edges[g], side)
    requires forall g :: g in edges && g != views[x][k] ==> Tag(e3[g], side) == Tag(edges[g], side)
    ensures var views', lists' := views[x := RemoveAt(views[x], k)], lists[x := ends2];
      ListOf(e3, lists'[y], views'[y], side, y)
  {
    assert ListOf(edges, lists[y], views[y], side, y);
    if y == x {
      SpliceSame(edges, e3, lists[x], views[x], side, x, k, ends2);
    } else {
      assert ListOf(edges, lists[x], views[x], side, x);
      SpliceOther(edges, e3, lists[y], views[y], views[x], side, x, y, k);
    }
  }

  /** The spliced list is the old one without `h`. */
  lemma SpliceSame(edges: map<Handle, Edge>, e3: map<Handle, Edge>, ends: Ends, s: seq<Handle>,
                   side: Side, x: int, k: int, ends2: Ends)
    requires ListOf(edges, ends, s, side, x) && 0 <= k < |s|
    requires SplicedLike(edges, ends, s, k, side, e3, ends2)
    requires forall g :: g in edges && g != s[k] ==> Tag(e3[g], side) == Tag(edges[g], side)
    ensures ListOf(e3, ends2, RemoveAt(s, k), side, x)
  {
    var h := s[k];
    var s' := RemoveAt(s, k);
    SpliceChain(edges, ends, s, k, side, e3, ends2);
    forall g | g in s' ensures g in e3 && Tag(e3[g], side) == Some(x) {
      RemoveAtIn(s, k, g);
      assert g != h by {
        var i :| 0 <= i < |s'| && s'[i] == g;
        assert g == (if i < k then s[i] else s[i + 1]);
      }
    }
  }

  /** Any other list on the same side keeps its links and its members. */
  lemma SpliceOther(edges: map<Handle, Edge>, e3: map<Handle, Edge>, ends: Ends, s: seq<Handle>,
                    sx: seq<Handle>, side: Side, x: int, y: int, k: int)
    requires ListOf(edges, ends, s, side, y) && y != x
    requires forall g :: g in sx ==> g in edges && Tag(edges[g], side) == Some(x)
    requires 0 <= k < |sx|
    requires e3.Keys == edges.Keys
    requires forall g :: g in edges && g !in sx ==>
      Prev(e3[g], side) == Prev(edges[g], side) && Next(e3[g], side) == Next(edges[g], side)
    requires forall g :: g in edges && g != sx[k] ==> Tag(e3[g], side) == Tag(edges[g], side)
    ensures ListOf(e3, ends, s, side, y)
  {
    forall g | g in s
      ensures g in e3 && Prev(e3[g], side) == Prev(edges[g], side) && Next(e3[g], side) == Next(edges[g], side)
      ensures Tag(e3[g], side) == Some(y)
    {
      assert g !in sx;
    }
    ChainFrame(edges, e3, ends, s, side);
  }



  /**
   * `e1` is `edges` after a splice on `side` within list `s`: tags, arguments
   * and the other side's pointers are kept everywhere, and edges outside `s`
   * are untouched.
   */
  ghost predicate FrameSplice(edges: map<Handle, Edge>, e1: map<Handle, Edge>, s: seq<Handle>, side: Side) {
    && e1.Keys == edges.Keys
    && (forall g :: g in edges ==> (g in e1 && SameOn(e1[g], edges[g], Other(side))
          && Tag(e1[g], side) == Tag(edges[g], side) && e1[g].arg == edges[g].arg))
    && (forall g :: g in edges && g !in s ==> e1[g] == edges[g])
  }

  /** Leaving the edges alone is a splice frame on either side. */
  lemma FrameSpliceSame(edges: map<Handle, Edge>)
    ensures forall side: Side :: FrameSplice(edges, edges, [], side)
  {
  }

  /** One splice, with everything the callers need to know about its result. */
  lemma SpliceStep(edges: map<Handle, Edge>, ends: Ends, s: seq<Handle>, k: int, side: Side)
      returns (e1: map<Handle, Edge>, n1: Ends)
    requires Chain(edges, ends, s, side) && 0 <= k < |s|
    ensures PtrIn(Prev(edges[s[k]], side), edges) && PtrIn(Next(edges[s[k]], side), edges)
    ensures (e1, n1) == SpliceSide(edges, ends, s[k], side)
    ensures SplicedLike(edges, ends, s, k, side, e1, n1)
    ensures FrameSplice(edges, e1, s, side)
  {
    SpliceIsLike(edges, ends, s, k, side);
    SpliceFrame(edges, ends, s[k], side);
    ChainNeighbours(edges, ends, s, k, side);
    e1, n1 := SpliceSide(edges, ends, s[k], side).0, SpliceSide(edges, ends, s[k], side).1;
    var p := Prev(edges[s[k]], side);
    var n := Next(edges[s[k]], side);
    forall g | g in edges ensures SameOn(e1[g], edges[g], Other(side)) && Tag(e1[g], side) == Tag(edges[g], side) {
    }
    forall g | g in edges && g !in s ensures SameOn(e1[g], edges[g], side) {
      assert Some(g) != p && Some(g) != n;
    }
  }

  lemma UnlinkSteps(a: Arena, av: map<AtomId, seq<Handle>>, ov: map<LcId, seq<Handle>>, h: Handle)
      returns (e1: map<Handle, Edge>, xe: Ends, e2: map<Handle, Edge>, le: Ends)
    requires WellFormed(a, av, ov) && h in a.edges && a.edges[h].target.Some?
    ensures Closed(a) && a.edges[h].owner.Some? && a.edges[h].target.value in a.atoms
    ensures a.edges[h].owner.value in a.owners
    ensures var x := a.edges[h].target.value;
      var l := a.edges[h].owner.value;
      && h in av[x] && h in ov[l]
      && SplicedLike(a.edges, a.atoms[x], av[x], IndexOf(av[x], h), AtomSide, e1, xe)
      && FrameSplice(a.edges, e1, av[x], AtomSide)
      && AllLists(e1, a.owners, ov, OwnerSide)
      && SplicedLike(e1, a.owners[l], ov[l], IndexOf(ov[l], h), OwnerSide, e2, le)
      && FrameSplice(e1, e2, ov[l], OwnerSide)
      && (forall g :: g in a.edges && a.edges[g].target.None? ==> g !in av[x] && g !in ov[l])
      && Unlink(a, h) == Ok(Arena(e2[h := Killed(a.edges[h])], a.atoms[x := xe], a.owners[l := le]))
  {
    WellFormedClosed(a, av, ov);
    var d := a.edges[h];
    assert Placed(d, h, av, ov);
    var x := d.target.value;
    var l := d.owner.value;
    assert ListOf(a.edges, a.atoms[x], av[x], AtomSide, x);
    assert ListOf(a.edges, a.owners[l], ov[l], OwnerSide, l);
    e1, xe := SpliceStep(a.edges, a.atoms[x], av[x], IndexOf(av[x], h), AtomSide);
    AllListsFrame(a.edges, e1, a.owners, ov, OwnerSide);
    assert ListOf(e1, a.owners[l], ov[l], OwnerSide, l);
    e2, le := SpliceStep(e1, a.owners[l], ov[l], IndexOf(ov[l], h), OwnerSide);
  }

  /** After both splices and the kill, the atom lists are exactly the old ones without the edge. */
  lemma AtomSideAfter(edges: map<Handle, Edge>, e1: map<Handle, Edge>, e2: map<Handle, Edge>,
                      atoms: map<AtomId, Ends>, av: map<AtomId, seq<Handle>>, x: AtomId, kx: int, xe: Ends,
                      so: seq<Handle>, d: Edge)
    requires AllLists(edges, atoms, av, AtomSide) && x in av && 0 <= kx < |av[x]|
    requires SplicedLike(edges, atoms[x], av[x], kx, AtomSide, e1, xe)
    requires FrameSplice(edges, e1, av[x], AtomSide) && FrameSplice(e1, e2, so, OwnerSide)
    ensures AllLists(e2[av[x][kx] := d], atoms[x := xe], av[x := RemoveAt(av[x], kx)], AtomSide)
  {
    var e3 := e2[av[x][kx] := d];
    assert ListOf(edges, atoms[x], av[x], AtomSide, x);
    SplicedLikeTransfer(edges, atoms[x], av[x], kx, AtomSide, e1, e3, xe);
    SideSplice(edges, e3, atoms, av, AtomSide, x, kx, xe);
  }

  /** After the owner-side splice and the kill, the owned lists are exactly the old ones without the edge. */
  lemma OwnerSideAfter(e1: map<Handle, Edge>, e2: map<Handle, Edge>,
                       owners: map<LcId, Ends>, ov: map<LcId, seq<Handle>>, l: LcId, kl: int, le: Ends, d: Edge)
    requires AllLists(e1, owners, ov, OwnerSide) && l in ov && 0 <= kl < |ov[l]|
    requires SplicedLike(e1, owners[l], ov[l], kl, OwnerSide, e2, le)
    requires FrameSplice(e1, e2, ov[l], OwnerSide)
    ensures AllLists(e2[ov[l][kl] := d], owners[l := le], ov[l := RemoveAt(ov[l], kl)], OwnerSide)
  {
    var h := ov[l][kl];
    var e3 := e2[h := d];
    assert ListOf(e1, owners[l], ov[l], OwnerSide, l);
    SplicedLikeTransfer(e1, owners[l], ov[l], kl, OwnerSide, e2, e3, le);
    forall g | g in e1 && g !in ov[l]
      ensures Prev(e3[g], OwnerSide) == Prev(e1[g], OwnerSide) && Next(e3[g], OwnerSide) == Next(e1[g], OwnerSide)
    {
      assert g != h && e2[g] == e1[g];
    }
    SideSplice(e1, e3, owners, ov, OwnerSide, l, kl, le);
  }

  /** After both splices and the kill, every edge is still placed. */
  lemma PlacedAfter(edges: map<Handle, Edge>, e1: map<Handle, Edge>, e2: map<Handle, Edge>,
                    av: map<AtomId, seq<Handle>>, ov: map<LcId, seq<Handle>>,
                    x: AtomId, l: LcId, kx: int, kl: int, d: Edge)
    requires x in av && 0 <= kx < |av[x]| && l in ov && 0 <= kl < |ov[l]| && av[x][kx] == ov[l][kl]
    requires forall g :: g in edges ==> Placed(edges[g], g, av, ov)
    requires forall g :: g in edges && edges[g].target.None? ==> g !in av[x] && g !in ov[l]
    requires FrameSplice(edges, e1, av[x], AtomSide) && FrameSplice(e1, e2, ov[l], OwnerSide)
    requires d.IsDead()
    ensures var e3 := e2[av[x][kx] := d];
      forall g :: g in e3 ==> Placed(e3[g], g, av[x := RemoveAt(av[x], kx)], ov[l := RemoveAt(ov[l], kl)])
  {
    var h := av[x][kx];
    var e3 := e2[h := d];
    forall g | g in e3 ensures Placed(e3[g], g, av[x := RemoveAt(av[x], kx)], ov[l := RemoveAt(ov[l], kl)]) {
      if g != h {
        SplicesPlacedOne(edges[g], e1[g], e2[g], g, av, ov, x, l, kx, kl);
      }
    }
  }

  /** One surviving edge stays placed: its tags are kept, and a dead one gains no pointer. */
  lemma SplicesPlacedOne(e: Edge, e1: Edge, e2: Edge, g: Handle, av: map<AtomId, seq<Handle>>, ov: map<LcId, seq<Handle>>,
                         x: AtomId, l: LcId, kx: int, kl: int)
    requires Placed(e, g, av, ov)
    requires x in av && 0 <= kx < |av[x]| && l in ov && 0 <= kl < |ov[l]|
    requires g != av[x][kx] && g != ov[l][kl]
    requires e.target.None? ==> g !in av[x] && g !in ov[l]
    requires SameOn(e1, e, OwnerSide) && Tag(e1, AtomSide) == Tag(e, AtomSide)
    requires SameOn(e2, e1, AtomSide) && Tag(e2, OwnerSide) == Tag(e1, OwnerSide)
    requires g !in av[x] ==> SameOn(e1, e, AtomSide)
    requires g !in ov[l] ==> SameOn(e2, e1, OwnerSide)
    ensures Placed(e2, g, av[x := RemoveAt(av[x], kx)], ov[l := RemoveAt(ov[l], kl)])
  {
    if e.target.Some? {
      RemoveAtIn(av[x], kx, g);
      RemoveAtIn(ov[l], kl, g);
    }
  }

  /**
   * Unlinking a live edge of a well-formed arena succeeds, kills the edge and
   * leaves an arena whose only change is that edge gone from its two lists;
   * every other list keeps its edges in their order.
   */
  lemma UnlinkWellFormed(a: Arena, av: map<AtomId, seq<Handle>>, ov: map<LcId, seq<Handle>>, h: Handle)
    requires WellFormed(a, av, ov) && h in a.edges && a.edges[h].target.Some?
    ensures Closed(a) && a.edges[h].target.value in a.atoms && a.edges[h].owner.Some?
    ensures a.edges[h].owner.value in a.owners
    ensures var x := a.edges[h].target.value;
      var l := a.edges[h].owner.value;
      var r := Unlink(a, h);
      && r.Ok? && r.value.edges[h].IsDead()
      && WellFormed(r.value, av[x := RemoveAt(av[x], IndexOf(av[x], h))], ov[l := RemoveAt(ov[l], IndexOf(ov[l], h))])
  {
    var e1, xe, e2, le := UnlinkSteps(a, av, ov, h);
    var x := a.edges[h].target.value;
    var l := a.edges[h].owner.value;
    var kx := IndexOf(av[x], h);
    var kl := IndexOf(ov[l], h);
    var d := Killed(a.edges[h]);
    AtomSideAfter(a.edges, e1, e2, a.atoms, av, x, kx, xe, ov[l], d);
    OwnerSideAfter(e1, e2, a.owners, ov, l, kl, le, d);
    PlacedAfter(a.edges, e1, e2, av, ov, x, l, kx, kl, d);
  }

  /**
   * `e2` is `edges` with `h` appended after the last element of list `s` on
   * `side`: only that last element's `side` next pointer changes.
   */
  ghost predicate AppendFrame(edges: map<Handle, Edge>, e2: map<Handle, Edge>, s: seq<Handle>, side: Side, h: Handle) {
    && e2.Keys == edges.Keys + {h}
    && (forall g :: g in edges && g != h ==>
          && Tag(e2[g], side) == Tag(edges[g], side)
          && Prev(e2[g], side) == Prev(edges[g], side)
          && Next(e2[g], side) == (if |s| > 0 && g == s[|s| - 1] then Some(h) else Next(edges[g], side)))
  }

  /** The ends of a list after appending `h` to it. */
  function Appended(ends: Ends, h: Handle): (r: Ends)
    ensures r.tail == Some(h)
    ensures r.head == (if ends.tail.Some? then ends.head else Some(h))
  {
    if ends.tail.Some? then ends.(tail := Some(h)) else Ends(Some(h), Some(h))
  }

  lemma AppendChain(edges: map<Handle, Edge>, e2: map<Handle, Edge>, ends: Ends, s: seq<Handle>, side: Side, h: Handle)
    requires Chain(edges, ends, s, side) && h !in s
    requires AppendFrame(edges, e2, s, side, h)
    requires h in e2 && Prev(e2[h], side) == ends.tail && Next(e2[h], side) == None
    ensures Chain(e2, Appended(ends, h), s + [h], side)
  {
    var t := s + [h];
    forall i | 0 <= i < |t|
      ensures t[i] in e2
      ensures Prev(e2[t[i]], side) == (if i == 0 then None else Some(t[i - 1]))
      ensures Next(e2[t[i]], side) == (if i == |t| - 1 then None else Some(t[i + 1]))
    {
      if i < |s| {
        assert t[i] == s[i] && s[i] in edges && s[i] != h;
        assert Prev(edges[s[i]], side) == (if i == 0 then None else Some(s[i - 1]));
        assert Next(edges[s[i]], side) == (if i == |s| - 1 then None else Some(s[i + 1]));
        if i > 0 { assert t[i - 1] == s[i - 1]; }
        if i < |s| - 1 { assert t[i + 1] == s[i + 1]; }
      }
    }
  }

  /** Appending `h` to list `y` on one side leaves every other list of that side as it was. */
  lemma AppendSide(edges: map<Handle, Edge>, e2: map<Handle, Edge>, lists: map<int, Ends>,
                   views: map<int, seq<Handle>>, side: Side, y: int, h: Handle)
    requires AllLists(edges, lists, views, side) && y in views
    requires forall z :: z in views ==> h !in views[z]
    requires AppendFrame(edges, e2, views[y], side, h)
    requires h in e2 && Tag(e2[h], side) == Some(y)
    requires Prev(e2[h], side) == lists[y].tail && Next(e2[h], side) == None
    ensures AllLists(e2, lists[y := Appended(lists[y], h)], views[y := views[y] + [h]], side)
  {
    var lists' := lists[y := Appended(lists[y], h)];
    var views' := views[y := views[y] + [h]];
    AppendSame(edges, e2, lists, views, side, y, h);
    forall z | z in views' ensures ListOf(e2, lists'[z], views'[z], side, z) {
      if z != y {
        AppendOther(edges, e2, lists, views, side, y, h, z);
      }
    }
  }

  lemma AppendSame(edges: map<Handle, Edge>, e2: map<Handle, Edge>, lists: map<int, Ends>,
                   views: map<int, seq<Handle>>, side: Side, y: int, h: Handle)
    requires AllLists(edges, lists, views, side) && y in views && h !in views[y]
    requires AppendFrame(edges, e2, views[y], side, h)
    requires h in e2 && Tag(e2[h], side) == Some(y)
    requires Prev(e2[h], side) == lists[y].tail && Next(e2[h], side) == None
    ensures ListOf(e2, Appended(lists[y], h), views[y] + [h], side, y)
  {
    assert ListOf(edges, lists[y], views[y], side, y);
    AppendChain(edges, e2, lists[y], views[y], side, h);
  }

  lemma AppendOther(edges: map<Handle, Edge>, e2: map<Handle, Edge>, lists: map<int, Ends>,
                    views: map<int, seq<Handle>>, side: Side, y: int, h: Handle, z: int)
    requires AllLists(edges, lists, views, side) && y in views && z in views && z != y
    requires h !in views[z]
    requires AppendFrame(edges, e2, views[y], side, h)
    ensures ListOf(e2, lists[z], views[z], side, z)
  {
    assert ListOf(edges, lists[z], views[z], side, z);
    assert ListOf(edges, lists[y], views[y], side, y);
    forall g | g in views[z]
      ensures g in e2 && Prev(e2[g], side) == Prev(edges[g], side) && Next(e2[g], side) == Next(edges[g], side)
    {
      assert |views[y]| > 0 ==> views[y][|views[y]| - 1] in views[y];
    }
    ChainFrame(edges, e2, lists[z], views[z], side);
  }

  /** The three updates of `link`, as frames of both sides. */
  lemma LinkSteps(a: Arena, av: map<AtomId, seq<Handle>>, ov: map<LcId, seq<Handle>>, l: LcId, x: AtomId, h: Handle, arg: int)
    requires WellFormed(a, av, ov) && x in a.atoms && l in a.owners
    requires h in a.edges ==> a.edges[h].IsDead()
    ensures Closed(a)
    ensures var r := Link(a, l, x, h, arg);
      && AppendFrame(a.edges, r.edges, av[x], AtomSide, h)
      && AppendFrame(a.edges, r.edges, ov[l], OwnerSide, h)
      && r.edges[h] == Edge(Some(x), a.atoms[x].tail, None, Some(l), a.owners[l].tail, None, arg)
      && r.atoms == a.atoms[x := Appended(a.atoms[x], h)]
      && r.owners == a.owners[l := Appended(a.owners[l], h)]
      && (forall z :: z in av ==> h !in av[z])
      && (forall z :: z in ov ==> h !in ov[z])
  {
    WellFormedClosed(a, av, ov);
    LinkAbsent(a, av, ov, h);
    assert ListOf(a.edges, a.atoms[x], av[x], AtomSide, x);
    assert ListOf(a.edges, a.owners[l], ov[l], OwnerSide, l);
    assert |av[x]| > 0 ==> av[x][|av[x]| - 1] in av[x];
    assert |ov[l]| > 0 ==> ov[l][|ov[l]| - 1] in ov[l];
    LinkShape(a, l, x, h, arg);
  }

  /** `link` writes the new edge, the atom tail's `an` and the owner tail's `ln`, and nothing else. */
  lemma LinkShape(a: Arena, l: LcId, x: AtomId, h: Handle, arg: int)
    requires x in a.atoms && l in a.owners
    requires h in a.edges ==> a.edges[h].IsDead()
    requires a.atoms[x].tail.Some? ==> a.atoms[x].tail.value in a.edges && a.atoms[x].tail.value != h
    requires a.owners[l].tail.Some? ==> a.owners[l].tail.value in a.edges && a.owners[l].tail.value != h
    ensures var r := Link(a, l, x, h, arg);
      && r.edges[h] == Edge(Some(x), a.atoms[x].tail, None, Some(l), a.owners[l].tail, None, arg)
      && r.atoms == a.atoms[x := Appended(a.atoms[x], h)]
      && r.owners == a.owners[l := Appended(a.owners[l], h)]
      && forall g :: g in a.edges && g != h ==>
           && r.edges[g].target == a.edges[g].target && r.edges[g].owner == a.edges[g].owner
           && r.edges[g].ap == a.edges[g].ap && r.edges[g].lp == a.edges[g].lp
           && r.edges[g].an == (if a.atoms[x].tail == Some(g) then Some(h) else a.edges[g].an)
           && r.edges[g].ln == (if a.owners[l].tail == Some(g) then Some(h) else a.edges[g].ln)
  {
  }

  /** A fresh or dead edge is in no list of a well-formed arena. */
  lemma LinkAbsent(a: Arena, av: map<AtomId, seq<Handle>>, ov: map<LcId, seq<Handle>>, h: Handle)
    requires WellFormed(a, av, ov)
    requires h in a.edges ==> a.edges[h].IsDead()
    ensures (forall z :: z in av ==> h !in av[z]) && (forall z :: z in ov ==> h !in ov[z])
  {
    forall z | z in av ensures h !in av[z] {
      assert ListOf(a.edges, a.atoms[z], av[z], AtomSide, z);
    }
    forall z | z in ov ensures h !in ov[z] {
      assert ListOf(a.edges, a.owners[z], ov[z], OwnerSide, z);
    }
  }

  /**
   * Linking a fresh or dead edge into a well-formed arena appends it to the
   * end of its atom's list and of its owner's list; every list keeps its
   * previous edges in their order.
   */
  lemma LinkWellFormed(a: Arena, av: map<AtomId, seq<Handle>>, ov: map<LcId, seq<Handle>>, l: LcId, x: AtomId, h: Handle, arg: int)
    requires WellFormed(a, av, ov) && x in a.atoms && l in a.owners
    requires h in a.edges ==> a.edges[h].IsDead()
    ensures Closed(a)
    ensures WellFormed(Link(a, l, x, h, arg), av[x := av[x] + [h]], ov[l := ov[l] + [h]])
  {
    LinkSteps(a, av, ov, l, x, h, arg);
    var r := Link(a, l, x, h, arg);
    AppendSide(a.edges, r.edges, a.atoms, av, AtomSide, x, h);
    AppendSide(a.edges, r.edges, a.owners, ov, OwnerSide, l, h);
    LinkPlaced(a, av, ov, l, x, h, arg);
  }

  lemma LinkPlaced(a: Arena, av: map<AtomId, seq<Handle>>, ov: map<LcId, seq<Handle>>, l: LcId, x: AtomId, h: Handle, arg: int)
    requires WellFormed(a, av, ov) && x in a.atoms && l in a.owners
    requires h in a.edges ==> a.edges[h].IsDead()
    ensures Closed(a)
    ensures var r := Link(a, l, x, h, arg);
      forall g :: g in r.edges ==> Placed(r.edges[g], g, av[x := av[x] + [h]], ov[l := ov[l] + [h]])
  {
    LinkSteps(a, av, ov, l, x, h, arg);
    var r := Link(a, l, x, h, arg);
    forall g | g in r.edges ensures Placed(r.edges[g], g, av[x := av[x] + [h]], ov[l := ov[l] + [h]]) {
      if g != h {
        var e := a.edges[g];
        assert Placed(e, g, av, ov);
        if e.target.None? {
          assert ListOf(a.edges, a.atoms[x], av[x], AtomSide, x);
          assert ListOf(a.edges, a.owners[l], ov[l], OwnerSide, l);
          assert |av[x]| > 0 ==> av[x][|av[x]| - 1] in av[x];
          assert |ov[l]| > 0 ==> ov[l][|ov[l]| - 1] in ov[l];
        }
      }
    }
  }
}
