/**
 * The proxy objects of a proxy-mode `Iterator`: `createProxy` builds one
 * proxy atom per listed key over an item's fields, `updateProxy` rebinds
 * each of them to the fields of a new item with `use`.
 *
 * An item is a map from key to field; a missing field reads as `undefined`.
 * Each proxy atom gets its own id, and each key one fresh edge handle for a
 * first binding to an atom.
 */
module IteratorProxy {
  import opened Wrappers
  import Iterator
  import opened Dependency
  import opened ProxyAtom

  type Key = int

  /** An item of the list, as the proxy objects see it. */
  type Item = map<Key, Source>

  /** `{ proxied: data, [key]: proxy(data[key]) … }`. */
  datatype Obj = Obj(fields: map<Key, Proxy>, proxied: Item)

  /** `data[key]`. */
  function Field(data: Item, k: Key): Source {
    if k in data then data[k] else Plain(Undefined)
  }

  /** Every atom an item's fields refer to exists and has a value. */
  ghost predicate Known(a: Arena, vals: Values, data: Item) {
    forall k :: k in data && data[k].AtomRef? ==> data[k].atom in a.atoms && data[k].atom in vals
  }

  predicate Unique<T(==)>(s: seq<T>) {
    forall i, j :: 0 <= i < j < |s| ==> s[i] != s[j]
  }

  /**
   * The proxies of an object keep their own invariant on lifecycle `lc`, are
   * readable, and hold distinct edges.
   */
  ghost predicate ObjInv(o: Obj, a: Arena, vals: Values, lc: LcId) {
    && (forall k :: k in o.fields ==> Inv(o.fields[k], a) && Readable(o.fields[k], vals) && o.fields[k].lc == lc)
    && (forall k, k' :: k in o.fields && k' in o.fields && k != k' && o.fields[k].dep.Some? ==>
          o.fields[k].dep != o.fields[k'].dep)
  }

  /** Each field of `o` listed in `keys` reads as the field of `data`. */
  ghost predicate Mirrors(o: Obj, keys: seq<Key>, vals: Values, data: Item) {
    forall i :: 0 <= i < |keys| ==>
      (&& keys[i] in o.fields && Readable(o.fields[keys[i]], vals)
       && (Field(data, keys[i]).AtomRef? ==> Field(data, keys[i]).atom in vals)
       && Get(o.fields[keys[i]], vals) == SourceVal(Field(data, keys[i]), vals))
  }

  /** Every dead-targeted edge is fully dead, as `Placed` demands of a well-formed arena. */
  ghost predicate DeadClean(b: Arena) {
    forall h :: h in b.edges && b.edges[h].target.None? ==> b.edges[h].IsDead()
  }

  lemma WellFormedDeadClean(b: Arena, bv: map<AtomId, seq<Handle>>, bo: map<LcId, seq<Handle>>)
    requires WellFormed(b, bv, bo)
    ensures DeadClean(b)
  {
    forall h | h in b.edges && b.edges[h].target.None?
      ensures b.edges[h].IsDead()
    {
      assert Placed(b.edges[h], h, bv, bo);
    }
  }

  /** `b'` keeps every edge of `b`, adds at most `d`, and changes no other edge's target or owner. */
  ghost predicate Keeps(b: Arena, b': Arena, d: Handle) {
    && b.edges.Keys <= b'.edges.Keys <= b.edges.Keys + {d}
    && forall g :: g in b.edges && g != d ==>
         b'.edges[g].target == b.edges[g].target && b'.edges[g].owner == b.edges[g].owner
  }

  /** A proxy keeps its invariant in an arena that keeps its edge's target and owner. */
  lemma InvFrame(q: Proxy, a: Arena, b: Arena, d: Handle)
    requires Inv(q, a) && DeadClean(b) && Keeps(a, b, d) && q.dep != Some(d)
    ensures Inv(q, b)
  {
    if q.dep.Some? {
      var g := q.dep.value;
      assert g in b.edges && b.edges[g].target == a.edges[g].target && b.edges[g].owner == a.edges[g].owner;
    }
  }

  /**
   * Setting key `k` to a proxy `q` whose only edge is `d`, in an arena that
   * touched no other edge, keeps the object's invariant when no other field
   * holds `d`.
   */
  lemma SetField(o: Obj, b: Arena, b': Arena, d: Handle, k: Key, q: Proxy, vals: Values, lc: LcId)
    requires ObjInv(o, b, vals, lc) && DeadClean(b') && Keeps(b, b', d)
    requires Inv(q, b') && Readable(q, vals) && q.lc == lc && (q.dep.Some? ==> q.dep == Some(d))
    requires forall j :: j in o.fields && j != k ==> o.fields[j].dep != Some(d)
    ensures ObjInv(o.(fields := o.fields[k := q]), b', vals, lc)
  {
    forall j | j in o.fields && j != k
      ensures Inv(o.fields[j], b')
    {
      InvFrame(o.fields[j], b, b', d);
    }
  }

  /** What making a proxy with the fresh handle `h` leaves of the arena. */
  ghost predicate MadeArena(b: Arena, b': Arena, bv': map<AtomId, seq<Handle>>, bo': map<LcId, seq<Handle>>, h: Handle) {
    && WellFormed(b', bv', bo') && DeadClean(b') && Keeps(b, b', h)
    && b'.atoms.Keys == b.atoms.Keys && b'.owners.Keys == b.owners.Keys
  }

  /** What making a proxy reading `src` with the fresh handle `h` gives: the proxy keeps its invariant and reads `src`. */
  ghost predicate MadeProxy(q: Proxy, b': Arena, lc: LcId, src: Source, vals: Values, h: Handle) {
    && Inv(q, b') && q.lc == lc && (q.dep.Some? ==> q.dep == Some(h))
    && Readable(q, vals) && (src.AtomRef? ==> src.atom in vals) && Get(q, vals) == SourceVal(src, vals)
  }

  /** Making a proxy with the fresh handle `h` keeps the arena well formed and touches only `h`. */
  lemma MakeProxyKeeps(b: Arena, bv: map<AtomId, seq<Handle>>, bo: map<LcId, seq<Handle>>,
                       lc: LcId, src: Source, vals: Values, id: int, h: Handle, q: (Proxy, Arena, bool))
      returns (bv': map<AtomId, seq<Handle>>, bo': map<LcId, seq<Handle>>)
    requires WellFormed(b, bv, bo) && lc in b.owners && h !in b.edges
    requires src.AtomRef? ==> src.atom in b.atoms && src.atom in vals
    requires Closed(b) && q == MakeProxy(id, lc, b, src, vals, h)
    ensures MadeArena(b, q.1, bv', bo', h) && MadeProxy(q.0, q.1, lc, src, vals, h)
  {
    bv', bo' := bv, bo;
    if src.AtomRef? {
      LinkWellFormed(b, bv, bo, lc, src.atom, h, id);
      LinkKeepsOthers(b, lc, src.atom, h, id);
      bv', bo' := bv[src.atom := bv[src.atom] + [h]], bo[lc := bo[lc] + [h]];
    }
    WellFormedDeadClean(q.1, bv', bo');
  }

  /** Setting key `keys[i]` to a proxy reading its field extends the mirrored prefix by one. */
  lemma MirrorsAdd(o: Obj, keys: seq<Key>, i: nat, vals: Values, data: Item, q: Proxy)
    requires i < |keys| && Mirrors(o, keys[..i], vals, data)
    requires Readable(q, vals) && (Field(data, keys[i]).AtomRef? ==> Field(data, keys[i]).atom in vals)
    requires Get(q, vals) == SourceVal(Field(data, keys[i]), vals)
    ensures Mirrors(o.(fields := o.fields[keys[i] := q]), keys[..i + 1], vals, data)
  {
    var o' := o.(fields := o.fields[keys[i] := q]);
    forall j | 0 <= j < i + 1
      ensures keys[j] in o'.fields && Readable(o'.fields[keys[j]], vals)
      ensures Field(data, keys[j]).AtomRef? ==> Field(data, keys[j]).atom in vals
      ensures Get(o'.fields[keys[j]], vals) == SourceVal(Field(data, keys[j]), vals)
    {
      if keys[j] != keys[i] {
        assert keys[..i][j] == keys[j];
      }
    }
    assert forall j :: 0 <= j < i + 1 ==> keys[..i + 1][j] == keys[j];
  }

  /** The arena after the first `i` keys of `createProxy` or `updateProxy`: the handles `hs[i..]` are still fresh. */
  ghost predicate ArenaAt(a: Arena, lc: LcId, data: Item, vals: Values, hs: seq<Handle>, i: nat,
                               b: Arena, bv: map<AtomId, seq<Handle>>, bo: map<LcId, seq<Handle>>)
  {
    && i <= |hs| && Unique(hs) && (forall j :: 0 <= j < |hs| ==> hs[j] !in a.edges)
    && WellFormed(b, bv, bo) && Closed(b) && lc in b.owners && Known(b, vals, data)
    && b.atoms.Keys == a.atoms.Keys && b.owners.Keys == a.owners.Keys
    && a.edges.Keys <= b.edges.Keys && (forall j :: i <= j < |hs| ==> hs[j] !in b.edges)
  }

  /** The object side of `createProxy` after its first `i` keys. */
  ghost predicate CreatedObj(lc: LcId, data: Item, keys: seq<Key>, vals: Values, i: nat, o: Obj, b: Arena) {
    && i <= |keys| && o.proxied == data && o.fields.Keys == (set j | 0 <= j < i :: keys[j])
    && ObjInv(o, b, vals, lc) && Mirrors(o, keys[..i], vals, data)
  }

  lemma ArenaStep(a: Arena, lc: LcId, data: Item, vals: Values, hs: seq<Handle>, i: nat,
                        b: Arena, bv: map<AtomId, seq<Handle>>, bo: map<LcId, seq<Handle>>,
                        b': Arena, bv': map<AtomId, seq<Handle>>, bo': map<LcId, seq<Handle>>, d: Handle)
    requires ArenaAt(a, lc, data, vals, hs, i, b, bv, bo) && i < |hs|
    requires MadeArena(b, b', bv', bo', d) && (d == hs[i] || d in b.edges)
    ensures ArenaAt(a, lc, data, vals, hs, i + 1, b', bv', bo')
  {
    assert forall j :: i + 1 <= j < |hs| ==> hs[j] != hs[i];
    WellFormedClosed(b', bv', bo');
  }

  lemma CreateObjStep(lc: LcId, data: Item, keys: seq<Key>, vals: Values, i: nat, o: Obj, b: Arena,
                      b': Arena, h: Handle, q: Proxy, o': Obj)
    requires CreatedObj(lc, data, keys, vals, i, o, b) && i < |keys|
    requires h !in b.edges && DeadClean(b') && Keeps(b, b', h) && MadeProxy(q, b', lc, Field(data, keys[i]), vals, h)
    requires o' == o.(fields := o.fields[keys[i] := q])
    ensures CreatedObj(lc, data, keys, vals, i + 1, o', b')
  {
    SetField(o, b, b', h, keys[i], q, vals, lc);
    assert (set j | 0 <= j < i + 1 :: keys[j]) == (set j | 0 <= j < i :: keys[j]) + {keys[i]};
    MirrorsAdd(o, keys, i, vals, data, q);
  }

  /** `proxy` may run on the field of the next key. */
  lemma MakeReady(a: Arena, lc: LcId, data: Item, keys: seq<Key>, vals: Values, hs: seq<Handle>, i: nat,
                  b: Arena, bv: map<AtomId, seq<Handle>>, bo: map<LcId, seq<Handle>>)
    requires ArenaAt(a, lc, data, vals, hs, i, b, bv, bo) && i < |keys| == |hs|
    ensures var src := Field(data, keys[i]);
      && Closed(b) && lc in b.owners && hs[i] !in b.edges
      && (src.AtomRef? ==> src.atom in b.atoms && src.atom in vals)
  {
  }

  /** One turn of `createProxy`'s loop: make the proxy for `keys[i]` and store it. */
  lemma CreateTurn(a: Arena, lc: LcId, data: Item, keys: seq<Key>, vals: Values, firstId: int, hs: seq<Handle>, i: nat,
                   o: Obj, b: Arena, bv: map<AtomId, seq<Handle>>, bo: map<LcId, seq<Handle>>,
                   q: (Proxy, Arena, bool), o': Obj)
      returns (bv': map<AtomId, seq<Handle>>, bo': map<LcId, seq<Handle>>)
    requires ArenaAt(a, lc, data, vals, hs, i, b, bv, bo) && CreatedObj(lc, data, keys, vals, i, o, b)
    requires i < |keys| == |hs|
    requires q == MakeProxy(firstId + i, lc, b, Field(data, keys[i]), vals, hs[i])
    requires o' == o.(fields := o.fields[keys[i] := q.0])
    ensures ArenaAt(a, lc, data, vals, hs, i + 1, q.1, bv', bo') && CreatedObj(lc, data, keys, vals, i + 1, o', q.1)
  {
    bv', bo' := MakeProxyKeeps(b, bv, bo, lc, Field(data, keys[i]), vals, firstId + i, hs[i], q);
    ArenaStep(a, lc, data, vals, hs, i, b, bv, bo, q.1, bv', bo', hs[i]);
    CreateObjStep(lc, data, keys, vals, i, o, b, q.1, hs[i], q.0, o');
  }

  /** `createProxy`'s loop over the keys. */
  method CreateFields(a: Arena, lc: LcId, data: Item, keys: seq<Key>, vals: Values, firstId: int, hs: seq<Handle>,
                      ghost av: map<AtomId, seq<Handle>>, ghost ov: map<LcId, seq<Handle>>)
      returns (o: Obj, b: Arena, ghost bv: map<AtomId, seq<Handle>>, ghost bo: map<LcId, seq<Handle>>)
    requires ArenaAt(a, lc, data, vals, hs, 0, a, av, ov) && |keys| == |hs|
    ensures ArenaAt(a, lc, data, vals, hs, |keys|, b, bv, bo) && CreatedObj(lc, data, keys, vals, |keys|, o, b)
  {
    o, b, bv, bo := Obj(map[], data), a, av, ov;
    var i := 0;
    while i < |keys|
      invariant i <= |keys|
      invariant ArenaAt(a, lc, data, vals, hs, i, b, bv, bo)
      invariant CreatedObj(lc, data, keys, vals, i, o, b)
    {
      MakeReady(a, lc, data, keys, vals, hs, i, b, bv, bo);
      var q := MakeProxy(firstId + i, lc, b, Field(data, keys[i]), vals, hs[i]);
      var o' := o.(fields := o.fields[keys[i] := q.0]);
      ghost var bv', bo' := CreateTurn(a, lc, data, keys, vals, firstId, hs, i, o, b, bv, bo, q, o');
      o, b, bv, bo := o', q.1, bv', bo';
      i := i + 1;
    }
  }

  /** What the finished loop of `createProxy` gives. */
  lemma CreateDone(a: Arena, lc: LcId, data: Item, keys: seq<Key>, vals: Values, hs: seq<Handle>,
                   o: Obj, b: Arena, bv: map<AtomId, seq<Handle>>, bo: map<LcId, seq<Handle>>)
    requires ArenaAt(a, lc, data, vals, hs, |keys|, b, bv, bo) && CreatedObj(lc, data, keys, vals, |keys|, o, b)
    ensures o.proxied == data && o.fields.Keys == set i | 0 <= i < |keys| :: keys[i]
    ensures Mirrors(o, keys, vals, data) && ObjInv(o, b, vals, lc)
    ensures WellFormed(b, bv, bo) && b.atoms.Keys == a.atoms.Keys && b.owners.Keys == a.owners.Keys
    ensures a.edges.Keys <= b.edges.Keys
  {
    assert keys[..|keys|] == keys;
  }

  /**
   * `createProxy(lifecycle, data, keys)`: one proxy per key, the `i`-th with
   * id `firstId + i` and, if it mirrors an atom, the edge `hs[i]`. A later
   * duplicate key replaces the earlier proxy.
   */
  method CreateProxy(lc: LcId, data: Item, keys: seq<Key>, a: Arena, vals: Values, firstId: int, hs: seq<Handle>,
                     ghost av: map<AtomId, seq<Handle>>, ghost ov: map<LcId, seq<Handle>>)
      returns (o: Obj, b: Arena, ghost bv: map<AtomId, seq<Handle>>, ghost bo: map<LcId, seq<Handle>>)
    requires WellFormed(a, av, ov) && lc in a.owners && Known(a, vals, data)
    requires |hs| == |keys| && Unique(hs) && forall i :: 0 <= i < |hs| ==> hs[i] !in a.edges
    ensures o.proxied == data && o.fields.Keys == set i | 0 <= i < |keys| :: keys[i]
    ensures Mirrors(o, keys, vals, data) && ObjInv(o, b, vals, lc)
    ensures WellFormed(b, bv, bo) && b.atoms.Keys == a.atoms.Keys && b.owners.Keys == a.owners.Keys
    ensures a.edges.Keys <= b.edges.Keys
  {
    ArenaInit(a, av, ov, lc, data, vals, hs);
    o, b, bv, bo := CreateFields(a, lc, data, keys, vals, firstId, hs, av, ov);
    CreateDone(a, lc, data, keys, vals, hs, o, b, bv, bo);
  }

  /** A static proxy that still holds the edge of an earlier binding: `use` as written throws on it. */
  predicate Stale(p: Proxy) {
    p.dep.Some? && p.mode.Static?
  }

  /** `use` as the chosen build runs it. */
  function UseIn(build: Iterator.Build, p: Proxy, b: Arena, src: Source, vals: Values, h: Handle)
    : (r: Result<(Proxy, Arena, bool)>)
    requires UseReady(p, b, src, vals, h) && Inv(p, b)
    ensures r.Err? <==> build == Iterator.AsWritten && Stale(p)
    ensures r.Ok? ==> r == UseFixed(p, b, src, vals, h)
  {
    UseAsWritten(p, b, src, vals, h);
    if build == Iterator.AsWritten then Use(p, b, src, vals, h) else UseFixed(p, b, src, vals, h)
  }

  /** The object after the first `i` keys of `updateProxy`, started from `o0`. */
  ghost predicate UpdatedObj(o0: Obj, data: Item, keys: seq<Key>, vals: Values, i: nat, o: Obj, b: Arena,
                             lc: LcId, build: Iterator.Build)
  {
    && i <= |keys| && o.proxied == o0.proxied && o.fields.Keys == o0.fields.Keys
    && ObjInv(o, b, vals, lc) && Mirrors(o, keys[..i], vals, data)
    && (forall k :: k in o.fields && k !in keys[..i] ==> o.fields[k] == o0.fields[k])
    && (build == Iterator.AsWritten && Unique(keys) ==> forall j :: 0 <= j < i ==> !Stale(o0.fields[keys[j]]))
  }

  /** What the corrected `use` on a proxy of the object leaves behind, with `d` its one edge. */
  lemma UseKeeps(b: Arena, bv: map<AtomId, seq<Handle>>, bo: map<LcId, seq<Handle>>,
                 p: Proxy, lc: LcId, src: Source, vals: Values, h: Handle, q: (Proxy, Arena, bool))
      returns (bv': map<AtomId, seq<Handle>>, bo': map<LcId, seq<Handle>>)
    requires WellFormed(b, bv, bo) && Inv(p, b) && p.lc == lc && lc in b.owners && h !in b.edges && Readable(p, vals)
    requires src.AtomRef? ==> src.atom in b.atoms && src.atom in vals
    requires UseReady(p, b, src, vals, h) && UseFixed(p, b, src, vals, h) == Ok(q)
    ensures MadeArena(b, q.1, bv', bo', p.dep.GetOr(h)) && MadeProxy(q.0, q.1, lc, src, vals, p.dep.GetOr(h))
  {
    bv', bo' := UseFixedKeeps(p, b, bv, bo, src, vals, h);
    var r := UseFixedFrame(p, b, bv, bo, src, vals, h);
    var a1 := UnlinkIf(b, p.dep, p.mode.Bound?).value;
    assert q == Rebind(p, a1, src, vals, h, Get(p, vals));
    WellFormedDeadClean(q.1, bv', bo');
  }

  /** A proxy of a well-formed arena on a live lifecycle may be handed to `use`. */
  lemma ReadyIn(p: Proxy, b: Arena, bv: map<AtomId, seq<Handle>>, bo: map<LcId, seq<Handle>>,
                src: Source, vals: Values, h: Handle)
    requires WellFormed(b, bv, bo) && Closed(b) && p.lc in b.owners && h !in b.edges
    requires Inv(p, b) && Readable(p, vals)
    requires src.AtomRef? ==> src.atom in b.atoms && src.atom in vals
    ensures UseReady(p, b, src, vals, h)
  {
    if p.dep.Some? {
      assert Placed(b.edges[p.dep.value], p.dep.value, bv, bo);
    }
  }

  /** A field of an object that keeps its invariant. */
  lemma FieldInv(o: Obj, b: Arena, vals: Values, lc: LcId, k: Key)
    requires ObjInv(o, b, vals, lc) && k in o.fields
    ensures Inv(o.fields[k], b) && Readable(o.fields[k], vals) && o.fields[k].lc == lc
  {
  }

  /** `use` may run on the proxy of the next key, and on the original proxy when the keys are distinct. */
  lemma UseReadyAt(a: Arena, lc: LcId, data: Item, keys: seq<Key>, vals: Values, hs: seq<Handle>, i: nat,
                   o0: Obj, o: Obj, b: Arena, bv: map<AtomId, seq<Handle>>, bo: map<LcId, seq<Handle>>,
                   build: Iterator.Build)
    requires ArenaAt(a, lc, data, vals, hs, i, b, bv, bo) && UpdatedObj(o0, data, keys, vals, i, o, b, lc, build)
    requires i < |keys| == |hs| && forall j :: 0 <= j < |keys| ==> keys[j] in o0.fields
    ensures keys[i] in o.fields
    ensures var p := o.fields[keys[i]];
      && UseReady(p, b, Field(data, keys[i]), vals, hs[i]) && Inv(p, b)
    ensures Unique(keys) ==> o.fields[keys[i]] == o0.fields[keys[i]]
  {
    assert keys[i] in o0.fields && keys[i] in o.fields;
    FieldInv(o, b, vals, lc, keys[i]);
    assert hs[i] !in b.edges;
    ReadyIn(o.fields[keys[i]], b, bv, bo, Field(data, keys[i]), vals, hs[i]);
    if Unique(keys) {
      assert keys[i] !in keys[..i];
    }
  }

  /** The arena side of one turn of `updateProxy`, once `use` has returned normally. */
  lemma UpdateArenaTurn(a: Arena, lc: LcId, data: Item, keys: seq<Key>, vals: Values, hs: seq<Handle>, i: nat,
                        p: Proxy, b: Arena, bv: map<AtomId, seq<Handle>>, bo: map<LcId, seq<Handle>>,
                        q: (Proxy, Arena, bool))
      returns (bv': map<AtomId, seq<Handle>>, bo': map<LcId, seq<Handle>>)
    requires ArenaAt(a, lc, data, vals, hs, i, b, bv, bo) && i < |keys| == |hs|
    requires UseReady(p, b, Field(data, keys[i]), vals, hs[i]) && Inv(p, b) && p.lc == lc
    requires UseFixed(p, b, Field(data, keys[i]), vals, hs[i]) == Ok(q)
    ensures ArenaAt(a, lc, data, vals, hs, i + 1, q.1, bv', bo')
    ensures MadeArena(b, q.1, bv', bo', p.dep.GetOr(hs[i]))
    ensures MadeProxy(q.0, q.1, lc, Field(data, keys[i]), vals, p.dep.GetOr(hs[i]))
  {
    bv', bo' := UseKeeps(b, bv, bo, p, lc, Field(data, keys[i]), vals, hs[i], q);
    ArenaStep(a, lc, data, vals, hs, i, b, bv, bo, q.1, bv', bo', p.dep.GetOr(hs[i]));
  }

  /** The object side of one turn of `updateProxy`, once `use` has returned normally. */
  lemma UpdateObjTurn(data: Item, keys: seq<Key>, vals: Values, i: nat, o0: Obj, o: Obj, b: Arena, b': Arena,
                      lc: LcId, build: Iterator.Build, q: Proxy, h: Handle, o': Obj)
    requires UpdatedObj(o0, data, keys, vals, i, o, b, lc, build) && i < |keys| && keys[i] in o.fields
    requires h !in b.edges
    requires var p := o.fields[keys[i]];
      && DeadClean(b') && Keeps(b, b', p.dep.GetOr(h)) && MadeProxy(q, b', lc, Field(data, keys[i]), vals, p.dep.GetOr(h))
      && (build == Iterator.AsWritten ==> !Stale(p))
    requires o' == o.(fields := o.fields[keys[i] := q])
    ensures UpdatedObj(o0, data, keys, vals, i + 1, o', b', lc, build)
  {
    var p := o.fields[keys[i]];
    SetField(o, b, b', p.dep.GetOr(h), keys[i], q, vals, lc);
    MirrorsAdd(o, keys, i, vals, data, q);
    assert keys[..i + 1] == keys[..i] + [keys[i]];
    if build == Iterator.AsWritten && Unique(keys) {
      assert keys[i] !in keys[..i];
    }
  }

  /** The arena view before the first key. */
  lemma ArenaInit(a: Arena, av: map<AtomId, seq<Handle>>, ov: map<LcId, seq<Handle>>,
                  lc: LcId, data: Item, vals: Values, hs: seq<Handle>)
    requires WellFormed(a, av, ov) && lc in a.owners && Known(a, vals, data)
    requires Unique(hs) && forall i :: 0 <= i < |hs| ==> hs[i] !in a.edges
    ensures ArenaAt(a, lc, data, vals, hs, 0, a, av, ov)
  {
    WellFormedClosed(a, av, ov);
  }

  /** What a finished `updateProxy` loop gives, once `proxied` is set. */
  lemma UpdateDone(a: Arena, lc: LcId, data: Item, keys: seq<Key>, vals: Values, hs: seq<Handle>,
                   o0: Obj, o: Obj, b: Arena, bv: map<AtomId, seq<Handle>>, bo: map<LcId, seq<Handle>>,
                   build: Iterator.Build)
    requires ArenaAt(a, lc, data, vals, hs, |keys|, b, bv, bo) && UpdatedObj(o0, data, keys, vals, |keys|, o, b, lc, build)
    ensures var o' := o.(proxied := data);
      && o'.fields.Keys == o0.fields.Keys
      && (forall k :: k in o0.fields && k !in keys ==> o'.fields[k] == o0.fields[k])
      && Mirrors(o', keys, vals, data) && ObjInv(o', b, vals, lc)
      && WellFormed(b, bv, bo) && b.atoms.Keys == a.atoms.Keys && b.owners.Keys == a.owners.Keys
    ensures build == Iterator.AsWritten && Unique(keys) ==> !exists i :: 0 <= i < |keys| && Stale(o0.fields[keys[i]])
  {
    assert keys[..|keys|] == keys;
  }

  /** One turn of `updateProxy`'s loop: `use` on the proxy of key `i`, which may throw. */
  method UpdateTurn(a: Arena, ghost lc: LcId, data: Item, keys: seq<Key>, vals: Values, hs: seq<Handle>,
                    o: Obj, build: Iterator.Build, i: nat, cur: Obj, b: Arena,
                    ghost bv: map<AtomId, seq<Handle>>, ghost bo: map<LcId, seq<Handle>>)
      returns (r: Result<(Obj, Arena)>, ghost bv': map<AtomId, seq<Handle>>, ghost bo': map<LcId, seq<Handle>>)
    requires i < |keys| == |hs| && forall j :: 0 <= j < |keys| ==> keys[j] in o.fields
    requires ArenaAt(a, lc, data, vals, hs, i, b, bv, bo) && UpdatedObj(o, data, keys, vals, i, cur, b, lc, build)
    ensures r.Ok? ==> (ArenaAt(a, lc, data, vals, hs, i + 1, r.value.1, bv', bo')
                       && UpdatedObj(o, data, keys, vals, i + 1, r.value.0, r.value.1, lc, build))
    ensures r.Err? ==> build == Iterator.AsWritten && (Unique(keys) ==> Stale(o.fields[keys[i]]))
  {
    UseReadyAt(a, lc, data, keys, vals, hs, i, o, cur, b, bv, bo, build);
    var p := cur.fields[keys[i]];
    var res := UseIn(build, p, b, Field(data, keys[i]), vals, hs[i]);
    if res.Err? {
      r := Err(res.error);
      bv', bo' := bv, bo;
      return;
    }
    var q := res.value;
    var o' := cur.(fields := cur.fields[keys[i] := q.0]);
    bv', bo' := UpdateArenaTurn(a, lc, data, keys, vals, hs, i, p, b, bv, bo, q);
    UpdateObjTurn(data, keys, vals, i, o, cur, b, q.1, lc, build, q.0, hs[i], o');
    r := Ok((o', q.1));
  }

  /** `updateProxy`'s loop over the keys; it stops at the first `use` that throws. */
  method UpdateFields(a: Arena, ghost lc: LcId, data: Item, keys: seq<Key>, vals: Values, hs: seq<Handle>,
                      o: Obj, build: Iterator.Build, ghost av: map<AtomId, seq<Handle>>, ghost ov: map<LcId, seq<Handle>>)
      returns (r: Result<(Obj, Arena)>, ghost bv: map<AtomId, seq<Handle>>, ghost bo: map<LcId, seq<Handle>>)
    requires ArenaAt(a, lc, data, vals, hs, 0, a, av, ov) && UpdatedObj(o, data, keys, vals, 0, o, a, lc, build)
    requires |keys| == |hs| && forall i :: 0 <= i < |keys| ==> keys[i] in o.fields
    ensures r.Ok? ==> (ArenaAt(a, lc, data, vals, hs, |keys|, r.value.1, bv, bo)
                       && UpdatedObj(o, data, keys, vals, |keys|, r.value.0, r.value.1, lc, build))
    ensures r.Err? ==> build == Iterator.AsWritten
    ensures r.Err? && Unique(keys) ==> exists i :: 0 <= i < |keys| && Stale(o.fields[keys[i]])
  {
    var cur, b := o, a;
    bv, bo := av, ov;
    var i := 0;
    while i < |keys|
      invariant i <= |keys|
      invariant ArenaAt(a, lc, data, vals, hs, i, b, bv, bo)
      invariant UpdatedObj(o, data, keys, vals, i, cur, b, lc, build)
    {
      var res;
      res, bv, bo := UpdateTurn(a, lc, data, keys, vals, hs, o, build, i, cur, b, bv, bo);
      if res.Err? {
        r := res;
        return;
      }
      cur, b := res.value.0, res.value.1;
      i := i + 1;
    }
    r := Ok((cur, b));
  }

  /**
   * `updateProxy(obj, data, keys)`: rebinds the proxy of each key, in order,
   * to the new item's field with `use`, then sets `proxied`. A `use` that
   * throws ends the update.
   */
  method UpdateProxy(o: Obj, data: Item, keys: seq<Key>, a: Arena, vals: Values, hs: seq<Handle>,
                     build: Iterator.Build, ghost lc: LcId, ghost av: map<AtomId, seq<Handle>>, ghost ov: map<LcId, seq<Handle>>)
      returns (r: Result<(Obj, Arena)>, ghost bv: map<AtomId, seq<Handle>>, ghost bo: map<LcId, seq<Handle>>)
    requires WellFormed(a, av, ov) && lc in a.owners && Known(a, vals, data) && ObjInv(o, a, vals, lc)
    requires forall i :: 0 <= i < |keys| ==> keys[i] in o.fields
    requires |hs| == |keys| && Unique(hs) && forall i :: 0 <= i < |hs| ==> hs[i] !in a.edges
    ensures r.Ok? ==> var (o', b) := r.value;
      && o'.proxied == data && o'.fields.Keys == o.fields.Keys
      && (forall k :: k in o.fields && k !in keys ==> o'.fields[k] == o.fields[k])
      && Mirrors(o', keys, vals, data) && ObjInv(o', b, vals, lc)
      && WellFormed(b, bv, bo) && b.atoms.Keys == a.atoms.Keys && b.owners.Keys == a.owners.Keys
    ensures build == Iterator.Corrected ==> r.Ok?
    ensures build == Iterator.AsWritten && Unique(keys) ==>
      (r.Err? <==> exists i :: 0 <= i < |keys| && Stale(o.fields[keys[i]]))
  {
    ArenaInit(a, av, ov, lc, data, vals, hs);
    assert keys[..0] == [];
    r, bv, bo := UpdateFields(a, lc, data, keys, vals, hs, o, build, av, ov);
    if r.Ok? {
      var (cur, b) := r.value;
      UpdateDone(a, lc, data, keys, vals, hs, o, cur, b, bv, bo, build);
      r := Ok((cur.(proxied := data), b));
    }
  }
}
