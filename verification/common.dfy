/**
 * The JavaScript values the runtime helpers look at, plain objects with
 * string keys kept in insertion order (the order `for..in` visits them), and
 * the helpers `wrap` and `isNil` of `support/common.ts`.
 *
 * Arrays carry an identity so that "returns the same array" can be stated;
 * identity 0 is the shared frozen `EMPTY_ARRAY`, and an operation that
 * allocates an array takes the new identity as a parameter.
 */
module Js {
  import opened Wrappers

  /** A JavaScript value, as far as the helpers tell values apart. */
  datatype Value =
    | Undefined
    | Null
    | Bool(b: bool)
    | Num(n: int)
    | Str(s: string)
    | Array(id: nat, items: seq<Value>)
    | Object(id: nat)
    | Atom(id: nat)
    | Func(id: nat)

  /** What a JSX call or `render` is given: a tag name or a component. */
  datatype Target = Tag(name: string) | Component(id: nat)

  /** The shared frozen `EMPTY_ARRAY`. */
  const EmptyArray: Value := Array(0, [])

  /** `isNil`: the value is `null` or `undefined`. */
  predicate IsNil(v: Value) {
    v == Null || v == Undefined
  }

  /**
   * `wrap`: an array is returned as it is, `null` and `undefined` become the
   * shared empty array, and any other value a new one-element array with
   * identity `newId`.
   */
  function Wrap(v: Value, newId: nat): (r: Value)
    ensures r.Array?
    ensures v.Array? ==> r == v
    ensures IsNil(v) ==> r == EmptyArray
    ensures !v.Array? && !IsNil(v) ==> r.items == [v] && r.id == newId
  {
    if v.Array? then v
    else if IsNil(v) then EmptyArray
    else Array(newId, [v])
  }

  // ---------------------------------------------------------------------
  // Strings

  /** The index of the first `c` in `s`, if any (`indexOf`). */
  function IndexOf(s: string, c: char): (r: Option<nat>)
    ensures r.Some? ==> r.value < |s| && s[r.value] == c && c !in s[..r.value]
    ensures r.None? <==> c !in s
  {
    if s == [] then None
    else if s[0] == c then Some(0)
    else
      var r := IndexOf(s[1..], c);
      if r.None? then None
      else
        assert s[..r.value + 1] == [s[0]] + s[1..][..r.value];
        Some(r.value + 1)
  }

  /** The line terminators of ECMAScript: what `.` in a regular expression does not match. */
  predicate IsLineTerminator(c: char) {
    c == '\n' || c == '\r' || c == '\U{2028}' || c == '\U{2029}'
  }

  // ---------------------------------------------------------------------
  // Plain objects

  /** A plain object: its own string-keyed properties in insertion order. */
  type Props = seq<(string, Value)>

  /** Each key appears at most once. */
  predicate Distinct(p: Props) {
    forall i, j :: 0 <= i < j < |p| ==> p[i].0 != p[j].0
  }

  /** The keys, in insertion order. */
  function Keys(p: Props): (r: seq<string>)
    ensures |r| == |p| && forall i :: 0 <= i < |p| ==> r[i] == p[i].0
  {
    if p == [] then [] else [p[0].0] + Keys(p[1..])
  }

  /** Reading a property: its value, or `undefined` when the object lacks it. */
  function Get(p: Props, k: string): (r: Value)
    ensures (forall i :: 0 <= i < |p| ==> p[i].0 != k) ==> r == Undefined
    ensures forall i :: 0 <= i < |p| && p[i].0 == k && (forall j :: 0 <= j < i ==> p[j].0 != k) ==> r == p[i].1
  {
    if p == [] then Undefined
    else if p[0].0 == k then p[0].1
    else Get(p[1..], k)
  }

  /**
   * Assigning a property: an existing key keeps its place and takes the new
   * value; a new key goes at the end.
   */
  function Set(p: Props, k: string, v: Value): (r: Props)
    ensures |r| == |p| || |r| == |p| + 1
  {
    if p == [] then [(k, v)]
    else if p[0].0 == k then [(k, v)] + p[1..]
    else [p[0]] + Set(p[1..], k, v)
  }

  /** Assignment reads back the assigned value and leaves every other key as it was. */
  lemma {:induction false} SetGet(p: Props, k: string, v: Value, k': string)
    ensures Get(Set(p, k, v), k) == v
    ensures k' != k ==> Get(Set(p, k, v), k') == Get(p, k')
  {
    if p != [] && p[0].0 != k {
      SetGet(p[1..], k, v, k');
    }
  }

  /** Assignment keeps the order of the existing keys and adds a new key at the end. */
  lemma {:induction false} SetKeys(p: Props, k: string, v: Value)
    ensures k in Keys(p) ==> Keys(Set(p, k, v)) == Keys(p)
    ensures k !in Keys(p) ==> Keys(Set(p, k, v)) == Keys(p) + [k]
  {
    if p != [] {
      assert Keys(p) == [p[0].0] + Keys(p[1..]);
      if p[0].0 != k {
        SetKeys(p[1..], k, v);
        assert Keys(Set(p, k, v)) == [p[0].0] + Keys(Set(p[1..], k, v));
      }
    }
  }

  /** Assignment keeps the keys distinct. */
  lemma SetDistinct(p: Props, k: string, v: Value)
    requires Distinct(p)
    ensures Distinct(Set(p, k, v))
  {
    SetKeys(p, k, v);
    var r := Set(p, k, v);
    assert forall i :: 0 <= i < |r| ==> r[i].0 == Keys(r)[i];
    assert forall i :: 0 <= i < |p| ==> p[i].0 == Keys(p)[i];
    if k !in Keys(p) {
      assert Keys(r) == Keys(p) + [k];
    }
  }

  /** `p.k ??= v`: the value is assigned only when the property is `null` or `undefined`. */
  function Default(p: Props, k: string, v: Value): (r: Props)
    ensures Get(r, k) == (if IsNil(Get(p, k)) then v else Get(p, k))
    ensures forall k' :: k' != k ==> Get(r, k') == Get(p, k')
  {
    if IsNil(Get(p, k)) then
      SetAll(p, k, v);
      Set(p, k, v)
    else p
  }

  /** `SetGet` for every other key at once. */
  lemma SetAll(p: Props, k: string, v: Value)
    ensures Get(Set(p, k, v), k) == v
    ensures forall k' :: k' != k ==> Get(Set(p, k, v), k') == Get(p, k')
  {
    SetGet(p, k, v, k);
    forall k' | k' != k ensures Get(Set(p, k, v), k') == Get(p, k') {
      SetGet(p, k, v, k');
    }
  }

  /** A key the object lacks reads `undefined`. */
  lemma KeysGet(p: Props, k: string)
    requires k !in Keys(p)
    ensures Get(p, k) == Undefined
  {
    forall i | 0 <= i < |p| ensures p[i].0 != k {
      assert Keys(p)[i] == p[i].0;
    }
  }

  /** A key the object has reads the value of its first entry, which `for..in` visits. */
  lemma {:induction false} GetIn(p: Props, k: string)
    requires k in Keys(p)
    ensures (k, Get(p, k)) in p
  {
    assert Keys(p) == [p[0].0] + Keys(p[1..]);
    if p[0].0 != k {
      GetIn(p[1..], k);
    }
  }
}
