/**
 * The JSX factory (`jsx/factory.ts`): `jsx` and `jsxs` turn the props object
 * the compiler builds into a JSX object by normalising `children` (only
 * `jsx`), putting back `key` unless the props already hold one, and attaching
 * the component that renders it (`Native` and the tag name for a string).
 *
 * The props object is mutated and returned; here the result is the new
 * object, and the one array `jsx` may allocate takes its identity as a
 * parameter.
 */
module JsxFactory {
  import opened Wrappers
  import opened Js

  /** What renders a JSX object: the `Native` component for a tag name, or the given component. */
  datatype Handler = NativeHandler | ComponentHandler(id: nat)

  /** A JSX object: its string-keyed props and the two symbol-keyed fields. */
  datatype JsxObject = JsxObject(props: Props, component: Handler, tagName: Option<string>)

  /**
   * The children normalisation of `jsx`: `undefined` becomes the shared
   * empty array, an array is kept, and any other value (`null` included)
   * is wrapped in a new one-element array.
   */
  function Children(c: Value, newId: nat): (r: Value)
    ensures r.Array?
    ensures c == Undefined ==> r == EmptyArray
    ensures c.Array? ==> r == c
    ensures c != Undefined && !c.Array? ==> r == Array(newId, [c])
  {
    if c == Undefined then EmptyArray else if c.Array? then c else Array(newId, [c])
  }

  /**
   * The normalisation agrees with `wrap` except on `null`, which `wrap`
   * turns into the empty array and `jsx` into a one-element array.
   */
  lemma ChildrenVsWrap(c: Value, newId: nat)
    ensures c != Null ==> Children(c, newId) == Wrap(c, newId)
    ensures c == Null ==> Wrap(c, newId).items == [] && Children(c, newId).items == [Null]
  {
  }

  /** Attaches the component info shared by both variants. */
  function Attach(target: Target, props: Props): (r: JsxObject)
    ensures r.props == props
    ensures target.Tag? <==> r.component == NativeHandler
    ensures target.Tag? ==> r.tagName == Some(target.name)
    ensures target.Component? ==> r.component == ComponentHandler(target.id) && r.tagName.None?
  {
    match target
    case Tag(name) => JsxObject(props, NativeHandler, Some(name))
    case Component(id) => JsxObject(props, ComponentHandler(id), None)
  }

  /**
   * `jsx`: `children` is always an array afterwards, `key` is the props' own
   * key unless that is `null` or `undefined`, and every other prop is read
   * back unchanged.
   */
  function Jsx(target: Target, props: Props, key: Value, newId: nat): (r: JsxObject)
    ensures Get(r.props, "children") == Children(Get(props, "children"), newId)
    ensures Get(r.props, "key") == (if IsNil(Get(props, "key")) then key else Get(props, "key"))
    ensures forall k :: k != "children" && k != "key" ==> Get(r.props, k) == Get(props, k)
    ensures r.component == (if target.Tag? then NativeHandler else ComponentHandler(target.id))
  {
    var c := Get(props, "children");
    SetAll(props, "children", Children(c, newId));
    var p := Set(props, "children", Children(c, newId));
    Attach(target, Default(p, "key", key))
  }

  /** `jsxs`: the same without touching `children`, which the compiler already passes as an array. */
  function Jsxs(target: Target, props: Props, key: Value): (r: JsxObject)
    ensures Get(r.props, "key") == (if IsNil(Get(props, "key")) then key else Get(props, "key"))
    ensures forall k :: k != "key" ==> Get(r.props, k) == Get(props, k)
    ensures r.component == (if target.Tag? then NativeHandler else ComponentHandler(target.id))
  {
    Attach(target, Default(props, "key", key))
  }

  /** Assigning a key the value it already reads leaves the object as it was. */
  lemma {:induction false} SetSame(p: Props, k: string)
    requires k in Keys(p)
    ensures Set(p, k, Get(p, k)) == p
  {
    assert Keys(p) == [p[0].0] + Keys(p[1..]);
    if p[0].0 != k {
      SetSame(p[1..], k);
    }
  }

  /** When the children already are an array, `jsx` and `jsxs` build the same object. */
  lemma JsxAgrees(target: Target, props: Props, key: Value, newId: nat)
    requires Get(props, "children").Array?
    ensures Jsx(target, props, key, newId) == Jsxs(target, props, key)
  {
    if "children" !in Keys(props) {
      KeysGet(props, "children");
      assert false;
    }
    SetSame(props, "children");
  }

  /**
   * The keys of the object `jsx` builds: the props' own keys in their order,
   * then `children` and `key` at the end when they were missing.
   */
  lemma JsxKeys(target: Target, props: Props, key: Value, newId: nat)
    ensures "children" in Keys(props) && "key" in Keys(props) ==> Keys(Jsx(target, props, key, newId).props) == Keys(props)
    ensures "children" !in Keys(props) && "key" !in Keys(props) ==>
      Keys(Jsx(target, props, key, newId).props) == Keys(props) + ["children", "key"]
  {
    var c := Get(props, "children");
    var p := Set(props, "children", Children(c, newId));
    SetKeys(props, "children", Children(c, newId));
    if "key" in Keys(props) {
      if "children" in Keys(props) {
        assert "key" in Keys(p);
        if IsNil(Get(p, "key")) {
          SetKeys(p, "key", key);
        }
      }
    } else if "children" !in Keys(props) {
      assert "key" !in Keys(p);
      KeysGet(p, "key");
      SetKeys(p, "key", key);
    }
  }
}
