/**
 * The older JSX runtime (`jsx-runtime.ts`): `jsx` wraps whatever it is given
 * as children in a one-element array (an array too, which the renderer
 * flattens later), puts back `key`, and renders at once; `jsxs` only puts
 * back `key`.
 */
module JsxRuntime {
  import opened Wrappers
  import opened Js
  import opened Renderer
  import JsxFactory

  /** `undefined` becomes the shared empty array; anything else, arrays included, is wrapped. */
  function Children(c: Value, newId: nat): (r: Value)
    ensures r.Array?
    ensures c == Undefined <==> r == EmptyArray
    ensures c != Undefined ==> r.items == [c]
  {
    if c == Undefined then EmptyArray else Array(newId, [c])
  }

  /** The props `jsx` hands to `render`. */
  function Prepare(props: Props, key: Value, newId: nat): (r: Props)
    ensures Get(r, "children") == Children(Get(props, "children"), newId)
    ensures Get(r, "key") == (if IsNil(Get(props, "key")) then key else Get(props, "key"))
    ensures forall k :: k != "children" && k != "key" ==> Get(r, k) == Get(props, k)
  {
    var c := Children(Get(props, "children"), newId);
    SetAll(props, "children", c);
    Default(Set(props, "children", c), "key", key)
  }

  /**
   * The extra wrapping changes nothing that is inserted: the leaves are those
   * of the factory's normalisation, though that one leaves arrays unwrapped.
   */
  lemma SameLeaves(c: Value, newId: nat)
    ensures Leaves(Children(c, newId).items) == Leaves(JsxFactory.Children(c, newId).items)
  {
    if c != Undefined {
      assert Leaves([c]) == (if c.Array? then Leaves(c.items) else [c]) + Leaves([]);
    }
  }

  /**
   * `jsx`: a component is called with the prepared props; a tag name always
   * renders, since its children are now an array, and inserts exactly the
   * leaves the factory's normalisation would.
   */
  method Jsx(target: Target, props: Props, key: Value, newId: nat, extensions: set<string>, node: nat)
    returns (r: Result<Rendered>)
    ensures target.Component? ==> r == Ok(Called(target.id, Prepare(props, key, newId)))
    ensures target.Tag? ==> r.Ok? && r.value.Built? && r.value.node == node
    ensures target.Tag? ==>
      r.value.actions == [CreateNode(target.name, node)] + PropActions(node, extensions, Prepare(props, key, newId))
                         + InsertAll(node, Leaves(JsxFactory.Children(Get(props, "children"), newId).items))
  {
    SameLeaves(Get(props, "children"), newId);
    r := Render(target, Prepare(props, key, newId), extensions, node);
  }

  /**
   * `jsxs`: the children go to `render` as given, so a tag name renders only
   * when they are an array, whose leaves are inserted, or a string, whose
   * characters are.
   */
  method Jsxs(target: Target, props: Props, key: Value, extensions: set<string>, node: nat)
    returns (r: Result<Rendered>)
    ensures target.Component? ==> r == Ok(Called(target.id, Default(props, "key", key)))
    ensures target.Tag? ==> (r.Ok? <==> Get(props, "children").Array? || Get(props, "children").Str?)
    ensures target.Tag? && Get(props, "children").Array? ==>
      r == Ok(Built(node, [CreateNode(target.name, node)] + PropActions(node, extensions, Default(props, "key", key))
                          + InsertAll(node, Leaves(Get(props, "children").items))))
    ensures target.Tag? && Get(props, "children").Str? ==>
      r == Ok(Built(node, [CreateNode(target.name, node)] + PropActions(node, extensions, Default(props, "key", key))
                          + InsertAll(node, Chars(Get(props, "children").s))))
  {
    r := Render(target, Default(props, "key", key), extensions, node);
  }

  /**
   * `props.key ??= key` always leaves an own `key` prop, so the adapter is
   * asked to set `key` on every node, to `undefined` when no key was given.
   */
  lemma KeyReachesAdapter(props: Props, key: Value, newId: nat, extensions: set<string>, node: nat)
    ensures AdapterSet(node, "key", Get(Prepare(props, key, newId), "key"))
              in PropActions(node, extensions, Prepare(props, key, newId))
  {
    var p := Prepare(props, key, newId);
    var c := Children(Get(props, "children"), newId);
    var q := Set(props, "children", c);
    if IsNil(Get(q, "key")) {
      SetKeys(q, "key", key);
      assert Keys(p) == Keys(q) || Keys(p) == Keys(q) + ["key"];
      assert "key" in Keys(p) by {
        if "key" !in Keys(q) {
          assert Keys(p)[|Keys(q)|] == "key";
        }
      }
    } else if "key" !in Keys(q) {
      KeysGet(q, "key");
    }
    GetIn(p, "key");
    assert IndexOf("key", ':').None?;
    PropActionsExact(node, extensions, p, AdapterSet(node, "key", Get(p, "key")));
  }
}
