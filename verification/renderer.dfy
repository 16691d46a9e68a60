/**
 * The older renderer (`Renderer.ts`): `render` creates a native node for a
 * tag name, hands every prop to an extension or to the adapter, and inserts
 * the children; `insertChildren` expands nested arrays in place and inserts
 * the leaves one by one.
 *
 * The adapter and the extensions are seen through what is asked of them: the
 * result is the list of calls in order. Node creation takes the new node's
 * identity as a parameter.
 */
module Renderer {
  import opened Wrappers
  import opened Js

  /** A call on the adapter or on an extension. Every insertion passes `before = null`. */
  datatype Action =
    | CreateNode(tag: string, node: nat)
    | ExtensionSet(prefix: string, node: nat, name: string, value: Value)
    | AdapterSet(node: nat, name: string, value: Value)
    | InsertNode(parent: nat, child: Value)

  /** What `render` returns: the component's own result for a component, or the node it built. */
  datatype Rendered = Called(component: nat, props: Props) | Built(node: nat, actions: seq<Action>)

  // ---------------------------------------------------------------------
  // Children

  /** The leaves of nested arrays, depth first: the reference for `insertChildren`. */
  function Leaves(vs: seq<Value>): (r: seq<Value>)
    ensures forall i :: 0 <= i < |r| ==> !r[i].Array?
  {
    if vs == [] then []
    else (if vs[0].Array? then Leaves(vs[0].items) else [vs[0]]) + Leaves(vs[1..])
  }

  /** Number of values in nested arrays, arrays included: what the expansion loop uses up. */
  function Size(v: Value): nat {
    if v.Array? then 1 + SizeAll(v.items) else 1
  }

  function SizeAll(vs: seq<Value>): nat {
    if vs == [] then 0 else Size(vs[0]) + SizeAll(vs[1..])
  }

  lemma {:induction false} LeavesAppend(a: seq<Value>, b: seq<Value>)
    ensures Leaves(a + b) == Leaves(a) + Leaves(b)
    ensures SizeAll(a + b) == SizeAll(a) + SizeAll(b)
  {
    if a == [] {
      assert a + b == b;
    } else {
      assert (a + b)[0] == a[0] && (a + b)[1..] == a[1..] + b;
      LeavesAppend(a[1..], b);
    }
  }

  /** Replacing an array at the front by its elements keeps the leaves and uses up one. */
  lemma SpliceFront(x: Value, rest: seq<Value>)
    requires x.Array?
    ensures Leaves(x.items + rest) == Leaves([x] + rest)
    ensures SizeAll(x.items + rest) < SizeAll([x] + rest)
  {
    LeavesAppend(x.items, rest);
    assert ([x] + rest)[0] == x && ([x] + rest)[1..] == rest;
  }

  /** A string's characters as one-character strings: what indexing the string `slice` copies reads. */
  function Chars(s: string): (r: seq<Value>)
    ensures |r| == |s| && forall i :: 0 <= i < |s| ==> r[i] == Str([s[i]])
  {
    seq(|s|, i requires 0 <= i < |s| => Str([s[i]]))
  }

  /** Values none of which is an array are their own leaves. */
  lemma {:induction false} LeavesFlat(vs: seq<Value>)
    requires forall i :: 0 <= i < |vs| ==> !vs[i].Array?
    ensures Leaves(vs) == vs
  {
    if vs != [] {
      LeavesFlat(vs[1..]);
    }
  }

  /** Inserts each leaf as a child of `root`, in order. */
  function InsertAll(root: nat, leaves: seq<Value>): (r: seq<Action>)
    ensures |r| == |leaves| && forall i :: 0 <= i < |r| ==> r[i] == InsertNode(root, leaves[i])
  {
    if leaves == [] then [] else [InsertNode(root, leaves[0])] + InsertAll(root, leaves[1..])
  }

  /**
   * `insertChildren`: works on a copy of `children`; an array at the cursor
   * is replaced by its elements, anything else is inserted and the cursor
   * moves on. The leaves are inserted depth first, each once.
   */
  method InsertChildren(root: nat, children: seq<Value>) returns (acts: seq<Action>)
    ensures acts == InsertAll(root, Leaves(children))
  {
    var list := children;
    var count := |list|;
    var i := 0;
    var done: seq<Value> := [];
    while i < count
      invariant count == |list| && 0 <= i <= count
      invariant done + Leaves(list[i..]) == Leaves(children)
      decreases SizeAll(list[i..])
    {
      var child := list[i];
      if child.Array? {
        ghost var rest := list[i + 1..];
        assert list[i..] == [child] + rest;
        SpliceFront(child, rest);
        list := list[..i] + child.items + list[i + 1..];
        count := count + |child.items| - 1;
        assert list[i..] == child.items + rest;
        continue;
      }
      assert list[i..] == [child] + list[i + 1..];
      done := done + [child];
      i := i + 1;
    }
    acts := InsertAll(root, done);
  }

  // ---------------------------------------------------------------------
  // Prop names

  /**
   * `RE_EXT = /^([^:]+):([^:]+)$/`: a name with exactly one colon, neither
   * first nor last, splits into the extension prefix and the prop name.
   */
  function SplitExt(name: string): (r: Option<(string, string)>)
    ensures r.Some? ==> && r.value.0 + ":" + r.value.1 == name
                        && r.value.0 != [] && r.value.1 != []
                        && ':' !in r.value.0 && ':' !in r.value.1
  {
    match IndexOf(name, ':')
    case None => None
    case Some(i) =>
      var prefix, rest := name[..i], name[i + 1..];
      if prefix == [] || rest == [] || ':' in rest then None
      else
        assert name == prefix + [':'] + rest;
        Some((prefix, rest))
  }

  /** `SplitExt` takes exactly the names of that shape, and splits each one way. */
  lemma SplitExtExact(prefix: string, rest: string)
    requires prefix != [] && rest != [] && ':' !in prefix && ':' !in rest
    ensures SplitExt(prefix + ":" + rest) == Some((prefix, rest))
  {
    var name := prefix + ":" + rest;
    assert name[|prefix|] == ':' && name[..|prefix|] == prefix && name[|prefix| + 1..] == rest;
    assert IndexOf(name, ':') == Some(|prefix|);
  }

  /** The calls one prop makes: to its extension if there is one, to the adapter unless it is `children`. */
  function PropAction(node: nat, extensions: set<string>, name: string, value: Value): (r: seq<Action>)
    ensures |r| <= 1
  {
    match SplitExt(name)
    case Some((prefix, ext)) => if prefix in extensions then [ExtensionSet(prefix, node, ext, value)] else []
    case None => if name != "children" then [AdapterSet(node, name, value)] else []
  }

  /** The `for..in` loop of `render`, in the props' order. */
  function PropActions(node: nat, extensions: set<string>, props: Props): (r: seq<Action>)
    ensures |r| <= |props|
    ensures forall a :: a in r ==> (a.AdapterSet? || a.ExtensionSet?) && a.node == node
  {
    if props == [] then []
    else PropAction(node, extensions, props[0].0, props[0].1) + PropActions(node, extensions, props[1..])
  }

  /**
   * Which calls the props make: the adapter sets exactly the props whose name
   * does not split and is not `children`; an extension that exists gets
   * exactly the props whose name splits with its prefix.
   */
  lemma {:induction false} PropActionsExact(node: nat, extensions: set<string>, props: Props, a: Action)
    ensures a.AdapterSet? ==>
      (a in PropActions(node, extensions, props) <==>
         a.node == node && (a.name, a.value) in props && SplitExt(a.name).None? && a.name != "children")
    ensures a.ExtensionSet? ==>
      (a in PropActions(node, extensions, props) <==>
         a.node == node && a.prefix in extensions && (a.prefix + ":" + a.name, a.value) in props &&
         a.prefix != [] && a.name != [] && ':' !in a.prefix && ':' !in a.name)
    ensures !a.AdapterSet? && !a.ExtensionSet? ==> a !in PropActions(node, extensions, props)
  {
    if props != [] {
      PropActionsExact(node, extensions, props[1..], a);
      assert props == [props[0]] + props[1..];
      if a.ExtensionSet? && a.prefix != [] && a.name != [] && ':' !in a.prefix && ':' !in a.name {
        SplitExtExact(a.prefix, a.name);
      }
    }
  }

  /**
   * `render`: a component is called with the props; a tag name gets a new
   * node, the prop calls in order, then its children inserted.
   * `children.slice()` copies an array, and copies a string, whose
   * characters the loop then inserts one by one; any other value has no
   * `slice` and the call throws.
   */
  method Render(target: Target, props: Props, extensions: set<string>, node: nat) returns (r: Result<Rendered>)
    ensures target.Component? ==> r == Ok(Called(target.id, props))
    ensures target.Tag? ==> (r.Ok? <==> Get(props, "children").Array? || Get(props, "children").Str?)
    ensures target.Tag? && Get(props, "children").Array? ==>
      r == Ok(Built(node, [CreateNode(target.name, node)] + PropActions(node, extensions, props)
                          + InsertAll(node, Leaves(Get(props, "children").items))))
    ensures target.Tag? && Get(props, "children").Str? ==>
      r == Ok(Built(node, [CreateNode(target.name, node)] + PropActions(node, extensions, props)
                          + InsertAll(node, Chars(Get(props, "children").s))))
  {
    if target.Component? {
      return Ok(Called(target.id, props));
    }
    var acts := [CreateNode(target.name, node)] + PropActions(node, extensions, props);
    var children := Get(props, "children");
    var list: seq<Value>;
    if children.Array? {
      list := children.items;
    } else if children.Str? {
      list := Chars(children.s);
      LeavesFlat(list);
    } else {
      return Err("children.slice is not a function");
    }
    var inserts := InsertChildren(node, list);
    r := Ok(Built(node, acts + inserts));
  }
}
