/**
 * The `Native` component (`component/Native.ts`): creates a host node for a
 * JSX object's tag, applies every prop in order, then inserts the children.
 * A prop whose name has a colon goes to the extension named by what comes
 * before the first colon; `children` is skipped; an atom-valued prop is bound
 * so that it is set again on every change; anything else is set once.
 */
module Native {
  import opened Wrappers
  import opened Js
  import Renderer

  /** A call on the adapter, an extension, the dependency layer or the inserter, in order. */
  datatype Action =
    | CreateNative(tag: string, node: nat)
    | ExtensionSet(prefix: string, node: nat, name: string, value: Value)
    | Bind(node: nat, name: string, atom: nat)
    | SetProp(node: nat, name: string, value: Value)
    | Insert(node: nat, children: Value, before: Option<nat>)

  /**
   * `RE_EXT = /^([^:]+?):(.+)$/`: the name splits at its first colon when
   * that colon is not first and what follows it is neither empty nor holds a
   * line terminator (which `.` does not match). The rest may hold colons.
   */
  function SplitExt(name: string): (r: Option<(string, string)>)
    ensures r.Some? ==> && r.value.0 + ":" + r.value.1 == name
                        && r.value.0 != [] && r.value.1 != [] && ':' !in r.value.0
                        && forall k :: 0 <= k < |r.value.1| ==> !IsLineTerminator(r.value.1[k])
  {
    match IndexOf(name, ':')
    case None => None
    case Some(i) =>
      var prefix, rest := name[..i], name[i + 1..];
      if prefix == [] || rest == [] || exists k :: 0 <= k < |rest| && IsLineTerminator(rest[k]) then None
      else
        assert name == prefix + [':'] + rest;
        Some((prefix, rest))
  }

  /** Every name of that shape splits, and at its first colon. */
  lemma SplitExtExact(prefix: string, rest: string)
    requires prefix != [] && rest != [] && ':' !in prefix
    requires forall k :: 0 <= k < |rest| ==> !IsLineTerminator(rest[k])
    ensures SplitExt(prefix + ":" + rest) == Some((prefix, rest))
  {
    var name := prefix + ":" + rest;
    assert name[|prefix|] == ':' && name[..|prefix|] == prefix && name[|prefix| + 1..] == rest;
    assert IndexOf(name, ':') == Some(|prefix|);
  }

  /**
   * The two components' patterns agree on every name the renderer's pattern
   * splits and that holds no line terminator; the component's pattern also
   * splits names with more colons, where the renderer's does not.
   */
  lemma SplitAgrees(name: string)
    requires Renderer.SplitExt(name).Some?
    requires forall k :: 0 <= k < |name| ==> !IsLineTerminator(name[k])
    ensures SplitExt(name) == Renderer.SplitExt(name)
  {
    var (prefix, rest) := Renderer.SplitExt(name).value;
    assert name == prefix + ":" + rest;
    forall k | 0 <= k < |rest| ensures !IsLineTerminator(rest[k]) {
      assert rest[k] == name[|prefix| + 1 + k];
    }
    SplitExtExact(prefix, rest);
  }

  /** `"a:b:c"` goes to extension `a` as prop `b:c` here, and to the adapter in the older renderer. */
  lemma MoreColons()
    ensures SplitExt("a:b:c") == Some(("a", "b:c"))
    ensures Renderer.SplitExt("a:b:c").None?
  {
    assert "a" + ":" + "b:c" == "a:b:c";
    SplitExtExact("a", "b:c");
    assert IndexOf("a:b:c", ':') == Some(1);
    assert "a:b:c"[2..] == "b:c";
  }

  /** The calls one prop makes. */
  function PropAction(node: nat, extensions: set<string>, name: string, value: Value): (r: seq<Action>)
    ensures |r| <= 1
  {
    match SplitExt(name)
    case Some((prefix, ext)) => if prefix in extensions then [ExtensionSet(prefix, node, ext, value)] else []
    case None =>
      if name == "children" then []
      else if value.Atom? then [Bind(node, name, value.id)]
      else [SetProp(node, name, value)]
  }

  /** The `for..in` loop over the JSX object's string keys, in order. */
  function PropActions(node: nat, extensions: set<string>, props: Props): (r: seq<Action>)
    ensures forall a :: a in r ==> !a.Insert? && !a.CreateNative?
    ensures |r| <= |props|
  {
    if props == [] then []
    else PropAction(node, extensions, props[0].0, props[0].1) + PropActions(node, extensions, props[1..])
  }

  /**
   * Which calls the props make: an atom-valued plain prop is bound and never
   * set, any other plain prop is set with its value, `children` is neither,
   * and an existing extension gets exactly the props split with its prefix.
   */
  lemma {:induction false} PropActionsExact(node: nat, extensions: set<string>, props: Props, a: Action)
    ensures a.Bind? ==>
      (a in PropActions(node, extensions, props) <==>
         a.node == node && (a.name, Atom(a.atom)) in props && SplitExt(a.name).None? && a.name != "children")
    ensures a.SetProp? ==>
      (a in PropActions(node, extensions, props) <==>
         a.node == node && (a.name, a.value) in props && !a.value.Atom? && SplitExt(a.name).None? && a.name != "children")
    ensures a.ExtensionSet? ==>
      (a in PropActions(node, extensions, props) <==>
         a.node == node && a.prefix in extensions && (a.prefix + ":" + a.name, a.value) in props &&
         SplitExt(a.prefix + ":" + a.name) == Some((a.prefix, a.name)))
  {
    if props != [] {
      PropActionsExact(node, extensions, props[1..], a);
      assert props == [props[0]] + props[1..];
    }
  }

  /**
   * `Native`: the node is created, the props are applied in order, and only
   * then are the children inserted, under the new node and before `before`.
   */
  function Render(tag: string, props: Props, extensions: set<string>, node: nat, before: Option<nat>): (r: seq<Action>)
    ensures r == [CreateNative(tag, node)] + PropActions(node, extensions, props) + [Insert(node, Get(props, "children"), before)]
    ensures |r| >= 2 && r[0] == CreateNative(tag, node)
    ensures r[|r| - 1] == Insert(node, Get(props, "children"), before)
    ensures forall i :: 0 < i < |r| - 1 ==> !r[i].Insert? && !r[i].CreateNative?
    ensures forall i :: 0 <= i < |r| ==> !(r[i].SetProp? && r[i].name == "children")
  {
    var acts := PropActions(node, extensions, props);
    forall i | 0 <= i < |acts| ensures !(acts[i].SetProp? && acts[i].name == "children") {
      PropActionsExact(node, extensions, props, acts[i]);
    }
    [CreateNative(tag, node)] + acts + [Insert(node, Get(props, "children"), before)]
  }
}
