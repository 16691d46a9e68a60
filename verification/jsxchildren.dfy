/**
 * JSX children conversion of the template transpiler
 * (`pyxis-transpiler/src/transpiler/convertJsxChildren.ts`): JSX text is
 * trimmed or dropped, elements become template objects with their props,
 * extension props and children, and the `Native` and `Fragment` imports are
 * recorded on the way.
 *
 * The result is the template's structure rather than its text: JSON quoting
 * and indentation are not modelled. Expressions and attribute initializers
 * come already converted, since their converters are not part of this model.
 */
module JsxChildren {
  import opened Wrappers
  import opened TranspilerUtils

  // ---------------------------------------------------------------------
  // Characters

  /** What `\s` matches in an ECMAScript regular expression. */
  predicate IsSpace(c: char) {
    || c == '\t' || c == '\n' || c == '\U{B}' || c == '\U{C}' || c == '\r' || c == ' '
    || c == '\U{A0}' || c == '\U{1680}' || ('\U{2000}' <= c <= '\U{200A}') || c == '\U{2028}' || c == '\U{2029}'
    || c == '\U{202F}' || c == '\U{205F}' || c == '\U{3000}' || c == '\U{FEFF}'
  }

  /** What `.` does not match (no `s` flag). */
  predicate IsLineTerminator(c: char) {
    c == '\n' || c == '\r' || c == '\U{2028}' || c == '\U{2029}'
  }

  predicate AllSpace(s: string) {
    forall i :: 0 <= i < |s| ==> IsSpace(s[i])
  }

  /** `RE_NATIVE = /^[a-z][a-z0-9-]*$/`: a lowercase name, the kind a host element has. */
  predicate IsNative(name: string) {
    && |name| > 0 && 'a' <= name[0] <= 'z'
    && forall i :: 1 <= i < |name| ==> ('a' <= name[i] <= 'z' || '0' <= name[i] <= '9' || name[i] == '-')
  }

  // ---------------------------------------------------------------------
  // Text

  /** The first position that is not white space, if any. */
  function FirstSolid(s: string, from: nat := 0): (r: Option<nat>)
    requires from <= |s|
    ensures r.Some? ==> from <= r.value < |s| && !IsSpace(s[r.value]) && AllSpace(s[from..r.value])
    ensures r.None? ==> AllSpace(s[from..])
    decreases |s| - from
  {
    if from == |s| then None
    else if !IsSpace(s[from]) then Some(from)
    else
      var r := FirstSolid(s, from + 1);
      assert r.Some? ==> s[from..r.value] == [s[from]] + s[from + 1..r.value];
      assert s[from..] == [s[from]] + s[from + 1..];
      r
  }

  /** The last position that is not white space, if any. */
  function LastSolid(s: string): (r: Option<nat>)
    ensures r.Some? ==> r.value < |s| && !IsSpace(s[r.value]) && AllSpace(s[r.value + 1..])
    ensures r.None? ==> AllSpace(s)
  {
    if s == [] then None
    else if !IsSpace(s[|s| - 1]) then Some(|s| - 1)
    else
      var r := LastSolid(s[..|s| - 1]);
      assert r.Some? ==> s[r.value + 1..] == s[..|s| - 1][r.value + 1..] + [s[|s| - 1]];
      r
  }

  /**
   * `convertJsxText` with `RE_TRIM = /^\s*([^\s]|[^\s].*[^\s])\s*$/`: the
   * text from its first to its last non-white-space character, or nothing
   * when it is all white space or a line break lies in between.
   */
  function ConvertText(text: string): (r: Option<string>)
    ensures r.Some? ==> |r.value| > 0 && !IsSpace(r.value[0]) && !IsSpace(r.value[|r.value| - 1])
    ensures r.Some? ==> forall i :: 0 < i < |r.value| - 1 ==> !IsLineTerminator(r.value[i])
    ensures AllSpace(text) ==> r.None?
  {
    match FirstSolid(text)
    case None => None
    case Some(f) =>
      var l := LastSolid(text).value;
      if exists i :: f < i < l && IsLineTerminator(text[i]) then None else Some(text[f..l + 1])
  }

  /** The shape `RE_TRIM` matches: white space, the captured core, white space. */
  predicate TrimShape(text: string, w1: string, core: string, w2: string) {
    && text == w1 + core + w2
    && AllSpace(w1) && AllSpace(w2)
    && |core| > 0 && !IsSpace(core[0]) && !IsSpace(core[|core| - 1])
    && forall i :: 0 < i < |core| - 1 ==> !IsLineTerminator(core[i])
  }

  lemma {:induction false} FirstSolidAt(s: string, from: nat, k: nat)
    requires from <= k < |s| && !IsSpace(s[k])
    requires forall i :: from <= i < k ==> IsSpace(s[i])
    ensures FirstSolid(s, from) == Some(k)
    decreases k - from
  {
    if from < k {
      FirstSolidAt(s, from + 1, k);
    }
  }

  lemma {:induction false} LastSolidAt(s: string, k: nat)
    requires k < |s| && !IsSpace(s[k])
    requires forall i :: k < i < |s| ==> IsSpace(s[i])
    ensures LastSolid(s) == Some(k)
    decreases |s|
  {
    if k < |s| - 1 {
      LastSolidAt(s[..|s| - 1], k);
    }
  }

  lemma SolidOf(text: string, w1: string, core: string, w2: string)
    requires TrimShape(text, w1, core, w2)
    ensures FirstSolid(text) == Some(|w1|)
    ensures LastSolid(text) == Some(|w1| + |core| - 1)
  {
    var l := |w1| + |core| - 1;
    assert text[|w1|] == core[0];
    assert text[l] == core[|core| - 1];
    forall i | 0 <= i < |w1| ensures IsSpace(text[i]) {
      assert text[i] == w1[i];
    }
    FirstSolidAt(text, 0, |w1|);
    forall i | l < i < |text| ensures IsSpace(text[i]) {
      assert text[i] == w2[i - |w1| - |core|];
    }
    LastSolidAt(text, l);
  }

  /** Every text of that shape converts to its core. */
  lemma ConvertTextOfShape(text: string, w1: string, core: string, w2: string)
    requires TrimShape(text, w1, core, w2)
    ensures ConvertText(text) == Some(core)
  {
    SolidOf(text, w1, core, w2);
    var f, l := |w1|, |w1| + |core| - 1;
    forall i | f < i < l ensures !IsLineTerminator(text[i]) {
      assert text[i] == core[i - f];
    }
    assert text[f..l + 1] == core;
  }

  /** Every converted text has that shape. */
  lemma ConvertTextShape(text: string)
    requires ConvertText(text).Some?
    ensures var f := FirstSolid(text).value; var l := LastSolid(text).value;
      TrimShape(text, text[..f], text[f..l + 1], text[l + 1..]) && ConvertText(text).value == text[f..l + 1]
  {
    var f := FirstSolid(text).value;
    var l := LastSolid(text).value;
    assert text == text[..f] + text[f..l + 1] + text[l + 1..];
    assert text[..f] == text[0..f];
  }

  /**
   * Text that wraps onto a second line is dropped whole, not trimmed per
   * line: `a`, a line break, `b` gives nothing.
   */
  lemma MultiLineDropped()
    ensures ConvertText("a\nb").None?
    ensures ConvertText("  ab \n").Some?
  {
    assert FirstSolid("a\nb") == Some(0);
    assert LastSolid("a\nb") == Some(2);
    assert IsLineTerminator("a\nb"[1]);
    ConvertTextOfShape("  ab \n", "  ", "ab", " \n");
  }

  // ---------------------------------------------------------------------
  // Elements

  /** A JSX attribute; initializers come converted. */
  datatype Attr =
    | Spread(line: int, column: int)
    | Named(name: string, value: string)
    | NamespacedAttr(ns: string, name: string, value: string)

  /** A tag name: `ns:name`, an identifier, or another expression (`this`, `a.b`). */
  datatype TagName = NsTag(ns: string, name: string) | Ident(id: string) | OtherTag(text: string)

  /** A JSX child; an expression comes converted (`None` for an empty `{}`). */
  datatype Child =
    | Text(text: string)
    | Expression(converted: Option<string>)
    | Element(tag: TagName, attrs: seq<Attr>, selfClosing: bool, children: seq<Child>)
    | Fragment(children: seq<Child>)
    | OtherKind

  /** The `h` of a template: `Native`, `Fragment`, or the tag name's own text. */
  datatype HandlerRef = NativeRef | FragmentRef | CodeRef(text: string)

  /** A converted child: a string literal, an expression's code, or a template object. */
  datatype Out =
    | TextOut(text: string)
    | CodeOut(code: string)
    | TemplateOut(h: HandlerRef, t: Option<string>, n: Option<string>,
                  props: seq<(string, string)>, exts: seq<(string, string, string)>, c: seq<Out>)

  /** What the conversion carries along: the imports and the warnings reported. */
  datatype Ctx = Ctx(imports: Imports, warnings: seq<Warning>)

  datatype Attrs = Attrs(props: seq<(string, string)>, exts: seq<(string, string, string)>, warnings: seq<Warning>)

  const SpreadMessage: string := "spread attributes are not supported"

  /**
   * The attribute loop: a spread is reported and skipped, a plain attribute
   * is a prop and a namespaced one an extension prop, each list in order.
   */
  function ConvertAttrs(attrs: seq<Attr>): (r: Attrs)
    ensures |r.props| + |r.exts| + |r.warnings| == |attrs|
    ensures forall w :: w in r.warnings ==> w.code == UnsupportedSyntax && w.message == SpreadMessage
  {
    if attrs == [] then Attrs([], [], [])
    else
      var rest := ConvertAttrs(attrs[1..]);
      match attrs[0]
      case Spread(line, col) => rest.(warnings := [Warning(UnsupportedSyntax, SpreadMessage, line, col)] + rest.warnings)
      case Named(name, value) => rest.(props := [(name, value)] + rest.props)
      case NamespacedAttr(ns, name, value) => rest.(exts := [(ns, name, value)] + rest.exts)
  }

  /** The attribute loop splits over concatenation: each list keeps the attributes' order. */
  lemma {:induction false} ConvertAttrsAppend(a: seq<Attr>, b: seq<Attr>)
    ensures ConvertAttrs(a + b).props == ConvertAttrs(a).props + ConvertAttrs(b).props
    ensures ConvertAttrs(a + b).exts == ConvertAttrs(a).exts + ConvertAttrs(b).exts
    ensures ConvertAttrs(a + b).warnings == ConvertAttrs(a).warnings + ConvertAttrs(b).warnings
  {
    if a == [] {
      assert a + b == b;
    } else {
      assert (a + b)[0] == a[0] && (a + b)[1..] == a[1..] + b;
      ConvertAttrsAppend(a[1..], b);
    }
  }

  /** A plain attribute is a prop exactly when it is in the list. */
  lemma {:induction false} ConvertAttrsProps(attrs: seq<Attr>, name: string, value: string)
    ensures (name, value) in ConvertAttrs(attrs).props <==> Named(name, value) in attrs
  {
    if attrs != [] {
      ConvertAttrsProps(attrs[1..], name, value);
      assert attrs == [attrs[0]] + attrs[1..];
    }
  }

  /** The template's `h`, `t` and `n` for a tag name, and whether it needs `Native`. */
  function TagFields(tag: TagName): (r: (HandlerRef, Option<string>, Option<string>))
    ensures r.0 == NativeRef <==> tag.NsTag? || (tag.Ident? && IsNative(tag.id))
    ensures tag.NsTag? ==> r.1 == Some(tag.name) && r.2 == Some(tag.ns)
    ensures tag.Ident? && IsNative(tag.id) ==> r.1 == Some(tag.id) && r.2.None?
    ensures r.0 != NativeRef ==> r.0 == CodeRef(TagText(tag)) && r.1.None? && r.2.None?
  {
    match tag
    case NsTag(ns, name) => (NativeRef, Some(name), Some(ns))
    case Ident(id) => if IsNative(id) then (NativeRef, Some(id), None) else (CodeRef(id), None, None)
    case OtherTag(text) => (CodeRef(text), None, None)
  }

  /** `tagName.getText()`. */
  function TagText(tag: TagName): string {
    match tag
    case NsTag(ns, name) => ns + ":" + name
    case Ident(id) => id
    case OtherTag(text) => text
  }

  /**
   * `convertJsxChild`: text is trimmed or dropped, an expression gives its
   * code, an element or fragment its template, any other kind nothing.
   */
  function ConvertChild(ctx: Ctx, child: Child): (r: (Ctx, Option<Out>))
    decreases child, 1
    ensures child.Text? ==> r.0 == ctx && (r.1.Some? <==> ConvertText(child.text).Some?)
    ensures child.Text? && r.1.Some? ==> r.1.value == TextOut(ConvertText(child.text).value)
    ensures child.Expression? ==> r.0 == ctx && (r.1.Some? <==> child.converted.Some?)
    ensures child.Element? || child.Fragment? ==> r.1.Some? && r.1.value.TemplateOut?
    ensures child.OtherKind? ==> r == (ctx, None)
  {
    match child
    case Text(text) => (ctx, if ConvertText(text).Some? then Some(TextOut(ConvertText(text).value)) else None)
    case Expression(converted) => (ctx, if converted.Some? then Some(CodeOut(converted.value)) else None)
    case Element(tag, attrs, selfClosing, children) =>
      var a := ConvertAttrs(attrs);
      var ctx1 := ctx.(warnings := ctx.warnings + a.warnings);
      var (ctx2, c) := if selfClosing then (ctx1, []) else ConvertChildren(ctx1, children);
      var (h, t, n) := TagFields(tag);
      var ctx3 := if h == NativeRef then ctx2.(imports := AddImport(ctx2.imports, "Native")) else ctx2;
      (ctx3, Some(TemplateOut(h, t, n, a.props, a.exts, c)))
    case Fragment(children) =>
      var ctx1 := ctx.(imports := AddImport(ctx.imports, "Fragment"));
      var (ctx2, c) := ConvertChildren(ctx1, children);
      (ctx2, Some(TemplateOut(FragmentRef, None, None, [], [], c)))
    case OtherKind => (ctx, None)
  }

  /** `convertJsxChildren`: each child in order, the ones that give nothing left out. */
  function ConvertChildren(ctx: Ctx, children: seq<Child>): (r: (Ctx, seq<Out>))
    ensures |r.1| <= |children|
    decreases children, 0
  {
    if children == [] then (ctx, [])
    else
      var (ctx1, o) := ConvertChild(ctx, children[0]);
      var (ctx2, os) := ConvertChildren(ctx1, children[1..]);
      (ctx2, (if o.Some? then [o.value] else []) + os)
  }

  /** Imports only grow, and a value import stays one. */
  predicate Grows(a: Imports, b: Imports) {
    forall k :: k in a ==> k in b && (!a[k] ==> !b[k])
  }

  /** Warnings are only ever appended. */
  predicate Extends(a: Ctx, b: Ctx) {
    Grows(a.imports, b.imports) && |a.warnings| <= |b.warnings| && b.warnings[..|a.warnings|] == a.warnings
  }

  lemma {:induction false} ChildExtends(ctx: Ctx, child: Child)
    ensures Extends(ctx, ConvertChild(ctx, child).0)
    decreases child, 1
  {
    match child
    case Element(tag, attrs, selfClosing, children) =>
      var a := ConvertAttrs(attrs);
      var ctx1 := ctx.(warnings := ctx.warnings + a.warnings);
      assert Extends(ctx, ctx1) by {
        assert ctx1.warnings[..|ctx.warnings|] == ctx.warnings;
      }
      if !selfClosing {
        ChildrenExtends(ctx1, children);
      }
    case Fragment(children) =>
      ChildrenExtends(ctx.(imports := AddImport(ctx.imports, "Fragment")), children);
    case _ =>
  }

  lemma {:induction false} ChildrenExtends(ctx: Ctx, children: seq<Child>)
    ensures Extends(ctx, ConvertChildren(ctx, children).0)
    decreases children, 0
  {
    if children != [] {
      ChildExtends(ctx, children[0]);
      var ctx1 := ConvertChild(ctx, children[0]).0;
      ChildrenExtends(ctx1, children[1..]);
    }
  }

  /** The tree holds an element the `Native` component renders. */
  predicate HasNative(child: Child)
    decreases child, 1
  {
    match child
    case Element(tag, _, selfClosing, children) =>
      TagFields(tag).0 == NativeRef || (!selfClosing && AnyNative(children))
    case Fragment(children) => AnyNative(children)
    case _ => false
  }

  predicate AnyNative(children: seq<Child>)
    decreases children, 0
  {
    children != [] && (HasNative(children[0]) || AnyNative(children[1..]))
  }

  /**
   * `Native` is imported, as a value, whenever some element converted is a
   * host element; a conversion without one adds no `Native` import.
   */
  lemma {:induction false} NativeImported(ctx: Ctx, child: Child)
    ensures HasNative(child) ==> "Native" in ConvertChild(ctx, child).0.imports && !ConvertChild(ctx, child).0.imports["Native"]
    ensures !HasNative(child) && "Native" !in ctx.imports ==> "Native" !in ConvertChild(ctx, child).0.imports
    decreases child, 1
  {
    ChildExtends(ctx, child);
    match child
    case Element(tag, attrs, selfClosing, children) =>
      var a := ConvertAttrs(attrs);
      var ctx1 := ctx.(warnings := ctx.warnings + a.warnings);
      if !selfClosing {
        NativeImportedAll(ctx1, children);
        ChildrenExtends(ctx1, children);
      }
    case Fragment(children) =>
      NativeImportedAll(ctx.(imports := AddImport(ctx.imports, "Fragment")), children);
    case _ =>
  }

  lemma {:induction false} NativeImportedAll(ctx: Ctx, children: seq<Child>)
    ensures AnyNative(children) ==> "Native" in ConvertChildren(ctx, children).0.imports && !ConvertChildren(ctx, children).0.imports["Native"]
    ensures !AnyNative(children) && "Native" !in ctx.imports ==> "Native" !in ConvertChildren(ctx, children).0.imports
    decreases children, 0
  {
    if children != [] {
      NativeImported(ctx, children[0]);
      var ctx1 := ConvertChild(ctx, children[0]).0;
      NativeImportedAll(ctx1, children[1..]);
      ChildrenExtends(ctx1, children[1..]);
    }
  }

  /** Text children convert to their trimmed texts, in order, the blank ones dropped. */
  lemma {:induction false} TextChildren(ctx: Ctx, texts: seq<string>)
    ensures ConvertChildren(ctx, TextsOf(texts)) == (ctx, TrimmedOf(texts))
  {
    if texts != [] {
      TextChildren(ctx, texts[1..]);
      assert TextsOf(texts)[1..] == TextsOf(texts[1..]);
    }
  }

  function TextsOf(texts: seq<string>): (r: seq<Child>)
    ensures |r| == |texts| && forall i :: 0 <= i < |texts| ==> r[i] == Text(texts[i])
  {
    if texts == [] then [] else [Text(texts[0])] + TextsOf(texts[1..])
  }

  /** The reference: the trimmed text of each non-blank, single-line text. */
  function TrimmedOf(texts: seq<string>): seq<Out> {
    if texts == [] then []
    else (if ConvertText(texts[0]).Some? then [TextOut(ConvertText(texts[0]).value)] else []) + TrimmedOf(texts[1..])
  }
}
