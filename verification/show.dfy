/**
 * The `Show` component: mounts a template into a sub-group while a condition
 * holds. With a static condition and a static template it renders at once
 * without a sub-group; otherwise a reaction mounts and unmounts the
 * sub-group as the condition and the template change, tracked by a flag
 * `isShown`.
 *
 * The reaction's block runs once when the reaction is created, as an effect
 * does, and again on every later change; each run sees the current values of
 * `when` and the template. A template is its id; `None` is a nil template.
 */
module Show {
  import opened Wrappers

  /** A template to mount: a given one, or the shared empty template. */
  datatype Tpl = Given(id: int) | EmptyTemplate

  /** Where the sub-group or the anchor goes: before the anchor, or before the caller's `before`. */
  datatype Where = AtAnchor | AtBefore

  /** What `Show` does to the output tree, in order. */
  datatype Ev = MountSub(t: Tpl, at: Where) | UnmountSub | InsertAnchor(at: Where)

  /** What `Show` returns to its caller. */
  datatype Out = TemplateResult(id: int) | Null | Undefined | AnchorNode

  /** The props of one call: `when` and the template, each with whether it was given as an atom. */
  datatype Input = Input(when: bool, whenIsAtom: bool, template: Option<int>, templateIsAtom: bool)

  /** The whole effect of one call: its result, the final `isShown`, and the events. */
  datatype Shown = Shown(out: Out, shown: bool, trace: seq<Ev>)

  /** `shouldShow`: the condition holds and the template is not nil. */
  predicate Wants(when: bool, template: Option<int>) {
    when && template.Some?
  }

  /** The static fast path: neither prop is an atom. */
  predicate IsStatic(i: Input) {
    !i.whenIsAtom && !i.templateIsAtom
  }

  /** One run of the reaction on flag `shown`: returns the new flag and what it did. */
  function React(shown: bool, when: bool, template: Option<int>): (r: (bool, seq<Ev>))
    ensures r.0 == Wants(when, template)
    ensures r.1 == [] <==> shown == Wants(when, template)
    ensures |r.1| <= 1
  {
    if Wants(when, template) && !shown then (true, [MountSub(Given(template.value), AtAnchor)])
    else if !Wants(when, template) && shown then (false, [UnmountSub])
    else (shown, [])
  }

  /** Later runs of the reaction, one per change of `when` or of the template. */
  function ReactAll(shown: bool, runs: seq<(bool, Option<int>)>): (r: (bool, seq<Ev>))
    decreases |runs|
  {
    if runs == [] then (shown, [])
    else
      var (s1, e1) := React(shown, runs[0].0, runs[0].1);
      var (s2, e2) := ReactAll(s1, runs[1..]);
      (s2, e1 + e2)
  }

  /** Whether the sub-group is mounted after `trace`, starting from `mounted`. */
  function MountedAfter(mounted: bool, trace: seq<Ev>): bool
    decreases |trace|
  {
    if trace == [] then mounted
    else match trace[0]
      case MountSub(_, _) => MountedAfter(true, trace[1..])
      case UnmountSub => MountedAfter(false, trace[1..])
      case InsertAnchor(_) => MountedAfter(mounted, trace[1..])
  }

  /**
   * Mounts and unmounts of the sub-group alternate along `trace`, starting
   * from `mounted`: each mount finds it unmounted and each unmount finds it
   * mounted.
   */
  predicate Alternates(mounted: bool, trace: seq<Ev>)
    decreases |trace|
  {
    if trace == [] then true
    else match trace[0]
      case MountSub(_, _) => !mounted && Alternates(true, trace[1..])
      case UnmountSub => mounted && Alternates(false, trace[1..])
      case InsertAnchor(_) => Alternates(mounted, trace[1..])
  }

  lemma {:induction false} AlternatesAppend(mounted: bool, a: seq<Ev>, b: seq<Ev>)
    ensures Alternates(mounted, a + b) <==> Alternates(mounted, a) && Alternates(MountedAfter(mounted, a), b)
    ensures MountedAfter(mounted, a + b) == MountedAfter(MountedAfter(mounted, a), b)
    decreases |a|
  {
    if a != [] {
      assert (a + b)[0] == a[0] && (a + b)[1..] == a[1..] + b;
      match a[0]
      case MountSub(_, _) => AlternatesAppend(true, a[1..], b);
      case UnmountSub => AlternatesAppend(false, a[1..], b);
      case InsertAnchor(_) => AlternatesAppend(mounted, a[1..], b);
    } else {
      assert a + b == b;
    }
  }

  /**
   * Every run of the reaction keeps the flag equal to the sub-group's
   * mounted state: from a flag that matches, the runs alternate mounts and
   * unmounts, and the flag ends as the last run wanted.
   */
  lemma {:induction false} ReactAllAlternates(shown: bool, runs: seq<(bool, Option<int>)>)
    ensures Alternates(shown, ReactAll(shown, runs).1)
    ensures MountedAfter(shown, ReactAll(shown, runs).1) == ReactAll(shown, runs).0
    ensures runs != [] ==> ReactAll(shown, runs).0 == Wants(runs[|runs| - 1].0, runs[|runs| - 1].1)
    ensures runs == [] ==> ReactAll(shown, runs) == (shown, [])
    decreases |runs|
  {
    if runs != [] {
      var (s1, e1) := React(shown, runs[0].0, runs[0].1);
      ReactAllAlternates(s1, runs[1..]);
      var e2 := ReactAll(s1, runs[1..]).1;
      AlternatesAppend(shown, e1, e2);
      if runs[1..] != [] {
        assert runs[1..][|runs[1..]| - 1] == runs[|runs| - 1];
      }
    }
  }

  /**
   * The dynamic path from a given initial flag: the reaction's first run,
   * then either the anchor is returned, or the content is mounted before
   * `before` and the anchor inserted after it.
   */
  function Dynamic(i: Input, init: bool): (r: Shown)
  {
    var (shown, ev) := React(init, i.when, i.template);
    if !shown then Shown(AnchorNode, false, ev)
    else
      var t := if i.template.Some? then Given(i.template.value) else EmptyTemplate;
      Shown(Undefined, true, ev + [MountSub(t, AtBefore), InsertAnchor(AtBefore)])
  }

  /** `Show(group, jsx, parent, before)` as written: `isShown` starts as `when`. */
  function ShowAsWritten(i: Input): (r: Shown)
  {
    if IsStatic(i) then
      Shown(if !i.when then Null else if i.template.Some? then TemplateResult(i.template.value) else Undefined, false, [])
    else Dynamic(i, i.when)
  }

  /** `Show` with `isShown` starting as `shouldShow`, the state the reaction itself keeps. */
  function ShowFixed(i: Input): (r: Shown)
  {
    if IsStatic(i) then ShowAsWritten(i) else Dynamic(i, Wants(i.when, i.template))
  }

  /**
   * The static fast path: the template's result when `when` holds and the
   * template is given, `undefined` for a nil template, `null` otherwise;
   * nothing is mounted.
   */
  lemma ShowStatic(i: Input)
    requires IsStatic(i)
    ensures ShowAsWritten(i).trace == [] && ShowFixed(i) == ShowAsWritten(i)
    ensures ShowAsWritten(i).out.TemplateResult? <==> i.when && i.template.Some?
    ensures ShowAsWritten(i).out.TemplateResult? ==> ShowAsWritten(i).out.id == i.template.value
    ensures ShowAsWritten(i).out == Null <==> !i.when
  {
  }

  /**
   * On the dynamic path the anchor is returned exactly when nothing is
   * shown; otherwise the template is mounted before `before` and the anchor
   * then inserted before `before`, so it ends up after the content. Either
   * way the flag ends as the reaction wants it.
   */
  lemma DynamicPlacement(i: Input, init: bool)
    ensures var r := Dynamic(i, init);
      && r.shown == Wants(i.when, i.template)
      && (r.out == AnchorNode <==> !r.shown)
      && (r.shown ==>
            (&& r.out == Undefined && |r.trace| >= 2
             && r.trace[|r.trace| - 2..] == [MountSub(Given(i.template.value), AtBefore), InsertAnchor(AtBefore)]))
      && (!r.shown ==> forall k :: 0 <= k < |r.trace| ==> !r.trace[k].InsertAnchor?)
  {
  }

  /**
   * With the corrected flag, everything `Show` and every later reaction run
   * do to the sub-group alternates from "not mounted", and the flag always
   * matches the sub-group's state.
   */
  lemma ShowFixedAlternates(i: Input, runs: seq<(bool, Option<int>)>)
    requires !IsStatic(i)
    ensures var r := ShowFixed(i);
      var later := ReactAll(r.shown, runs);
      && Alternates(false, r.trace + later.1)
      && MountedAfter(false, r.trace + later.1) == later.0
  {
    var r := ShowFixed(i);
    var w := Wants(i.when, i.template);
    assert React(w, i.when, i.template).1 == [];
    if r.shown {
      var t := [MountSub(Given(i.template.value), AtBefore), InsertAnchor(AtBefore)];
      assert r.trace == [] + t;
      assert Alternates(false, t) && MountedAfter(false, t) == true by {
        assert t[1..] == [InsertAnchor(AtBefore)] && t[1..][1..] == [];
        assert Alternates(true, t[1..]) && MountedAfter(true, t[1..]);
      }
    }
    ReactAllAlternates(r.shown, runs);
    AlternatesAppend(false, r.trace, ReactAll(r.shown, runs).1);
  }

  /**
   * As written, the flag starts from `when` alone: with `when` holding and a
   * nil template, the reaction's first run unmounts a sub-group that was
   * never mounted.
   */
  lemma ShowUnmountsUnmounted()
    ensures var i := Input(true, true, None, true);
      && ShowAsWritten(i) == Shown(AnchorNode, false, [UnmountSub])
      && !Alternates(false, ShowAsWritten(i).trace)
      && ShowFixed(i) == Shown(AnchorNode, false, [])
  {
  }

  /** As written, the flag differs from the corrected one only for a nil template under a holding `when`. */
  lemma ShowAsWrittenAgrees(i: Input)
    ensures !(i.when && i.template.None?) ==> ShowAsWritten(i) == ShowFixed(i)
    ensures !IsStatic(i) && i.when && i.template.None? ==> ShowAsWritten(i).trace == [UnmountSub]
  {
  }
}
