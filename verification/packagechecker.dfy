/**
 * `getPackageChecker` of the bundler plugin (`rollup-plugin-pyxis/src/utils.ts`):
 * decides whether an import source or a resolved module path belongs to the
 * named package.
 */
module PackageChecker {
  import opened Wrappers

  /** `name.replace(/\//g, "_")`: the package name as it appears in a flattened directory name. */
  function Dir(name: string): (r: string)
    ensures |r| == |name|
    ensures forall i :: 0 <= i < |name| ==> r[i] == (if name[i] == '/' then '_' else name[i])
  {
    if name == [] then [] else [if name[0] == '/' then '_' else name[0]] + Dir(name[1..])
  }

  /** `pat` occurs in `s` starting at `k`. */
  predicate OccursAt(s: string, pat: string, k: int) {
    0 <= k && k + |pat| <= |s| && s[k..k + |pat|] == pat
  }

  /** `indexOf`: the first position where `pat` occurs, if any. */
  function Find(s: string, pat: string, from: nat := 0): (r: Option<nat>)
    requires from <= |s|
    ensures r.Some? ==> from <= r.value && OccursAt(s, pat, r.value)
    ensures r.Some? ==> forall k :: from <= k < r.value ==> !OccursAt(s, pat, k)
    ensures r.None? <==> forall k :: from <= k ==> !OccursAt(s, pat, k)
    decreases |s| - from
  {
    if from + |pat| > |s| then None
    else if s[from..from + |pat|] == pat then
      assert OccursAt(s, pat, from);
      Some(from)
    else if from == |s| then None
    else Find(s, pat, from + 1)
  }

  /** The characters `/[\/._]/` accepts right after the directory name. */
  predicate IsSep(c: char) {
    c == '/' || c == '.' || c == '_'
  }

  function StartsWith(s: string, prefix: string): bool {
    |prefix| <= |s| && s[..|prefix|] == prefix
  }

  /**
   * The checker: the name itself, a sub-import of it, or a path whose first
   * `/<dir>` is followed by a separator. Past the end `source[i]` is
   * `undefined`, which the pattern tests as the text "undefined" and rejects.
   */
  function Check(name: string, source: string): (r: bool)
    ensures source == name || StartsWith(source, name + "/") ==> r
    ensures r && source != name && !StartsWith(source, name + "/") ==> Find(source, "/" + Dir(name)).Some?
  {
    var dir := Dir(name);
    source == name || StartsWith(source, name + "/") ||
    match Find(source, "/" + dir)
    case None => false
    case Some(i) => i + |dir| + 1 < |source| && IsSep(source[i + |dir| + 1])
  }

  /** `/<dir>` occurs at `k` and is followed by a separator. */
  predicate SepAfter(name: string, source: string, k: int) {
    var dir := Dir(name);
    OccursAt(source, "/" + dir, k) && k + |dir| + 1 < |source| && IsSep(source[k + |dir| + 1])
  }

  /** `/<dir>` first occurs at `k`, and is followed by a separator there. */
  predicate FirstSepAfter(name: string, source: string, k: int) {
    SepAfter(name, source, k) && forall j :: 0 <= j < k ==> !OccursAt(source, "/" + Dir(name), j)
  }

  /**
   * The checker in terms of positions: it accepts exactly the name, its
   * sub-imports, and the paths where the FIRST occurrence of `/<dir>` is
   * followed by a separator.
   */
  lemma CheckExact(name: string, source: string)
    ensures Check(name, source) <==>
      || source == name
      || (|name| + 1 <= |source| && source[..|name|] == name && source[|name|] == '/')
      || exists k :: FirstSepAfter(name, source, k)
  {
    PrefixExact(name, source);
    FirstExact(name, source);
  }

  lemma PrefixExact(name: string, source: string)
    ensures StartsWith(source, name + "/") <==>
      (|name| + 1 <= |source| && source[..|name|] == name && source[|name|] == '/')
  {
    if StartsWith(source, name + "/") {
      assert source[..|name|] == (name + "/")[..|name|];
      assert source[|name|] == source[..|name| + 1][|name|];
    }
    if |name| + 1 <= |source| && source[..|name|] == name && source[|name|] == '/' {
      assert source[..|name| + 1] == name + "/";
    }
  }

  lemma FirstExact(name: string, source: string)
    ensures (match Find(source, "/" + Dir(name))
             case None => false
             case Some(i) => i + |Dir(name)| + 1 < |source| && IsSep(source[i + |Dir(name)| + 1]))
            <==> exists k :: FirstSepAfter(name, source, k)
  {
    var pat := "/" + Dir(name);
    match Find(source, pat)
    case None =>
    case Some(i) =>
      if SepAfter(name, source, i) {
        assert FirstSepAfter(name, source, i);
      }
      if exists k :: FirstSepAfter(name, source, k) {
        var k :| FirstSepAfter(name, source, k);
        assert !(i < k) && !(k < i);
      }
  }

  /** Whatever the checker accepts by path, some occurrence of `/<dir>` is followed by a separator. */
  lemma CheckSound(name: string, source: string)
    requires Check(name, source) && source != name && !StartsWith(source, name + "/")
    ensures exists k :: SepAfter(name, source, k)
  {
    var i := Find(source, "/" + Dir(name)).value;
    assert SepAfter(name, source, i);
  }

  /**
   * Only the first occurrence is looked at: in `/ab/a/` the first `/a` is
   * followed by `b`, and the later `/a/` is never seen.
   */
  lemma FirstOccurrenceOnly()
    ensures !Check("a", "/ab/a/")
    ensures SepAfter("a", "/ab/a/", 3)
  {
    assert Dir("a") == "a";
    assert "/" + Dir("a") == "/a";
    assert "/ab/a/"[0..2] == "/a";
    assert Find("/ab/a/", "/a") == Some(0);
    assert "/ab/a/"[3..5] == "/a";
    assert "/ab/a/"[..2][0] != ("a" + "/")[0];
    assert "/ab/a/"[2] == 'b';
  }
}
