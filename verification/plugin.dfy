/**
 * The transpiling plugin (`rollup-plugin-pyxis/src/transpiler/plugin.ts`):
 * which modules its `transform` handler skips, the language it parses a
 * module as, and the source map it returns.
 *
 * `isPathWithin`, the routine run on the syntax tree and the transpiler are
 * inputs: whether the module is under the root, and whether the routine
 * asked for any transform.
 */
module Plugin {
  import opened Wrappers

  // ---------------------------------------------------------------------
  // `path.extname` (POSIX)

  /** Drops trailing slashes. */
  function StripSlashes(p: string): (r: string)
    ensures |r| <= |p| && r == p[..|r|]
    ensures r == [] || r[|r| - 1] != '/'
    ensures forall i :: |r| <= i < |p| ==> p[i] == '/'
  {
    if p == [] || p[|p| - 1] != '/' then p else StripSlashes(p[..|p| - 1])
  }

  /** The last index of `c` in `s`, if any. */
  function LastIndex(s: string, c: char): (r: Option<nat>)
    ensures r.Some? ==> r.value < |s| && s[r.value] == c && c !in s[r.value + 1..]
    ensures r.None? <==> c !in s
  {
    if s == [] then None
    else if s[|s| - 1] == c then Some(|s| - 1)
    else
      var r := LastIndex(s[..|s| - 1], c);
      assert s == s[..|s| - 1] + [s[|s| - 1]];
      if r.Some? then
        assert s[r.value + 1..] == s[..|s| - 1][r.value + 1..] + [s[|s| - 1]];
        r
      else None
  }

  /** The last path component, trailing slashes ignored. */
  function BaseName(p: string): (r: string)
    ensures '/' !in r
  {
    var q := StripSlashes(p);
    match LastIndex(q, '/')
    case None => q
    case Some(i) => q[i + 1..]
  }

  /**
   * `path.posix.extname`: from the last dot of the last component to its
   * end; nothing when the component has no dot, starts with its only dot
   * run at position 0, or is `..`.
   */
  function ExtName(p: string): (r: string)
    ensures r == [] || (r[0] == '.' && '/' !in r)
  {
    var base := BaseName(p);
    match LastIndex(base, '.')
    case None => ""
    case Some(i) => if i == 0 || base == ".." then "" else base[i..]
  }

  /**
   * The extension is a suffix of the last component that starts at its
   * last dot, and holds no other dot.
   */
  lemma ExtNameShape(p: string)
    ensures var base := BaseName(p); var e := ExtName(p);
      e != [] ==> |e| < |base| && base[|base| - |e|..] == e && '.' !in e[1..]
  {
    var base := BaseName(p);
    match LastIndex(base, '.')
    case None =>
    case Some(i) =>
      if i != 0 && base != ".." {
        assert base[i..][1..] == base[i + 1..];
      }
  }

  /** A hidden file has no extension, and neither has `..`. */
  lemma ExtNameHidden()
    ensures ExtName(".bashrc") == "" && ExtName("..") == ""
  {
    assert StripSlashes(".bashrc") == ".bashrc" && StripSlashes("..") == "..";
    assert LastIndex(".bashrc", '/').None? && LastIndex("..", '/').None?;
    assert LastIndex(".bashrc", '.') == Some(0);
  }

  /** Trailing slashes and the directories' dots do not matter. */
  lemma ExtNameTrailing()
    ensures ExtName("a/b.c/") == ".c"
  {
    assert StripSlashes("a/b.c/") == "a/b.c";
    assert LastIndex("a/b.c", '/') == Some(1);
    assert BaseName("a/b.c/") == "b.c";
    assert LastIndex("b.c", '.') == Some(1);
  }

  /** Only the last dot counts. */
  lemma ExtNameLastDot()
    ensures ExtName("x.d.ts") == ".ts"
  {
    assert StripSlashes("x.d.ts") == "x.d.ts";
    assert LastIndex("x.d.ts", '/').None?;
    assert LastIndex("x.d.ts", '.') == Some(3);
  }

  // ---------------------------------------------------------------------
  // Language detection

  datatype Lang = Ts | Tsx | Js | Jsx

  /** Whether the last-character test of `detectLang` ignores case (corrected) or not (as written). */
  datatype Build = AsWritten | Corrected

  function Lower(c: char): char {
    if 'A' <= c <= 'Z' then (c as int + 32) as char else c
  }

  /** `/^\.[cm]?<a>sx?$/i` for `a` = `t` or `j`. */
  predicate Matches(ext: string, a: char) {
    && |ext| >= 3 && ext[0] == '.'
    && var rest := if Lower(ext[1]) == 'c' || Lower(ext[1]) == 'm' then ext[2..] else ext[1..];
       (|rest| == 2 || |rest| == 3) && Lower(rest[0]) == a && Lower(rest[1]) == 's' && (|rest| == 3 ==> Lower(rest[2]) == 'x')
  }

  /** `ext.endsWith("x")`; the corrected test also accepts `X`. */
  predicate EndsWithX(build: Build, ext: string) {
    |ext| > 0 && (ext[|ext| - 1] == 'x' || (build.Corrected? && ext[|ext| - 1] == 'X'))
  }

  /** `detectLang` on the extension: the pattern ignores case, the last-character test may not. */
  function DetectExt(build: Build, ext: string): (r: Option<Lang>)
    ensures r.Some? <==> Matches(ext, 't') || Matches(ext, 'j')
    ensures r.Some? ==> (r.value.Tsx? || r.value.Jsx? <==> EndsWithX(build, ext))
    ensures r.Some? ==> (r.value.Ts? || r.value.Tsx? <==> Matches(ext, 't'))
  {
    if Matches(ext, 't') then Some(if EndsWithX(build, ext) then Tsx else Ts)
    else if Matches(ext, 'j') then Some(if EndsWithX(build, ext) then Jsx else Js)
    else None
  }

  /** `detectLang`. */
  function DetectLang(build: Build, moduleId: string): (r: Option<Lang>)
    ensures ExtName(moduleId) == [] ==> r.None?
    ensures r.Some? <==> Matches(ExtName(moduleId), 't') || Matches(ExtName(moduleId), 'j')
    ensures r.Some? ==> (r.value.Tsx? || r.value.Jsx? <==> EndsWithX(build, ExtName(moduleId)))
  {
    DetectExt(build, ExtName(moduleId))
  }

  function LowerAll(s: string): (r: string)
    ensures |r| == |s| && forall i :: 0 <= i < |s| ==> r[i] == Lower(s[i])
  {
    if s == [] then [] else [Lower(s[0])] + LowerAll(s[1..])
  }

  /** The pattern does not see case. */
  lemma MatchesLower(ext: string, a: char)
    requires a == 't' || a == 'j'
    ensures Matches(LowerAll(ext), a) == Matches(ext, a)
  {
    var l := LowerAll(ext);
    if |ext| >= 3 {
      assert Lower(l[1]) == Lower(ext[1]);
      if Lower(ext[1]) == 'c' || Lower(ext[1]) == 'm' {
        assert l[2..] == LowerAll(ext[2..]);
      } else {
        assert l[1..] == LowerAll(ext[1..]);
      }
    }
  }

  /**
   * The corrected detection ignores case throughout: it gives what the
   * written one gives for the lowercased extension.
   */
  lemma DetectCorrected(ext: string)
    ensures DetectExt(Corrected, ext) == DetectExt(AsWritten, LowerAll(ext))
  {
    MatchesLower(ext, 't');
    MatchesLower(ext, 'j');
    assert EndsWithX(Corrected, ext) == EndsWithX(AsWritten, LowerAll(ext));
  }

  /** Some extensions and what they are parsed as. */
  lemma DetectExamples()
    ensures DetectExt(AsWritten, ".ts") == Some(Ts) && DetectExt(AsWritten, ".mts") == Some(Ts)
    ensures DetectExt(AsWritten, ".tsx") == Some(Tsx) && DetectExt(AsWritten, ".cjs") == Some(Js)
    ensures DetectExt(AsWritten, ".jsx") == Some(Jsx) && DetectExt(AsWritten, ".JS") == Some(Js)
    ensures DetectExt(AsWritten, ".json").None? && DetectExt(AsWritten, ".tsxx").None? && DetectExt(AsWritten, "").None?
  {
    assert ".mts"[2..] == "ts" && ".cjs"[2..] == "js";
    assert ".ts"[1..] == "ts" && ".tsx"[1..] == "tsx" && ".jsx"[1..] == "jsx" && ".JS"[1..] == "JS";
    assert ".json"[1..] == "json" && ".tsxx"[1..] == "tsxx";
  }

  /** As written, an upper-case `X` is not seen: `Foo.TSX` is parsed as plain TypeScript. */
  lemma UpperCaseX()
    ensures DetectLang(AsWritten, "Foo.TSX") == Some(Ts)
    ensures DetectLang(Corrected, "Foo.TSX") == Some(Tsx)
  {
    assert StripSlashes("Foo.TSX") == "Foo.TSX";
    assert LastIndex("Foo.TSX", '/').None?;
    assert LastIndex("Foo.TSX", '.') == Some(3);
    assert ExtName("Foo.TSX") == "Foo.TSX"[3..] == ".TSX";
    assert ".TSX"[1..] == "TSX";
  }

  /** Without an upper-case `X` the correction changes nothing. */
  lemma LowercaseAgrees(ext: string)
    requires |ext| > 0 ==> ext[|ext| - 1] != 'X'
    ensures DetectExt(AsWritten, ext) == DetectExt(Corrected, ext)
  {
  }

  // ---------------------------------------------------------------------
  // The handler

  /** The version 3 source map the handler returns, for one source. */
  datatype SourceMap = SourceMap(version: int, sources: seq<string>, sourcesContent: seq<string>,
                                 names: seq<string>, mappings: string)

  datatype Output = Output(code: string, sourceMap: SourceMap)

  /**
   * `handler`: a module outside the root, in an unknown language, or that
   * the routine left without transforms is passed over (`null`); otherwise
   * the transpiled code comes with a map of the one original source.
   */
  function Handle(build: Build, within: bool, moduleId: string, shortId: string, code: string,
                  hasTransforms: bool, transpiled: string, mappings: string): (r: Option<Output>)
    ensures r.Some? <==> within && DetectLang(build, moduleId).Some? && hasTransforms
    ensures r.Some? ==> r.value.code == transpiled && r.value.sourceMap.version == 3
    ensures r.Some? ==> r.value.sourceMap.sources == [shortId] && r.value.sourceMap.sourcesContent == [code]
    ensures r.Some? ==> r.value.sourceMap.names == [] && r.value.sourceMap.mappings == mappings
  {
    if !within then None
    else if DetectLang(build, moduleId).None? then None
    else if !hasTransforms then None
    else Some(Output(transpiled, SourceMap(3, [shortId], [code], [], mappings)))
  }
}
