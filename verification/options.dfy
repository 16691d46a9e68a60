/**
 * The bundler plugin's options (`rollup-plugin-pyxis/src/options.ts`):
 * `resolveOptions` fills in every default, and `defaultObject` turns the
 * `boolean | object` switches into an options object or nothing.
 */
module PluginOptions {
  import opened Wrappers
  import opened Js

  /** A regular expression literal: its source and whether it has the `i` flag. */
  datatype Regex = Regex(source: string, ignoreCase: bool)

  /** A path or glob, or a regular expression. */
  datatype Pattern = Glob(glob: string) | Re(re: Regex)

  /** `MaybeArray<string | RegExp>`. */
  datatype Patterns = One(p: Pattern) | Many(ps: seq<Pattern>)

  /** A `boolean | object` switch as given: missing, `null`, a flag, an object, or a value of another type. */
  datatype Switch<T> = Unset | NullSwitch | Flag(on: bool) | Given(opts: T) | OtherType

  /** `PyxisCssModulesOptions`; a missing or `null` field is `None`. */
  datatype CssModulesOptions = CssModulesOptions(
    includes: Option<Regex>, excludes: Option<Regex>, modulePattern: Option<Regex>,
    cssExtensionPrefix: Option<string>, lightningcss: Option<Props>)

  /** `PyxisHMROptions`. */
  datatype HmrOptions = HmrOptions(includes: Option<Patterns>, excludes: Option<Patterns>)

  /** `PyxisPluginOptions`. */
  datatype Options = Options(pyxisModule: Option<string>, cssModules: Switch<CssModulesOptions>, hmr: Switch<HmrOptions>)

  datatype ResolvedCss = ResolvedCss(
    includes: Regex, excludes: Option<Regex>, modulePattern: Regex, cssExtensionPrefix: string, lightningcss: Props)

  datatype ResolvedHmr = ResolvedHmr(includes: Patterns, excludes: Option<Patterns>)

  datatype Resolved = Resolved(pyxisModule: string, cssModules: Option<ResolvedCss>, hmr: Option<ResolvedHmr>)

  const DefaultModule: string := "@calmdown/pyxis"
  const CssInclude: Regex := Regex("\\.css$", true)
  const CssModulePattern: Regex := Regex("\\.module\\.css$", true)
  const DefaultPrefix: string := "cl"
  const HmrInclude: Patterns := One(Re(Regex("\\.m?[jt]sx?$", true)))

  /**
   * `defaultObject`: `true` gives an empty options object, an object gives
   * itself, and `false`, `null` (whose `typeof` is also "object"), a
   * missing value and any other type give nothing.
   */
  function DefaultObject<T>(v: Switch<T>, empty: T): (r: Option<T>)
    ensures r.Some? <==> v.Given? || v == Flag(true)
    ensures v.Given? ==> r == Some(v.opts)
    ensures v == Flag(true) ==> r == Some(empty)
  {
    match v
    case Flag(on) => if on then Some(empty) else None
    case Given(opts) => Some(opts)
    case _ => None
  }

  function Or<T>(o: Option<T>, d: T): T {
    if o.Some? then o.value else d
  }

  function ResolveCss(c: CssModulesOptions): (r: ResolvedCss)
    ensures r.includes == Or(c.includes, CssInclude) && r.excludes == c.excludes
    ensures r.modulePattern == Or(c.modulePattern, CssModulePattern)
    ensures r.cssExtensionPrefix == Or(c.cssExtensionPrefix, DefaultPrefix)
    ensures r.lightningcss == Or(c.lightningcss, [])
  {
    ResolvedCss(Or(c.includes, CssInclude), c.excludes, Or(c.modulePattern, CssModulePattern),
                Or(c.cssExtensionPrefix, DefaultPrefix), Or(c.lightningcss, []))
  }

  function ResolveHmr(h: HmrOptions): (r: ResolvedHmr)
    ensures r.includes == Or(h.includes, HmrInclude) && r.excludes == h.excludes
  {
    ResolvedHmr(Or(h.includes, HmrInclude), h.excludes)
  }

  const NoCss: CssModulesOptions := CssModulesOptions(None, None, None, None, None)
  const NoHmr: HmrOptions := HmrOptions(None, None)

  /** `resolveOptions`: missing options resolve like an empty options object. */
  function Resolve(options: Option<Options>): (r: Resolved)
    ensures options.None? ==> r == Resolved(DefaultModule, None, None)
    ensures options.Some? ==> r.pyxisModule == Or(options.value.pyxisModule, DefaultModule)
    ensures options.Some? ==> (r.cssModules.Some? <==> options.value.cssModules.Given? || options.value.cssModules == Flag(true))
    ensures options.Some? ==> (r.hmr.Some? <==> options.value.hmr.Given? || options.value.hmr == Flag(true))
    ensures options.Some? && options.value.cssModules.Given? ==> r.cssModules == Some(ResolveCss(options.value.cssModules.opts))
    ensures options.Some? && options.value.hmr.Given? ==> r.hmr == Some(ResolveHmr(options.value.hmr.opts))
  {
    var o := Or(options, Options(None, Unset, Unset));
    var css := DefaultObject(o.cssModules, NoCss);
    var hmr := DefaultObject(o.hmr, NoHmr);
    Resolved(Or(o.pyxisModule, DefaultModule),
             if css.Some? then Some(ResolveCss(css.value)) else None,
             if hmr.Some? then Some(ResolveHmr(hmr.value)) else None)
  }

  /** Turning on a feature with `true` is the same as passing an empty options object. */
  lemma TrueIsEmpty(m: Option<string>, css: Switch<CssModulesOptions>, hmr: Switch<HmrOptions>)
    ensures Resolve(Some(Options(m, Flag(true), hmr))) == Resolve(Some(Options(m, Given(NoCss), hmr)))
    ensures Resolve(Some(Options(m, css, Flag(true)))) == Resolve(Some(Options(m, css, Given(NoHmr))))
    ensures Resolve(Some(Options(m, Given(NoCss), Given(NoHmr)))) ==
      Resolved(Or(m, DefaultModule), Some(ResolvedCss(CssInclude, None, CssModulePattern, DefaultPrefix, [])),
               Some(ResolvedHmr(HmrInclude, None)))
  {
  }

  /** The resolved options, written back as options. */
  function AsOptions(r: Resolved): Options {
    Options(Some(r.pyxisModule),
            if r.cssModules.Some? then
              var c := r.cssModules.value;
              Given(CssModulesOptions(Some(c.includes), c.excludes, Some(c.modulePattern), Some(c.cssExtensionPrefix), Some(c.lightningcss)))
            else Flag(false),
            if r.hmr.Some? then Given(HmrOptions(Some(r.hmr.value.includes), r.hmr.value.excludes)) else Flag(false))
  }

  /** Resolving is idempotent: resolved options resolve to themselves. */
  lemma ResolveIdempotent(options: Option<Options>)
    ensures Resolve(Some(AsOptions(Resolve(options)))) == Resolve(options)
  {
  }
}
