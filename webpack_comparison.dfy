/**
 * What the three configuration builders have in common and where they
 * part: which settings each field follows, and what the shipped constants
 * make of them.
 */
module WebpackComparison {
  import opened Wrappers
  import opened Constants
  import opened Utils
  import opened Webpack
  import WebpackUmdLib
  import WebpackUmd
  import WebpackIndex

  /**
   * The utility and the application builds agree on everything the
   * settings decide and on the script rule; they part in the library, the
   * stylesheet rules and plugins, the `.vue` extension and the CSS minimizer.
   */
  lemma UmdAndIndexAgree(settings: Settings, name: string)
    ensures var u, i := WebpackUmd.UmdConfig(settings, name), WebpackIndex.GetWebpackConfig(settings);
      u.mode == i.mode && u.bail == i.bail && u.devtool == i.devtool && u.minimize == i.minimize
      && u.output.filename == i.output.filename
      && u.oneOf[0] == i.oneOf[0] && u.oneOf == i.oneOf[..1]
      && u.maxEntrypointSize == i.maxEntrypointSize && u.maxAssetSize == i.maxAssetSize
      && u.output.library.Some? && i.output.library.None?
      && u.plugins == [] && |i.plugins| == 1
      && ".vue" !in u.extensions && ".vue" in i.extensions
      && u.minimizer == i.minimizer[..1] && CssMinimizer !in u.minimizer
  {
    var u, i := WebpackUmd.UmdConfig(settings, name), WebpackIndex.GetWebpackConfig(settings);
    assert u.extensions == WebpackUmd.UmdExtensions;
    assert i.extensions[4] == ".vue";
  }

  /**
   * With the shipped constants the devtool is off in the utility and the
   * application builds, although every loader is still asked for source
   * maps: `sourceMap` reaches the loaders, the mode alone does not.
   */
  lemma ShippedSettingsSourceMaps(packageName: string)
    ensures var i := WebpackIndex.GetWebpackConfig(Shipped);
      i.devtool == NoDevtool && LoaderMapsAre(i.oneOf, true) && i.bail && i.minimize
    ensures var u := WebpackUmd.GetWebpackConfig(Shipped, packageName);
      u.Success? ==> u.value.devtool == NoDevtool && LoaderMapsAre(u.value.oneOf, true)
  {
    ShippedConstants();
  }

  /** The application build under a change of settings: only the fields the settings decide move. */
  lemma IndexSettingsOnlyDecideSwitches(s1: Settings, s2: Settings)
    ensures WithoutModeFields(WebpackIndex.GetWebpackConfig(s1)) == WithoutModeFields(WebpackIndex.GetWebpackConfig(s2))
  {
    var c1, c2 := WebpackIndex.GetWebpackConfig(s1), WebpackIndex.GetWebpackConfig(s2);
    ClearRulesIgnoresFlags(c1.oneOf, c2.oneOf);
  }

  /** The utility build under a change of settings, for one library name. */
  lemma UmdSettingsOnlyDecideSwitches(s1: Settings, s2: Settings, name: string)
    ensures WithoutModeFields(WebpackUmd.UmdConfig(s1, name)) == WithoutModeFields(WebpackUmd.UmdConfig(s2, name))
  {
    var c1, c2 := WebpackUmd.UmdConfig(s1, name), WebpackUmd.UmdConfig(s2, name);
    ClearRulesIgnoresFlags(c1.oneOf, c2.oneOf);
  }

  /** Rules that differ at most in their loaders' source-map flags are the same once the flags are cleared. */
  lemma {:induction false} ClearRulesIgnoresFlags(a: seq<Rule>, b: seq<Rule>)
    requires |a| == |b|
    requires forall k :: 0 <= k < |a| ==> SameUpToFlags(a[k], b[k])
    ensures ClearRules(a) == ClearRules(b)
  {
    if a != [] {
      ClearUseIgnoresFlags(a[0].use, b[0].use);
      ClearRulesIgnoresFlags(a[1..], b[1..]);
    }
  }

  /** Loader lists that differ at most in source-map flags are the same once the flags are cleared. */
  lemma {:induction false} ClearUseIgnoresFlags(a: seq<Loader>, b: seq<Loader>)
    requires |a| == |b|
    requires forall j :: 0 <= j < |a| ==> ClearLoader(a[j]) == ClearLoader(b[j])
    ensures ClearUse(a) == ClearUse(b)
  {
    if a != [] {
      ClearUseIgnoresFlags(a[1..], b[1..]);
    }
  }

  predicate SameUpToFlags(r1: Rule, r2: Rule) {
    r1.test == r2.test && r1.excludeNodeModules == r2.excludeNodeModules && |r1.use| == |r2.use|
    && forall j :: 0 <= j < |r1.use| ==> ClearLoader(r1.use[j]) == ClearLoader(r2.use[j])
  }

  /**
   * A production library build asks for no source map anywhere, while a
   * production utility or application build with `sourceMap` set keeps
   * them in its loaders; and the library file is named after the mode, the
   * others `index.min.js`.
   */
  lemma ProductionBuildsCompared(env: WebpackUmdLib.LibEnv, settings: Settings)
    requires IsEnvProduction(env.mode) && settings.IsProduction() && settings.sourceMap
    ensures SourceMapsAre(WebpackUmdLib.GetConfig(env), false)
    ensures LoaderMapsAre(WebpackIndex.GetWebpackConfig(settings).oneOf, true)
    ensures WebpackUmdLib.GetConfig(env).output.filename == "index.production.js"
    ensures WebpackIndex.GetWebpackConfig(settings).output.filename == "index.min.js"
  {
  }
}
