/**
 * The application configuration template: scripts, stylesheets and less
 * sheets, with the stylesheets extracted into their own files.
 */
module WebpackIndex {
  import opened Wrappers
  import opened Constants
  import opened Webpack

  const AppExtensions := [".ts", ".tsx", ".js", ".jsx", ".vue", ".json"]

  /** `getWebpackConfig()` for the given settings; no library is named, so nothing can fail. */
  function GetWebpackConfig(settings: Settings): (c: Configuration)
    ensures c.mode == settings.mode && ModeConsistent(c)
    ensures c.devtool == SettingsDevtool(settings) && LoaderMapsAre(c.oneOf, settings.sourceMap)
    ensures c.output.filename == MinifiedFilename(settings) && c.output.library == None
    ensures |c.oneOf| == 3 && c.oneOf[0].test == ScriptFiles && c.oneOf[1].test == CssFiles && c.oneOf[2].test == LessFiles
    ensures c.oneOf[2].use == c.oneOf[1].use + [LessLoader(settings.sourceMap)]
    ensures c.plugins == [SharedMiniCssExtractPlugin(settings)]
    ensures c.minimizer == [TerserMinimizer, CssMinimizer]
    ensures c.maxEntrypointSize == c.maxAssetSize == WarnFileSize
    ensures c.oneOf == AppRules(settings)
  {
    var production := settings.IsProduction();
    Configuration(
      mode := settings.mode,
      bail := production,
      devtool := SettingsDevtool(settings),
      stats := Stats,
      entry := Entry,
      output := Output(GlobalObject, None, MinifiedFilename(settings), None),
      strictExportPresence := true,
      oneOf := AppRules(settings),
      plugins := [SharedMiniCssExtractPlugin(settings)],
      mainFields := MainFields,
      extensions := AppExtensions,
      externals := map[],
      minimize := production,
      minimizer := [TerserMinimizer, CssMinimizer],
      maxEntrypointSize := WarnFileSize,
      maxAssetSize := WarnFileSize
    )
  }

  /** The `oneOf` rules: scripts through Babel, `.css` and `.less` through the extracted stylesheet chain. */
  function AppRules(settings: Settings): (rules: seq<Rule>)
    ensures |rules| == 3 && rules[0].test == ScriptFiles && rules[1].test == CssFiles && rules[2].test == LessFiles
    ensures rules[0].excludeNodeModules && !rules[1].excludeNodeModules && !rules[2].excludeNodeModules
    ensures rules[2].use == rules[1].use + [LessLoader(settings.sourceMap)]
    ensures LoaderMapsAre(rules, settings.sourceMap)
    ensures rules[0].use == [SharedBabelLoader(settings)] && rules[1].use == CssChain(settings) && rules[2].use == LessChain(settings)
  {
    var scripts := Rule(ScriptFiles, true, [SharedBabelLoader(settings)]);
    var css := Rule(CssFiles, false, CssChain(settings));
    var less := Rule(LessFiles, false, LessChain(settings));
    RulesSwitches(settings, scripts, css, less);
    [scripts, css, less]
  }

  /** Three rules using the Babel loader and the two stylesheet chains carry five switches, all the setting. */
  lemma RulesSwitches(settings: Settings, scripts: Rule, css: Rule, less: Rule)
    requires scripts.use == [SharedBabelLoader(settings)]
    requires css.use == CssChain(settings) && less.use == LessChain(settings)
    ensures var m := settings.sourceMap;
      LoaderSwitches([scripts, css, less]) == [m, m, m, m, m]
  {
    UseSwitchesSingle(SharedBabelLoader(settings));
    ChainSwitches(settings);
    LoaderSwitchesSingle(scripts);
    LoaderSwitchesSingle(css);
    LoaderSwitchesSingle(less);
    LoaderSwitchesAppend([scripts], [css]);
    LoaderSwitchesAppend([scripts, css], [less]);
    assert [scripts, css, less] == [scripts, css] + [less];
  }
}
