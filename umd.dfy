/**
 * The configuration for bundling a UMD utility: the shared constants decide
 * the production switches, and the library is published under the name
 * derived from the package name.
 */
module WebpackUmd {
  import opened Wrappers
  import opened JsString
  import opened Constants
  import opened Utils
  import opened Webpack

  /** Unlike the library and application builds, `.vue` is not resolved. */
  const UmdExtensions := [".ts", ".tsx", ".js", ".jsx", ".json"]

  /** The object literal once the library name is known. */
  function UmdConfig(settings: Settings, name: string): (c: Configuration)
    ensures c.mode == settings.mode && ModeConsistent(c)
    ensures c.devtool == SettingsDevtool(settings) && LoaderMapsAre(c.oneOf, settings.sourceMap)
    ensures c.output.filename == MinifiedFilename(settings)
    ensures c.output.library == Some(Library(UmdLibraryType, name))
    ensures |c.oneOf| == 1 && c.oneOf[0].test == ScriptFiles && c.oneOf[0].excludeNodeModules
    ensures c.minimizer == [TerserMinimizer] && c.externals == map[]
    ensures c.maxEntrypointSize == c.maxAssetSize == WarnFileSize
    ensures c.oneOf == [Rule(ScriptFiles, true, [SharedBabelLoader(settings)])]
  {
    var production := settings.IsProduction();
    var rule := Rule(ScriptFiles, true, [SharedBabelLoader(settings)]);
    UseSwitchesSingle(SharedBabelLoader(settings));
    LoaderSwitchesSingle(rule);
    Configuration(
      mode := settings.mode,
      bail := production,
      devtool := SettingsDevtool(settings),
      stats := Stats,
      entry := Entry,
      output := Output(GlobalObject, None, MinifiedFilename(settings), Some(Library(UmdLibraryType, name))),
      strictExportPresence := true,
      oneOf := [rule],
      plugins := [],
      mainFields := MainFields,
      extensions := UmdExtensions,
      externals := map[],
      minimize := production,
      minimizer := [TerserMinimizer],
      maxEntrypointSize := WarnFileSize,
      maxAssetSize := WarnFileSize
    )
  }

  /**
   * `getWebpackConfig()` for the given settings and the package name
   * `getLibraryName` reads: it throws exactly when the name derivation
   * throws, and otherwise the library carries the derived name.
   */
  function GetWebpackConfig(settings: Settings, packageName: string): (r: Result<Configuration, NameError>)
    ensures r.Failure? <==> GetLibraryName(packageName).Failure?
    ensures r.Failure? ==> r.error == GetLibraryName(packageName).error
    ensures r.Success? ==> r.value == UmdConfig(settings, GetLibraryName(packageName).value)
    ensures r.Success? ==> r.value.output.library.value.name[0] == LibraryPrefix
  {
    match GetLibraryName(packageName)
    case Failure(e) => Failure(e)
    case Success(name) => Success(UmdConfig(settings, name))
  }
}
