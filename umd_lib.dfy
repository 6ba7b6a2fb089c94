/**
 * The configuration for bundling a UMD library: mode, output directory and
 * library name come from the environment record, and the mode alone
 * decides the production switches, the source maps and the filename.
 */
module WebpackUmdLib {
  import opened Wrappers
  import opened Constants
  import opened Webpack

  /** What `getLibEnv(mode)` returns; it is not part of this model, so its result is the input. */
  datatype LibEnv = LibEnv(mode: string, outputDir: string, libName: string)

  const LibExtensions := [".ts", ".tsx", ".js", ".jsx", ".vue", ".json"]

  /** The size limit, written out in place rather than read from the constants. */
  const LibSizeLimit: nat := 5 * 1024 * 1024

  /** React stays outside the bundle and is taken from the page's globals. */
  const LibExternals := map["react" := "React", "react-dom" := "ReactDOM"]

  /** `index.<mode>.js` */
  function LibFilename(mode: string): (f: string)
    ensures |f| == |mode| + 9 && f[..6] == "index." && f[6..|f| - 3] == mode && f[|f| - 3..] == ".js"
  {
    "index." + mode + ".js"
  }

  /** `getConfig(mode)` on the environment it reads. */
  function GetConfig(env: LibEnv): (c: Configuration)
    ensures c.mode == env.mode && ModeConsistent(c)
    ensures SourceMapsAre(c, !IsEnvProduction(env.mode))
    ensures c.output.filename == LibFilename(env.mode)
    ensures c.output.path == Some(env.outputDir) && c.output.library == Some(Library(UmdLibraryType, env.libName))
    ensures c.externals == LibExternals
    ensures c.maxEntrypointSize == c.maxAssetSize == WarnFileSize
    ensures c.oneOf == [Rule(ScriptFiles, true, [BabelLoader(!IsEnvProduction(env.mode), !IsEnvProduction(env.mode), LibraryBabelSetup)])]
  {
    var production := IsEnvProduction(env.mode);
    var babel := BabelLoader(!production, !production, LibraryBabelSetup);
    var rule := Rule(ScriptFiles, true, [babel]);
    var c := Configuration(
      mode := env.mode,
      bail := production,
      devtool := if !production then SourceMapDevtool else NoDevtool,
      stats := Stats,
      entry := Entry,
      output := Output(GlobalObject, Some(env.outputDir), LibFilename(env.mode), Some(Library(UmdLibraryType, env.libName))),
      strictExportPresence := true,
      oneOf := [rule],
      plugins := [],
      mainFields := MainFields,
      extensions := LibExtensions,
      externals := LibExternals,
      minimize := production,
      minimizer := [TerserMinimizer],
      maxEntrypointSize := LibSizeLimit,
      maxAssetSize := LibSizeLimit
    );
    assert UseSwitches(rule.use) == [!production, !production] by {
      assert rule.use[1..] == [];
    }
    assert LoaderSwitches(c.oneOf) == UseSwitches(rule.use) by {
      assert c.oneOf[1..] == [];
    }
    c
  }

  /** The filename names the mode, so builds in different modes never overwrite each other in one directory. */
  lemma {:induction false} LibFilenameInjective(m1: string, m2: string)
    ensures LibFilename(m1) == LibFilename(m2) <==> m1 == m2
  {
    if LibFilename(m1) == LibFilename(m2) {
      var f := LibFilename(m1);
      assert m1 == f[6..|f| - 3] == m2;
    }
  }

  /**
   * Two environments that differ only in mode give configurations that
   * differ only in the fields the mode decides.
   */
  lemma ModeOnlyDifferences(e1: LibEnv, e2: LibEnv)
    requires e1.outputDir == e2.outputDir && e1.libName == e2.libName
    ensures WithoutModeFields(GetConfig(e1)) == WithoutModeFields(GetConfig(e2))
    ensures e1.mode != e2.mode ==> GetConfig(e1).output.filename != GetConfig(e2).output.filename
    ensures IsEnvProduction(e1.mode) != IsEnvProduction(e2.mode) ==>
      GetConfig(e1).bail != GetConfig(e2).bail && GetConfig(e1).devtool != GetConfig(e2).devtool
  {
    LibFilenameInjective(e1.mode, e2.mode);
  }
}
