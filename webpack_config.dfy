/**
 * The part of a webpack configuration the three builders set, with the
 * loaders and plugins reduced to tokens that keep only the flags the
 * settings decide. Also the shared loaders and plugins themselves, which
 * read the build constants.
 */
module Webpack {
  import opened Wrappers
  import opened Constants

  /** `devtool`: `false` or `'source-map'`. */
  datatype Devtool = NoDevtool | SourceMapDevtool

  /** `output.library`: `{ type, name }`. */
  datatype Library = Library(kind: string, name: string)

  /** `output`; `path` and `library` are absent in some builders. */
  datatype Output = Output(globalObject: string, path: Option<string>, filename: string, library: Option<Library>)

  /** Which Babel set-up a Babel loader carries: the shared one, or the one written inline for libraries. */
  datatype BabelSetup =
    | SharedBabelSetup   // targets the browser range, preset-env with `useBuiltIns: 'usage'`
    | LibraryBabelSetup  // preset-env without polyfills, transform-runtime with `corejs: 3`

  datatype Loader =
    | BabelLoader(sourceMaps: bool, inputSourceMap: bool, setup: BabelSetup)
    | MiniCssExtractLoader
    | CssLoader(sourceMap: bool)
    | PostcssLoader
    | LessLoader(sourceMap: bool)

  /** The file patterns of the `oneOf` rules. */
  datatype RuleTest =
    | ScriptFiles  // /\.(t|j)sx?$/
    | CssFiles     // /\.css$/
    | LessFiles    // /\.less$/

  datatype Rule = Rule(test: RuleTest, excludeNodeModules: bool, use: seq<Loader>)

  datatype Plugin = MiniCssExtractPlugin(filename: string)

  datatype Minimizer = TerserMinimizer | CssMinimizer

  /** The fields of `webpack.Configuration` the builders set. */
  datatype Configuration = Configuration(
    mode: string,
    bail: bool,
    devtool: Devtool,
    stats: string,
    entry: string,
    output: Output,
    strictExportPresence: bool,
    oneOf: seq<Rule>,
    plugins: seq<Plugin>,
    mainFields: seq<string>,
    extensions: seq<string>,
    externals: map<string, string>,
    minimize: bool,
    minimizer: seq<Minimizer>,
    maxEntrypointSize: nat,
    maxAssetSize: nat
  )

  // ---------------------------------------------------------------------
  // Values every builder shares
  // ---------------------------------------------------------------------

  const Stats := "errors-warnings"
  const Entry := "./src/index"
  const GlobalObject := "this"
  const MainFields := ["#source", "browser", "module", "main"]
  const UmdLibraryType := "umd"

  /** `index.min.js` in production and `index.js` otherwise. */
  function MinifiedFilename(settings: Settings): (f: string)
    ensures f == "index.min.js" <==> settings.IsProduction()
    ensures f == "index.js" <==> !settings.IsProduction()
  {
    var f := "index" + (if settings.IsProduction() then ".min" else "") + ".js";
    assert "index.js"[6] != "index.min.js"[6];
    f
  }

  /** `!isEnvProduction && sourceMap && 'source-map'` */
  function SettingsDevtool(settings: Settings): (d: Devtool)
    ensures d == SourceMapDevtool <==> !settings.IsProduction() && settings.sourceMap
  {
    if !settings.IsProduction() && settings.sourceMap then SourceMapDevtool else NoDevtool
  }

  // ---------------------------------------------------------------------
  // The shared loaders and plugins
  // ---------------------------------------------------------------------

  /** `BabelLoader`: both source-map flags follow `sourceMap`, whatever the mode. */
  function SharedBabelLoader(settings: Settings): (l: Loader)
    ensures l.BabelLoader? && l.setup == SharedBabelSetup
    ensures l.sourceMaps == l.inputSourceMap == settings.sourceMap
  {
    BabelLoader(settings.sourceMap, settings.sourceMap, SharedBabelSetup)
  }

  /** `[MiniCssExtractLoader, CssLoader, PostcssLoader]`: what a stylesheet goes through. */
  function CssChain(settings: Settings): (chain: seq<Loader>)
    ensures |chain| == 3 && chain[0] == MiniCssExtractLoader && chain[2] == PostcssLoader
    ensures chain[1] == CssLoader(settings.sourceMap)
  {
    [MiniCssExtractLoader, CssLoader(settings.sourceMap), PostcssLoader]
  }

  /** The `.less` chain: the `.css` one with the less compiler as the last loader, which webpack applies first. */
  function LessChain(settings: Settings): (chain: seq<Loader>)
    ensures chain == CssChain(settings) + [LessLoader(settings.sourceMap)]
  {
    [MiniCssExtractLoader, CssLoader(settings.sourceMap), PostcssLoader, LessLoader(settings.sourceMap)]
  }

  /** The extracted stylesheet's name: `[name].min.css` in production and `[name].css` otherwise. */
  function SharedMiniCssExtractPlugin(settings: Settings): (p: Plugin)
    ensures p.filename == "[name].min.css" <==> settings.IsProduction()
    ensures p.filename == "[name].css" <==> !settings.IsProduction()
  {
    var f := "[name]" + (if settings.IsProduction() then ".min" else "") + ".css";
    assert "[name].css"[7] != "[name].min.css"[7];
    MiniCssExtractPlugin(f)
  }

  // ---------------------------------------------------------------------
  // Properties of a configuration
  // ---------------------------------------------------------------------

  /** Every source-map switch a configuration holds, in order: the devtool first, then each loader's. */
  function SourceMapSwitches(c: Configuration): seq<bool> {
    [c.devtool == SourceMapDevtool] + LoaderSwitches(c.oneOf)
  }

  function LoaderSwitches(rules: seq<Rule>): seq<bool> {
    if rules == [] then [] else UseSwitches(rules[0].use) + LoaderSwitches(rules[1..])
  }

  function UseSwitches(use: seq<Loader>): seq<bool> {
    if use == [] then [] else OwnSwitches(use[0]) + UseSwitches(use[1..])
  }

  /** The source-map flags one loader carries. */
  function OwnSwitches(l: Loader): seq<bool> {
    match l
    case BabelLoader(maps, input, _) => [maps, input]
    case CssLoader(maps) => [maps]
    case LessLoader(maps) => [maps]
    case _ => []
  }

  lemma {:induction false} UseSwitchesAppend(a: seq<Loader>, b: seq<Loader>)
    ensures UseSwitches(a + b) == UseSwitches(a) + UseSwitches(b)
  {
    if a == [] {
      assert a + b == b;
    } else {
      assert (a + b)[0] == a[0] && (a + b)[1..] == a[1..] + b;
      UseSwitchesAppend(a[1..], b);
    }
  }

  lemma {:induction false} LoaderSwitchesAppend(a: seq<Rule>, b: seq<Rule>)
    ensures LoaderSwitches(a + b) == LoaderSwitches(a) + LoaderSwitches(b)
  {
    if a == [] {
      assert a + b == b;
    } else {
      assert (a + b)[0] == a[0] && (a + b)[1..] == a[1..] + b;
      LoaderSwitchesAppend(a[1..], b);
    }
  }

  lemma UseSwitchesSingle(l: Loader)
    ensures UseSwitches([l]) == OwnSwitches(l)
  {
    assert [l][1..] == [];
  }

  lemma LoaderSwitchesSingle(r: Rule)
    ensures LoaderSwitches([r]) == UseSwitches(r.use)
  {
    assert [r][1..] == [];
  }

  /** Both stylesheet chains carry the source-map setting on every loader that has the flag. */
  lemma ChainSwitches(settings: Settings)
    ensures UseSwitches(CssChain(settings)) == [settings.sourceMap]
    ensures UseSwitches(LessChain(settings)) == [settings.sourceMap, settings.sourceMap]
  {
    var m := settings.sourceMap;
    UseSwitchesSingle(MiniCssExtractLoader);
    UseSwitchesSingle(CssLoader(m));
    UseSwitchesSingle(PostcssLoader);
    UseSwitchesSingle(LessLoader(m));
    UseSwitchesAppend([MiniCssExtractLoader], [CssLoader(m)]);
    UseSwitchesAppend([MiniCssExtractLoader, CssLoader(m)], [PostcssLoader]);
    assert CssChain(settings) == [MiniCssExtractLoader, CssLoader(m)] + [PostcssLoader];
    UseSwitchesAppend(CssChain(settings), [LessLoader(m)]);
  }

  /** What a mode decides, as the builders set it: bail and minimize exactly in production. */
  predicate ModeConsistent(c: Configuration) {
    c.bail == c.minimize == IsEnvProduction(c.mode)
  }

  /** Every loader of the rules asks for a source map exactly when `on`. */
  predicate LoaderMapsAre(rules: seq<Rule>, on: bool) {
    forall i :: 0 <= i < |LoaderSwitches(rules)| ==> LoaderSwitches(rules)[i] == on
  }

  /** Every part of the configuration asks for a source map exactly when `on`. */
  predicate SourceMapsAre(c: Configuration, on: bool) {
    forall i :: 0 <= i < |SourceMapSwitches(c)| ==> SourceMapSwitches(c)[i] == on
  }

  /** The loader's source-map flags switched off. */
  function ClearLoader(l: Loader): (r: Loader)
    ensures OwnSwitches(r) == seq(|OwnSwitches(l)|, _ => false)
  {
    match l
    case BabelLoader(_, _, setup) => BabelLoader(false, false, setup)
    case CssLoader(_) => CssLoader(false)
    case LessLoader(_) => LessLoader(false)
    case _ => l
  }

  function ClearUse(use: seq<Loader>): (r: seq<Loader>)
    ensures |r| == |use|
  {
    if use == [] then [] else [ClearLoader(use[0])] + ClearUse(use[1..])
  }

  function ClearRules(rules: seq<Rule>): (r: seq<Rule>)
    ensures |r| == |rules|
  {
    if rules == [] then [] else [rules[0].(use := ClearUse(rules[0].use))] + ClearRules(rules[1..])
  }

  /**
   * The configuration with every field a mode or the source-map setting
   * can decide reset: `mode`, `bail`, `devtool`, the output filename,
   * `minimize`, the loaders' source-map flags and the plugins' filenames.
   */
  function WithoutModeFields(c: Configuration): Configuration {
    c.(mode := "", bail := false, devtool := NoDevtool, output := c.output.(filename := ""),
       minimize := false, oneOf := ClearRules(c.oneOf), plugins := seq(|c.plugins|, _ => MiniCssExtractPlugin("")))
  }
}
