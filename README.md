# Build scripts: stylesheet flattening, library naming, webpack configurations

A model, in Dafny, of the pure core of a set of front-end build scripts:

- **Stylesheet flattening** (`src/gulp/less/gulpfile.ts`). Every nested
  `.less` file under `src/` moves up one directory level and takes its
  directory's name; one at the root of `src/` keeps its path. The copy task also rewrites each `@import '….less'` in the file so
  that it still resolves after the move. The rewrite is the global replace
  with `/@import +['"](.+)\.less['"]/g`. It is modelled exactly: the
  leftmost occurrence, a greedy capture confined to one line, and the search
  resuming after each replacement. The per-path callback is modelled with
  the clamping and negative-index rules of JavaScript's `slice`.
- **Library naming** (`src/utils/index.ts`). `getLibraryName` checks a
  scoped package name against `/^@.+\/.+$/`, takes the text between the
  first and second `/`, capitalises each `-`-separated piece and prefixes
  `T`. Its two ways of throwing are error results: the pattern check, and an
  empty piece on which `item[0]` is undefined.
- **Webpack configurations** (`src/webpack/umd-lib.ts`, `src/webpack/umd.ts`,
  `src/webpack/index.ts`, with `src/constants/index.ts`). Each builder is a
  function from its inputs to a record of the configuration fields it sets.
  The inputs are an environment record for the library build, and the mode
  and `sourceMap` setting for the other two. Loaders and plugins are tokens
  that keep only the flags the settings decide.

Modules: `Wrappers` (Option and Result), `JsString` (the string built-ins
the scripts call), `LessGulpfile`, `Utils`, `Constants`, `Webpack` (the
shared configuration types, loaders and plugins), `WebpackUmdLib`,
`WebpackUmd`, `WebpackIndex` and `WebpackComparison` (lemmas relating the
three builders).

Behaviour worth knowing:

- `@import '../shared/index.less'` becomes `@import './shared.less'`. Only
  one character of the `..` is removed.
- A stylesheet nested two levels deep, `component/button/index.less`, is
  renamed with its whole directory `component/button` as its basename, so
  it lands in `dist/styles/component/` (`ReduceNameExamples`).
- The build task compiles before it renames, and the less compiler gives
  the file the `.css` extension: `button/index.less` becomes
  `dist/styles/button.less` from the copy and `dist/styles/button.css` from
  the build (`TaskOutputsExample`).

## Model

| member | source | states |
|---|---|---|
| LessGulpfile.ReduceName | src/gulp/less/gulpfile.ts:23-32 | the new directory is always `.` or empty; a root file keeps its path; any other file takes its directory as its basename and keeps its extension |
| LessGulpfile.ReduceNameDropsBasename | src/gulp/less/gulpfile.ts:27-31 | two files of one non-root directory with the same extension land on the same path |
| LessGulpfile.ReduceNameNotIdempotent | src/gulp/less/gulpfile.ts:24-31 | renaming twice empties the basename, so renaming is not idempotent |
| LessGulpfile.ReduceNameExamples | src/gulp/less/gulpfile.ts:23-32 | `button/index.less` becomes `button.less`; `./app.less` is kept; `component/button/index.less` gets basename `component/button` |
| LessGulpfile.RewriteImportPath | src/gulp/less/gulpfile.ts:47-53 | the rewritten path is a prefix of the captured path, after its first character when the path starts with `..` |
| LessGulpfile.RewriteStripsOneDot | src/gulp/less/gulpfile.ts:48-50 | a path starting with `..` and not ending in `index` loses exactly its first character |
| LessGulpfile.RewriteDropsIndexSegment | src/gulp/less/gulpfile.ts:51-53 | a path not starting with `..` that ends in `index` and has at least six characters loses exactly its last six |
| LessGulpfile.RewriteParentIndex | src/gulp/less/gulpfile.ts:48-53 | a `..` path ending in `index` loses its first character and its last six |
| LessGulpfile.RewriteKeepsOtherPaths | src/gulp/less/gulpfile.ts:47-54 | a path neither starting with `..` nor ending in `index` is kept verbatim |
| LessGulpfile.RewriteBareIndex | src/gulp/less/gulpfile.ts:51-53 | `index` becomes `inde`: a negative end counts back from the end, so `slice(0, -1)` drops only the last character |
| LessGulpfile.RewriteNameEndingInIndex | src/gulp/less/gulpfile.ts:51-53 | `myindex`, which has no `/index` segment, still loses six characters and becomes `m` |
| LessGulpfile.ImportStatement | src/gulp/less/gulpfile.ts:54 | every replacement is `@import '`, the path, then `.less'`: single quotes and one blank |
| LessGulpfile.MatchImportAt | src/gulp/less/gulpfile.ts:43 | a reported occurrence is in the pattern's language and is a prefix of the text |
| LessGulpfile.MatchImportAtComplete | src/gulp/less/gulpfile.ts:43 | whenever the text begins with an occurrence, one is reported, with the same blanks and opening quote and a capture at least as long (leftmost, greedy) |
| LessGulpfile.SameShapeSameMatch | src/gulp/less/gulpfile.ts:43 | an occurrence is fixed by its blanks, opening quote and capture |
| LessGulpfile.TextOnOneLine | src/gulp/less/gulpfile.ts:43 | an occurrence holds no line terminator |
| LessGulpfile.MatchImportAtStopsAtLineEnd | src/gulp/less/gulpfile.ts:43 | text after a line terminator never changes the occurrence before it |
| LessGulpfile.ReplaceImportsSplitsAtLineEnd | src/gulp/less/gulpfile.ts:43-55 | the global replace of a text is the replace of each line, joined by the same terminators |
| LessGulpfile.ReplaceOneImport | src/gulp/less/gulpfile.ts:43-55 | a line holding one occurrence and then text without `@` or `.` becomes the statement of the rewritten path, with that text kept |
| LessGulpfile.ReplaceImports | src/gulp/less/gulpfile.ts:43-55 | the global replace: text without `@` comes back unchanged; with the lemmas around it, each line is replaced on its own, an occurrence becomes the statement of its rewritten path, and text without `.less` is kept |
| LessGulpfile.MatchNeedsLess | src/gulp/less/gulpfile.ts:43 | every occurrence holds `.less` |
| LessGulpfile.ReplaceImportsWithoutLess | src/gulp/less/gulpfile.ts:43-46 | text in which `.less` never occurs, such as an import of a `.css` file, comes back unchanged |
| LessGulpfile.ReplaceImportsParentIndex | src/gulp/less/gulpfile.ts:43-55 | for every one-line directory `d`, `@import '../d/index.less'` becomes `@import './d.less'` (so `../shared/index` gives `./shared`), whatever follows without `@` or `.` |
| LessGulpfile.ReplaceImportsNormalisesQuotes | src/gulp/less/gulpfile.ts:43-55 | two blanks and double quotes become one blank and single quotes |
| LessGulpfile.ReplaceImportsMixedQuotes | src/gulp/less/gulpfile.ts:43 | a double opening quote with a single closing quote still forms an occurrence |
| LessGulpfile.ReplaceImportsBareIndex | src/gulp/less/gulpfile.ts:51-54 | `@import 'index.less'` becomes `@import 'inde.less'` |
| LessGulpfile.ReplaceImportsGreedyOnOneLine | src/gulp/less/gulpfile.ts:43-55 | for any one-line `a` and `b` (with `b` not ending in `x`), `@import '../a.less'; @import '../b.less'` is one occurrence: only its first `..` loses a dot and the second import keeps `../b` |
| LessGulpfile.ReplaceImportsKeepsCss | src/gulp/less/gulpfile.ts:43 | `@import 'a.css';` is kept |
| LessGulpfile.CopyLess | src/gulp/less/gulpfile.ts:68-73 | the copy is written under `dist/styles/` at the renamed path, whose `dirname` field is `.` or empty, and its text is the source with its imports rewritten by `ReplaceImports` |
| LessGulpfile.BuildLess | src/gulp/less/gulpfile.ts:75-86 | the build is written under `dist/styles/` at the renamed path of the source with its extension changed to `.css`, and its text is the compiled source, imports not rewritten |
| LessGulpfile.CopyAndBuildSideBySide | src/gulp/less/gulpfile.ts:68-92 | the two tasks run in parallel write a stylesheet to the same directory, `dirname` and basename; the copy keeps the source's extension and the build has `.css`, so for a `.less` source the two paths differ |
| LessGulpfile.TaskOutputsExample | src/gulp/less/gulpfile.ts:68-86 | `button/index.less` gives `button.less` from the copy and `button.css` from the build |
| JsString.StartsWith | src/gulp/less/gulpfile.ts:48 | `startsWith(prefix)` holds iff the prefix fits and the text is the prefix followed by the rest |
| JsString.EndsWith | src/gulp/less/gulpfile.ts:51 | `endsWith(suffix)` holds iff the suffix fits and the text is its front followed by the suffix |
| JsString.SliceFrom | src/gulp/less/gulpfile.ts:49 | `slice(start)` with an in-range start drops the first `start` characters; a start past the end gives the empty text; a negative start keeps that many trailing characters, at most all; the result is always a suffix of the text |
| JsString.Slice | src/gulp/less/gulpfile.ts:49-52 | `slice` with in-range indices is the subsequence; a negative end counts back from the end; the result is a prefix of the text from the start |
| JsString.Split | src/utils/index.ts:16-17 | no piece holds the separator; joining the pieces gives the text back; there is one piece more than there are separators |
| JsString.SplitJoin | src/utils/index.ts:16-17 | splitting a join of separator-free pieces gives the pieces back |
| JsString.ToUpperAscii | src/utils/index.ts:18 | `toUpperCase` on one character: it changes exactly the letters `a`-`z`, each to the matching `A`-`Z` |
| JsString.ToUpperAsciiIdempotent | src/utils/index.ts:18 | upper-casing twice is upper-casing once |
| Utils.MatchesScopedPattern | src/utils/index.ts:12 | `/^@.+\/.+$/.test(name)`: a matching name has a `/` after its `@`, possibly right after it as in `@/b/c`, and at least one character after its first `/` |
| Utils.ScopedPatternShape | src/utils/index.ts:12 | a name matches exactly when it splits as `@`, a non-empty scope, `/` and a non-empty rest, none holding a line terminator |
| Utils.PackageSegment | src/utils/index.ts:16 | the segment holds no `/`, directly follows the first `/` of the name and runs to the next `/` or to the end |
| Utils.Capitalize | src/utils/index.ts:18 | a piece keeps its length and every character after the first; the first is upper-cased |
| Utils.CapitalizeAll | src/utils/index.ts:18-19 | mapping `Capitalize` and joining with `''` keeps the total length of the pieces and starts with the first piece's upper-cased first character |
| Utils.GetLibraryName | src/utils/index.ts:10-22 | fails with `NameNotScoped` iff the name does not match `^@.+\/.+$`; fails with `EmptyNamePiece` iff it matches but the segment is empty, starts or ends with `-`, or holds `--`; otherwise yields `T` and the segment with its first character and the character after each `-` upper-cased and each `-` dropped |
| Utils.PascalCase | src/utils/index.ts:17-19 | the result is shorter than the segment by its number of `-`, holds no `-`, and holds a `/` only if the segment does |
| Utils.CapitalizeAllIsPascalCase | src/utils/index.ts:17-19 | capitalising the non-empty pieces and joining them equals the character-wise definition on their `-`-join |
| Utils.EmptyPieceIffBadDashes | src/utils/index.ts:17-18 | a split on `-` has no empty piece iff the text is non-empty, neither starts nor ends with `-`, and holds no `--` |
| Utils.LibraryNameShape | src/utils/index.ts:15-21 | a derived name starts with `T`, holds neither `-` nor `/`, and has length one more than the segment without its dashes |
| Utils.LibraryNameOfPieces | src/utils/index.ts:15-21 | `@scope/` followed by non-empty dash-free pieces joined by `-` is named `T` and the capitalised pieces |
| Utils.LibraryNameIgnoresLaterSegments | src/utils/index.ts:16 | text after a second `/` plays no part, so `@a/b/c` is named as `@a/b` is |
| Utils.LibraryNameExample | src/utils/index.ts:15-21 | `@<scope>/my-widget` is named `TMyWidget` |
| Utils.LibraryNameRejectsUnscoped | src/utils/index.ts:12-14 | `widget` is rejected by the pattern |
| Utils.LibraryNameRejectsBareScope | src/utils/index.ts:12-14 | `@<scope>/` is rejected by the pattern |
| Utils.LibraryNameRejectsDoubleDash | src/utils/index.ts:18 | a segment holding `--` passes the pattern and fails on the empty piece |
| Constants.IsEnvProduction | src/constants/index.ts:17 | a mode counts as production iff it is exactly the shipped mode `production`; the comparison is case-sensitive and takes the whole text |
| Constants.ShippedConstants | src/constants/index.ts:12-31 | the shipped mode is production, `sourceMap` is on, the warning size is 5242880 bytes, and a mode is production iff it equals the shipped one |
| Webpack.MinifiedFilename | src/webpack/umd.ts:30 | the filename is `index.min.js` iff production, `index.js` iff not |
| Webpack.SettingsDevtool | src/webpack/umd.ts:23 | the devtool is `source-map` iff the mode is not production and `sourceMap` is on |
| Webpack.SharedBabelLoader | src/webpack/loaders.ts:25-31 | both Babel source-map flags follow `sourceMap`, whatever the mode |
| Webpack.CssChain | src/webpack/index.ts:57 | a stylesheet goes through the extract, css and postcss loaders, in that order, and the css loader carries `sourceMap` |
| Webpack.LessChain | src/webpack/index.ts:61 | the `.less` chain is the `.css` chain followed by the less loader |
| Webpack.SharedMiniCssExtractPlugin | src/webpack/plugins.ts:15-17 | the extracted stylesheet is `[name].min.css` iff production, `[name].css` iff not |
| Webpack.ChainSwitches | src/webpack/loaders.ts:79-111 | every loader of the stylesheet chains that has a source-map flag carries `sourceMap` |
| WebpackUmdLib.GetConfig | src/webpack/umd-lib.ts:12-120 | `bail` and `minimize` hold iff the mode is production; every source-map switch is on iff it is not; the file is `index.<mode>.js` in the given directory; the library is `umd` with the given name; its one rule sends script files, outside `node_modules`, through Babel with the library's own setup and both source-map flags on iff the mode is not production; React is external; both size limits equal the warning size |
| WebpackUmdLib.LibFilename | src/webpack/umd-lib.ts:25 | the filename is `index.`, the mode, then `.js` |
| WebpackUmdLib.LibFilenameInjective | src/webpack/umd-lib.ts:25 | two modes give the same filename iff they are the same mode |
| WebpackUmdLib.ModeOnlyDifferences | src/webpack/umd-lib.ts:12-117 | environments differing only in mode give configurations equal outside the mode-decided fields; different modes give different filenames; a production and a non-production mode differ in `bail` and `devtool` |
| WebpackUmd.UmdConfig | src/webpack/umd.ts:18-63 | `bail` and `minimize` hold iff production; the devtool is as the settings decide; every loader's source-map flag follows `sourceMap`; its one rule sends script files, outside `node_modules`, through the shared Babel loader; Terser alone minimizes; no externals; both size limits equal the warning size |
| WebpackUmd.GetWebpackConfig | src/webpack/umd.ts:17-65 | fails iff the library name derivation fails, with its error; otherwise the library carries the derived name, which starts with `T` |
| WebpackIndex.GetWebpackConfig | src/webpack/index.ts:29-82 | `bail` and `minimize` hold iff production; the devtool is as the settings decide and every loader follows `sourceMap`; no library; its rules are exactly the application rules below; the extract plugin; Terser and the CSS minimizer; both size limits equal the warning size |
| WebpackIndex.AppRules | src/webpack/index.ts:47-64 | three rules in order, scripts (excluding `node_modules`), `.css`, `.less`; scripts go through the shared Babel loader, `.css` through extract, css and postcss loaders, `.less` through that chain plus the less loader; every loader's source-map flag equals `sourceMap` |
| WebpackComparison.UmdAndIndexAgree | src/webpack/umd.ts:18-63 | the utility and application builds agree on mode, `bail`, devtool, `minimize`, filename, script rule and size limits, and part in library, stylesheet rules, plugins, `.vue` and the CSS minimizer |
| WebpackComparison.ShippedSettingsSourceMaps | src/constants/index.ts:12-31 | with the shipped constants the devtool is off in the utility and application builds, while every loader still asks for source maps |
| WebpackComparison.IndexSettingsOnlyDecideSwitches | src/webpack/index.ts:29-82 | any two settings give application configurations equal outside the mode- and source-map-decided fields |
| WebpackComparison.UmdSettingsOnlyDecideSwitches | src/webpack/umd.ts:18-63 | any two settings give utility configurations, for one library name, equal outside the decided fields |
| WebpackComparison.ProductionBuildsCompared | src/webpack/umd-lib.ts:19-45 | a production library build asks for no source map and is named `index.production.js`; a production application build with `sourceMap` on keeps loader source maps and is named `index.min.js` |

## Left out

- Gulp streams, the `Transform` that reads and writes `file.contents` as a `Buffer`, `src`/`dest`, and the `watch` and `parallel` tasks: these are I/O and concurrency. The text transform they carry is `ReplaceImports`, and the writes are the `Written` records of `CopyLess` and `BuildLess`.
- The less compiler, autoprefixer and clean-css in `buildLess`: foreign code, given to `BuildLess` as the parameter `compile`.
- `src/gulp/css/gulpfile.ts`, the `npx gulp` launchers in `src/gulp/*/index.ts`, `src/build.ts`, `src/start.ts` and the command-line entry `src/index.ts` call foreign tools and services and hold no logic of their own.
- Reading `package.json` and resolving paths against the working directory in `getLibraryName`: I/O. The package name is the input.
- `getLibEnv` is not part of this model. Its result is the input record `LibEnv`.
- The loader and plugin option records in `src/webpack/loaders.ts` and `src/webpack/plugins.ts` are tokens. Only the source-map flags, the Babel set-up and the extracted stylesheet's filename are kept.
- `chunkFilename` and `fileName` are kept as constants; no builder reads them. `browserslist` is read by the shared Babel loader (src/webpack/loaders.ts:28), so it reaches the utility and application builds only through the `SharedBabelSetup` token, which does not carry its value.
- The configuration fields that no rule decides (the Terser options, `cacheDirectory` and the like) are not modelled.
- JsString.ToUpperAscii: upper-cases only `a`-`z`. It does not model `toUpperCase` on other characters, some of which become two.
- Utils.GetLibraryName: strings are sequences of characters, not of UTF-16 code units, so `item[0]` on a piece that starts with a surrogate pair is not modelled.
- LessGulpfile.RewriteImportPath: `path.length - '/index'.length` counts UTF-16 code units; the model counts characters, so a path such as `😀index`, which JavaScript cuts to a lone high surrogate, becomes empty here. The two agree on paths without surrogate pairs.
- LessGulpfile.MatchImportAt: JavaScript's `.` matches UTF-16 code units; the model matches characters, and the two agree on text without surrogate pairs.
