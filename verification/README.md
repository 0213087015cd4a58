# uniweb module builder: a Dafny model of its decision logic

The module builder is the build and scaffolding toolkit of a component-library
monorepo. Its source directory `src/` holds one directory per module, and each
module holds `components/<Name>/` with an `index.js` and a `meta/config.yml`.
Around that convention the toolkit

- bumps a module's version, commits it and tags it (`version-modules.js`);
- derives the Webpack build mode, module, public path, output directory and
  version files from the environment (`webpackHelper.js`);
- after a build, deletes old build folders beyond a retention count and logs
  the public URL without the build id (`cleanAndLogPlugin.js`);
- writes each module's `dynamicExports.js` from the components whose config
  allows export (`generateExports.js`);
- collects every `.yml` file of the source tree into one `schema.json` asset,
  keyed by the file's grandparent directory (`yamlSchemaPlugin.js`);
- scaffolds modules and components from prompts (`boilerplate.js`);
- emits a `manifest.json` listing the build's assets (`manifestGeneratorPlugin.js`).

The model keeps the decisions and drops the I/O. A directory listing is a
sequence of `Snapshot.Dirent` (name, is-directory flag, modification time).
File contents and YAML parse outcomes are given as `Result` values. Prompt
answers, environment variables, the build id and timestamps are parameters.
Writes and deletions come back as values: the text to write, or the folders
to delete.

Files: `common.dfy` (Option, Result), `strings.dfy` (prefixes, `split`/`join`,
decimals), `values.dfy` (a parsed YAML/JSON value and JavaScript
truthiness), `snapshot.dfy` (directory entries). Then there is one module per
source file: `version_modules.dfy`, `webpack_helper.dfy`, `clean_and_log.dfy`,
`generate_exports.dfy`, `yaml_schema.dfy`, `boilerplate.dfy` and `manifest.dfy`.

Two consequences of the code shape the model:
- The schema plugin has no `export: false` check. It does no preset, image or
  element auto-completion, and no module-level reserved key. It walks the
  whole source tree for `.yml` files, and every successfully parsed file goes
  into the schema under its grandparent directory's name. A module's own
  `src/<module>/module.yml` therefore lands under the key `src`. An empty
  YAML document loads as `undefined` (`Values.Undefined`). It is stored
  under its key like any other value, and `JSON.stringify` then drops the
  key from `schema.json`.
- Neither `export` nor `exportType` comes from the prompt. The prompt's
  lookup table is indexed by the chosen label and never by its position, so
  a prompted component is always `plain` (`Boilerplate.ExportTypeAlwaysPlain`).

## Model

| member | source | states |
|---|---|---|
| VersionModules.Bump | src/version-modules.js:16-29 | the bump succeeds iff the kind is patch, minor or major, and the error names the kind; patch raises only the third number; minor raises the second and resets patch; major raises the first and resets both; the result is lexicographically greater than the old version |
| VersionModules.BumpIsLeast | src/version-modules.js:19-25 | the bumped version is the smallest version that raises the part the kind names: any version that does so equals it or comes after it |
| VersionModules.ParseFormatVersion | src/version-modules.js:17 | splitting the rendered `major.minor.patch` text on dots and reading the numbers gives the version back |
| VersionModules.UpdateVersion | src/version-modules.js:16-29 | an unknown kind is an error whatever the text; otherwise it succeeds iff every part the bump prints (three for patch, two for minor, one for major) is empty or a decimal natural, and the new text parses to the bump of those parts, the unprinted ones read as 0; a well-formed version always succeeds and its bump is greater than it |
| VersionModules.PartValue | src/version-modules.js:17 | `Number` of a part: an empty part reads as 0, a digit run as its decimal value, and anything else, a missing part included, has no value |
| VersionModules.MinorBumpIgnoresPatch | src/version-modules.js:17-23 | a minor bump of `<major>.<minor>.<anything>` reads only the first two parts and succeeds, so a prerelease such as `1.2.3-beta.1` bumps to the bump of `1.2` |
| VersionModules.MajorBumpReadsFirstPart | src/version-modules.js:17-25 | a major bump of `<major>.<anything>` reads only the first part and succeeds |
| VersionModules.ModuleDirs | src/version-modules.js:9-14 | a name is listed iff it is a directory of `src` that holds a package.json |
| VersionModules.ModuleDirsAppend | src/version-modules.js:9-14 | the modules keep listing order: the modules of a concatenated listing are those of the first part followed by those of the second, which fixes the numbering the prompt shows |
| VersionModules.SelectModule | src/version-modules.js:31-72 | an empty list is an error; a single module is returned; a module named on the command line is returned iff it is in the list; otherwise answer n selects the n-th module iff 1 ≤ n ≤ length, NaN included among the errors; a result is always a listed module |
| VersionModules.SelectSoleModule | src/version-modules.js:36-38 | with one module, neither the argument nor the answer changes the result |
| VersionModules.ProvidedAsWritten | src/version-modules.js:41 | the module argument is the fourth command-line argument whatever it holds, and empty when there is none |
| VersionModules.ProvidedModule | src/version-modules.js:41-47 | the module argument is the first argument after the bump kind that is not a `--` flag: a non-empty result is such an argument, and an empty one means every argument after the kind is empty or a flag |
| VersionModules.PushFlagTakenAsModule | src/version-modules.js:41-45 | run as `<kind> --push` over two or more modules, none named `--push`, the selection fails with module `--push` not found |
| VersionModules.PushFlagSkipped | src/version-modules.js:41-47 | skipping flags, `<kind> --push` has no module argument, so the selection prompts as if none were given, and `<kind> --push <m>` selects `m` |
| VersionModules.UpdateModuleVersion | src/version-modules.js:74-88 | only the `version` field of package.json changes, and no key is added or removed; the old and new versions are reported, and the new one is the bump of the parts of the old one the kind reads; it fails iff the version is missing or not a string, the kind is invalid, or a part the bump prints is malformed, and an invalid kind is the error reported for any string version |
| VersionModules.TagRoundTrip | src/version-modules.js:101 | the tag `<name>/v<version>` splits at its last slash back into the module name and the version |
| VersionModules.TagMessageRoundTrip | src/version-modules.js:102 | the annotation `Version <new> of <name>` reads back, at its first space after `Version `, into the new version and the module name, whatever the name holds |
| VersionModules.CommitMessageRoundTrip | src/version-modules.js:91-92 | the commit message `Update <name> version: <old> → <new>` ends with the new version, read back after its last `→`, whatever the name and the old version hold |
| WebpackHelper.ValidUrl | src/webpackHelper.js:15-28 | an empty variable gives `''` and an unparseable one `false`; otherwise the result is protocol + `//` + hostname + pathname, with one trailing slash dropped exactly when there is one |
| WebpackHelper.ValidUrlIgnoresPortQueryFragment | src/webpackHelper.js:26-28 | two URLs with the same protocol, hostname and path validate to the same value, whatever their port, query and fragment |
| WebpackHelper.DeriveMode | src/webpackHelper.js:54-70 | an explicit mode is kept; with no mode, a Cloudflare URL and a branch give production iff the branch is `main` or `master`; any other case without a mode is production |
| WebpackHelper.FirstModule | src/webpackHelper.js:72-83 | the default module is the first directory of `src` not named `utils`, and there is none iff no entry qualifies |
| WebpackHelper.TunnelText | src/webpackHelper.js:89-96 | with a tunnel requested and TUNNEL_URL set, the tunnel is the validated URL and the derivation fails iff that URL is falsy; with a tunnel requested and no TUNNEL_URL, the tunnel is the created one and the derivation fails iff none was created; the tunnel is never empty; without a tunnel the raw variable is used, `undefined` when unset |
| WebpackHelper.LifecyclePaths | src/webpackHelper.js:98-144 | `build:dev` fails iff there is no Cloudflare URL; every public path set ends in `/<module>/<uuid>/`; the destination is `build_dev` exactly for the watch and copy events and `dist` exactly for the build events; an unknown event leaves everything unset; Cloudflare wins over PUBLIC_URL for `build` outside development and for `build:prod`; the commit and copy builds always use PUBLIC_URL; the watch events use the tunnel and `http://localhost:3005` |
| WebpackHelper.DeriveConfig | src/webpackHelper.js:37-226 | it succeeds iff a public URL is available in production, the tunnel is found, `build:dev` runs under Cloudflare, the module is a non-empty name listed in `src`, and the lifecycle event is known; each failure is the first error thrown in source order: no public URL, missing tunnel, `build:dev` outside Cloudflare, an undefined module passed to `path.resolve` for a known event, module not found, no destination for an unknown event; a successful config has the derived mode, that module, destination `build_dev` iff the event is a watch or copy event, output path `<dest>/<module>/<uuid>` and a public path ending in `/<module>/<uuid>/`; the registry entry is written iff the mode is development and the build is local, otherwise the version files are written into the destination |
| WebpackHelper.PublicPathFollowsMode | src/webpackHelper.js:225-226 | the public path used is the development path in development mode and the production path in every other mode |
| WebpackHelper.DefaultModuleExists | src/webpackHelper.js:156-162 | when no module is named and `src` has a candidate directory, the default module passes the existence check |
| CleanAndLog.Construct | src/cleanAndLogPlugin.js:21-29 | construction fails iff outputPath, publicUrl or currentBuildUuid is empty; a missing or zero keepBuilds becomes 5, and any other value is kept |
| CleanAndLog.Candidates | src/cleanAndLogPlugin.js:46-54 | the candidates are exactly the directories of the output folder other than the current build's |
| CleanAndLog.SortNewestFirst | src/cleanAndLogPlugin.js:55-60 | the candidates are reordered by modification time, newest first, as a permutation |
| CleanAndLog.SliceFrom | src/cleanAndLogPlugin.js:63 | `slice(start)` is always a suffix of the array; a non-negative start drops that many elements (all of them when it is past the end), and a negative start keeps that many from the end (all of them when it exceeds the length) |
| CleanAndLog.PlanCleanup | src/cleanAndLogPlugin.js:45-69 | only old build directories are deleted; kept and deleted together are exactly the candidates; every deleted folder is no newer than every kept one; for keepBuilds ≥ 1 the keepBuilds − 1 newest are kept and max(0, n − (keepBuilds − 1)) are deleted; a negative keepBuilds deletes the 1 − keepBuilds oldest |
| CleanAndLog.KeptCountIsSlice | src/cleanAndLogPlugin.js:62-63 | the guarded slice deletes exactly what follows the kept prefix |
| CleanAndLog.TrimTrailingSlashes | src/cleanAndLogPlugin.js:110 | the result is a prefix of the text, does not end in `/`, and only slashes were removed |
| CleanAndLog.CleanPublicUrl | src/cleanAndLogPlugin.js:107-111 | the logged URL never ends in `/` |
| CleanAndLog.CleanPublicUrlUnchanged | src/cleanAndLogPlugin.js:108-110 | a URL with no `/<uuid>/` segment and no trailing slash is logged unchanged |
| CleanAndLog.CleanPublicUrlDropsBuildSegment | src/cleanAndLogPlugin.js:107-111 | a build's public URL `<base>/<uuid>/` is logged as `<base>` when the base holds no such segment and no trailing slash |
| CleanAndLog.OnDone | src/cleanAndLogPlugin.js:34-42 | cleanup, the `latest_version.txt` write and the URL log happen iff the compilation has no errors; the deleted folders are exactly the planned ones and never the current build; the latest version file holds the build id in the output folder; the logged URL is the public URL with its build segment and trailing slashes removed |
| GenerateExports.ExportedComponents | src/generateExports.js:13-28 | a component is listed iff its `index.js` and `meta/config.yml` exist, its config parses to a truthy value and its `export` is not `false` |
| GenerateExports.ExportedComponentsAppend | src/generateExports.js:13-28 | each component is decided on its own, and directory order is kept |
| GenerateExports.ParseErrorIsIsolated | src/generateExports.js:19-26 | a config that fails to parse removes only its own component from the list |
| GenerateExports.ExportsTextRoundTrip | src/generateExports.js:31-36 | the generated text is the warning header followed by one export line per exported component, in order, and reading it back gives exactly those names |
| GenerateExports.GenerateModuleExports | src/generateExports.js:5-47 | an unreadable components directory is an error; otherwise the generated text is written iff it differs from the existing file |
| GenerateExports.GenerateIsIdempotent | src/generateExports.js:39-46 | a missing file is always written, and a second run over the written file writes nothing |
| GenerateExports.RunAll | src/generateExports.js:54-56 | the run stops iff some module's components directory cannot be listed, and then it names the first such module; it writes at most one file per module |
| GenerateExports.RunAllWrites | src/generateExports.js:39-56 | the run writes exactly the modules it reaches whose file changes: every write is a reached module's generated text, and every reached module whose text differs from its file is written |
| GenerateExports.RunAllAppend | src/generateExports.js:54-56 | modules are processed in listing order: a run over two listings is the run over the first when it stops, and otherwise its writes followed by the run over the second |
| GenerateExports.GenerateExports | src/generateExports.js:49-57 | with a module argument only that module's directory is processed, whether or not `src` lists it: an unreadable directory fails with its name, and otherwise its text is written iff it changed; without an argument every module of `src` is processed in listing order |
| YamlSchema.MakeOptions | src/yamlSchemaPlugin.js:7-13 | `srcDir` defaults to `../src` and `output` to `schema.json`, and given options override them |
| YamlSchema.FindSound | src/yamlSchemaPlugin.js:102-118 | every file the walk returns is a non-directory with extension `.yml`, reached through directories of the tree |
| YamlSchema.FindComplete | src/yamlSchemaPlugin.js:102-118 | every `.yml` file of the tree is returned |
| YamlSchema.FindYmlFilesExact | src/yamlSchemaPlugin.js:102-118 | the walk returns exactly the `.yml` files of the tree, each under the starting directory |
| YamlSchema.BuildSchema | src/yamlSchemaPlugin.js:35-52 | the schema keys are exactly the grandparent names of the files that parsed; each key holds the value of the last such file; there are as many errors as failing files, and each error names a failing file with its message |
| YamlSchema.FailureLeavesSchema | src/yamlSchemaPlugin.js:42-51 | a failing file leaves the schema unchanged and appends exactly one error |
| YamlSchema.SchemaFromTree | src/yamlSchemaPlugin.js:33-46 | every schema entry is the parsed content of some `.yml` file of the tree whose grandparent name is the key |
| YamlSchema.ProcessAssets | src/yamlSchemaPlugin.js:27-61 | an unreadable source directory aborts the callback, and otherwise one asset is emitted under the configured output name, even when every file failed; the errors are exactly one per failing file, with its message; a key is in the emitted schema iff the last file under it that parsed holds a value other than `undefined`, and then the key holds that value; every entry comes from a `.yml` file of the tree |
| YamlSchema.SerialisedExact | src/yamlSchemaPlugin.js:44-55 | serialising the aggregated schema keeps a key iff its last parsed file is not `undefined`, with that file's value |
| Boilerplate.PromptChoice | src/boilerplate.js:22-30 | answer n gives `choices[n-1]` iff 1 ≤ n ≤ length, and `null` otherwise, non-numeric input included |
| Boilerplate.NewestIndex | src/boilerplate.js:40-48 | the chosen entry is a module directory with the greatest modification time, earliest on ties, and there is none iff no entry is a module directory |
| Boilerplate.NewestModule | src/boilerplate.js:32-49 | null when `src` is missing or has no directory outside `_`-prefixed names; otherwise the name of a module directory no older than any other |
| Boilerplate.ModuleOrDefault | src/boilerplate.js:280 | the module falls back to `StarterLibrary` when there is no newest module, and is never empty |
| Boilerplate.PromptForModuleInfo | src/boilerplate.js:51-65 | given options are kept; a missing name takes the answer; a missing description takes the answer, or `A web component library` when that is empty |
| Boilerplate.ModuleInfoSettles | src/boilerplate.js:51-65 | once the name is filled in, prompting again changes nothing |
| Boilerplate.ExportTypeAlwaysPlain | src/boilerplate.js:74-82 | whatever the answer, the prompted export type is `plain` |
| Boilerplate.PromptForComponentInfo | src/boilerplate.js:67-113 | given options are kept; a missing name takes the answer; without `--export` or `--config` the export type is `plain`; the module is the given one, else a non-empty answer, else the newest module or `StarterLibrary`, and is never empty; the type is the given one, else the answered choice, else `section`; the description is the given one, else a non-empty answer, else `A new web component`; the parameters are the given ones or the answer |
| Boilerplate.ComponentInfoSettles | src/boilerplate.js:67-113 | prompting again over filled-in options changes nothing |
| Boilerplate.Capitalize | src/boilerplate.js:213 | the label keeps the name's length and every character but the first, which is uppercased |
| Boilerplate.ParseParam | src/boilerplate.js:211-214 | the name is the text of the item up to its first `:`; the type is missing iff the item has no `:`, and otherwise is the text after that `:` up to the next one or the end; the label is the capitalised name |
| Boilerplate.ParseParameters | src/boilerplate.js:208-216 | there is one parameter per comma-separated item, even for an empty string, and the i-th parameter is read from the i-th item |
| Boilerplate.ParseParametersRoundTrip | src/boilerplate.js:208-216 | comma-joined `name:type` items parse back into exactly those names and types, with capitalised labels |
| Boilerplate.UpdateModuleIndex | src/boilerplate.js:247-257 | the module index is written iff it lacks the component's export line; the old content is kept as a prefix, followed by a newline and the line |
| Boilerplate.UpdateModuleIndexIdempotent | src/boilerplate.js:247-257 | adding the same component twice writes only once |
| Boilerplate.CreateComponent | src/boilerplate.js:275-298 | a component is exported iff `--export` is given or its export type is `export`; an exported component has config; config files are written iff it has config; the module index is updated only for an exported component; the module defaults to the newest one or `StarterLibrary` |
| Boilerplate.CliComponentInfo | src/console.js:31-39 | called with the project directory as its options, as the command line does, the prompt yields a component that is neither exported nor configured, of export type `plain`, named by the answer |
| Boilerplate.CliModuleInfo | src/console.js:22-30 | called with the project directory as its options, the module name is always the answer and the description the answer or `A web component library` |
| Boilerplate.CliIgnoresFlags | src/console.js:31-35 | through the command line the flags change nothing, and the created component gets neither config files nor a module-index line |
| Boilerplate.ExportFlagExports | src/boilerplate.js:275-298 | with the flags passed as the options, `--export` gives the component config files and adds its export line to the module index when missing |
| Manifest.Filename | src/manifestGeneratorPlugin.js:5-10 | the manifest file name defaults to `manifest.json`, and a given name overrides it |
| Manifest.ManifestFiles | src/manifestGeneratorPlugin.js:25-34 | every asset not named like the manifest has an entry with its name, its size and the compilation hash; no entry names the manifest |
| Manifest.ManifestFilesAppend | src/manifestGeneratorPlugin.js:25-34 | entries follow asset order |
| Manifest.ManifestFilesCount | src/manifestGeneratorPlugin.js:25-34 | with distinct asset names, there is exactly one entry per asset other than the manifest |
| Manifest.ManifestIgnoresItself | src/manifestGeneratorPlugin.js:25-26 | a previous manifest among the assets changes nothing |
| Manifest.Generate | src/manifestGeneratorPlugin.js:19-40 | the manifest is emitted under the configured file name with the given timestamp, and an asset is listed iff it is not the manifest |

## Left out

- URL parsing (the WHATWG URL Standard behind `new URL`) is not modelled: a URL arrives already split into protocol, hostname, port, path, query and fragment, or as unparseable.
- Filesystem effects are not modelled: listing, `stat`, reading, writing, `mkdir`, recursive deletion, `outputJsonSync`. Listings and file contents are inputs, and writes and deletions are results.
- YAML parsing (js-yaml) and JSON serialisation are not modelled. A parse is given as `Ok(value)` or `Err(message)`, and the emitted schema and manifest are values, not JSON text.
- The Webpack configuration literal is not modelled: the entry file, resolve extensions, loaders, the Tailwind loader choice, dev-server settings and the module-federation `shared` table are static data.
- Git commands (`git add`, `commit`, `tag`, `push`) and the `main` routine of the version script are not modelled; only the commit message, tag name and tag message are, and the module argument `selectModule` reads.
- `deploy.js`, `release.js`, `tunnel.js`, `server.js` and `index.js` are not part of this model, and of `console.js` only the way it calls the two prompt functions is. The tunnel a watch build starts is the `createdTunnel` parameter.
- Readline prompts, `uuidv4()`, `new Date()` and console logging are not modelled. Answers, the build id and timestamps are parameters; `parseInt` is an `Option<int>` with `None` for NaN.
- The component, module, package.json, Tailwind, CSS and notes templates of `createModule` and `createComponent` are not rendered. The plan names the files and the values they are written from.
- VersionModules.UpdateVersion: only the parts a bump prints are read, as the source does. A printed part that is empty reads as 0, and one that is a digit run reads as its value. Any other printed part gives `MalformedVersion` instead of the text the source computes: a missing part or a non-number renders as `NaN`, and `Number` also accepts forms such as `" 1"`, `"0x1"`, `"1e3"` or `"Infinity"`. Numbers are unbounded, so the loss of precision above 2^53 and the exponent rendering of values of 1e21 and above are not modelled.
- WebpackHelper.DeriveConfig: an unknown lifecycle event is `NoDestination`, the point where the source throws inside `path.resolve(undefined, …)`. In development with a local build, the source writes the registry entry just before that throw; the model does not report that write.
- WebpackHelper.DeriveConfig: unset and empty environment variables are both `""`. Only `TUNNEL_URL` keeps an absent case, because outside a tunnel build its raw value is interpolated and prints as `undefined`.
- CleanAndLog.CleanPublicUrl: the build id is matched literally. The source builds a regular expression from it without escaping, so an id holding `.`, `+` or `*` matches other text too, and one holding an unbalanced `(` throws in the done hook. A `uuidv4()` id holds only hex digits and dashes, for which the two agree.
- CleanAndLog.Construct: `keepBuilds` is an integer. A non-numeric or fractional value is not modelled.
- Values.Value: numbers are integers. YAML and JSON floating-point numbers are not represented.
- YamlSchema.BuildSchema: the schema is a map without key order. JSON output order, including `for…in` putting integer-like keys first, is not modelled.
- Manifest.ManifestFiles: assets are a sequence in `for…in` order. The reordering of integer-like asset names is not modelled.
- Boilerplate.Capitalize: `toUpperCase` is modelled on ASCII letters only.
- Manifest.Generate: `emitAsset` conflicts, when an asset with the manifest's name already exists, are not modelled.
- YamlSchema.ProcessAssets: only an unreadable source directory is an error. The tree is given as a value, so a nested directory that cannot be listed, or a dangling symbolic link that `statSync` rejects, cannot be expressed, although both throw in the walk.
- YamlSchema.MakeOptions: an option is present or absent. An option passed explicitly as `undefined` overrides the default with `undefined` in the spread, and the model does not distinguish it from an absent one.
- Manifest.Filename: likewise, a `filename` passed explicitly as `undefined` is treated as absent, although the spread gives `undefined` rather than `manifest.json`.
- YamlSchema.ProcessAssets: `emitAsset` conflicts with an existing asset of the output name are not modelled.

## Findings

| source | as written | input that shows it | evidently intended | confidence | as-written member | corrected member |
|---|---|---|---|---|---|---|
| src/console.js:24-33 | the command line calls `promptForModuleInfo(projectDir, yargs.argv)` and `promptForComponentInfo(projectDir, yargs.argv)`, but both take one parameter, so they spread the project directory string as the options and never see the flags | `new:component --export --name Hero` | the flags are the options: the name is not prompted for, and `--export` gives config files and a module-index line | not executed | Boilerplate.CliIgnoresFlags | Boilerplate.ExportFlagExports |
| src/version-modules.js:41-45 | `selectModule` takes `process.argv[3]` as the module name, but the `push:*` scripts listed at the end of the file run `version-modules.js <kind> --push`, so that argument is the flag | `node version-modules.js patch --push` with modules `a` and `b` | `--push` is a flag, not a module name: the module is prompted for, as without the flag | not executed | VersionModules.PushFlagTakenAsModule | VersionModules.PushFlagSkipped |
