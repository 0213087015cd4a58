/** The scaffolding CLI's decisions: reading a numbered choice, picking the
    most recently changed module, filling in defaults from the answers,
    parsing the `name:type` parameter list, and planning which files a new
    component gets. Prompts are replaced by their answers and file writes by
    the plan they follow. */
module Boilerplate {
  import opened Common
  import opened Strings
  import opened Snapshot
  import GenerateExports

  // ---- promptChoice ----

  /** `promptChoice`: the answer `n` (None when `parseInt` gives NaN) picks
      `choices[n - 1]`; anything out of range gives `null`. */
  function PromptChoice(choices: seq<string>, answer: Option<int>): (r: Option<string>)
    ensures r.Some? <==> answer.Some? && 1 <= answer.value <= |choices|
    ensures r.Some? ==> r.value == choices[answer.value - 1]
  {
    match answer
    case None => None
    case Some(n) =>
      var index := n - 1;
      if index >= 0 && index < |choices| then Some(choices[index]) else None
  }

  // ---- getNewestModule ----

  predicate IsModuleDir(d: Dirent)
  {
    d.isDir && !StartsWith(d.name, "_")
  }

  /** The position of the entry the newest-first stable sort puts first:
      the module directory with the greatest time, the earliest on ties. */
  function NewestIndex(s: seq<Dirent>): (r: Option<nat>)
    ensures r.None? <==> forall i :: 0 <= i < |s| ==> !IsModuleDir(s[i])
    ensures r.Some? ==> r.value < |s| && IsModuleDir(s[r.value])
    ensures r.Some? ==> forall j :: 0 <= j < |s| && IsModuleDir(s[j]) ==> s[j].mtime <= s[r.value].mtime
    ensures r.Some? ==> forall j :: 0 <= j < r.value && IsModuleDir(s[j]) ==> s[j].mtime < s[r.value].mtime
    decreases |s|
  {
    if |s| == 0 then None
    else
      var rest := NewestIndex(s[1..]);
      assert forall i :: 1 <= i < |s| ==> s[i] == s[1..][i - 1];
      if !IsModuleDir(s[0]) then
        if rest.Some? then Some(rest.value + 1) else None
      else if rest.None? || s[rest.value + 1].mtime <= s[0].mtime then Some(0)
      else Some(rest.value + 1)
  }

  /** `getNewestModule`: null when `src` is missing or holds no module
      directory (one not starting with `_`), otherwise the newest one. */
  function NewestModule(src: Option<seq<Dirent>>): (r: Option<string>)
    ensures src.None? ==> r.None?
    ensures src.Some? ==> (r.None? <==> forall i :: 0 <= i < |src.value| ==> !IsModuleDir(src.value[i]))
    ensures r.Some? ==> exists i :: 0 <= i < |src.value| && IsModuleDir(src.value[i]) && src.value[i].name == r.value
                                    && forall j :: 0 <= j < |src.value| && IsModuleDir(src.value[j]) ==>
                                         src.value[j].mtime <= src.value[i].mtime
  {
    match src
    case None => None
    case Some(s) =>
      match NewestIndex(s)
      case None => None
      case Some(i) => Some(s[i].name)
  }

  // ---- Defaults from the answers ----

  const DefaultModule := "StarterLibrary"

  /** `getNewestModule(dir) || 'StarterLibrary'`. */
  function ModuleOrDefault(src: Option<seq<Dirent>>): (r: string)
    ensures r != ""
    ensures NewestModule(src).Some? && NewestModule(src).value != "" ==> r == NewestModule(src).value
    ensures NewestModule(src).None? ==> r == DefaultModule
  {
    match NewestModule(src)
    case Some(name) => if name != "" then name else DefaultModule
    case None => DefaultModule
  }

  const DefaultModuleDescription := "A web component library"
  const DefaultComponentDescription := "A new web component"
  const DefaultType := "section"

  datatype ModuleInfo = ModuleInfo(name: string, description: string)

  /** `promptForModuleInfo`: options given on the command line are kept;
      missing ones take the answers, and an empty description answer takes
      the default description. */
  function PromptForModuleInfo(argv: ModuleInfo, nameAnswer: string, descriptionAnswer: string): (r: ModuleInfo)
    ensures r.name == (if argv.name != "" then argv.name else nameAnswer)
    ensures argv.description != "" ==> r.description == argv.description
    ensures argv.description == "" && descriptionAnswer != "" ==> r.description == descriptionAnswer
    ensures argv.description == "" && descriptionAnswer == "" ==> r.description == DefaultModuleDescription
  {
    var name := if argv.name != "" then argv.name else nameAnswer;
    var description :=
      if argv.description != "" then argv.description
      else if descriptionAnswer != "" then descriptionAnswer
      else DefaultModuleDescription;
    ModuleInfo(name, description)
  }

  /** Answers are read only for missing options: once the name is filled
      in, prompting again changes nothing. */
  lemma ModuleInfoSettles(argv: ModuleInfo, nameAnswer: string, descriptionAnswer: string,
                          nameAnswer2: string, descriptionAnswer2: string)
    requires argv.name != "" || nameAnswer != ""
    ensures var info := PromptForModuleInfo(argv, nameAnswer, descriptionAnswer);
            PromptForModuleInfo(info, nameAnswer2, descriptionAnswer2) == info
  {
  }

  const ExportChoices := ["Exportable component", "Non-exported but with meta files",
                          "Non-exported, plain component", "Shared component (in _shared folder)"]
  const ExportTypes := ["export", "config", "plain", "shared"]
  const TypeChoices := ["section", "block", "element"]

  /** The array index a property key denotes: only the canonical decimal
      rendering of a natural is one. */
  function CanonicalIndex(key: string): (r: Option<nat>)
    ensures r.Some? ==> IsDigits(key)
  {
    if IsDigits(key) && (|key| == 1 || key[0] != '0') then Some(ParseDecimal(key)) else None
  }

  /** `arr[key]` for a string key: an element when the key is an index in
      range, `undefined` otherwise. */
  function ArrayLookup(arr: seq<string>, key: string): Option<string>
  {
    match CanonicalIndex(key)
    case Some(i) => if i < |arr| then Some(arr[i]) else None
    case None => None
  }

  /** `['export', 'config', 'plain', 'shared'][exportType] || 'plain'`, where
      `exportType` is the chosen label or `null` (whose key is `"null"`). */
  function ExportTypeOf(choice: Option<string>): string
  {
    OrElse(ArrayLookup(ExportTypes, OrElse(choice, "null")), "plain")
  }

  /** The lookup is keyed by the chosen label, never by its position, so the
      prompt always ends in the plain component type. */
  lemma ExportTypeAlwaysPlain(answer: Option<int>)
    ensures ExportTypeOf(PromptChoice(ExportChoices, answer)) == "plain"
  {
    var key := OrElse(PromptChoice(ExportChoices, answer), "null");
    assert key[0] == 'E' || key[0] == 'N' || key[0] == 'S' || key[0] == 'n';
    assert !IsDigit(key[0]);
    assert CanonicalIndex(key).None?;
  }

  /** Options of a new component. `kind` is the component type and
      `exported` the `--export` flag. */
  datatype ComponentOptions = ComponentOptions(
    name: string,
    exported: bool,
    config: bool,
    exportType: string,
    moduleName: string,
    kind: string,
    description: string,
    parameters: string)

  /** The answers to the prompts, read only for options that are missing.
      Numbered answers are what `parseInt` gave (None for NaN). */
  datatype ComponentAnswers = ComponentAnswers(
    name: string,
    exportChoice: Option<int>,
    moduleName: string,
    typeChoice: Option<int>,
    description: string,
    parameters: string)

  /** `promptForComponentInfo`; `cwdSrc` is the listing of `src` under the
      working directory (None when it does not exist). */
  function PromptForComponentInfo(argv: ComponentOptions, answers: ComponentAnswers,
                                  cwdSrc: Option<seq<Dirent>>): (r: ComponentOptions)
    ensures r.exported == argv.exported && r.config == argv.config
    ensures r.name == (if argv.name != "" then argv.name else answers.name)
    ensures !argv.exported && !argv.config ==> r.exportType == "plain"
    ensures argv.exported || argv.config ==> r.exportType == argv.exportType
    ensures r.moduleName != ""
    ensures argv.moduleName != "" ==> r.moduleName == argv.moduleName
    ensures argv.moduleName == "" && answers.moduleName != "" ==> r.moduleName == answers.moduleName
    ensures argv.moduleName == "" && answers.moduleName == "" ==>
              r.moduleName == ModuleOrDefault(cwdSrc)
    ensures argv.kind != "" ==> r.kind == argv.kind
    ensures argv.kind == "" ==> r.kind in TypeChoices
    ensures argv.kind == "" && PromptChoice(TypeChoices, answers.typeChoice).Some? ==>
              r.kind == PromptChoice(TypeChoices, answers.typeChoice).value
    ensures argv.kind == "" && PromptChoice(TypeChoices, answers.typeChoice).None? ==> r.kind == DefaultType
    ensures r.description != ""
    ensures argv.description != "" ==> r.description == argv.description
    ensures argv.description == "" && answers.description != "" ==> r.description == answers.description
    ensures argv.description == "" && answers.description == "" ==> r.description == DefaultComponentDescription
    ensures r.parameters == (if argv.parameters != "" then argv.parameters else answers.parameters)
  {
    var name := if argv.name != "" then argv.name else answers.name;
    var exportType :=
      if !argv.exported && !argv.config then
        ExportTypeAlwaysPlain(answers.exportChoice);
        ExportTypeOf(PromptChoice(ExportChoices, answers.exportChoice))
      else argv.exportType;
    var defaultModule := ModuleOrDefault(cwdSrc);
    var moduleName :=
      if argv.moduleName != "" then argv.moduleName
      else if answers.moduleName != "" then answers.moduleName
      else defaultModule;
    var kind := if argv.kind != "" then argv.kind else OrElse(PromptChoice(TypeChoices, answers.typeChoice), DefaultType);
    var description :=
      if argv.description != "" then argv.description
      else if answers.description != "" then answers.description
      else DefaultComponentDescription;
    var parameters := if argv.parameters != "" then argv.parameters else answers.parameters;
    ComponentOptions(name, argv.exported, argv.config, exportType, moduleName, kind, description, parameters)
  }

  /** Prompting a second time over filled-in options changes nothing, as
      long as the name and parameters were given. */
  lemma ComponentInfoSettles(argv: ComponentOptions, answers: ComponentAnswers, answers2: ComponentAnswers,
                             cwdSrc: Option<seq<Dirent>>)
    requires argv.name != "" || answers.name != ""
    requires argv.parameters != "" || answers.parameters != ""
    ensures var info := PromptForComponentInfo(argv, answers, cwdSrc);
            PromptForComponentInfo(info, answers2, cwdSrc) == info
  {
  }

  // ---- The command line ----

  /** What `{ ...projectDir }` holds under the option names: spreading a
      string gives only its index keys, so every option is absent. */
  const NoOptions := ComponentOptions("", false, false, "", "", "", "", "")

  /** The CLI's `promptForComponentInfo(projectDir, yargs.argv)`: the
      function takes the project directory as its options and never sees
      the flags, so every option is prompted for and the component type is
      always plain. */
  function CliComponentInfo(projectDir: string, flags: ComponentOptions, answers: ComponentAnswers,
                            cwdSrc: Option<seq<Dirent>>): (r: ComponentOptions)
    ensures !r.exported && !r.config && r.exportType == "plain"
    ensures r.name == answers.name
  {
    PromptForComponentInfo(NoOptions, answers, cwdSrc)
  }

  /** The CLI's `promptForModuleInfo(projectDir, yargs.argv)`: the name and
      description are always prompted for. */
  function CliModuleInfo(projectDir: string, flags: ModuleInfo, nameAnswer: string,
                         descriptionAnswer: string): (r: ModuleInfo)
    ensures r.name == nameAnswer
    ensures r.description == (if descriptionAnswer != "" then descriptionAnswer else DefaultModuleDescription)
  {
    PromptForModuleInfo(ModuleInfo("", ""), nameAnswer, descriptionAnswer)
  }

  /** As the CLI calls them, the flags change nothing, and a component
      created from the prompts gets neither config files nor a module-index
      line, whatever `--export` or `--config` say. */
  lemma CliIgnoresFlags(projectDir: string, flags: ComponentOptions, answers: ComponentAnswers,
                        cwdSrc: Option<seq<Dirent>>, projectSrc: Option<seq<Dirent>>, moduleIndex: Option<string>)
    ensures CliComponentInfo(projectDir, flags, answers, cwdSrc) == CliComponentInfo(projectDir, NoOptions, answers, cwdSrc)
    ensures !CreateComponent(CliComponentInfo(projectDir, flags, answers, cwdSrc), projectSrc, moduleIndex).hasConfig
    ensures CreateComponent(CliComponentInfo(projectDir, flags, answers, cwdSrc), projectSrc, moduleIndex).moduleIndexWrite.None?
  {
  }

  /** With the flags passed as the options, `--export` exports the
      component: it gets config files and its export line is added to the
      module index when missing. */
  lemma ExportFlagExports(argv: ComponentOptions, answers: ComponentAnswers, cwdSrc: Option<seq<Dirent>>,
                          projectSrc: Option<seq<Dirent>>, moduleIndex: Option<string>)
    requires argv.exported
    ensures CreateComponent(PromptForComponentInfo(argv, answers, cwdSrc), projectSrc, moduleIndex).hasConfig
    ensures CreateComponent(PromptForComponentInfo(argv, answers, cwdSrc), projectSrc, moduleIndex).moduleIndexWrite
            == UpdateModuleIndex(moduleIndex, PromptForComponentInfo(argv, answers, cwdSrc).name)
  {
  }

  // ---- Parameters ----

  /** One entry of the `parameters` list of a component's config. A missing
      type prints as `undefined`. */
  datatype Param = Param(name: string, kind: Option<string>, title: string)

  /** `toUpperCase` on ASCII letters. */
  function UpperAscii(c: char): char
  {
    if 'a' <= c <= 'z' then (c as int - 32) as char else c
  }

  /** `name.charAt(0).toUpperCase() + name.slice(1)`. */
  function Capitalize(s: string): (r: string)
    ensures |r| == |s|
    ensures |s| > 0 ==> r[0] == UpperAscii(s[0]) && r[1..] == s[1..]
  {
    if |s| == 0 then "" else [UpperAscii(s[0])] + s[1..]
  }

  /** `const [name, type] = param.split(':')`: the name is the text before
      the first `:`, the type the text after it up to the next `:`, and
      there is no type when the item has no `:`. */
  function ParseParam(item: string): (p: Param)
    ensures StartsWith(item, p.name) && ':' !in p.name
    ensures |p.name| < |item| ==> item[|p.name|] == ':'
    ensures p.kind.None? <==> ':' !in item
    ensures p.kind.Some? ==> |p.name| < |item| && StartsWith(item[|p.name| + 1..], p.kind.value) && ':' !in p.kind.value
    ensures p.kind.Some? && |p.name| + 1 + |p.kind.value| < |item| ==> item[|p.name| + 1 + |p.kind.value|] == ':'
    ensures p.title == Capitalize(p.name)
  {
    var parts := Split(item, ':');
    SplitCount(item, ':');
    SplitFirst(item, ':');
    if |parts| >= 2 then
      SplitFirst(item[|parts[0]| + 1..], ':');
      Param(parts[0], Some(parts[1]), Capitalize(parts[0]))
    else
      Param(parts[0], None, Capitalize(parts[0]))
  }

  /** The parameter entries of `createConfigFiles`: one per comma-separated
      item, even for an empty string, the `i`-th read from the `i`-th item. */
  function ParseParameters(s: string): (r: seq<Param>)
    ensures |r| == multiset(s)[','] + 1
    ensures |r| == |Split(s, ',')| && forall i :: 0 <= i < |r| ==> r[i] == ParseParam(Split(s, ',')[i])
  {
    var items := Split(s, ',');
    SplitCount(s, ',');
    seq(|items|, i requires 0 <= i < |items| => ParseParam(items[i]))
  }

  /** `name:type` items joined by commas parse back into exactly those names
      and types, with capitalised labels. */
  lemma ParseParametersRoundTrip(names: seq<string>, kinds: seq<string>)
    requires |names| == |kinds| && |names| > 0
    requires forall i :: 0 <= i < |names| ==> ',' !in names[i] && ':' !in names[i]
    requires forall i :: 0 <= i < |kinds| ==> ',' !in kinds[i] && ':' !in kinds[i]
    ensures var ps := ParseParameters(Join(seq(|names|, i requires 0 <= i < |names| => names[i] + ":" + kinds[i]), ','));
            |ps| == |names|
            && forall i :: 0 <= i < |names| ==> ps[i] == Param(names[i], Some(kinds[i]), Capitalize(names[i]))
  {
    var items := seq(|names|, i requires 0 <= i < |names| => names[i] + ":" + kinds[i]);
    forall i | 0 <= i < |items|
      ensures ',' !in items[i]
      ensures ParseParam(items[i]) == Param(names[i], Some(kinds[i]), Capitalize(names[i]))
    {
      SplitJoin([names[i], kinds[i]], ':');
      assert Join([names[i], kinds[i]], ':') == items[i] by {
        assert [names[i], kinds[i]][1..] == [kinds[i]];
      }
    }
    SplitJoin(items, ',');
  }

  // ---- updateModuleIndex ----

  /** `updateModuleIndex`: the module's `index.js` text after adding the
      component's export line, or None when the line is already there and
      nothing is written. A missing file reads as `''`. */
  function UpdateModuleIndex(existing: Option<string>, componentName: string): (r: Option<string>)
    ensures var current := OrElse(existing, "");
            var line := GenerateExports.ExportLine(componentName);
            && (r.Some? <==> !Contains(current, line))
            && (r.Some? ==> StartsWith(r.value, current) && Contains(r.value, line)
                            && r.value[|current|..] == "\n" + line)
  {
    var current := OrElse(existing, "");
    var line := GenerateExports.ExportLine(componentName);
    if !Contains(current, line) then
      ContainsSuffix(current + "\n", line);
      assert current + "\n" + line == (current + "\n") + line;
      Some(current + "\n" + line)
    else None
  }

  /** Adding a component's export line twice writes only once. */
  lemma UpdateModuleIndexIdempotent(existing: Option<string>, componentName: string)
    ensures var w := UpdateModuleIndex(existing, componentName);
            w.Some? ==> UpdateModuleIndex(w, componentName).None?
  {
  }

  // ---- createComponent ----

  /** The `meta/config.yml` of a component, as the values it is written from. */
  datatype ConfigFile = ConfigFile(title: string, description: string, exported: bool, parameters: seq<Param>)

  /** What `createComponent` writes: always the component's `index.js` under
      `src/<module>/components/<name>`; the config files when the component
      has config; the module's new `index.js` when it is exported and the
      export line is new. */
  datatype ComponentPlan = ComponentPlan(
    moduleName: string,
    componentPath: seq<string>,
    isExported: bool,
    hasConfig: bool,
    config: Option<ConfigFile>,
    moduleIndexWrite: Option<string>)

  function CreateComponent(o: ComponentOptions, projectSrc: Option<seq<Dirent>>,
                           moduleIndex: Option<string>): (r: ComponentPlan)
    ensures r.isExported <==> o.exported || o.exportType == "export"
    ensures r.hasConfig <==> r.isExported || o.config || o.exportType == "config"
    ensures r.isExported ==> r.hasConfig
    ensures r.config.Some? <==> r.hasConfig
    ensures r.config.Some? ==> r.config.value.exported == r.isExported
                               && r.config.value.parameters == ParseParameters(o.parameters)
    ensures !r.isExported ==> r.moduleIndexWrite.None?
    ensures r.isExported ==> r.moduleIndexWrite == UpdateModuleIndex(moduleIndex, o.name)
    ensures o.moduleName != "" ==> r.moduleName == o.moduleName
    ensures o.moduleName == "" ==> r.moduleName == ModuleOrDefault(projectSrc)
    ensures r.componentPath == ["src", r.moduleName, "components", o.name]
  {
    var moduleName := if o.moduleName != "" then o.moduleName else ModuleOrDefault(projectSrc);
    var isExported := o.exported || o.exportType == "export";
    var hasConfig := isExported || o.config || o.exportType == "config";
    var config :=
      if hasConfig then Some(ConfigFile(o.name, o.description, isExported, ParseParameters(o.parameters)))
      else None;
    var indexWrite := if isExported then UpdateModuleIndex(moduleIndex, o.name) else None;
    ComponentPlan(moduleName, ["src", moduleName, "components", o.name], isExported, hasConfig, config, indexWrite)
  }
}
