/** Generation of a module's `dynamicExports.js`: which components are
    exported, the text of the file, and whether it is rewritten. Reading
    directories and files is replaced by a snapshot of each module. */
module GenerateExports {
  import opened Common
  import opened Strings
  import opened Values

  /** One entry of a module's `components` directory: whether it holds
      `index.js`, and the outcome of reading and parsing `meta/config.yml`
      (None when that file does not exist). */
  datatype ComponentDir = ComponentDir(name: string, hasIndex: bool, config: Option<Parse>)

  /** A component is exported when both files exist, the config parses to a
      truthy value, and its `export` field is not the boolean `false`. */
  predicate IsExported(c: ComponentDir)
  {
    && c.hasIndex
    && c.config.Some?
    && c.config.value.Ok?
    && Truthy(c.config.value.value)
    && Member(c.config.value.value, "export") != Some(Bool(false))
  }

  /** The exported components, in directory order. */
  function ExportedComponents(cs: seq<ComponentDir>): (r: seq<string>)
    ensures forall n :: n in r <==> exists i :: 0 <= i < |cs| && IsExported(cs[i]) && cs[i].name == n
    ensures |r| <= |cs|
    decreases |cs|
  {
    if |cs| == 0 then []
    else
      var rest := ExportedComponents(cs[1..]);
      assert forall i :: 1 <= i < |cs| ==> cs[i] == cs[1..][i - 1];
      if IsExported(cs[0]) then [cs[0].name] + rest else rest
  }

  /** The decision for one component depends on that component only: a
      failing config drops exactly that component and the others are still
      listed. */
  lemma {:induction false} ExportedComponentsAppend(a: seq<ComponentDir>, b: seq<ComponentDir>)
    ensures ExportedComponents(a + b) == ExportedComponents(a) + ExportedComponents(b)
    decreases |a|
  {
    if |a| > 0 {
      assert (a + b)[1..] == a[1..] + b;
      ExportedComponentsAppend(a[1..], b);
    } else {
      assert a + b == b;
    }
  }

  /** Replacing one component's config by a parse failure removes that
      component, and only it, from the export list. */
  lemma ParseErrorIsIsolated(before: seq<ComponentDir>, c: ComponentDir, after: seq<ComponentDir>, message: string)
    ensures var failed := c.(config := Some(Err(message)));
            ExportedComponents(before + [failed] + after)
            == ExportedComponents(before) + ExportedComponents(after)
  {
    var failed := c.(config := Some(Err(message)));
    ExportedComponentsAppend(before + [failed], after);
    ExportedComponentsAppend(before, [failed]);
    assert ExportedComponents([failed]) == [] by {
      assert [failed][1..] == [];
    }
    assert ExportedComponents(before) + [] == ExportedComponents(before);
  }

  // ---- The generated text ----

  const Header := "// WARNING: This file is auto-generated. DO NOT EDIT MANUALLY.\n"

  const LinePrefix := "export { default as "
  const LineMiddle := " } from './components/"
  const LineSuffix := "';"

  /** `export { default as X } from './components/X';` */
  function ExportLine(name: string): string
  {
    LinePrefix + name + LineMiddle + name + LineSuffix
  }

  function ExportLines(names: seq<string>): (r: seq<string>)
    ensures |r| == |names|
    ensures forall i :: 0 <= i < |names| ==> r[i] == ExportLine(names[i])
  {
    seq(|names|, i requires 0 <= i < |names| => ExportLine(names[i]))
  }

  /** The text of `dynamicExports.js`: the warning header, then one export
      line per component joined by newlines. */
  function ExportsText(names: seq<string>): string
  {
    Header + Join(ExportLines(names), '\n')
  }

  /** Reads one export line back into its component name. */
  function ParseExportLine(line: string): (r: Option<string>)
    ensures r.Some? ==> line == ExportLine(r.value)
  {
    var fixed := |LinePrefix| + |LineMiddle| + |LineSuffix|;
    if |line| < fixed || (|line| - fixed) % 2 != 0 then None
    else
      var name := line[|LinePrefix|..|LinePrefix| + (|line| - fixed) / 2];
      if line == ExportLine(name) then Some(name) else None
  }

  lemma ParseExportLineOf(name: string)
    ensures ParseExportLine(ExportLine(name)) == Some(name)
  {
    var line := ExportLine(name);
    assert line[|LinePrefix|..|LinePrefix| + |name|] == name;
  }

  /** Reads a generated file back into its component names. */
  function ParseExportsText(text: string): Option<seq<string>>
  {
    if !StartsWith(text, Header) then None
    else
      var body := text[|Header|..];
      if body == "" then Some([])
      else ParseLines(Split(body, '\n'))
  }

  function ParseLines(lines: seq<string>): (r: Option<seq<string>>)
    ensures r.Some? ==> |r.value| == |lines|
  {
    if |lines| == 0 then Some([])
    else match (ParseExportLine(lines[0]), ParseLines(lines[1..]))
      case (Some(n), Some(ns)) => Some([n] + ns)
      case _ => None
  }

  /** The generated text lists exactly the exported components, in order:
      reading it back gives the component names. */
  lemma ExportsTextRoundTrip(names: seq<string>)
    requires forall i :: 0 <= i < |names| ==> '\n' !in names[i]
    ensures ParseExportsText(ExportsText(names)) == Some(names)
  {
    var lines := ExportLines(names);
    var text := ExportsText(names);
    assert text[|Header|..] == Join(lines, '\n');
    if |names| > 0 {
      forall i | 0 <= i < |lines|
        ensures '\n' !in lines[i]
      {
        LineHasNoNewline(names[i]);
      }
      SplitJoin(lines, '\n');
      assert Join(lines, '\n') != "" by {
        JoinNonEmpty(lines, '\n');
      }
      ParseLinesOf(names);
    }
  }

  lemma LineHasNoNewline(name: string)
    requires '\n' !in name
    ensures '\n' !in ExportLine(name)
  {
    assert '\n' !in LinePrefix && '\n' !in LineMiddle && '\n' !in LineSuffix;
  }

  lemma {:induction false} JoinNonEmpty(parts: seq<string>, sep: char)
    requires |parts| > 0 && parts[0] != ""
    ensures Join(parts, sep) != ""
  {
    if |parts| > 1 {
      assert |Join(parts, sep)| >= |parts[0]|;
    }
  }

  lemma {:induction false} ParseLinesOf(names: seq<string>)
    ensures ParseLines(ExportLines(names)) == Some(names)
    decreases |names|
  {
    if |names| > 0 {
      ParseExportLineOf(names[0]);
      ParseLinesOf(names[1..]);
      assert ExportLines(names)[1..] == ExportLines(names[1..]);
      assert [names[0]] + names[1..] == names;
    }
  }

  // ---- Writing ----

  /** A module of `src`: its components directory (None when it cannot be
      listed, as for a plain file or a module without `components`) and the
      current text of its `dynamicExports.js` (None when absent). */
  datatype ModuleSnapshot = ModuleSnapshot(name: string, components: Option<seq<ComponentDir>>,
                                           existing: Option<string>)

  datatype Error = ComponentsUnreadable(moduleName: string)

  /** `generateModuleExports`: the text to write, or None when the file
      already holds exactly the new text. */
  function GenerateModuleExports(m: ModuleSnapshot): (r: Result<Option<string>, Error>)
    ensures r.Err? <==> m.components.None?
    ensures r.Ok? ==> (r.value.None? <==> m.existing == Some(ExportsText(ExportedComponents(m.components.value))))
    ensures r.Ok? && r.value.Some? ==> r.value.value == ExportsText(ExportedComponents(m.components.value))
  {
    match m.components
    case None => Err(ComponentsUnreadable(m.name))
    case Some(cs) =>
      var newText := ExportsText(ExportedComponents(cs));
      var oldText := OrElse(m.existing, "");
      HeaderNonEmpty(ExportedComponents(cs));
      if newText != oldText then Ok(Some(newText)) else Ok(None)
  }

  lemma HeaderNonEmpty(names: seq<string>)
    ensures ExportsText(names) != ""
  {
  }

  /** A missing file is always written, and a second run over the written
      file writes nothing. */
  lemma GenerateIsIdempotent(m: ModuleSnapshot)
    requires m.components.Some?
    ensures m.existing.None? ==> GenerateModuleExports(m).value.Some?
    ensures var w := GenerateModuleExports(m).value;
            w.Some? ==> GenerateModuleExports(m.(existing := w)) == Ok(None)
  {
  }

  /** What a run wrote, module by module, and the module it stopped at when a
      components directory could not be listed. */
  datatype Outcome = Outcome(writes: seq<(string, string)>, failedAt: Option<string>)

  /** The run reaches the `i`-th module: it and every module before it
      could be listed. */
  predicate Reached(ms: seq<ModuleSnapshot>, i: int)
  {
    0 <= i < |ms| && forall j :: 0 <= j <= i ==> ms[j].components.Some?
  }

  /** Every write is the changed text of a module the run reached. */
  ghost predicate WritesSound(ms: seq<ModuleSnapshot>, writes: seq<(string, string)>)
  {
    forall w :: w in writes ==> exists i :: Reached(ms, i) && ms[i].name == w.0
                                            && GenerateModuleExports(ms[i]) == Ok(Some(w.1))
  }

  /** Every reached module whose file changes is written. */
  ghost predicate WritesComplete(ms: seq<ModuleSnapshot>, writes: seq<(string, string)>)
  {
    forall i :: Reached(ms, i) && GenerateModuleExports(ms[i]).value.Some? ==>
      (ms[i].name, GenerateModuleExports(ms[i]).value.value) in writes
  }

  /** One module's step of the run in front of the outcome of the modules
      after it: a module that cannot be listed stops the run there. */
  function Continue(m: ModuleSnapshot, rest: Outcome): Outcome
  {
    match GenerateModuleExports(m)
    case Err(_) => Outcome([], Some(m.name))
    case Ok(w) =>
      var here := if w.Some? then [(m.name, w.value)] else [];
      Outcome(here + rest.writes, rest.failedAt)
  }

  /** The outcome of one run continued by another: a run that stopped is
      not continued. */
  function Then(x: Outcome, y: Outcome): (r: Outcome)
    ensures x.failedAt.Some? ==> r == x
    ensures x.failedAt.None? ==> r.writes == x.writes + y.writes && r.failedAt == y.failedAt
  {
    if x.failedAt.Some? then x else Outcome(x.writes + y.writes, y.failedAt)
  }

  /** The writes of the modules in order, stopping at the first failure. */
  function RunAll(ms: seq<ModuleSnapshot>): (r: Outcome)
    ensures r.failedAt.None? <==> forall i :: 0 <= i < |ms| ==> ms[i].components.Some?
    ensures r.failedAt.Some? ==> exists i :: 0 <= i < |ms| && ms[i].components.None? && ms[i].name == r.failedAt.value
                                             && forall j :: 0 <= j < i ==> ms[j].components.Some?
    ensures |r.writes| <= |ms|
    decreases |ms|
  {
    if |ms| == 0 then Outcome([], None)
    else
      assert forall i :: 1 <= i < |ms| ==> ms[i] == ms[1..][i - 1];
      Continue(ms[0], RunAll(ms[1..]))
  }

  /** A run writes exactly the reached modules whose file changes: every
      write is such a module's new text, and every such module is written. */
  lemma {:induction false} RunAllWrites(ms: seq<ModuleSnapshot>)
    ensures WritesSound(ms, RunAll(ms).writes)
    ensures WritesComplete(ms, RunAll(ms).writes)
    decreases |ms|
  {
    if |ms| > 0 {
      match GenerateModuleExports(ms[0])
      case Err(_) =>
        assert RunAll(ms).writes == [];
        assert !Reached(ms, 0);
        assert forall i :: 0 <= i < |ms| ==> !Reached(ms, i);
      case Ok(w) =>
        RunAllWrites(ms[1..]);
        RunAllStep(ms, w, RunAll(ms[1..]).writes);
    }
  }

  /** One step of the run: the first module's write in front of the writes
      of the rest keeps the writes sound and complete. */
  lemma RunAllStep(ms: seq<ModuleSnapshot>, w: Option<string>, rest: seq<(string, string)>)
    requires |ms| > 0 && GenerateModuleExports(ms[0]) == Ok(w)
    requires WritesSound(ms[1..], rest) && WritesComplete(ms[1..], rest)
    ensures WritesSound(ms, (if w.Some? then [(ms[0].name, w.value)] else []) + rest)
    ensures WritesComplete(ms, (if w.Some? then [(ms[0].name, w.value)] else []) + rest)
  {
    StepSound(ms, w, rest);
    StepComplete(ms, w, rest);
  }

  lemma StepSound(ms: seq<ModuleSnapshot>, w: Option<string>, rest: seq<(string, string)>)
    requires |ms| > 0 && GenerateModuleExports(ms[0]) == Ok(w)
    requires WritesSound(ms[1..], rest)
    ensures WritesSound(ms, (if w.Some? then [(ms[0].name, w.value)] else []) + rest)
  {
    var here := if w.Some? then [(ms[0].name, w.value)] else [];
    forall x | x in here + rest
      ensures exists i :: Reached(ms, i) && ms[i].name == x.0 && GenerateModuleExports(ms[i]) == Ok(Some(x.1))
    {
      if x in here {
        assert Reached(ms, 0);
      } else {
        var k :| Reached(ms[1..], k) && ms[1..][k].name == x.0 && GenerateModuleExports(ms[1..][k]) == Ok(Some(x.1));
        assert ms[k + 1] == ms[1..][k];
        assert Reached(ms, k + 1);
      }
    }
  }

  lemma StepComplete(ms: seq<ModuleSnapshot>, w: Option<string>, rest: seq<(string, string)>)
    requires |ms| > 0 && GenerateModuleExports(ms[0]) == Ok(w)
    requires WritesComplete(ms[1..], rest)
    ensures WritesComplete(ms, (if w.Some? then [(ms[0].name, w.value)] else []) + rest)
  {
    var here := if w.Some? then [(ms[0].name, w.value)] else [];
    forall i | Reached(ms, i) && GenerateModuleExports(ms[i]).value.Some?
      ensures (ms[i].name, GenerateModuleExports(ms[i]).value.value) in here + rest
    {
      if i > 0 {
        assert ms[1..][i - 1] == ms[i];
        assert Reached(ms[1..], i - 1);
      }
    }
  }

  /** Modules are processed in listing order: a run over two listings is
      the run over the first, continued with the run over the second when
      the first did not stop. */
  lemma {:induction false} RunAllAppend(a: seq<ModuleSnapshot>, b: seq<ModuleSnapshot>)
    ensures RunAll(a).failedAt.Some? ==> RunAll(a + b) == RunAll(a)
    ensures RunAll(a).failedAt.None? ==> RunAll(a + b).writes == RunAll(a).writes + RunAll(b).writes
    ensures RunAll(a).failedAt.None? ==> RunAll(a + b).failedAt == RunAll(b).failedAt
    decreases |a|
  {
    RunAllThen(a, b);
  }

  /** `RunAllAppend` as one equation, proved by induction on the first
      listing. */
  lemma {:induction false} RunAllThen(a: seq<ModuleSnapshot>, b: seq<ModuleSnapshot>)
    ensures RunAll(a + b) == Then(RunAll(a), RunAll(b))
    decreases |a|
  {
    if |a| == 0 {
      assert a + b == b;
    } else {
      var ab := a + b;
      assert ab[0] == a[0];
      assert ab[1..] == a[1..] + b;
      RunAllThen(a[1..], b);
      ContinueThen(a[0], RunAll(a[1..]), RunAll(b));
    }
  }

  /** A step in front of a continued run is the step's run continued. */
  lemma ContinueThen(m: ModuleSnapshot, x: Outcome, y: Outcome)
    ensures Continue(m, Then(x, y)) == Then(Continue(m, x), y)
  {
    match GenerateModuleExports(m)
    case Err(_) =>
    case Ok(w) =>
      var here := if w.Some? then [(m.name, w.value)] else [];
      if x.failedAt.None? {
        assert here + (x.writes + y.writes) == (here + x.writes) + y.writes;
      }
  }

  /** A module argument is given: `moduleDir` is truthy. */
  predicate Targeted(target: Option<ModuleSnapshot>)
  {
    target.Some? && target.value.name != ""
  }

  /** `generateExports`: with a module argument only that module is
      processed, whether or not `src` lists it; otherwise every entry of
      `src`, in listing order. `target` is the module directory the argument
      names (None when no argument is given). */
  function GenerateExports(src: seq<ModuleSnapshot>, target: Option<ModuleSnapshot>): (r: Outcome)
    ensures Targeted(target) && GenerateModuleExports(target.value).Err? ==>
              r == Outcome([], Some(target.value.name))
    ensures Targeted(target) && GenerateModuleExports(target.value).Ok? ==>
              && r.failedAt.None?
              && r.writes == (if GenerateModuleExports(target.value).value.Some?
                              then [(target.value.name, GenerateModuleExports(target.value).value.value)]
                              else [])
    ensures Targeted(target) ==> r == RunAll([target.value])
    ensures !Targeted(target) ==> r == RunAll(src)
  {
    if Targeted(target) then
      match GenerateModuleExports(target.value)
      case Err(_) => Outcome([], Some(target.value.name))
      case Ok(None) => Outcome([], None)
      case Ok(Some(text)) => Outcome([(target.value.name, text)], None)
    else RunAll(src)
  }
}
