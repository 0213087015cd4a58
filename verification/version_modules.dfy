/** The release helper's decision logic: which module is released, how its
    three-part version is bumped, how package.json changes and how the git
    tag is named. The git commands themselves are not modelled. */
module VersionModules {
  import opened Common
  import opened Strings
  import opened Values
  import Snapshot

  /** A version `major.minor.patch`. */
  datatype Version = Version(major: nat, minor: nat, patch: nat)

  datatype Error =
    | InvalidVersionType(kind: string)
    | NoModules
    | ModuleNotFound(name: string)
    | InvalidSelection
    | VersionNotAString
    | MalformedVersion(text: string)

  /** What a release records about the bumped module. */
  datatype Update = Update(name: string, oldVersion: string, newVersion: string)

  /** Version precedence: lexicographic on (major, minor, patch). */
  predicate Less(a: Version, b: Version)
  {
    || a.major < b.major
    || (a.major == b.major && a.minor < b.minor)
    || (a.major == b.major && a.minor == b.minor && a.patch < b.patch)
  }

  predicate ValidKind(kind: string)
  {
    kind == "patch" || kind == "minor" || kind == "major"
  }

  /** Bumps a version. A patch bump increments the patch number only; a minor
      bump increments the minor number and resets patch; a major bump
      increments the major number and resets the other two. Any other kind is
      an error. */
  function Bump(v: Version, kind: string): (r: Result<Version, Error>)
    ensures r.Ok? <==> ValidKind(kind)
    ensures r.Err? ==> r.error == InvalidVersionType(kind)
    ensures r.Ok? ==> Less(v, r.value)
    ensures kind == "patch" ==> r.Ok? && r.value.major == v.major && r.value.minor == v.minor && r.value.patch == v.patch + 1
    ensures kind == "minor" ==> r.Ok? && r.value.major == v.major && r.value.minor == v.minor + 1 && r.value.patch == 0
    ensures kind == "major" ==> r.Ok? && r.value.major == v.major + 1 && r.value.minor == 0 && r.value.patch == 0
  {
    match kind
    case "patch" => Ok(Version(v.major, v.minor, v.patch + 1))
    case "minor" => Ok(Version(v.major, v.minor + 1, 0))
    case "major" => Ok(Version(v.major + 1, 0, 0))
    case _ => Err(InvalidVersionType(kind))
  }

  /** Each bump yields the least version above the old one at its level: the
      patch bump is the immediate successor, the minor bump is the least
      version with a greater (major, minor), the major bump the least version
      with a greater major. */
  lemma BumpIsLeast(v: Version, kind: string, w: Version)
    requires ValidKind(kind)
    requires kind == "patch" ==> Less(v, w)
    requires kind == "minor" ==> w.major > v.major || (w.major == v.major && w.minor > v.minor)
    requires kind == "major" ==> w.major > v.major
    ensures Bump(v, kind).Ok?
    ensures Bump(v, kind).value == w || Less(Bump(v, kind).value, w)
  {
  }

  // ---- Version text ----

  /** The text `${major}.${minor}.${patch}`. */
  function FormatVersion(v: Version): string
  {
    NatToString(v.major) + "." + NatToString(v.minor) + "." + NatToString(v.patch)
  }

  /** Reads `version.split('.').map(Number)` destructured into three parts:
      parts after the third are ignored. Only texts whose first three parts
      are digit runs are read; the others are where `Number` gives NaN or
      reads a non-decimal form. */
  function ParseVersion(text: string): (r: Option<Version>)
    ensures r.Some? <==> (var p := Split(text, '.'); |p| >= 3 && IsDigits(p[0]) && IsDigits(p[1]) && IsDigits(p[2]))
  {
    var p := Split(text, '.');
    if |p| >= 3 && IsDigits(p[0]) && IsDigits(p[1]) && IsDigits(p[2]) then
      Some(Version(ParseDecimal(p[0]), ParseDecimal(p[1]), ParseDecimal(p[2])))
    else None
  }

  /** Formatting then reading a version gives it back. */
  lemma {:induction false} ParseFormatVersion(v: Version)
    ensures ParseVersion(FormatVersion(v)) == Some(v)
  {
    var a, b, c := NatToString(v.major), NatToString(v.minor), NatToString(v.patch);
    DigitsHaveNoDot(a);
    DigitsHaveNoDot(b);
    DigitsHaveNoDot(c);
    assert Join([a, b, c], '.') == FormatVersion(v) by {
      assert [a, b, c][1..] == [b, c];
      assert [b, c][1..] == [c];
      assert Join([b, c], '.') == b + ['.'] + c;
      assert Join([a, b, c], '.') == a + ['.'] + (b + ['.'] + c);
      assert "." == ['.'];
    }
    SplitJoin([a, b, c], '.');
    ParseNatToString(v.major);
    ParseNatToString(v.minor);
    ParseNatToString(v.patch);
  }

  lemma DigitsHaveNoDot(s: string)
    requires IsDigits(s)
    ensures '.' !in s && '/' !in s
  {
  }

  /** `Number` of the `i`-th dot-separated part when it reads as a decimal
      natural: a digit run, or the empty part, which reads as 0. None for a
      missing part (`undefined`) and for every other text. */
  function PartValue(parts: seq<string>, i: nat): (r: Option<nat>)
    ensures r.Some? ==> i < |parts| && (parts[i] == "" || IsDigits(parts[i]))
    ensures i < |parts| && parts[i] == "" ==> r == Some(0)
    ensures i < |parts| && IsDigits(parts[i]) ==> r == Some(ParseDecimal(parts[i]))
  {
    if i >= |parts| then None
    else if parts[i] == "" then Some(0)
    else if IsDigits(parts[i]) then Some(ParseDecimal(parts[i]))
    else None
  }

  /** How many leading parts a bump prints: all three for a patch bump, two
      for a minor bump, one for a major bump. */
  function PartsRead(kind: string): nat
  {
    if kind == "patch" then 3 else if kind == "minor" then 2 else 1
  }

  /** The version as a bump of `kind` reads it: the parts the bump prints,
      with the parts it ignores taken as 0; None when a printed part does not
      read as a decimal natural. */
  function ReadVersion(text: string, kind: string): Option<Version>
  {
    var p := Split(text, '.');
    var major, minor, patch := PartValue(p, 0), PartValue(p, 1), PartValue(p, 2);
    if major.None? || (PartsRead(kind) >= 2 && minor.None?) || (PartsRead(kind) >= 3 && patch.None?) then None
    else Some(Version(major.value, if PartsRead(kind) >= 2 then minor.value else 0,
                      if PartsRead(kind) >= 3 then patch.value else 0))
  }

  /** `updateVersion(version, type)`: an unknown bump kind throws whatever
      the text; otherwise the new text is the canonical rendering of the
      bump of the parts it prints, so a minor or major bump ignores the
      parts after those it reads. A printed part that `Number` does not read
      as a decimal natural is reported as malformed. */
  function UpdateVersion(text: string, kind: string): (r: Result<string, Error>)
    ensures !ValidKind(kind) ==> r == Err(InvalidVersionType(kind))
    ensures ValidKind(kind) && ReadVersion(text, kind).None? ==> r == Err(MalformedVersion(text))
    ensures r.Ok? <==> ValidKind(kind) && ReadVersion(text, kind).Some?
    ensures r.Ok? ==> (ParseVersion(r.value).Some?
                       && Bump(ReadVersion(text, kind).value, kind) == Ok(ParseVersion(r.value).value))
    ensures ValidKind(kind) && ParseVersion(text).Some? ==>
              && r.Ok? && ParseVersion(r.value).Some?
              && Bump(ParseVersion(text).value, kind) == Ok(ParseVersion(r.value).value)
              && Less(ParseVersion(text).value, ParseVersion(r.value).value)
  {
    if !ValidKind(kind) then Err(InvalidVersionType(kind))
    else match ReadVersion(text, kind)
      case None => Err(MalformedVersion(text))
      case Some(v) =>
        var bumped := Bump(v, kind).value;
        ParseFormatVersion(bumped);
        Ok(FormatVersion(bumped))
  }

  /** The leading parts of `major.minor.rest`. */
  lemma LeadingParts(major: string, minor: string, rest: string)
    requires IsDigits(major) && IsDigits(minor)
    ensures var p := Split(major + "." + minor + "." + rest, '.');
            |p| >= 2 && p[0] == major && p[1] == minor
  {
    DigitsHaveNoDot(major);
    DigitsHaveNoDot(minor);
    assert major + "." + minor + "." + rest == major + ['.'] + (minor + ['.'] + rest);
    SplitPrefix(major, minor + ['.'] + rest, '.');
    SplitPrefix(minor, rest, '.');
  }

  /** A minor bump reads only the first two parts, so it succeeds on
      `1.2.3-beta.1` and on `1.2.x`, and (by the contract of `UpdateVersion`)
      renders the bump of `1.2`, which is `1.3.0`. */
  lemma MinorBumpIgnoresPatch(major: string, minor: string, rest: string)
    requires IsDigits(major) && IsDigits(minor)
    ensures ReadVersion(major + "." + minor + "." + rest, "minor") == Some(Version(ParseDecimal(major), ParseDecimal(minor), 0))
    ensures UpdateVersion(major + "." + minor + "." + rest, "minor").Ok?
  {
    LeadingParts(major, minor, rest);
  }

  /** A major bump reads only the first part, so it succeeds on `1.x` and
      renders the bump of `1`, which is `2.0.0`. */
  lemma MajorBumpReadsFirstPart(major: string, rest: string)
    requires IsDigits(major)
    ensures ReadVersion(major + "." + rest, "major") == Some(Version(ParseDecimal(major), 0, 0))
    ensures UpdateVersion(major + "." + rest, "major").Ok?
  {
    FirstPart(major, rest);
  }

  /** The first part of `major.rest`. */
  lemma FirstPart(major: string, rest: string)
    requires IsDigits(major)
    ensures Split(major + "." + rest, '.')[0] == major
  {
    DigitsHaveNoDot(major);
    assert major + "." + rest == major + ['.'] + rest;
    SplitPrefix(major, rest, '.');
  }

  // ---- Module selection ----

  /** A directory entry of `src` together with whether it holds a package.json. */
  datatype ModuleDir = ModuleDir(entry: Snapshot.Dirent, hasPackageJson: bool)

  /** `getModuleDirs`: the directories of `src` that hold a package.json, in
      listing order. */
  function ModuleDirs(src: seq<ModuleDir>): (r: seq<string>)
    ensures forall n :: n in r <==> exists i :: 0 <= i < |src| && src[i].entry.isDir && src[i].hasPackageJson && src[i].entry.name == n
    decreases |src|
  {
    if |src| == 0 then []
    else
      var rest := ModuleDirs(src[1..]);
      assert forall i :: 1 <= i < |src| ==> src[i] == src[1..][i - 1];
      if src[0].entry.isDir && src[0].hasPackageJson then [src[0].entry.name] + rest else rest
  }

  /** Listing order is kept: the modules of a concatenated listing are the
      modules of the first part followed by those of the second. */
  lemma {:induction false} ModuleDirsAppend(a: seq<ModuleDir>, b: seq<ModuleDir>)
    ensures ModuleDirs(a + b) == ModuleDirs(a) + ModuleDirs(b)
    decreases |a|
  {
    if |a| == 0 {
      assert a + b == b;
    } else {
      assert (a + b)[1..] == a[1..] + b;
      ModuleDirsAppend(a[1..], b);
    }
  }

  /** `selectModule`. `provided` is `process.argv[3]`, whatever the fourth
      command-line argument holds ("" when there is none), and `answer` the
      integer read from the interactive answer (None when `parseInt` gives
      NaN). */
  function SelectModule(modules: seq<string>, provided: string, answer: Option<int>): (r: Result<string, Error>)
    ensures |modules| == 0 ==> r == Err(NoModules)
    ensures |modules| == 1 ==> r == Ok(modules[0])
    ensures |modules| >= 2 && provided != "" ==>
              (r.Ok? <==> provided in modules) && (r.Ok? ==> r.value == provided)
    ensures |modules| >= 2 && provided == "" ==>
              (r.Ok? <==> answer.Some? && 1 <= answer.value <= |modules|)
              && (r.Ok? ==> r.value == modules[answer.value - 1])
    ensures r.Ok? ==> r.value in modules
  {
    if |modules| == 0 then Err(NoModules)
    else if |modules| == 1 then Ok(modules[0])
    else if provided != "" then
      if provided in modules then Ok(provided) else Err(ModuleNotFound(provided))
    else
      match answer
      case None => Err(InvalidSelection)
      case Some(n) =>
        var selection := n - 1;
        if selection < 0 || selection >= |modules| then Err(InvalidSelection)
        else Ok(modules[selection])
  }

  /** With a single module neither the argument nor the answer is consulted. */
  lemma SelectSoleModule(m: string, p1: string, a1: Option<int>, p2: string, a2: Option<int>)
    ensures SelectModule([m], p1, a1) == SelectModule([m], p2, a2) == Ok(m)
  {
  }

  // ---- The command line ----

  /** `process.argv[3]` as `selectModule` reads it: the argument after the
      bump kind, whatever it is. */
  function ProvidedAsWritten(argv: seq<string>): (r: string)
    ensures |argv| <= 3 ==> r == ""
    ensures |argv| > 3 ==> r == argv[3]
  {
    if |argv| > 3 then argv[3] else ""
  }

  /** The module argument as the scripts that pass `--push` evidently mean
      it: the first argument after the bump kind that is not a `--` flag,
      or "" when there is none. */
  function ProvidedModule(argv: seq<string>): (r: string)
    ensures r != "" ==> |argv| > 3 && r in argv[3..] && !StartsWith(r, "--")
    ensures r == "" ==> forall i :: 3 <= i < |argv| ==> argv[i] == "" || StartsWith(argv[i], "--")
    decreases |argv|
  {
    if |argv| <= 3 then ""
    else if argv[3] != "" && !StartsWith(argv[3], "--") then argv[3]
    else
      var rest := ProvidedModule(argv[..3] + argv[4..]);
      assert forall i :: 4 <= i < |argv| ==> argv[i] == (argv[..3] + argv[4..])[i - 1];
      assert rest != "" ==> rest in argv[3..] by {
        if rest != "" {
          var k :| 3 <= k < |argv| - 1 && (argv[..3] + argv[4..])[k] == rest;
          assert argv[k + 1] == rest;
        }
      }
      rest
  }

  /** The `push:*` scripts run `version-modules.js <kind> --push`: with two
      or more modules `selectModule` takes `--push` for a module name and
      throws, unless a module is named `--push`. */
  lemma PushFlagTakenAsModule(modules: seq<string>, script: string, kind: string, answer: Option<int>)
    requires |modules| >= 2 && "--push" !in modules
    ensures SelectModule(modules, ProvidedAsWritten(["node", script, kind, "--push"]), answer)
            == Err(ModuleNotFound("--push"))
  {
  }

  /** Skipping flags, the same run prompts for the module, and a module
      named after the flag is selected. */
  lemma PushFlagSkipped(modules: seq<string>, script: string, kind: string, m: string, answer: Option<int>)
    requires m != "" && !StartsWith(m, "--")
    ensures ProvidedModule(["node", script, kind, "--push"]) == ""
    ensures SelectModule(modules, ProvidedModule(["node", script, kind, "--push"]), answer)
            == SelectModule(modules, "", answer)
    ensures ProvidedModule(["node", script, kind, "--push", m]) == m
  {
    assert StartsWith("--push", "--");
    assert ["node", script, kind, "--push"][..3] + ["node", script, kind, "--push"][4..] == ["node", script, kind];
    assert ["node", script, kind, "--push", m][..3] + ["node", script, kind, "--push", m][4..] == ["node", script, kind, m];
  }

  // ---- package.json ----

  /** `updateModuleVersion`: bumps the `version` field of a parsed package.json
      and reports the old and new versions. Reading `.split` of a missing or
      non-string version throws. */
  function UpdateModuleVersion(moduleDir: string, pkg: Value, kind: string): (r: Result<(Value, Update), Error>)
    ensures r.Ok? ==>
      var (pkg', u) := r.value;
      && pkg.Obj? && pkg'.Obj?
      && pkg'.fields.Keys == pkg.fields.Keys
      && (forall k :: k in pkg.fields && k != "version" ==> pkg'.fields[k] == pkg.fields[k])
      && u.name == moduleDir
      && "version" in pkg.fields
      && pkg.fields["version"] == Str(u.oldVersion)
      && pkg'.fields["version"] == Str(u.newVersion)
      && ReadVersion(u.oldVersion, kind).Some? && ParseVersion(u.newVersion).Some?
      && Bump(ReadVersion(u.oldVersion, kind).value, kind) == Ok(ParseVersion(u.newVersion).value)
    ensures r.Err? <==> !(Member(pkg, "version").Some? && Member(pkg, "version").value.Str?)
                        || !ValidKind(kind)
                        || ReadVersion(Member(pkg, "version").value.s, kind).None?
    ensures !ValidKind(kind) && Member(pkg, "version").Some? && Member(pkg, "version").value.Str? ==>
              r == Err(InvalidVersionType(kind))
  {
    match Member(pkg, "version")
    case Some(Str(current)) =>
      (match UpdateVersion(current, kind)
       case Err(e) => Err(e)
       case Ok(updated) => Ok((Obj(pkg.fields["version" := Str(updated)]), Update(moduleDir, current, updated))))
    case _ => Err(VersionNotAString)
  }

  // ---- Commit and tag ----

  /** The commit message `Update <name> version: <old> → <new>`. */
  function CommitMessage(u: Update): string
  {
    "Update " + u.name + " version: " + u.oldVersion + " → " + u.newVersion
  }

  /** The annotated tag `<name>/v<newVersion>`. */
  function TagName(u: Update): string
  {
    u.name + "/v" + u.newVersion
  }

  /** The annotation `Version <new> of <name>`. */
  function TagMessage(u: Update): string
  {
    "Version " + u.newVersion + " of " + u.name
  }

  /** Reads an annotation back: after `Version `, the version runs up to
      the first space, which must open ` of `, and the module name is the
      rest, whatever it holds. */
  function ReadTagMessage(msg: string): Option<(Version, string)>
  {
    if !StartsWith(msg, "Version ") then None
    else
      var rest := msg[8..];
      SplitFirst(rest, ' ');
      var ver := Split(rest, ' ')[0];
      if StartsWith(rest[|ver|..], " of ") then
        match ParseVersion(ver)
        case Some(v) => Some((v, rest[|ver| + 4..]))
        case None => None
      else None
  }

  /** Reads the new version back from a commit message: the text after the
      last `→` and a space. */
  function ReadCommitVersion(msg: string): Option<Version>
  {
    match LastIndex(msg, '→')
    case None => None
    case Some(i) =>
      if i + 1 < |msg| && msg[i + 1] == ' ' then ParseVersion(msg[i + 2..]) else None
  }

  /** A rendered version holds only digits and dots. */
  lemma FormattedVersionChars(v: Version)
    ensures forall c :: c in FormatVersion(v) ==> c == '.' || IsDigit(c)
  {
    var a, b, c := NatToString(v.major), NatToString(v.minor), NatToString(v.patch);
    assert FormatVersion(v) == a + "." + b + "." + c;
    assert forall x :: x in a ==> IsDigit(x);
    assert forall x :: x in b ==> IsDigit(x);
    assert forall x :: x in c ==> IsDigit(x);
  }

  /** The annotation of a release names its new version and its module
      unambiguously, even when the module name holds spaces or ` of `. */
  lemma TagMessageRoundTrip(name: string, previous: string, v: Version)
    ensures ReadTagMessage(TagMessage(Update(name, previous, FormatVersion(v)))) == Some((v, name))
  {
    var ver := FormatVersion(v);
    var msg := TagMessage(Update(name, previous, ver));
    FormattedVersionChars(v);
    var rest := ver + [' '] + ("of " + name);
    assert msg == "Version " + rest;
    assert msg[8..] == rest;
    SplitPrefix(ver, "of " + name, ' ');
    assert rest[|ver|..] == " of " + name;
    assert rest[|ver| + 4..] == name;
    ParseFormatVersion(v);
  }

  /** The commit message of a release ends with its new version, whatever
      the module name and the old version hold. */
  lemma CommitMessageRoundTrip(name: string, oldVersion: string, v: Version)
    ensures ReadCommitVersion(CommitMessage(Update(name, oldVersion, FormatVersion(v)))) == Some(v)
  {
    var ver := FormatVersion(v);
    FormattedVersionChars(v);
    var head := "Update " + name + " version: " + oldVersion + " →";
    assert CommitMessage(Update(name, oldVersion, ver)) == head + " " + ver;
    ReadAfterLastArrow(head, ver);
    ParseFormatVersion(v);
  }

  /** Text after a final `→` and a space, holding no `→` itself, is what
      the commit reader reads. */
  lemma ReadAfterLastArrow(head: string, ver: string)
    requires |head| > 0 && head[|head| - 1] == '→'
    requires '→' !in ver
    ensures ReadCommitVersion(head + " " + ver) == ParseVersion(ver)
  {
    var msg := head + " " + ver;
    assert msg == head + (" " + ver);
    assert '→' !in " " + ver;
    LastIndexAppend(head, " " + ver, '→');
    assert msg[|head| + 1..] == ver;
  }

  /** The index of the last `c` in `s`, if any. */
  function LastIndex(s: string, c: char): (r: Option<nat>)
    ensures r.Some? ==> r.value < |s| && s[r.value] == c && c !in s[r.value + 1..]
    ensures r.None? ==> c !in s
    decreases |s|
  {
    if |s| == 0 then None
    else if s[|s| - 1] == c then Some(|s| - 1)
    else
      var r := LastIndex(s[..|s| - 1], c);
      assert s == s[..|s| - 1] + [s[|s| - 1]];
      match r
      case None => None
      case Some(i) =>
        assert s[i + 1..] == s[..|s| - 1][i + 1..] + [s[|s| - 1]];
        Some(i)
  }

  /** Reads a tag back into the module name and the version: the name is
      everything before the last `/`, which must be followed by `v` and a
      version. */
  function SplitTag(tag: string): Option<(string, Version)>
  {
    match LastIndex(tag, '/')
    case None => None
    case Some(i) =>
      if i + 1 < |tag| && tag[i + 1] == 'v' then
        match ParseVersion(tag[i + 2..])
        case Some(v) => Some((tag[..i], v))
        case None => None
      else None
  }

  /** The tag of a release names its module and its new version
      unambiguously, even when the module name itself contains `/`. */
  lemma {:induction false} TagRoundTrip(name: string, previous: string, v: Version)
    ensures SplitTag(TagName(Update(name, previous, FormatVersion(v)))) == Some((name, v))
  {
    var ver := FormatVersion(v);
    var tag := TagName(Update(name, previous, ver));
    FormattedVersionHasNoSlash(v);
    assert tag == (name + "/") + ("v" + ver);
    assert '/' !in "v" + ver by {
      assert forall k :: 0 <= k < |ver| ==> ("v" + ver)[k + 1] == ver[k];
    }
    LastIndexAppend(name + "/", "v" + ver, '/');
    assert tag[|name| + 2..] == ver;
    assert tag[..|name|] == name;
    ParseFormatVersion(v);
  }

  lemma FormattedVersionHasNoSlash(v: Version)
    ensures '/' !in FormatVersion(v)
  {
    var a, b, c := NatToString(v.major), NatToString(v.minor), NatToString(v.patch);
    DigitsHaveNoDot(a);
    DigitsHaveNoDot(b);
    DigitsHaveNoDot(c);
    assert FormatVersion(v) == a + "." + b + "." + c;
  }

  /** The last `c` of `a + b` is the one ending `a` when `b` has none. */
  lemma {:induction false} LastIndexAppend(a: string, b: string, c: char)
    requires |a| > 0 && a[|a| - 1] == c
    requires c !in b
    ensures LastIndex(a + b, c) == Some(|a| - 1)
    decreases |b|
  {
    if |b| == 0 {
      assert a + b == a;
    } else {
      var s := a + b;
      assert s[..|s| - 1] == a + b[..|b| - 1];
      assert s[|s| - 1] == b[|b| - 1];
      assert b[|b| - 1] in b;
      assert forall x :: x in b[..|b| - 1] ==> x in b;
      LastIndexAppend(a, b[..|b| - 1], c);
    }
  }
}
