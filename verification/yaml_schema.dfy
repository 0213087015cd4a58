/** The plugin that gathers every `.yml` file under the source directory into
    one schema asset keyed by component name. The source tree is a snapshot;
    reading and parsing a file is given as its outcome. */
module YamlSchema {
  import opened Common
  import opened Strings
  import opened Values

  // ---- Options ----

  datatype Options = Options(srcDir: string, output: string)

  /** The options a user passed; None where the key is absent. */
  datatype UserOptions = UserOptions(srcDir: Option<string>, output: Option<string>)

  const DefaultSrcDir := "../src"
  const DefaultOutput := "schema.json"

  /** `{ srcDir: '../src', output: 'schema.json', ...options }`. */
  function MakeOptions(u: UserOptions): (o: Options)
    ensures u.srcDir.None? ==> o.srcDir == DefaultSrcDir
    ensures u.output.None? ==> o.output == DefaultOutput
    ensures u.srcDir.Some? ==> o.srcDir == u.srcDir.value
    ensures u.output.Some? ==> o.output == u.output.value
  {
    Options(OrElse(u.srcDir, DefaultSrcDir), OrElse(u.output, DefaultOutput))
  }

  // ---- Finding the files ----

  /** A directory tree: files carry the outcome of reading and parsing them. */
  datatype Node = File(name: string, content: Parse) | Dir(name: string, children: seq<Node>)

  /** `path.extname(name) === '.yml'`: the name ends in `.yml` and has at
      least one character before that dot (`.yml` alone has no extension). */
  predicate HasYmlExtension(name: string)
  {
    |name| > 4 && EndsWith(name, ".yml")
  }

  /** A found file: its path as segments, and its parse outcome. */
  datatype YmlFile = YmlFile(path: seq<string>, content: Parse)

  /** `findYmlFiles`: a depth-first walk in listing order. */
  function FindInNodes(dir: seq<string>, nodes: seq<Node>): (r: seq<YmlFile>)
    ensures forall f :: f in r ==> |f.path| > |dir| && f.path[..|dir|] == dir
    decreases nodes
  {
    if |nodes| == 0 then []
    else FindInNode(dir, nodes[0]) + FindInNodes(dir, nodes[1..])
  }

  function FindInNode(dir: seq<string>, n: Node): (r: seq<YmlFile>)
    ensures forall f :: f in r ==> |f.path| > |dir| && f.path[..|dir|] == dir
    decreases n
  {
    match n
    case File(name, content) =>
      if HasYmlExtension(name) then [YmlFile(dir + [name], content)] else []
    case Dir(name, children) =>
      var r := FindInNodes(dir + [name], children);
      assert forall f :: f in r ==> f.path[..|dir|] == (f.path[..|dir| + 1])[..|dir|];
      r
  }

  /** Independently of the walk: `rel` leads through directories of the tree
      to a non-directory with a `.yml` extension whose parse is `content`. */
  ghost predicate IsYmlFileAt(nodes: seq<Node>, rel: seq<string>, content: Parse)
    decreases |rel|
  {
    if |rel| == 0 then false
    else if |rel| == 1 then
      exists i :: 0 <= i < |nodes| && nodes[i] == File(rel[0], content) && HasYmlExtension(rel[0])
    else
      exists i :: 0 <= i < |nodes| && nodes[i].Dir? && nodes[i].name == rel[0]
                  && IsYmlFileAt(nodes[i].children, rel[1..], content)
  }

  /** Everything the walk returns is a `.yml` file of the tree. */
  lemma {:induction false} FindSound(dir: seq<string>, nodes: seq<Node>, f: YmlFile)
    requires f in FindInNodes(dir, nodes)
    ensures IsYmlFileAt(nodes, f.path[|dir|..], f.content)
    decreases nodes
  {
    if f in FindInNode(dir, nodes[0]) {
      FindSoundNode(dir, nodes[0], f);
      WitnessHead(nodes, f.path[|dir|..], f.content);
    } else {
      FindSound(dir, nodes[1..], f);
      WitnessTail(nodes, f.path[|dir|..], f.content);
    }
  }

  lemma {:induction false} FindSoundNode(dir: seq<string>, n: Node, f: YmlFile)
    requires f in FindInNode(dir, n)
    ensures IsYmlFileAt([n], f.path[|dir|..], f.content)
    decreases n
  {
    match n
    case File(name, content) =>
      assert f == YmlFile(dir + [name], content);
      assert f.path[|dir|..] == [name];
      assert [n][0] == File(name, content);
    case Dir(name, children) =>
      FindSound(dir + [name], children, f);
      var rel := f.path[|dir|..];
      assert f.path[..|dir| + 1] == dir + [name];
      assert rel[0] == name;
      assert rel[1..] == f.path[|dir + [name]|..];
      assert [n][0] == n;
  }

  lemma WitnessHead(nodes: seq<Node>, rel: seq<string>, content: Parse)
    requires |nodes| > 0
    requires IsYmlFileAt([nodes[0]], rel, content)
    ensures IsYmlFileAt(nodes, rel, content)
  {
    if |rel| == 1 {
      assert nodes[0] == File(rel[0], content);
    } else {
      assert [nodes[0]][0] == nodes[0];
    }
  }

  lemma WitnessTail(nodes: seq<Node>, rel: seq<string>, content: Parse)
    requires |nodes| > 0
    requires IsYmlFileAt(nodes[1..], rel, content)
    ensures IsYmlFileAt(nodes, rel, content)
  {
    if |rel| == 1 {
      var i :| 0 <= i < |nodes[1..]| && nodes[1..][i] == File(rel[0], content) && HasYmlExtension(rel[0]);
      assert nodes[i + 1] == nodes[1..][i];
    } else {
      var i :| 0 <= i < |nodes[1..]| && nodes[1..][i].Dir? && nodes[1..][i].name == rel[0]
                && IsYmlFileAt(nodes[1..][i].children, rel[1..], content);
      assert nodes[i + 1] == nodes[1..][i];
    }
  }

  /** Every `.yml` file of the tree is returned. */
  lemma {:induction false} FindComplete(dir: seq<string>, nodes: seq<Node>, rel: seq<string>, content: Parse)
    requires IsYmlFileAt(nodes, rel, content)
    ensures YmlFile(dir + rel, content) in FindInNodes(dir, nodes)
    decreases |rel|
  {
    if |rel| == 1 {
      var i :| 0 <= i < |nodes| && nodes[i] == File(rel[0], content) && HasYmlExtension(rel[0]);
      assert rel == [rel[0]];
      assert YmlFile(dir + rel, content) in FindInNode(dir, nodes[i]);
      InNodesAt(dir, nodes, i, YmlFile(dir + rel, content));
    } else {
      var i :| 0 <= i < |nodes| && nodes[i].Dir? && nodes[i].name == rel[0]
               && IsYmlFileAt(nodes[i].children, rel[1..], content);
      FindComplete(dir + [rel[0]], nodes[i].children, rel[1..], content);
      assert dir + [rel[0]] + rel[1..] == dir + rel by {
        assert rel == [rel[0]] + rel[1..];
      }
      InNodesAt(dir, nodes, i, YmlFile(dir + rel, content));
    }
  }

  /** The walk returns exactly the `.yml` files of the tree, each under the
      directory the walk started from. */
  lemma FindYmlFilesExact(dir: seq<string>, nodes: seq<Node>)
    ensures forall f :: f in FindInNodes(dir, nodes) ==>
              |f.path| > |dir| && f.path[..|dir|] == dir && IsYmlFileAt(nodes, f.path[|dir|..], f.content)
    ensures forall rel, content :: IsYmlFileAt(nodes, rel, content) ==> YmlFile(dir + rel, content) in FindInNodes(dir, nodes)
  {
    forall f | f in FindInNodes(dir, nodes)
      ensures IsYmlFileAt(nodes, f.path[|dir|..], f.content)
    {
      FindSound(dir, nodes, f);
    }
    forall rel, content | IsYmlFileAt(nodes, rel, content)
      ensures YmlFile(dir + rel, content) in FindInNodes(dir, nodes)
    {
      FindComplete(dir, nodes, rel, content);
    }
  }

  /** What one entry's walk finds is part of the whole listing's walk. */
  lemma {:induction false} InNodesAt(dir: seq<string>, nodes: seq<Node>, i: nat, f: YmlFile)
    requires i < |nodes|
    requires f in FindInNode(dir, nodes[i])
    ensures f in FindInNodes(dir, nodes)
    decreases i
  {
    if i > 0 {
      assert nodes[1..][i - 1] == nodes[i];
      InNodesAt(dir, nodes[1..], i - 1, f);
    }
  }

  // ---- Building the schema ----

  /** `path.basename(path.dirname(path.dirname(file)))`: the grandparent
      directory's name (empty above the filesystem root). */
  function ComponentKey(path: seq<string>): string
  {
    if |path| >= 3 then path[|path| - 3] else ""
  }

  datatype FileError = FileError(path: seq<string>, message: string)

  datatype Aggregate = Aggregate(schema: map<string, Value>, errors: seq<FileError>)

  predicate Succeeds(f: YmlFile, key: string)
  {
    f.content.Ok? && ComponentKey(f.path) == key
  }

  /** The number of files that failed to read or parse. */
  function FailureCount(files: seq<YmlFile>): nat
    decreases |files|
  {
    if |files| == 0 then 0
    else (if files[0].content.Err? then 1 else 0) + FailureCount(files[1..])
  }

  lemma {:induction false} FailureCountSnoc(files: seq<YmlFile>, f: YmlFile)
    ensures FailureCount(files + [f]) == FailureCount(files) + (if f.content.Err? then 1 else 0)
    decreases |files|
  {
    if |files| == 0 {
      assert files + [f] == [f];
      assert [f][1..] == [];
    } else {
      assert (files + [f])[1..] == files[1..] + [f];
      FailureCountSnoc(files[1..], f);
    }
  }

  /** The keys of the schema are exactly the keys of the files that parsed. */
  ghost predicate KeysExact(files: seq<YmlFile>, schema: map<string, Value>)
  {
    forall k :: k in schema <==> exists i :: 0 <= i < |files| && Succeeds(files[i], k)
  }

  /** Each key holds the value of the last file that parsed under it. */
  ghost predicate LastWriterWins(files: seq<YmlFile>, schema: map<string, Value>)
  {
    forall k :: k in schema ==>
      exists i :: 0 <= i < |files| && Succeeds(files[i], k) && schema[k] == files[i].content.value
                  && forall j :: i < j < |files| ==> !Succeeds(files[j], k)
  }

  /** Each error names a file that failed, with the message it failed with. */
  ghost predicate ErrorsSound(files: seq<YmlFile>, errors: seq<FileError>)
  {
    forall e :: e in errors ==> exists i :: 0 <= i < |files| && files[i].path == e.path
                                           && files[i].content == Err(e.message)
  }

  /** Processing one file. */
  function Step(a: Aggregate, f: YmlFile): Aggregate
  {
    match f.content
    case Ok(v) => Aggregate(a.schema[ComponentKey(f.path) := v], a.errors)
    case Err(m) => Aggregate(a.schema, a.errors + [FileError(f.path, m)])
  }

  lemma StepKeys(init: seq<YmlFile>, f: YmlFile, a: Aggregate)
    requires KeysExact(init, a.schema)
    ensures KeysExact(init + [f], Step(a, f).schema)
  {
    var files := init + [f];
    assert forall i :: 0 <= i < |init| ==> files[i] == init[i];
    assert files[|init|] == f;
  }

  lemma StepLast(init: seq<YmlFile>, f: YmlFile, a: Aggregate)
    requires LastWriterWins(init, a.schema)
    ensures LastWriterWins(init + [f], Step(a, f).schema)
  {
    var files := init + [f];
    var schema := Step(a, f).schema;
    assert forall i :: 0 <= i < |init| ==> files[i] == init[i];
    assert files[|init|] == f;
    forall k | k in schema
      ensures exists i :: 0 <= i < |files| && Succeeds(files[i], k) && schema[k] == files[i].content.value
                          && forall j :: i < j < |files| ==> !Succeeds(files[j], k)
    {
      if Succeeds(f, k) {
        assert Succeeds(files[|init|], k) && schema[k] == files[|init|].content.value;
      } else {
        var i :| 0 <= i < |init| && Succeeds(init[i], k) && a.schema[k] == init[i].content.value
                 && forall j :: i < j < |init| ==> !Succeeds(init[j], k);
        assert Succeeds(files[i], k) && schema[k] == files[i].content.value;
      }
    }
  }

  lemma StepErrors(init: seq<YmlFile>, f: YmlFile, a: Aggregate)
    requires ErrorsSound(init, a.errors)
    ensures ErrorsSound(init + [f], Step(a, f).errors)
  {
    var files := init + [f];
    assert forall i :: 0 <= i < |init| ==> files[i] == init[i];
    assert files[|init|] == f;
  }

  /** The `forEach` over the found files: each success stores its value under
      its component key, replacing any earlier one; each failure appends one
      error and leaves the schema as it was. */
  function BuildSchema(files: seq<YmlFile>): (r: Aggregate)
    ensures KeysExact(files, r.schema)
    ensures LastWriterWins(files, r.schema)
    ensures ErrorsSound(files, r.errors)
    ensures |r.errors| == FailureCount(files)
    decreases |files|
  {
    if |files| == 0 then Aggregate(map[], [])
    else
      var init := files[..|files| - 1];
      var f := files[|files| - 1];
      var prev := BuildSchema(init);
      assert files == init + [f];
      FailureCountSnoc(init, f);
      StepKeys(init, f, prev);
      StepLast(init, f, prev);
      StepErrors(init, f, prev);
      Step(prev, f)
  }

  /** A failing file changes only the error list. */
  lemma FailureLeavesSchema(files: seq<YmlFile>, f: YmlFile)
    requires f.content.Err?
    ensures BuildSchema(files + [f]).schema == BuildSchema(files).schema
    ensures BuildSchema(files + [f]).errors == BuildSchema(files).errors + [FileError(f.path, f.content.error)]
  {
    assert (files + [f])[..|files + [f]| - 1] == files;
  }

  /** Every schema entry is the parsed content of a `.yml` file of the tree
      whose grandparent directory names the entry. */
  lemma SchemaFromTree(srcPath: seq<string>, nodes: seq<Node>, schema: map<string, Value>)
    requires schema == BuildSchema(FindInNodes(srcPath, nodes)).schema
    ensures forall k :: k in schema ==>
              exists rel :: IsYmlFileAt(nodes, rel, Ok(schema[k])) && ComponentKey(srcPath + rel) == k
  {
    var files := FindInNodes(srcPath, nodes);
    assert LastWriterWins(files, schema);
    forall k | k in schema
      ensures exists rel :: IsYmlFileAt(nodes, rel, Ok(schema[k])) && ComponentKey(srcPath + rel) == k
    {
      var i :| 0 <= i < |files| && Succeeds(files[i], k) && schema[k] == files[i].content.value
               && forall j :: i < j < |files| ==> !Succeeds(files[j], k);
      FoundFileInTree(srcPath, nodes, files[i]);
    }
  }

  lemma FoundFileInTree(srcPath: seq<string>, nodes: seq<Node>, f: YmlFile)
    requires f in FindInNodes(srcPath, nodes)
    requires f.content.Ok?
    ensures exists rel :: IsYmlFileAt(nodes, rel, Ok(f.content.value)) && ComponentKey(srcPath + rel) == ComponentKey(f.path)
  {
    FindSound(srcPath, nodes, f);
    var rel := f.path[|srcPath|..];
    assert srcPath + rel == f.path;
  }

  // ---- The processAssets callback ----

  /** The `i`-th file is the last one that parsed under `k`. */
  ghost predicate LastSuccess(files: seq<YmlFile>, k: string, i: int)
  {
    0 <= i < |files| && Succeeds(files[i], k) && forall j :: i < j < |files| ==> !Succeeds(files[j], k)
  }

  /** The object `JSON.stringify` writes: a key holding `undefined` (the
      value of an empty YAML document) is dropped. */
  function Serialised(schema: map<string, Value>): (r: map<string, Value>)
    ensures forall k :: k in r <==> k in schema && schema[k] != Undefined
    ensures forall k :: k in r ==> r[k] == schema[k]
  {
    map k | k in schema && schema[k] != Undefined :: schema[k]
  }

  /** Under the last-writer rule, a key is written out iff its last
      successful file did not parse to `undefined`, and then with that
      file's value. */
  lemma SerialisedExact(files: seq<YmlFile>, schema: map<string, Value>)
    requires KeysExact(files, schema)
    requires LastWriterWins(files, schema)
    ensures forall k, i :: k in schema && LastSuccess(files, k, i) ==> schema[k] == files[i].content.value
    ensures forall k :: k in Serialised(schema) <==>
              exists i :: LastSuccess(files, k, i) && files[i].content.value != Undefined
  {
    forall k, i | k in schema && LastSuccess(files, k, i)
      ensures schema[k] == files[i].content.value
    {
      var i' :| 0 <= i' < |files| && Succeeds(files[i'], k) && schema[k] == files[i'].content.value
                && forall j :: i' < j < |files| ==> !Succeeds(files[j], k);
      assert i == i';
    }
    forall k
      ensures k in Serialised(schema) <==> exists i :: LastSuccess(files, k, i) && files[i].content.value != Undefined
    {
      if k in Serialised(schema) {
        var i :| 0 <= i < |files| && Succeeds(files[i], k) && schema[k] == files[i].content.value
                 && forall j :: i < j < |files| ==> !Succeeds(files[j], k);
        assert LastSuccess(files, k, i);
      }
      if exists i :: LastSuccess(files, k, i) && files[i].content.value != Undefined {
        var i :| LastSuccess(files, k, i) && files[i].content.value != Undefined;
        assert k in schema;
      }
    }
  }

  datatype Error = SourceDirectoryUnreadable

  /** The one asset emitted: its name and the object `schema.json` holds,
      with the errors pushed onto the compilation. */
  datatype Emission = Emission(assetName: string, schema: map<string, Value>, errors: seq<FileError>)

  /** The `processAssets` callback. `srcPath` is the resolved source
      directory, `src` its listing (None when it cannot be read, which makes
      the walk throw). Every key of the written schema comes from the last
      found file that parsed under it, and every such file whose value is
      not `undefined` is written. */
  function ProcessAssets(o: Options, srcPath: seq<string>, src: Option<seq<Node>>): (r: Result<Emission, Error>)
    ensures r.Err? <==> src.None?
    ensures r.Ok? ==> r.value.assetName == o.output
    ensures r.Ok? ==> ErrorsSound(FindInNodes(srcPath, src.value), r.value.errors)
    ensures r.Ok? ==> |r.value.errors| == FailureCount(FindInNodes(srcPath, src.value))
    ensures r.Ok? ==> forall k :: k in r.value.schema <==>
              exists i :: LastSuccess(FindInNodes(srcPath, src.value), k, i)
                          && FindInNodes(srcPath, src.value)[i].content.value != Undefined
    ensures r.Ok? ==> forall k, i :: k in r.value.schema && LastSuccess(FindInNodes(srcPath, src.value), k, i) ==>
              r.value.schema[k] == FindInNodes(srcPath, src.value)[i].content.value
    ensures r.Ok? ==> forall k :: k in r.value.schema ==>
              exists rel :: IsYmlFileAt(src.value, rel, Ok(r.value.schema[k])) && ComponentKey(srcPath + rel) == k
  {
    match src
    case None => Err(SourceDirectoryUnreadable)
    case Some(nodes) =>
      var files := FindInNodes(srcPath, nodes);
      var agg := BuildSchema(files);
      SchemaFromTree(srcPath, nodes, agg.schema);
      SerialisedExact(files, agg.schema);
      Ok(Emission(o.output, Serialised(agg.schema), agg.errors))
  }
}
