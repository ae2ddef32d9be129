/** How the QGIS plugin finds the files a model's TOML file points at:
    the input directory, the `database.gpkg` inside it, and the Arrow
    files named by `[table] node = "file"` entries. The parsed TOML is a
    parameter; paths are not resolved against a real file system. */
module QgisModel {
  import opened Common
  import opened Strings
  import opened Paths
  import opened Toml

  /** The Python type name of a TOML value, as error messages show it. */
  function TypeName(v: TomlValue): string {
    match v
    case TStr(_) => "str"
    case TInt(_) => "int"
    case TBool(_) => "bool"
    case TArray(_) => "list"
    case TTable(_) => "dict"
  }

  /** `c.get(k, {})`: the entry of a table, `{}` when absent; any other
      value has no `get`. */
  function GetOrEmpty(c: TomlValue, k: string): (r: Result<TomlValue>)
    ensures r.Err? <==> !c.TTable?
    ensures c.TTable? ==> r.value == if k in c.entries then c.entries[k] else EMPTY
  {
    if !c.TTable? then Err(AttributeError("'" + TypeName(c) + "' object has no attribute 'get'"))
    else if k in c.entries then Ok(c.entries[k])
    else Ok(EMPTY)
  }

  /** `__recursive_get(d, *keys)`: `GetOrEmpty` folded over the keys from
      the left. */
  function RecursiveGet(d: TomlValue, keys: seq<string>): Result<TomlValue>
    decreases |keys|
  {
    if keys == [] then Ok(d)
    else
      var c :- GetOrEmpty(d, keys[0]);
      RecursiveGet(c, keys[1..])
  }

  /** Looking up `a + b` is looking up `a`, then `b` from there. */
  lemma {:induction false} RecursiveGetAppend(d: TomlValue, a: seq<string>, b: seq<string>)
    ensures RecursiveGet(d, a + b) == match RecursiveGet(d, a) case Ok(c) => RecursiveGet(c, b) case Err(e) => Err(e)
    decreases |a|
  {
    if a == [] {
      assert a + b == b;
    } else {
      assert (a + b)[0] == a[0] && (a + b)[1..] == a[1..] + b;
      var c := GetOrEmpty(d, a[0]);
      if c.Ok? {
        RecursiveGetAppend(c.value, a[1..], b);
      }
    }
  }

  /** Once a key is missing the lookup stays at `{}`, whatever keys follow. */
  lemma {:induction false} RecursiveGetEmpty(keys: seq<string>)
    ensures RecursiveGet(EMPTY, keys) == Ok(EMPTY)
    decreases |keys|
  {
    if keys != [] {
      RecursiveGetEmpty(keys[1..]);
    }
  }

  /** A lookup that misses key `keys[i]` in a table reached by the keys
      before it gives `{}`. */
  lemma MissingKeyGivesEmpty(d: TomlValue, keys: seq<string>, i: nat)
    requires i < |keys|
    requires RecursiveGet(d, keys[..i]).Ok? && RecursiveGet(d, keys[..i]).value.TTable?
    requires keys[i] !in RecursiveGet(d, keys[..i]).value.entries
    ensures RecursiveGet(d, keys) == Ok(EMPTY)
  {
    var c := RecursiveGet(d, keys[..i]).value;
    assert keys == keys[..i] + ([keys[i]] + keys[i + 1..]);
    RecursiveGetAppend(d, keys[..i], [keys[i]] + keys[i + 1..]);
    assert ([keys[i]] + keys[i + 1..])[1..] == keys[i + 1..];
    RecursiveGetEmpty(keys[i + 1..]);
  }

  /** Two keys naming a string value in nested tables find that string. */
  lemma RecursiveGetTwo(toml: map<string, TomlValue>, table: string, node: string, file: string)
    requires table in toml && toml[table].TTable?
    requires node in toml[table].entries && toml[table].entries[node] == TStr(file)
    ensures RecursiveGet(TTable(toml), [table, node]) == Ok(TStr(file))
  {
    assert [table, node][1..] == [node];
    assert [node][1..] == [];
    assert RecursiveGet(toml[table], [node]) == Ok(TStr(file));
  }

  /** `model_path.parent / directory / found`, where both joined values
      must be strings. */
  function JoinFound(modelPath: Path, directory: TomlValue, found: TomlValue): Result<Path> {
    if !directory.TStr? then Err(TypeError("unsupported operand type(s) for /: 'PosixPath' and '" + TypeName(directory) + "'"))
    else if !found.TStr? then Err(TypeError("unsupported operand type(s) for /: 'PosixPath' and '" + TypeName(found) + "'"))
    else Ok(JoinPath(JoinPath(Parent(modelPath), Parse(directory.s)), Parse(found.s)))
  }

  /** `get_directory_path_from_model_file` on the parsed TOML, before the
      path is resolved: a missing directory key raises, a lookup that
      found `{}` gives None, anything else is joined below the directory. */
  function DirectoryPath(modelPath: Path, toml: map<string, TomlValue>, properties: seq<string>, directoryKey: string)
    : (r: Result<Option<Path>>)
    ensures directoryKey !in toml ==> r == Err(KeyError(directoryKey))
    ensures directoryKey in toml && properties != [] && RecursiveGet(TTable(toml), properties) == Ok(EMPTY) ==> r == Ok(None)
  {
    if directoryKey !in toml then Err(KeyError(directoryKey))
    else
      var directory := toml[directoryKey];
      var found :- if properties != [] then RecursiveGet(TTable(toml), properties) else Ok(TStr("."));
      if found == EMPTY then Ok(None)
      else
        var p :- JoinFound(modelPath, directory, found);
        Ok(Some(p))
  }

  /** `PurePosixPath(".")` has no components, so joining it changes nothing. */
  lemma JoinDot(p: Path)
    ensures JoinPath(p, Parse(".")) == p
  {
    assert "."[0..1] == ['.'] && "/" == ['/'];
    assert FindFrom(".", "/", 1) == -1;
    assert Find(".", "/") == -1;
    assert Split(".", "/") == ["."];
  }

  /** `get_database_path_from_model_file`. */
  function DatabasePath(modelPath: Path, toml: map<string, TomlValue>): Result<Option<Path>> {
    var inputDir :- DirectoryPath(modelPath, toml, [], "input_dir");
    if inputDir.Some? then Ok(Some(Child(inputDir.value, "database.gpkg"))) else Ok(None)
  }

  /** The database is `database.gpkg` in the input directory, taken
      relative to the model file's directory unless it is absolute; it is
      never None, and an absent or non-string `input_dir` raises. */
  lemma DatabasePathFacts(modelPath: Path, toml: map<string, TomlValue>)
    ensures "input_dir" !in toml ==> DatabasePath(modelPath, toml) == Err(KeyError("input_dir"))
    ensures "input_dir" in toml && !toml["input_dir"].TStr? ==> DatabasePath(modelPath, toml).Err? &&
                                                                DatabasePath(modelPath, toml).error.TypeError?
    ensures "input_dir" in toml && toml["input_dir"].TStr? ==>
      DatabasePath(modelPath, toml) == Ok(Some(Child(JoinPath(Parent(modelPath), Parse(toml["input_dir"].s)), "database.gpkg")))
  {
    if "input_dir" in toml && toml["input_dir"].TStr? {
      JoinDot(JoinPath(Parent(modelPath), Parse(toml["input_dir"].s)));
    }
  }

  /** The separator of a table and its node inside a node type name. */
  const DELIMITER: string := " / "

  /** The `(table, node)` an Arrow layer's node type names: its lower-case
      text split once on ` / `; node types without `/` name none, and a
      `/` without the full separator cannot be unpacked. */
  function ArrowTableNode(nodeType: string): Result<Option<(string, string)>> {
    if '/' !in nodeType then Ok(None)
    else
      var low := LowerString(nodeType);
      var i := Find(low, DELIMITER);
      if i < 0 then Err(ValueError("not enough values to unpack (expected 2, got 1)"))
      else Ok(Some((low[..i], low[i + |DELIMITER|..])))
  }

  /** Node types without `/` name no table; otherwise the lower-case
      node type is the table, the separator and the node, where the table
      holds no separator, and a `/` without the full separator fails. */
  lemma ArrowTableNodeFacts(nodeType: string)
    ensures '/' !in nodeType ==> ArrowTableNode(nodeType) == Ok(None)
    ensures '/' in nodeType ==> (ArrowTableNode(nodeType).Err? <==> !Contains(LowerString(nodeType), DELIMITER))
    ensures ArrowTableNode(nodeType).Ok? && ArrowTableNode(nodeType).value.Some? ==>
      var (table, node) := ArrowTableNode(nodeType).value.value;
      LowerString(nodeType) == table + DELIMITER + node && !Contains(table, DELIMITER)
  {
    var low := LowerString(nodeType);
    var i := Find(low, DELIMITER);
    if '/' in nodeType && i >= 0 {
      FindPrefixFree(low, DELIMITER, i);
    }
  }

  /** A loaded Arrow layer: its file and its layer name. */
  datatype ArrowLayer = ArrowLayer(path: Path, name: string)

  /** `__create_arrow_layer_from_model`: the layer of one node type, when
      its file is listed in the TOML and exists (`existing` stands for the
      file system). */
  function CreateArrowLayer(modelPath: Path, toml: map<string, TomlValue>, nodeType: string, existing: set<Path>)
    : (r: Result<Option<ArrowLayer>>)
    ensures r.Ok? && r.value.Some? ==> r.value.value.name == nodeType && r.value.value.path in existing && '/' in nodeType
  {
    var tn :- ArrowTableNode(nodeType);
    if tn.None? then Ok(None)
    else
      var p :- DirectoryPath(modelPath, toml, [tn.value.0, tn.value.1], "input_dir");
      if p.Some? && p.value in existing then Ok(Some(ArrowLayer(p.value, nodeType))) else Ok(None)
  }

  /** The layer of node type `Table / node` is the file the TOML lists as
      `[table] node = "file"`, below the input directory. */
  lemma ArrowLayerPath(modelPath: Path, toml: map<string, TomlValue>, nodeType: string, existing: set<Path>,
                       table: string, node: string, file: string)
    requires ArrowTableNode(nodeType) == Ok(Some((table, node)))
    requires "input_dir" in toml && toml["input_dir"].TStr?
    requires table in toml && toml[table].TTable?
    requires node in toml[table].entries && toml[table].entries[node] == TStr(file)
    ensures var p := JoinPath(JoinPath(Parent(modelPath), Parse(toml["input_dir"].s)), Parse(file));
      CreateArrowLayer(modelPath, toml, nodeType, existing) == if p in existing then Ok(Some(ArrowLayer(p, nodeType))) else Ok(None)
  {
    RecursiveGetTwo(toml, table, node, file);
  }

  /** `get_arrow_layers_from_model` over the given node types: the
      layers, in node-type order, or the first error. */
  function ArrowLayers(modelPath: Path, toml: map<string, TomlValue>, nodeTypes: seq<string>, existing: set<Path>)
    : Result<seq<ArrowLayer>>
    decreases |nodeTypes|
  {
    if nodeTypes == [] then Ok([])
    else
      var first :- CreateArrowLayer(modelPath, toml, nodeTypes[0], existing);
      var rest :- ArrowLayers(modelPath, toml, nodeTypes[1..], existing);
      if first.Some? then Ok([first.value] + rest) else Ok(rest)
  }

  /** Every returned layer is the layer of one of the node types, and
      every node type with a layer contributes it. */
  lemma {:induction false} ArrowLayersFacts(modelPath: Path, toml: map<string, TomlValue>, nodeTypes: seq<string>, existing: set<Path>)
    requires ArrowLayers(modelPath, toml, nodeTypes, existing).Ok?
    ensures forall l :: l in ArrowLayers(modelPath, toml, nodeTypes, existing).value ==>
      l.name in nodeTypes && CreateArrowLayer(modelPath, toml, l.name, existing) == Ok(Some(l))
    ensures forall k :: 0 <= k < |nodeTypes| ==> CreateArrowLayer(modelPath, toml, nodeTypes[k], existing).Ok?
    ensures forall k, l :: 0 <= k < |nodeTypes| && CreateArrowLayer(modelPath, toml, nodeTypes[k], existing) == Ok(Some(l)) ==>
      l in ArrowLayers(modelPath, toml, nodeTypes, existing).value
    decreases |nodeTypes|
  {
    if nodeTypes != [] {
      ArrowLayersFacts(modelPath, toml, nodeTypes[1..], existing);
      forall k | 1 <= k < |nodeTypes| ensures nodeTypes[k] == nodeTypes[1..][k - 1] { }
    }
  }
}
