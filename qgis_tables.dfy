/** The table registry of the QGIS plugin: which geopackage layers it
    loads, the style each layer is saved under, and which tables a model
    file points at an external NetCDF file. */
module QgisTables {
  import opened Common
  import opened Strings
  import opened Toml

  /** Every table the plugin knows, named `NodeType / table` (plus the
      `Node` and `Link` layers). */
  const TABLES: set<string> := {
    "Node",
    "Link",
    "Basin / concentration",
    "Basin / concentration_external",
    "Basin / concentration_state",
    "Basin / area",
    "Basin / profile",
    "Basin / state",
    "Basin / static",
    "Basin / subgrid",
    "Basin / subgrid_time",
    "Basin / time",
    "ContinuousControl / function",
    "ContinuousControl / variable",
    "DiscreteControl / condition",
    "DiscreteControl / logic",
    "DiscreteControl / variable",
    "FlowBoundary / concentration",
    "FlowBoundary / static",
    "FlowBoundary / time",
    "FlowBoundary / area",
    "FlowDemand / static",
    "FlowDemand / time",
    "LevelBoundary / concentration",
    "LevelBoundary / static",
    "LevelBoundary / time",
    "LevelDemand / static",
    "LevelDemand / time",
    "LinearResistance / static",
    "ManningResistance / static",
    "Outlet / static",
    "Outlet / time",
    "PidControl / static",
    "PidControl / time",
    "Pump / static",
    "Pump / time",
    "TabulatedRatingCurve / static",
    "TabulatedRatingCurve / time",
    "UserDemand / concentration",
    "UserDemand / static",
    "UserDemand / time"}

  /** The separator between node type and table name. */
  const DELIMITER: string := " / "

  /** `Input.stylename`: the input type with ` / ` replaced by `_`, then `Style`. */
  function StyleName(inputType: string): string {
    Replace(inputType, DELIMITER, "_") + "Style"
  }

  /** A layer without a node type keeps its name in its style name. */
  lemma StyleNamePlain(inputType: string)
    requires !Contains(inputType, DELIMITER)
    ensures StyleName(inputType) == inputType + "Style"
  {
    SplitNoSep(inputType, DELIMITER);
  }

  /** A `NodeType / table` layer is styled as `NodeType_tableStyle`. */
  lemma StyleNameTable(nodeType: string, table: string)
    requires Find(nodeType + DELIMITER, DELIMITER) == |nodeType|
    requires !Contains(table, DELIMITER)
    ensures StyleName(nodeType + DELIMITER + table) == nodeType + "_" + table + "Style"
  {
    SplitFirst(nodeType, DELIMITER, table);
    SplitNoSep(table, DELIMITER);
    assert Split(nodeType + DELIMITER + table, DELIMITER) == [nodeType, table];
    assert Join([nodeType, table], "_") == nodeType + "_" + Join([table], "_");
  }

  /** A loaded layer: its input type and the geopackage it came from. */
  datatype Table = Table(inputType: string, path: string)

  /** `load_nodes_from_geopackage`: one table per geopackage layer whose
      name the registry knows; other layers are ignored. */
  method LoadNodesFromGeopackage(names: seq<string>, path: string) returns (nodes: map<string, Table>)
    ensures nodes.Keys == set n | n in names && n in TABLES
    ensures forall n :: n in nodes ==> nodes[n] == Table(n, path)
  {
    nodes := map[];
    for i := 0 to |names|
      invariant nodes.Keys == set n | n in names[..i] && n in TABLES
      invariant forall n :: n in nodes ==> nodes[n] == Table(n, path)
    {
      assert names[..i + 1] == names[..i] + [names[i]];
      if names[i] in TABLES {
        nodes := nodes[names[i] := Table(names[i], path)];
      }
    }
    assert names[..|names|] == names;
  }

  /** The node types named before ` / ` in a set of tables. */
  function NodeTypes(tables: set<string>): set<string> {
    set t | t in tables && Contains(t, DELIMITER) :: Split(t, DELIMITER)[0]
  }

  /** What one character of a PascalCase name becomes in snake_case. */
  function SnakePiece(c: char): string {
    if IsUpper(c) then "_" + [Lower(c)] else [c]
  }

  /** Every character mapped through `SnakePiece`. */
  function SnakeChars(s: string): string {
    if s == [] then [] else SnakePiece(s[0]) + SnakeChars(s[1..])
  }

  /** `s.lstrip(c)`. */
  function LStripChar(s: string, c: char): (r: string)
    ensures r == [] || r[0] != c
    ensures |r| <= |s| && r == s[|s| - |r|..]
  {
    if s != [] && s[0] == c then LStripChar(s[1..], c) else s
  }

  /** The snake_case TOML section name of a PascalCase node type. */
  function SnakeCase(nodeType: string): string {
    LStripChar(SnakeChars(nodeType), '_')
  }

  lemma {:induction false} SnakeCharsConcat(a: string, b: string)
    ensures SnakeChars(a + b) == SnakeChars(a) + SnakeChars(b)
  {
    if a != [] {
      assert (a + b)[1..] == a[1..] + b;
      SnakeCharsConcat(a[1..], b);
    } else {
      assert a + b == b;
    }
  }

  lemma {:induction false} SnakeCharsLower(s: string)
    requires forall k :: 0 <= k < |s| ==> !IsUpper(s[k])
    ensures SnakeChars(s) == s
  {
    if s != [] {
      SnakeCharsLower(s[1..]);
    }
  }

  predicate IsLowerLetter(c: char) {
    'a' <= c <= 'z'
  }

  /** A word of a snake_case name: it starts with a lower-case letter and
      holds no upper-case letter and no underscore. */
  predicate IsSnakeWord(w: string) {
    |w| > 0 && IsLowerLetter(w[0]) && '_' !in w && forall k :: 0 <= k < |w| ==> !IsUpper(w[k])
  }

  /** The word with its first letter in upper case. */
  function Capitalize(w: string): string
    requires IsSnakeWord(w)
  {
    [(w[0] as int - 32) as char] + w[1..]
  }

  /** The PascalCase name made of a sequence of words. */
  function Pascal(ws: seq<string>): string
    requires forall k :: 0 <= k < |ws| ==> IsSnakeWord(ws[k])
  {
    if ws == [] then "" else Capitalize(ws[0]) + Pascal(ws[1..])
  }

  /** A capitalized word becomes an underscore and the word. */
  lemma SnakeCapitalized(w: string)
    requires IsSnakeWord(w)
    ensures SnakeChars(Capitalize(w)) == "_" + w
  {
    var x := Capitalize(w);
    var up := (w[0] as int - 32) as char;
    assert x[0] == up && x[1..] == w[1..];
    assert IsUpper(up) && Lower(up) == w[0];
    SnakeCharsLower(w[1..]);
    assert SnakeChars(x) == SnakePiece(up) + w[1..];
  }

  /** Each word, preceded by an underscore, concatenated. */
  lemma {:induction false} SnakeCharsPascal(ws: seq<string>)
    requires |ws| >= 1
    requires forall k :: 0 <= k < |ws| ==> IsSnakeWord(ws[k])
    ensures SnakeChars(Pascal(ws)) == "_" + Join(ws, "_")
  {
    var w, rest := ws[0], ws[1..];
    PascalStep(ws);
    if |ws| > 1 {
      SnakeCharsPascal(rest);
      assert Join(ws, "_") == w + "_" + Join(rest, "_");
      Glue("_", w, Join(rest, "_"));
    } else {
      assert Pascal(rest) == [] && Join(ws, "_") == w;
    }
  }

  /** The first word of a PascalCase name becomes `_` and the word. */
  lemma PascalStep(ws: seq<string>)
    requires |ws| >= 1
    requires forall k :: 0 <= k < |ws| ==> IsSnakeWord(ws[k])
    ensures SnakeChars(Pascal(ws)) == "_" + ws[0] + SnakeChars(Pascal(ws[1..]))
  {
    assert Pascal(ws) == Capitalize(ws[0]) + Pascal(ws[1..]);
    SnakeCapitalized(ws[0]);
    SnakeCharsConcat(Capitalize(ws[0]), Pascal(ws[1..]));
  }

  lemma Glue(u: string, a: string, b: string)
    ensures u + a + (u + b) == u + (a + u + b)
  {
  }

  /** The snake_case conversion undoes PascalCase: the node type written
      from words is looked up in the TOML under those words joined by `_`. */
  lemma SnakeCaseOfPascal(ws: seq<string>)
    requires |ws| >= 1
    requires forall k :: 0 <= k < |ws| ==> IsSnakeWord(ws[k])
    ensures SnakeCase(Pascal(ws)) == Join(ws, "_")
  {
    SnakeCharsPascal(ws);
    JoinStart(ws, "_");
    LStripOne(Join(ws, "_"), '_');
  }

  /** The joined words start with the first letter of the first word. */
  lemma JoinStart(ws: seq<string>, sep: string)
    requires |ws| >= 1 && |ws[0]| > 0
    ensures |Join(ws, sep)| > 0 && Join(ws, sep)[0] == ws[0][0]
  {
    if |ws| > 1 {
      assert Join(ws, sep) == ws[0] + sep + Join(ws[1..], sep);
    }
  }

  /** One leading `c` before a text not starting with `c` is stripped. */
  lemma LStripOne(j: string, c: char)
    requires |j| > 0 && j[0] != c
    ensures LStripChar([c] + j, c) == j
  {
    assert ([c] + j)[1..] == j;
  }

  /** The TOML entry `key` of node type `nodeType`'s section is a string
      naming a NetCDF file, and `nodeType / key` is a known table. */
  predicate Listed(toml: map<string, TomlValue>, tables: set<string>, nodeType: string, key: string, path: string) {
    var section := SnakeCase(nodeType);
    section in toml && toml[section].TTable? &&
    key in toml[section].entries && toml[section].entries[key] == TStr(path) &&
    EndsWith(path, ".nc") && nodeType + DELIMITER + key in tables
  }

  /** Every entry of a file map is the `nodeType / key` table of a listed
      TOML entry, with the node type among `nodeTypes`; `origin` records
      which node type and key each entry came from. */
  ghost predicate FromListed(toml: map<string, TomlValue>, tables: set<string>, nodeTypes: set<string>,
                             files: map<string, string>, origin: map<string, (string, string)>) {
    forall name :: name in files ==>
      name in origin && origin[name].0 in nodeTypes && name == origin[name].0 + DELIMITER + origin[name].1 &&
      Listed(toml, tables, origin[name].0, origin[name].1, files[name])
  }

  /** The inner loop of `get_external_input_files`: the listed entries of
      one node type's section are added to the file map. */
  method AddNodeTypeFiles(toml: map<string, TomlValue>, tables: set<string>, nodeTypes: set<string>, nodeType: string,
                          files: map<string, string>, ghost origin: map<string, (string, string)>)
    returns (out: map<string, string>, ghost outOrigin: map<string, (string, string)>)
    requires nodeType in nodeTypes
    ensures FromListed(toml, tables, nodeTypes, files, origin) ==> FromListed(toml, tables, nodeTypes, out, outOrigin)
    ensures files.Keys <= out.Keys
    ensures forall key, path :: Listed(toml, tables, nodeType, key, path) ==> nodeType + DELIMITER + key in out
  {
    out, outOrigin := files, origin;
    var section := SnakeCase(nodeType);
    if section !in toml || !toml[section].TTable? {
      return;
    }
    var config := toml[section].entries;
    var keys := config.Keys;
    while keys != {}
      invariant keys <= config.Keys
      invariant FromListed(toml, tables, nodeTypes, files, origin) ==> FromListed(toml, tables, nodeTypes, out, outOrigin)
      invariant files.Keys <= out.Keys
      invariant forall key, path :: key !in keys && Listed(toml, tables, nodeType, key, path) ==> nodeType + DELIMITER + key in out
      decreases |keys|
    {
      var key :| key in keys;
      out, outOrigin := AddEntry(toml, tables, nodeTypes, nodeType, key, out, outOrigin);
      keys := keys - {key};
    }
  }

  /** One entry of a node type's section: a NetCDF path of a known table
      is recorded under the table's name. */
  method AddEntry(toml: map<string, TomlValue>, tables: set<string>, nodeTypes: set<string>, nodeType: string, key: string,
                  files: map<string, string>, ghost origin: map<string, (string, string)>)
    returns (out: map<string, string>, ghost outOrigin: map<string, (string, string)>)
    requires nodeType in nodeTypes
    requires SnakeCase(nodeType) in toml && toml[SnakeCase(nodeType)].TTable? && key in toml[SnakeCase(nodeType)].entries
    ensures FromListed(toml, tables, nodeTypes, files, origin) ==> FromListed(toml, tables, nodeTypes, out, outOrigin)
    ensures files.Keys <= out.Keys
    ensures forall path :: Listed(toml, tables, nodeType, key, path) ==> nodeType + DELIMITER + key in out
  {
    out, outOrigin := files, origin;
    var value := toml[SnakeCase(nodeType)].entries[key];
    if value.TStr? && EndsWith(value.s, ".nc") {
      var name := nodeType + DELIMITER + key;
      if name in tables {
        assert Listed(toml, tables, nodeType, key, value.s);
        FromListedAdd(toml, tables, nodeTypes, files, origin, nodeType, key, value.s);
        out := out[name := value.s];
        outOrigin := outOrigin[name := (nodeType, key)];
      }
    }
  }

  /** Recording a listed entry keeps the file map made of listed entries. */
  lemma FromListedAdd(toml: map<string, TomlValue>, tables: set<string>, nodeTypes: set<string>,
                      files: map<string, string>, origin: map<string, (string, string)>,
                      nodeType: string, key: string, path: string)
    requires nodeType in nodeTypes && Listed(toml, tables, nodeType, key, path)
    ensures var name := nodeType + DELIMITER + key;
      FromListed(toml, tables, nodeTypes, files, origin) ==>
      FromListed(toml, tables, nodeTypes, files[name := path], origin[name := (nodeType, key)])
  {
    var name := nodeType + DELIMITER + key;
    if FromListed(toml, tables, nodeTypes, files, origin) {
      var f, o := files[name := path], origin[name := (nodeType, key)];
      forall n | n in f
        ensures n in o && o[n].0 in nodeTypes && n == o[n].0 + DELIMITER + o[n].1 && Listed(toml, tables, o[n].0, o[n].1, f[n])
      {
        if n != name {
          assert f[n] == files[n] && o[n] == origin[n];
        }
      }
    }
  }

  /** The outer loop of `get_external_input_files`, over the node types;
      `tables` is the set of known table names. */
  method AddFiles(toml: map<string, TomlValue>, tables: set<string>, nodeTypes: set<string>)
    returns (files: map<string, string>, ghost origin: map<string, (string, string)>)
    ensures FromListed(toml, tables, nodeTypes, files, origin)
    ensures forall nt, key, path :: nt in nodeTypes && Listed(toml, tables, nt, key, path) ==> nt + DELIMITER + key in files
  {
    files, origin := map[], map[];
    var todo := nodeTypes;
    while todo != {}
      invariant todo <= nodeTypes
      invariant FromListed(toml, tables, nodeTypes, files, origin)
      invariant forall nt, key, path :: nt in nodeTypes && nt !in todo && Listed(toml, tables, nt, key, path) ==> nt + DELIMITER + key in files
      decreases |todo|
    {
      var nodeType :| nodeType in todo;
      files, origin := AddNodeTypeFiles(toml, tables, nodeTypes, nodeType, files, origin);
      todo := todo - {nodeType};
    }
  }

  /** `get_external_input_files` on a parsed model file: every entry is
      the table of a listed TOML entry of a registered node type, and the
      table of every such entry is present. */
  method GetExternalInputFiles(toml: map<string, TomlValue>)
    returns (files: map<string, string>, ghost origin: map<string, (string, string)>)
    ensures FromListed(toml, TABLES, NodeTypes(TABLES), files, origin)
    ensures forall nt, key, path :: nt in NodeTypes(TABLES) && Listed(toml, TABLES, nt, key, path) ==> nt + DELIMITER + key in files
  {
    files, origin := AddFiles(toml, TABLES, NodeTypes(TABLES));
  }
}
