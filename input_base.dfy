/** The shared behaviour of every input class of the Python package: each
    field holds a table (or nothing), is stored in the model geopackage as
    layer `<input_type> / <field>`, and can be overridden by an Arrow file
    named in the TOML configuration. Tables are rows with a node id and
    uninterpreted cells; a geopackage is a map from layer name to table. */
module InputBase {
  import opened Common
  import opened Strings
  import opened Toml
  import QgisTables

  const DELIMITER: string := " / "

  /** One row of a table: its `node_id` and the other cells. */
  datatype Row = Row(nodeId: int, cells: seq<string>)

  type Frame = seq<Row>

  /** `_layername`: the layer of a field of an input type. */
  function LayerName(inputType: string, field: string): string {
    inputType + DELIMITER + field
  }

  /** Two fields of one input type never share a layer. */
  lemma LayerNameInjective(inputType: string, f: string, g: string)
    ensures LayerName(inputType, f) == LayerName(inputType, g) ==> f == g
  {
    var n := |inputType| + |DELIMITER|;
    assert LayerName(inputType, f)[n..] == f;
    assert LayerName(inputType, g)[n..] == g;
  }

  /** A layer name whose input type holds no delimiter splits back into
      the input type and field, and it is the table name whose QGIS style
      is `<input_type>_<field>Style`. */
  lemma LayerNameParts(inputType: string, field: string)
    requires Find(inputType + DELIMITER, DELIMITER) == |inputType|
    requires !Contains(field, DELIMITER)
    ensures Split(LayerName(inputType, field), DELIMITER) == [inputType, field]
    ensures QgisTables.StyleName(LayerName(inputType, field)) == inputType + "_" + field + "Style"
  {
    SplitFirst(inputType, DELIMITER, field);
    SplitNoSep(field, DELIMITER);
    QgisTables.StyleNameTable(inputType, field);
  }

  // ---------------------------------------------------------------------
  // Writing and reading a geopackage

  /** The layers `write` produces from the fields taken in order: fields
      holding nothing are skipped. */
  function Written(inputType: string, fields: seq<string>, frames: map<string, Option<Frame>>): map<string, Frame> {
    if |fields| == 0 then map[]
    else
      var w := Written(inputType, fields[..|fields| - 1], frames);
      var f := fields[|fields| - 1];
      if f in frames && frames[f].Some? then w[LayerName(inputType, f) := frames[f].value] else w
  }

  /** A layer is written exactly for each field holding a table, and holds
      that field's table. */
  lemma {:induction false} WrittenFacts(inputType: string, fields: seq<string>, frames: map<string, Option<Frame>>)
    ensures forall k :: k in Written(inputType, fields, frames) <==>
      exists f :: f in fields && f in frames && frames[f].Some? && k == LayerName(inputType, f)
    ensures forall f :: f in fields && f in frames && frames[f].Some? ==>
      LayerName(inputType, f) in Written(inputType, fields, frames) &&
      Written(inputType, fields, frames)[LayerName(inputType, f)] == frames[f].value
  {
    if |fields| > 0 {
      var init := fields[..|fields| - 1];
      var last := fields[|fields| - 1];
      WrittenFacts(inputType, init, frames);
      assert fields == init + [last];
      forall f | f in fields && f in frames && frames[f].Some?
        ensures LayerName(inputType, f) in Written(inputType, fields, frames) &&
                Written(inputType, fields, frames)[LayerName(inputType, f)] == frames[f].value
      {
        LayerNameInjective(inputType, f, last);
      }
    }
  }

  /** What `_kwargs_from_geopackage` reads: each field's layer if the
      geopackage has it, nothing otherwise. */
  function GeopackageKwargs(inputType: string, fields: seq<string>, layers: map<string, Frame>): map<string, Option<Frame>> {
    map f | f in fields :: if LayerName(inputType, f) in layers then Some(layers[LayerName(inputType, f)]) else None
  }

  /** Reading back what was written gives every written field its table;
      a field written as nothing reads whatever layer was there before. */
  lemma WriteThenRead(inputType: string, fields: seq<string>, frames: map<string, Option<Frame>>, layers: map<string, Frame>)
    ensures forall f :: f in fields && f in frames && frames[f].Some? ==>
      GeopackageKwargs(inputType, fields, layers + Written(inputType, fields, frames))[f] == frames[f]
    ensures forall f :: f in fields && (f !in frames || frames[f].None?) ==>
      GeopackageKwargs(inputType, fields, layers + Written(inputType, fields, frames))[f] ==
      GeopackageKwargs(inputType, fields, layers)[f]
  {
    WrittenFacts(inputType, fields, frames);
    forall f | f in fields && (f !in frames || frames[f].None?)
      ensures LayerName(inputType, f) !in Written(inputType, fields, frames)
    {
      forall g | g in fields && g in frames && frames[g].Some?
        ensures LayerName(inputType, f) != LayerName(inputType, g)
      {
        LayerNameInjective(inputType, f, g);
      }
    }
  }

  /** A geopackage file: its tables by name. */
  class Geopackage {
    var layers: map<string, Frame>

    constructor(layers: map<string, Frame>)
      ensures this.layers == layers
    {
      this.layers := layers;
    }

    /** `exists`: whether the geopackage has a table of that name. */
    function Exists(name: string): (r: bool)
      reads this
      ensures r <==> name in layers
    {
      name in layers
    }

    /** `_kwargs_from_geopackage`: one entry per field, read from the
        field's layer (queried under its escaped name) when it exists. */
    method KwargsFromGeopackage(inputType: string, fields: seq<string>) returns (kwargs: map<string, Option<Frame>>)
      ensures kwargs == GeopackageKwargs(inputType, fields, layers)
    {
      kwargs := map[];
      for i := 0 to |fields|
        invariant kwargs == GeopackageKwargs(inputType, fields[..i], layers)
      {
        var layername := LayerName(inputType, fields[i]);
        var df: Option<Frame> := None;
        if Exists(layername) {
          df := Some(layers[layername]);
        }
        kwargs := kwargs[fields[i] := df];
        assert fields[..i + 1] == fields[..i] + [fields[i]];
      }
      assert fields[..|fields|] == fields;
    }
  }

  // ---------------------------------------------------------------------
  // Sorting

  /** A table whose rows are in `node_id` order. */
  predicate NodeSorted(f: Frame) {
    forall i, j :: 0 <= i < j < |f| ==> f[i].nodeId <= f[j].nodeId
  }

  /** Every row of the table has at least that `node_id`. */
  predicate AtLeast(f: Frame, m: int) {
    forall i :: 0 <= i < |f| ==> f[i].nodeId >= m
  }

  /** `r` placed before the first row with a larger `node_id`. */
  function InsertRow(f: Frame, r: Row): Frame {
    if f == [] then [r]
    else if r.nodeId <= f[0].nodeId then [r] + f
    else [f[0]] + InsertRow(f[1..], r)
  }

  lemma {:induction false} InsertRowRows(f: Frame, r: Row)
    ensures multiset(InsertRow(f, r)) == multiset(f) + multiset{r}
    decreases |f|
  {
    if f != [] && r.nodeId > f[0].nodeId {
      assert f == [f[0]] + f[1..];
      InsertRowRows(f[1..], r);
    }
  }

  lemma {:induction false} InsertRowAtLeast(f: Frame, r: Row, m: int)
    requires AtLeast(f, m) && r.nodeId >= m
    ensures AtLeast(InsertRow(f, r), m)
    decreases |f|
  {
    if f != [] && r.nodeId > f[0].nodeId {
      InsertRowAtLeast(f[1..], r, m);
    }
  }

  lemma {:induction false} InsertRowSorted(f: Frame, r: Row)
    requires NodeSorted(f)
    ensures NodeSorted(InsertRow(f, r))
    decreases |f|
  {
    if f != [] {
      if r.nodeId > f[0].nodeId {
        InsertRowSorted(f[1..], r);
        InsertRowAtLeast(f[1..], r, f[0].nodeId);
      } else {
        assert AtLeast(f, r.nodeId);
      }
    }
  }

  /** `sort_values("node_id")`: the rows in `node_id` order. */
  function SortByNode(f: Frame): Frame {
    if f == [] then [] else InsertRow(SortByNode(f[1..]), f[0])
  }

  /** Sorting yields the same rows in `node_id` order. */
  lemma {:induction false} SortByNodeFacts(f: Frame)
    ensures NodeSorted(SortByNode(f)) && multiset(SortByNode(f)) == multiset(f)
    decreases |f|
  {
    if f != [] {
      assert f == [f[0]] + f[1..];
      SortByNodeFacts(f[1..]);
      InsertRowRows(SortByNode(f[1..]), f[0]);
      InsertRowSorted(SortByNode(f[1..]), f[0]);
    }
  }

  function SortOpt(df: Option<Frame>): Option<Frame> {
    if df.Some? then Some(SortByNode(df.value)) else None
  }

  /** Every table sorted, every empty field left empty. */
  function SortedFrames(frames: map<string, Option<Frame>>): map<string, Option<Frame>> {
    map f | f in frames :: SortOpt(frames[f])
  }

  /** An input object: its input type, its fields and what each holds. */
  class Input {
    const inputType: string
    const fieldNames: seq<string>
    var frames: map<string, Option<Frame>>

    /** Each field is named once and holds a table or nothing. */
    ghost predicate Valid()
      reads this
    {
      (forall f :: f in frames <==> f in fieldNames) &&
      (forall i, j :: 0 <= i < j < |fieldNames| ==> fieldNames[i] != fieldNames[j])
    }

    constructor(inputType: string, fieldNames: seq<string>, frames: map<string, Option<Frame>>)
      requires forall f :: f in frames <==> f in fieldNames
      requires forall i, j :: 0 <= i < j < |fieldNames| ==> fieldNames[i] != fieldNames[j]
      ensures Valid()
      ensures this.inputType == inputType && this.fieldNames == fieldNames && this.frames == frames
    {
      this.inputType := inputType;
      this.fieldNames := fieldNames;
      this.frames := frames;
    }

    /** `sort` as written: the sorted table is bound to a local name and
        dropped, so no field changes. */
    method SortAsWritten()
      ensures frames == old(frames)
    {
      for i := 0 to |fieldNames| {
        var f := fieldNames[i];
        if f in frames && frames[f].Some? {
          var dataframe := SortByNode(frames[f].value);
        }
      }
    }

    /** `sort` as intended: every field's table is replaced by its rows in
        `node_id` order. */
    method Sort()
      requires Valid()
      modifies this
      ensures Valid()
      ensures frames == SortedFrames(old(frames))
    {
      for i := 0 to |fieldNames|
        invariant frames.Keys == old(frames).Keys
        invariant forall j :: 0 <= j < i ==> frames[fieldNames[j]] == SortOpt(old(frames)[fieldNames[j]])
        invariant forall j :: i <= j < |fieldNames| ==> frames[fieldNames[j]] == old(frames)[fieldNames[j]]
      {
        var f := fieldNames[i];
        if frames[f].Some? {
          frames := frames[f := Some(SortByNode(frames[f].value))];
        }
      }
    }

    /** `write`: call `sort`, which as written changes no field, then store
        every field holding a table as its own layer, unsorted, replacing a
        layer of that name. */
    method Write(db: Geopackage)
      requires Valid()
      modifies db
      ensures frames == old(frames)
      ensures db.layers == old(db.layers) + Written(inputType, fieldNames, frames)
    {
      SortAsWritten();
      for i := 0 to |fieldNames|
        modifies db
        invariant db.layers == old(db.layers) + Written(inputType, fieldNames[..i], frames)
      {
        var field := fieldNames[i];
        assert fieldNames[..i + 1][..i] == fieldNames[..i];
        var dataframe := frames[field];
        if dataframe.None? {
          continue;
        }
        var name := LayerName(inputType, field);
        UnionUpdate(old(db.layers), Written(inputType, fieldNames[..i], frames), name, dataframe.value);
        db.layers := db.layers[name := dataframe.value];
      }
      assert fieldNames[..|fieldNames|] == fieldNames;
    }
  }

  lemma UnionUpdate(a: map<string, Frame>, w: map<string, Frame>, k: string, v: Frame)
    ensures (a + w)[k := v] == a + w[k := v]
  {
  }

  /** The as-written `sort` leaves an out-of-order table out of order. */
  lemma UnsortedTableExists()
    ensures !NodeSorted([Row(2, []), Row(1, [])])
  {
    var f: Frame := [Row(2, []), Row(1, [])];
    assert f[0].nodeId > f[1].nodeId;
  }

  // ---------------------------------------------------------------------
  // Reading from a configuration

  /** Python truthiness of an optional TOML value. */
  predicate Truthy(v: Option<TomlValue>) {
    match v
    case None => false
    case Some(TStr(s)) => s != ""
    case Some(TInt(i)) => i != 0
    case Some(TBool(b)) => b
    case Some(TArray(items)) => |items| > 0
    case Some(TTable(entries)) => |entries| > 0
  }

  /** `_kwargs_from_toml`: every entry names an Arrow file, which is read;
      an entry that is not a string, or names no Arrow file, raises. */
  function ArrowKwargs(entries: map<string, TomlValue>, arrows: map<string, Frame>): (r: Result<map<string, Option<Frame>>>)
    ensures r.Ok? <==> forall k :: k in entries ==> entries[k].TStr? && entries[k].s in arrows
    ensures r.Ok? ==> r.value.Keys == entries.Keys
    ensures r.Ok? ==> forall k :: k in entries ==> r.value[k] == Some(arrows[entries[k].s])
  {
    if exists k :: k in entries && !entries[k].TStr? then Err(TypeError("expected str, bytes or os.PathLike object"))
    else if exists k :: k in entries && entries[k].s !in arrows then Err(GenericException("No such file or directory"))
    else Ok(map k | k in entries :: Some(arrows[entries[k].s]))
  }

  /** The geopackage named in the configuration; a path SQLite does not
      find opens as a new, empty database. */
  function ConfigLayers(config: map<string, TomlValue>, geopackages: map<string, map<string, Frame>>): Result<map<string, Frame>> {
    if "geopackage" !in config then Err(KeyError("geopackage"))
    else if !config["geopackage"].TStr? then Err(TypeError("expected str, bytes or os.PathLike object"))
    else if config["geopackage"].s in geopackages then Ok(geopackages[config["geopackage"].s])
    else Ok(map[])
  }

  /** No instance when no field holds a table, otherwise the keyword
      arguments it is built from. */
  function Instance(kwargs: map<string, Option<Frame>>): Option<map<string, Option<Frame>>> {
    if forall k :: k in kwargs ==> kwargs[k].None? then None else Some(kwargs)
  }

  /** `from_config` as written: when the input type's section is truthy,
      the entries of the WHOLE configuration are read as Arrow files. */
  function FromConfigAsWritten(inputType: string, fields: seq<string>, config: map<string, TomlValue>,
                               geopackages: map<string, map<string, Frame>>, arrows: map<string, Frame>): Result<Option<map<string, Option<Frame>>>>
  {
    var layers :- ConfigLayers(config, geopackages);
    var kwargs := GeopackageKwargs(inputType, fields, layers);
    var inputContent := if inputType in config then Some(config[inputType]) else None;
    if Truthy(inputContent) then
      var arrowKwargs :- ArrowKwargs(config, arrows);
      Ok(Instance(kwargs + arrowKwargs))
    else Ok(Instance(kwargs))
  }

  /** The as-written `from_config` fails on every configuration whose
      section for the input type is a non-empty table: that table is
      itself read as an Arrow path. */
  lemma SectionAlwaysFails(inputType: string, fields: seq<string>, config: map<string, TomlValue>,
                           geopackages: map<string, map<string, Frame>>, arrows: map<string, Frame>)
    requires inputType in config && config[inputType].TTable? && |config[inputType].entries| > 0
    ensures FromConfigAsWritten(inputType, fields, config, geopackages, arrows).Err?
  {
    assert !config[inputType].TStr?;
  }

  /** `from_config` as intended: the section's own entries are read as
      Arrow files. */
  function FromConfig(inputType: string, fields: seq<string>, config: map<string, TomlValue>,
                      geopackages: map<string, map<string, Frame>>, arrows: map<string, Frame>): Result<Option<map<string, Option<Frame>>>>
  {
    var layers :- ConfigLayers(config, geopackages);
    var kwargs := GeopackageKwargs(inputType, fields, layers);
    var inputContent := if inputType in config then Some(config[inputType]) else None;
    if Truthy(inputContent) then
      if !inputContent.value.TTable? then Err(AttributeError("object has no attribute 'items'"))
      else
        var arrowKwargs :- ArrowKwargs(inputContent.value.entries, arrows);
        Ok(Instance(kwargs + arrowKwargs))
    else Ok(Instance(kwargs))
  }

  /** With a geopackage and readable Arrow entries, `from_config` builds
      the instance from the geopackage layers merged with the section's
      Arrow tables. */
  lemma FromConfigMerged(inputType: string, fields: seq<string>, config: map<string, TomlValue>,
                         geopackages: map<string, map<string, Frame>>, arrows: map<string, Frame>,
                         layers: map<string, Frame>, section: map<string, TomlValue>)
    requires ConfigLayers(config, geopackages) == Ok(layers)
    requires section == (if inputType in config && config[inputType].TTable? then config[inputType].entries else map[])
    requires inputType in config && Truthy(Some(config[inputType])) ==> config[inputType].TTable?
    requires forall k :: k in section ==> section[k].TStr? && section[k].s in arrows
    ensures FromConfig(inputType, fields, config, geopackages, arrows) ==
      Ok(Instance(GeopackageKwargs(inputType, fields, layers) + ArrowKwargs(section, arrows).value))
  {
    var kwargs := GeopackageKwargs(inputType, fields, layers);
    if !(inputType in config && Truthy(Some(config[inputType]))) {
      assert ArrowKwargs(section, arrows).value == map[];
      assert kwargs + map[] == kwargs;
    }
  }

  /** Merging keyword arguments whose right side holds only tables: no
      instance exactly when the right side is empty and the left holds
      nothing; otherwise the right side wins on every shared key. */
  lemma MergedFacts(geo: map<string, Option<Frame>>, arrow: map<string, Option<Frame>>)
    requires forall k :: k in arrow ==> arrow[k].Some?
    ensures Instance(geo + arrow).None? <==> |arrow| == 0 && forall k :: k in geo ==> geo[k].None?
    ensures Instance(geo + arrow).Some? ==>
      (forall k :: k in arrow ==> Instance(geo + arrow).value[k] == arrow[k]) &&
      (forall k :: k in geo && k !in arrow ==> Instance(geo + arrow).value[k] == geo[k])
  {
    if |arrow| > 0 {
      var k :| k in arrow;
      assert (geo + arrow)[k].Some?;
    }
    if |arrow| == 0 {
      assert geo + arrow == geo;
    }
  }

  /** With a geopackage and readable Arrow entries, `from_config` builds an
      instance holding every Arrow table under its key and every other
      field's geopackage layer, or no instance when all of those are
      missing. */
  lemma FromConfigFacts(inputType: string, fields: seq<string>, config: map<string, TomlValue>,
                        geopackages: map<string, map<string, Frame>>, arrows: map<string, Frame>,
                        layers: map<string, Frame>, section: map<string, TomlValue>)
    requires ConfigLayers(config, geopackages) == Ok(layers)
    requires section == (if inputType in config && config[inputType].TTable? then config[inputType].entries else map[])
    requires inputType in config && Truthy(Some(config[inputType])) ==> config[inputType].TTable?
    requires forall k :: k in section ==> section[k].TStr? && section[k].s in arrows
    ensures FromConfig(inputType, fields, config, geopackages, arrows).Ok?
    ensures FromConfig(inputType, fields, config, geopackages, arrows).value.None? <==>
      |section| == 0 && forall f :: f in fields ==> LayerName(inputType, f) !in layers
    ensures FromConfig(inputType, fields, config, geopackages, arrows).value.Some? ==>
      forall k :: k in section ==> FromConfig(inputType, fields, config, geopackages, arrows).value.value[k] == Some(arrows[section[k].s])
    ensures FromConfig(inputType, fields, config, geopackages, arrows).value.Some? ==>
      forall f :: f in fields && f !in section ==>
        FromConfig(inputType, fields, config, geopackages, arrows).value.value[f] ==
        if LayerName(inputType, f) in layers then Some(layers[LayerName(inputType, f)]) else None
  {
    FromConfigMerged(inputType, fields, config, geopackages, arrows, layers, section);
    var geo := GeopackageKwargs(inputType, fields, layers);
    MergedFacts(geo, ArrowKwargs(section, arrows).value);
    if forall f :: f in fields ==> LayerName(inputType, f) !in layers {
      assert forall k :: k in geo ==> geo[k].None?;
    } else {
      var f :| f in fields && LayerName(inputType, f) in layers;
      assert geo[f].Some?;
    }
  }
}
