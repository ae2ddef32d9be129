/** Layer naming in the older QGIS plugin: every input kind lives in the
    geopackage as layer `ribasim_<input_type>`, and loading a geopackage
    parses each such layer name back into a key of the `NODES` registry. */
module LayerNames {
  import opened Common
  import opened Strings

  /** The plugin's input classes. */
  datatype InputClass =
    | Basin | Edges | BasinLookup | OutflowTableLookup
    | Bifurcation | LevelControl | BasinState | BasinForcing

  /** The `input_type` class attribute of each input class. */
  function InputType(c: InputClass): string {
    match c
    case Basin => "node"
    case Edges => "edge"
    case BasinLookup => "lookup_LSW"
    case OutflowTableLookup => "lookup_OutflowTable"
    case Bifurcation => "static_Bifurcation"
    case LevelControl => "static_LevelControl"
    case BasinState => "state_LSW"
    case BasinForcing => "forcing_LSW"
  }

  /** The `NODES` registry: key to input class (`BasinState` is not registered). */
  const NODES: map<string, InputClass> := map[
    "node" := Basin,
    "edge" := Edges,
    "lookup_LSW" := BasinLookup,
    "lookup_OutflowTable" := OutflowTableLookup,
    "static_Bifurcation" := Bifurcation,
    "static_LevelControl" := LevelControl,
    "forcing_LSW" := BasinForcing]

  /** Every registered class is filed under its own input type. */
  lemma NodesKeyedByInputType()
    ensures forall k :: k in NODES ==> InputType(NODES[k]) == k
    ensures forall c: InputClass :: InputType(c) in NODES <==> c != BasinState
  {
  }

  /** The geopackage layer name an input instance gets. */
  function LayerName(c: InputClass): (name: string)
    ensures StartsWith(name, "ribasim_") && name[8..] == InputType(c)
  {
    "ribasim_" + InputType(c)
  }

  /** `parse_name`: the layer name split on `_`; two parts give the kind
      alone, three parts the kind and node type, anything else is refused. */
  function ParseName(layername: string): (r: Result<(string, Option<string>)>)
    ensures r.Ok? <==> |Split(layername, "_")| in {2, 3}
    ensures r.Ok? ==> r.value.0 == Split(layername, "_")[1]
    ensures r.Ok? ==> (r.value.1.Some? <==> |Split(layername, "_")| == 3)
    ensures r.Err? ==> r.error.ValueError?
  {
    var values := Split(layername, "_");
    if |values| == 2 then Ok((values[1], None))
    else if |values| == 3 then Ok((values[1], Some(values[2])))
    else Err(ValueError("Expected layer name of \"ribasim_{kind}_{nodetype}\", \"ribasim_node\", \"ribasim_edge\". Received " + layername))
  }

  /** How an f-string shows an optional node type (`None` prints as "None"). */
  function ShowNodeType(t: Option<string>): string {
    if t.Some? then t.value else "None"
  }

  /** The registry key computed for one `ribasim_` layer: the kind alone
      for `node`/`edge`, otherwise `kind_nodetype`. */
  function LayerKey(layername: string): Result<string> {
    var (kind, nodetype) :- ParseName(layername);
    if kind == "node" || kind == "edge" then Ok(kind) else Ok(kind + "_" + ShowNodeType(nodetype))
  }

  /** What loading does with one geopackage layer name: skip it
      (`Ok(None)`), register an instance under a key, or raise. */
  function NameOutcome(layername: string): (r: Result<Option<string>>)
    ensures r.Ok? && r.value.Some? ==> r.value.value in NODES
    ensures !StartsWith(layername, "ribasim_") ==> r == Ok(None)
  {
    if !StartsWith(layername, "ribasim_") then Ok(None)
    else
      var key :- LayerKey(layername);
      if key in NODES then Ok(Some(key)) else Err(KeyError(key))
  }

  /** The registry built from the first names, or the first error. */
  function Loaded(names: seq<string>): Result<map<string, InputClass>> {
    if |names| == 0 then Ok(map[])
    else
      var nodes :- Loaded(names[..|names| - 1]);
      var o :- NameOutcome(names[|names| - 1]);
      if o.Some? then Ok(nodes[o.value := NODES[o.value]]) else Ok(nodes)
  }

  /** `load_nodes_from_geopackage` over the listed layer names. */
  method LoadNodesFromGeopackage(names: seq<string>) returns (r: Result<map<string, InputClass>>)
    ensures r == Loaded(names)
  {
    var nodes: map<string, InputClass> := map[];
    for i := 0 to |names|
      invariant Loaded(names[..i]) == Ok(nodes)
    {
      assert names[..i + 1][..i] == names[..i];
      var outcome := NameOutcome(names[i]);
      if outcome.Err? {
        LoadedErrSticky(names, i + 1);
        return Err(outcome.error);
      }
      if outcome.value.Some? {
        nodes := nodes[outcome.value.value := NODES[outcome.value.value]];
      }
    }
    assert names[..|names|] == names;
    r := Ok(nodes);
  }

  /** An error on a prefix is the error of the whole load. */
  lemma {:induction false} LoadedErrSticky(names: seq<string>, k: nat)
    requires k <= |names| && Loaded(names[..k]).Err?
    ensures Loaded(names) == Loaded(names[..k])
    decreases |names| - k
  {
    if k < |names| {
      assert names[..k + 1][..k] == names[..k];
      LoadedErrSticky(names, k + 1);
    } else {
      assert names[..k] == names;
    }
  }

  /** Loading fails exactly when some layer name fails, and then with the
      error of the first failing name; on success every entry is the
      registered class of its key, and a key is present exactly when some
      layer name produced it. */
  lemma LoadedFacts(names: seq<string>)
    ensures Loaded(names).Err? <==> exists i :: 0 <= i < |names| && NameOutcome(names[i]).Err?
    ensures Loaded(names).Err? ==> exists i :: 0 <= i < |names| && NameOutcome(names[i]) == Err(Loaded(names).error) &&
                                          forall j :: 0 <= j < i ==> NameOutcome(names[j]).Ok?
    ensures Loaded(names).Ok? ==> forall key :: key in Loaded(names).value ==> key in NODES && Loaded(names).value[key] == NODES[key]
    ensures Loaded(names).Ok? ==> forall key :: key in Loaded(names).value <==>
      exists i :: 0 <= i < |names| && NameOutcome(names[i]) == Ok(Some(key))
  {
    LoadedIsFold(names);
    FoldErrFacts(Outcomes(names));
    FoldOkFacts(Outcomes(names));
  }

  /** The outcome of every layer name, in order. */
  function Outcomes(names: seq<string>): (outs: seq<Result<Option<string>>>)
    ensures |outs| == |names|
    ensures forall i :: 0 <= i < |names| ==> outs[i] == NameOutcome(names[i])
  {
    seq(|names|, i requires 0 <= i < |names| => NameOutcome(names[i]))
  }

  /** Every registered key has a class. */
  predicate Registered(outs: seq<Result<Option<string>>>) {
    forall i :: 0 <= i < |outs| && outs[i].Ok? && outs[i].value.Some? ==> outs[i].value.value in NODES
  }

  /** The registry built from a sequence of outcomes, or the first error. */
  function Fold(outs: seq<Result<Option<string>>>): Result<map<string, InputClass>>
    requires Registered(outs)
  {
    if |outs| == 0 then Ok(map[])
    else
      var nodes :- Fold(outs[..|outs| - 1]);
      var o :- outs[|outs| - 1];
      if o.Some? then Ok(nodes[o.value := NODES[o.value]]) else Ok(nodes)
  }

  /** Loading folds the outcomes of the layer names. */
  lemma {:induction false} LoadedIsFold(names: seq<string>)
    ensures Registered(Outcomes(names)) && Loaded(names) == Fold(Outcomes(names))
    decreases |names|
  {
    if |names| > 0 {
      var init := names[..|names| - 1];
      LoadedIsFold(init);
      assert Outcomes(names)[..|names| - 1] == Outcomes(init);
    }
  }

  lemma {:induction false} FoldErrFacts(outs: seq<Result<Option<string>>>)
    requires Registered(outs)
    ensures Fold(outs).Err? <==> exists i :: 0 <= i < |outs| && outs[i].Err?
    ensures Fold(outs).Err? ==> exists i :: 0 <= i < |outs| && outs[i] == Err(Fold(outs).error) &&
                                       forall j :: 0 <= j < i ==> outs[j].Ok?
    decreases |outs|
  {
    if |outs| > 0 {
      var init := outs[..|outs| - 1];
      FoldErrFacts(init);
      if Fold(init).Err? {
        var i :| 0 <= i < |init| && init[i] == Err(Fold(init).error) && forall j :: 0 <= j < i ==> init[j].Ok?;
        assert outs[i] == init[i];
      } else if outs[|outs| - 1].Err? {
        assert forall j :: 0 <= j < |init| ==> outs[j] == init[j];
      } else {
        assert forall j :: 0 <= j < |init| ==> outs[j] == init[j];
      }
    }
  }

  lemma {:induction false} FoldOkFacts(outs: seq<Result<Option<string>>>)
    requires Registered(outs)
    ensures Fold(outs).Ok? ==> forall key :: key in Fold(outs).value ==> key in NODES && Fold(outs).value[key] == NODES[key]
    ensures Fold(outs).Ok? ==> forall key :: key in Fold(outs).value <==>
      exists i :: 0 <= i < |outs| && outs[i] == Ok(Some(key))
    decreases |outs|
  {
    if |outs| > 0 {
      var init := outs[..|outs| - 1];
      FoldOkFacts(init);
      assert forall j :: 0 <= j < |init| ==> outs[j] == init[j];
    }
  }

  /** A name of three underscore-free parts splits back into them. */
  lemma SplitThree(a: string, b: string, c: string)
    requires '_' !in a && '_' !in b && '_' !in c
    ensures Split(a + "_" + b + "_" + c, "_") == [a, b, c]
  {
    assert Join([a, b, c], "_") == a + "_" + Join([b, c], "_");
    assert Join([b, c], "_") == b + "_" + c;
    assert a + "_" + b + "_" + c == Join([a, b, c], "_");
    SplitJoin([a, b, c], '_');
  }

  /** A name of two underscore-free parts splits back into them. */
  lemma SplitTwo(a: string, b: string)
    requires '_' !in a && '_' !in b
    ensures Split(a + "_" + b, "_") == [a, b]
  {
    assert Join([a, b], "_") == a + "_" + Join([b], "_");
    SplitJoin([a, b], '_');
  }

  /** The layer name of a `kind_nodetype` input parses back to its key,
      which loading registers when `NODES` has it and refuses otherwise. */
  lemma PairOutcome(kind: string, nodetype: string)
    requires '_' !in kind && '_' !in nodetype && kind != "node" && kind != "edge"
    ensures var key := kind + "_" + nodetype;
      NameOutcome("ribasim_" + kind + "_" + nodetype) == if key in NODES then Ok(Some(key)) else Err(KeyError(key))
  {
    PairKey(kind, nodetype);
  }

  /** The key computed for a `kind_nodetype` layer name. */
  lemma PairKey(kind: string, nodetype: string)
    requires '_' !in kind && '_' !in nodetype && kind != "node" && kind != "edge"
    ensures var name := "ribasim_" + kind + "_" + nodetype;
      StartsWith(name, "ribasim_") && LayerKey(name) == Ok(kind + "_" + nodetype)
  {
    PrefixParts();
    ThreeKey("ribasim", kind, nodetype);
    PrefixOf("ribasim_", kind + "_" + nodetype);
    assert "ribasim_" + kind + "_" + nodetype == "ribasim_" + (kind + "_" + nodetype);
  }

  /** A name of three underscore-free parts has the last two as its key. */
  lemma ThreeKey(p: string, kind: string, nodetype: string)
    requires '_' !in p && '_' !in kind && '_' !in nodetype && kind != "node" && kind != "edge"
    ensures LayerKey(p + "_" + kind + "_" + nodetype) == Ok(kind + "_" + nodetype)
  {
    SplitThree(p, kind, nodetype);
  }

  lemma PrefixParts()
    ensures "ribasim" + "_" == "ribasim_"
  {
  }

  lemma PrefixOf(a: string, b: string)
    ensures StartsWith(a + b, a)
  {
    assert (a + b)[..|a|] == a;
  }

  /** The layer names `ribasim_node` and `ribasim_edge` load as themselves. */
  lemma SingleOutcome(kind: string)
    requires kind == "node" || kind == "edge"
    ensures NameOutcome("ribasim_" + kind) == Ok(Some(kind))
  {
    PrefixParts();
    TwoKey("ribasim", kind);
    PrefixOf("ribasim_", kind);
  }

  /** A name of two underscore-free parts parses as the second part alone. */
  lemma TwoKey(p: string, kind: string)
    requires '_' !in p && '_' !in kind
    ensures ParseName(p + "_" + kind) == Ok((kind, None))
  {
    SplitTwo(p, kind);
  }

  /** The kind part of an input type (before the first `_`). */
  function Kind(c: InputClass): string {
    match c
    case Basin => "node"
    case Edges => "edge"
    case BasinLookup | OutflowTableLookup => "lookup"
    case Bifurcation | LevelControl => "static"
    case BasinState => "state"
    case BasinForcing => "forcing"
  }

  /** The node-type part of an input type, if it has one. */
  function Part(c: InputClass): Option<string> {
    match c
    case Basin | Edges => None
    case BasinLookup | BasinState | BasinForcing => Some("LSW")
    case OutflowTableLookup => Some("OutflowTable")
    case Bifurcation => Some("Bifurcation")
    case LevelControl => Some("LevelControl")
  }

  /** Every input type is its kind, then `_` and its node type if any,
      and neither part holds an underscore. */
  lemma InputTypeParts(c: InputClass)
    ensures InputType(c) == if Part(c).Some? then Kind(c) + "_" + Part(c).value else Kind(c)
    ensures '_' !in Kind(c) && (Part(c).Some? ==> '_' !in Part(c).value)
    ensures Part(c).Some? <==> Kind(c) != "node" && Kind(c) != "edge"
  {
    Joins();
  }

  /** The two-part input types, joined. */
  lemma Joins()
    ensures "lookup" + "_" + "LSW" == "lookup_LSW"
    ensures "lookup" + "_" + "OutflowTable" == "lookup_OutflowTable"
    ensures "static" + "_" + "Bifurcation" == "static_Bifurcation"
    ensures "static" + "_" + "LevelControl" == "static_LevelControl"
    ensures "state" + "_" + "LSW" == "state_LSW"
    ensures "forcing" + "_" + "LSW" == "forcing_LSW"
  {
  }

  /** Loading the layer of any input class registers it under its own
      input type when `NODES` has that key, and raises a KeyError
      otherwise (which `NodesKeyedByInputType` shows happens for
      `state_LSW` alone). */
  lemma LayerOutcome(c: InputClass)
    ensures InputType(c) in NODES ==> NameOutcome(LayerName(c)) == Ok(Some(InputType(c)))
    ensures InputType(c) !in NODES ==> NameOutcome(LayerName(c)) == Err(KeyError(InputType(c)))
  {
    InputTypeParts(c);
    TypeOutcome(InputType(c), Kind(c), Part(c));
  }

  /** Loading the layer `ribasim_<it>` of an input type made of a kind and
      an optional node type. */
  lemma TypeOutcome(it: string, kind: string, part: Option<string>)
    requires it == if part.Some? then kind + "_" + part.value else kind
    requires '_' !in kind && (part.Some? ==> '_' !in part.value)
    requires part.Some? <==> kind != "node" && kind != "edge"
    ensures NameOutcome("ribasim_" + it) == if it in NODES then Ok(Some(it)) else Err(KeyError(it))
  {
    if part.Some? {
      PairOutcome(kind, part.value);
      assert "ribasim_" + it == "ribasim_" + kind + "_" + part.value;
    } else {
      SingleOutcome(kind);
    }
  }

  /** `RibasimInput.create`: the instance's layer name, refused when the
      geopackage already has a layer of that name. */
  function Create(c: InputClass, names: seq<string>): (r: Result<string>)
    ensures r.Ok? <==> LayerName(c) !in names
    ensures r.Ok? ==> r.value == LayerName(c)
    ensures r.Err? ==> r.error == ValueError("Name already exists in geopackage: " + LayerName(c))
  {
    var name := LayerName(c);
    if name in names then Err(ValueError("Name already exists in geopackage: " + name)) else Ok(name)
  }
}
