/** The SQLite helpers of the Python package: quoting of identifiers and
    the schema version recorded in a model database. The database is an
    abstract value: its table names, the rows of `ribasim_metadata` and
    the rows of `gpkg_contents`. */
module DbUtils {
  import opened Common
  import opened Strings

  /** `esc_id`: the identifier with every `"` doubled, wrapped in `"`. */
  function EscId(identifier: string): string {
    "\"" + Replace(identifier, "\"", "\"\"") + "\""
  }

  /** `""` collapsed to `"` in a quoted identifier's body; a lone `"` makes
      the body malformed. */
  function Collapse(u: string): Option<string>
    decreases |u|
  {
    if u == [] then Some([])
    else if u[0] != '"' then
      var rest := Collapse(u[1..]);
      if rest.Some? then Some([u[0]] + rest.value) else None
    else if |u| >= 2 && u[1] == '"' then
      var rest := Collapse(u[2..]);
      if rest.Some? then Some("\"" + rest.value) else None
    else None
  }

  /** Reading a quoted identifier back: the outer quotes removed and the
      body collapsed. */
  function Unescape(t: string): Option<string> {
    if |t| >= 2 && t[0] == '"' && t[|t| - 1] == '"' then Collapse(t[1..|t| - 1]) else None
  }

  lemma {:induction false} CollapseDoubled(s: string)
    ensures Collapse(ReplaceChar(s, '"', "\"\"")) == Some(s)
    decreases |s|
  {
    if s != [] {
      var rest := ReplaceChar(s[1..], '"', "\"\"");
      CollapseDoubled(s[1..]);
      var u := ReplaceChar(s, '"', "\"\"");
      if s[0] == '"' {
        assert u == "\"\"" + rest;
        assert u[2..] == rest;
      } else {
        assert u == [s[0]] + rest;
        assert u[1..] == rest;
      }
      assert s == [s[0]] + s[1..];
    }
  }

  /** An escaped identifier is quoted and reads back as the identifier,
      so distinct identifiers never escape to the same text. */
  lemma EscIdRoundTrip(identifier: string)
    ensures |EscId(identifier)| >= 2 && EscId(identifier)[0] == '"' && EscId(identifier)[|EscId(identifier)| - 1] == '"'
    ensures Unescape(EscId(identifier)) == Some(identifier)
  {
    ReplaceByChar(identifier, '"', "\"\"");
    CollapseDoubled(identifier);
    var t := EscId(identifier);
    assert t[1..|t| - 1] == Replace(identifier, "\"", "\"\"");
  }

  /** The `value` column holds text: `str` of the stored integer. */
  function VersionText(version: int): string {
    IntToString(version)
  }

  /** `_get_db_schema_version` on a database with the given tables and
      metadata rows: 0 for a model from before the metadata table,
      otherwise the stored value read as an integer. */
  function SchemaVersion(tables: set<string>, metadata: map<string, string>): (r: Result<int>)
    ensures "ribasim_metadata" !in tables ==> r == Ok(0)
    ensures "ribasim_metadata" in tables && "schema_version" !in metadata ==> r.Err? && r.error.TypeError?
  {
    if "ribasim_metadata" !in tables then Ok(0)
    else if "schema_version" !in metadata then Err(TypeError("'NoneType' object is not subscriptable"))
    else
      var parsed := ParseInt(metadata["schema_version"]);
      if parsed.Int? then Ok(parsed.value)
      else Err(ValueError("invalid literal for int() with base 10: '" + metadata["schema_version"] + "'"))
  }

  /** After the setter ran on a database without a `metadata` table, the
      getter reads back the version written. */
  lemma SetThenGet(tables: set<string>, metadata: map<string, string>, version: int)
    ensures SchemaVersion(tables + {"ribasim_metadata"}, metadata["schema_version" := VersionText(version)]) == Ok(version)
  {
    ParseIntToString(version);
  }

  class Database {
    /** The names of the tables in the database. */
    var tables: set<string>
    /** The `key -> value` rows of `ribasim_metadata`. */
    var metadata: map<string, string>
    /** The `table_name -> (data_type, identifier)` rows of `gpkg_contents`. */
    var contents: map<string, (string, string)>

    /** A metadata table that does not exist has no rows. */
    ghost predicate Valid()
      reads this
    {
      "ribasim_metadata" !in tables ==> metadata == map[]
    }

    constructor(tables: set<string>, metadata: map<string, string>, contents: map<string, (string, string)>)
      requires "ribasim_metadata" !in tables ==> metadata == map[]
      ensures Valid()
      ensures this.tables == tables && this.metadata == metadata && this.contents == contents
    {
      this.tables := tables;
      this.metadata := metadata;
      this.contents := contents;
    }

    /** `_get_db_schema_version`. */
    method GetSchemaVersion() returns (r: Result<int>)
      ensures r == SchemaVersion(tables, metadata)
    {
      if "ribasim_metadata" !in tables {
        return Ok(0);
      }
      if "schema_version" !in metadata {
        return Err(TypeError("'NoneType' object is not subscriptable"));
      }
      var text := metadata["schema_version"];
      var parsed := ParseInt(text);
      if parsed.Int? {
        r := Ok(parsed.value);
      } else {
        r := Err(ValueError("invalid literal for int() with base 10: '" + text + "'"));
      }
    }

    /** `_set_db_schema_version`: unless a table named `metadata` exists
        (the guard names a table the setter never creates), create
        `ribasim_metadata`, insert or replace its `schema_version` row and
        register it in `gpkg_contents` as an attribute table. */
    method SetSchemaVersion(version: int)
      requires Valid()
      modifies this
      ensures Valid()
      ensures old("metadata" in tables) ==> tables == old(tables) && metadata == old(metadata) && contents == old(contents)
      ensures old("metadata" !in tables) ==>
        tables == old(tables) + {"ribasim_metadata"} &&
        metadata == old(metadata)["schema_version" := VersionText(version)] &&
        contents == old(contents)["ribasim_metadata" := ("attributes", "ribasim_metadata")]
      ensures old("metadata" !in tables) ==> SchemaVersion(tables, metadata) == Ok(version)
      ensures ("metadata" in tables) == old("metadata" in tables)
    {
      if "metadata" !in tables {
        tables := tables + {"ribasim_metadata"};
        metadata := metadata["schema_version" := VersionText(version)];
        contents := contents["ribasim_metadata" := ("attributes", "ribasim_metadata")];
        SetThenGet(old(tables), old(metadata), version);
      }
    }
  }
}
