/** The values a parsed TOML document holds, as Python's `tomllib` hands
    them over: strings, integers, booleans, arrays and tables (dicts). */
module Toml {
  datatype TomlValue =
    | TStr(s: string)
    | TInt(i: int)
    | TBool(b: bool)
    | TArray(items: seq<TomlValue>)
    | TTable(entries: map<string, TomlValue>)

  /** The empty table `{}`. */
  const EMPTY: TomlValue := TTable(map[])
}
