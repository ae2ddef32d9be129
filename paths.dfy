/** File-system paths as sequences of components, with the meaning
    `pathlib.PurePosixPath` and Rust's `PathBuf` give to joining, parents, names
    and stems. Nothing here looks at a real file system. */
module Paths {
  import opened Common
  import opened Strings

  datatype Path = Path(absolute: bool, parts: seq<string>)

  /** A well-formed component: non-empty, not `.`, and free of separators. */
  predicate IsComponent(s: string) {
    |s| > 0 && s != "." && '/' !in s
  }

  predicate WellFormed(p: Path) {
    forall k :: 0 <= k < |p.parts| ==> IsComponent(p.parts[k])
  }

  /** `p / q` (`PathBuf::join`): an absolute right-hand side replaces `p`. */
  function JoinPath(p: Path, q: Path): (r: Path)
    ensures q.absolute ==> r == q
    ensures !q.absolute ==> r.absolute == p.absolute && r.parts == p.parts + q.parts
  {
    if q.absolute then q else Path(p.absolute, p.parts + q.parts)
  }

  /** `p / name` for one relative component. */
  function Child(p: Path, name: string): Path {
    JoinPath(p, Path(false, [name]))
  }

  /** `p.name`: the last component, or the empty string. */
  function Name(p: Path): string {
    if p.parts == [] then "" else p.parts[|p.parts| - 1]
  }

  /** `p.parent`: the path without its last component (the root and `.` are
      their own parents). */
  function Parent(p: Path): Path {
    if p.parts == [] then p else Path(p.absolute, p.parts[..|p.parts| - 1])
  }

  lemma ParentChild(p: Path, name: string)
    ensures Parent(Child(p, name)) == p && Name(Child(p, name)) == name
  {
    assert (p.parts + [name])[..|p.parts|] == p.parts;
  }

  /** `p.stem`: the name without its final suffix; a leading dot or a trailing
      dot does not start a suffix. */
  function Stem(p: Path): (r: string)
    ensures |r| <= |Name(p)| && r == Name(p)[..|r|]
  {
    var n := Name(p);
    var i := RFindChar(n, '.');
    if 0 < i < |n| - 1 then n[..i] else n
  }

  /** The stem of `base.ext`, for a non-empty base and an extension without
      dots, is the base. */
  lemma StemOfSuffixed(p: Path, base: string, ext: string)
    requires |base| > 0 && |ext| > 0 && '.' !in ext
    requires Name(p) == base + "." + ext
    ensures Stem(p) == base
  {
    var n := Name(p);
    assert n[|base|] == '.';
    forall k | |base| < k < |n| ensures n[k] != '.' {
      assert n[k] == ext[k - |base| - 1];
    }
    assert n[..|base|] == base;
  }

  /** The separator a platform displays paths with. */
  function Separator(os: Os): char {
    if os == Windows then '\\' else '/'
  }

  /** `str(p)` with the given separator; an empty relative path is `.`. */
  function Display(p: Path, sep: char): string {
    var body := Strings.Join(p.parts, [sep]);
    if p.absolute then [sep] + body
    else if p.parts == [] then "."
    else body
  }

  /** The components of a `/`-separated text: empty pieces and `.` are dropped. */
  function Components(pieces: seq<string>): (r: seq<string>)
    ensures forall k :: 0 <= k < |r| ==> r[k] in pieces && r[k] != "" && r[k] != "."
  {
    if pieces == [] then []
    else
      var rest := Components(pieces[1..]);
      if pieces[0] == "" || pieces[0] == "." then rest else [pieces[0]] + rest
  }

  /** `PurePosixPath(s)`. */
  function Parse(s: string): (p: Path)
    ensures WellFormed(p)
  {
    var pieces := Split(s, "/");
    forall k | 0 <= k < |pieces| ensures '/' !in pieces[k] {
      SplitPiecesFree(s, '/');
    }
    Path(StartsWith(s, "/"), Components(pieces))
  }

  /** The pieces of a split on one character do not contain it. */
  lemma {:induction false} SplitPiecesFree(s: string, c: char)
    ensures forall k :: 0 <= k < |Split(s, [c])| ==> c !in Split(s, [c])[k]
    decreases |s|
  {
    var i := Find(s, [c]);
    if i < 0 {
      ContainsChar(s, c);
    } else {
      forall k | 0 <= k < i ensures s[k] != c {
        assert !OccursAt(s, [c], k);
        assert s[k..k + 1] == [s[k]];
      }
      SplitPiecesFree(s[i + 1..], c);
    }
  }

  lemma ComponentsKeep(pieces: seq<string>)
    requires forall k :: 0 <= k < |pieces| ==> IsComponent(pieces[k])
    ensures Components(pieces) == pieces
  {
  }

  /** Printing a well-formed path with `/` and parsing the text gives it back. */
  lemma ParseDisplay(p: Path)
    requires WellFormed(p)
    ensures Parse(Display(p, '/')) == p
  {
    var body := Strings.Join(p.parts, "/");
    if p.parts == [] {
      if p.absolute {
        assert Display(p, '/') == "/";
        assert Find("/", "/") == 0;
        assert Split("", "/") == [""];
        assert Split("/", "/") == ["", ""];
      } else {
        ContainsChar(".", '/');
        SplitNoSep(".", "/");
      }
    } else {
      SplitJoin(p.parts, '/');
      ComponentsKeep(p.parts);
      if p.absolute {
        FindCharSep("", '/');
        SplitFirst("", "/", body);
        assert Display(p, '/') == "" + "/" + body;
        assert Split(Display(p, '/'), "/") == [""] + p.parts;
      } else {
        assert body[0] == p.parts[0][0];
        assert !StartsWith(body, "/");
      }
    }
  }
}
