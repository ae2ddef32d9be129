/** How the Python package finds the Ribasim command-line program: a
    compatible program on PATH (outside the Python scripts directory) is
    used, else a cached download for the package version, else a fresh
    download. Running a program and the file system are inputs: what a
    program prints for `--version`, which files exist, and how a path
    resolves. The download itself is recorded, not performed. */
module PythonCli {
  import opened Common
  import opened Strings
  import opened Paths

  /** The outcome of `<cli> --version`: it failed (a non-zero exit or a
      missing program), or it printed this text. */
  datatype VersionRun = Failed | Printed(stdout: string)

  /** `_get_cli_version`: the word after `ribasim ` in the stripped output,
      cut at its first `-`; anything else gives nothing. */
  function CliVersion(run: VersionRun): Option<string> {
    if run.Failed? then None
    else
      var output := Strip(run.stdout);
      if !StartsWith(output, "ribasim ") then None
      else
        var words := Words(output);
        if |words| < 2 then None
        else Some(Split(words[1], "-")[0])
  }

  /** The first word of a text opening with `ribasim ` is `ribasim`. */
  lemma FirstWord(o: string)
    requires StartsWith(o, "ribasim ")
    ensures WordLength(o, 0) == 7 && SkipSpaces(o, 0) == 0
  {
    assert o[..8] == "ribasim ";
    assert !IsSpace(o[0]) && IsSpace(o[7]);
    assert forall k :: 0 <= k < 7 ==> !IsSpace(o[k]) by {
      assert forall k :: 0 <= k < 7 ==> o[k] == "ribasim "[k];
    }
  }

  /** A stripped output opening with `ribasim ` always has a second word,
      so the IndexError `_get_cli_version` guards against cannot happen. */
  lemma SecondWordExists(o: string)
    requires StartsWith(o, "ribasim ") && !IsSpace(o[|o| - 1])
    ensures |Words(o)| >= 2 && Words(o)[0] == "ribasim"
  {
    FirstWord(o);
    assert o[0..7] == "ribasim" by { assert o[..8] == "ribasim "; }
    var j := SkipSpaces(o, 7);
    assert j < |o|;
    assert Words(o) == [o[0..7]] + WordsFrom(o, 7);
    assert WordsFrom(o, 7) == [o[j..WordLength(o, j)]] + WordsFrom(o, WordLength(o, j));
  }

  /** A version is found exactly when `--version` ran and its stripped
      output opens with `ribasim `. */
  lemma CliVersionFound(run: VersionRun)
    ensures CliVersion(run).Some? <==> run.Printed? && StartsWith(Strip(run.stdout), "ribasim ")
  {
    if run.Printed? && StartsWith(Strip(run.stdout), "ribasim ") {
      var r := RStrip(run.stdout);
      var o := LStrip(r);
      assert o[|o| - 1] == r[|r| - 1];
      SecondWordExists(o);
    }
  }

  /** The piece before the first `-` holds no `-` and opens the text. */
  lemma SplitHead(w: string)
    ensures '-' !in Split(w, "-")[0] && StartsWith(w, Split(w, "-")[0])
  {
    SplitPiecesFree(w, '-');
    var i := Find(w, "-");
    if i >= 0 {
      SplitAtChar(w, '-', i);
    }
  }

  /** The version found is free of `-` and opens the second word. */
  lemma CliVersionShape(run: VersionRun)
    ensures CliVersion(run).Some? ==>
      '-' !in CliVersion(run).value && StartsWith(Words(Strip(run.stdout))[1], CliVersion(run).value)
  {
    if CliVersion(run).Some? {
      SplitHead(Words(Strip(run.stdout))[1]);
    }
  }

  /** `Strip` keeps a text whose ends are not whitespace. */
  lemma StripKeeps(s: string)
    requires |s| > 0 && !IsSpace(s[0]) && !IsSpace(s[|s| - 1])
    ensures Strip(s) == s
  {
  }

  /** The words of `ribasim <w>` for a word `w`. */
  lemma WordsOfRibasim(w: string)
    requires |w| > 0 && forall k :: 0 <= k < |w| ==> !IsSpace(w[k])
    ensures Words("ribasim " + w) == ["ribasim", w]
  {
    var o := "ribasim " + w;
    assert o[8..] == w && o[..8] == "ribasim ";
    FirstWord(o);
    assert Words(o) == [o[0..7]] + WordsFrom(o, 7);
    assert SkipSpaces(o, 8) == 8;
    assert SkipSpaces(o, 7) == 8;
    var n := WordLength(o, 8);
    assert n == |o|;
    assert SkipSpaces(o, |o|) == |o|;
    assert WordsFrom(o, |o|) == [];
    assert WordsFrom(o, 7) == [o[8..|o|]];
    assert o[8..|o|] == w;
    assert o[0..7] == "ribasim";
  }

  /** The output `ribasim <w>` for a word `w` gives the part of `w`
      before its first `-`. */
  lemma CliVersionOfWord(w: string)
    requires |w| > 0 && forall k :: 0 <= k < |w| ==> !IsSpace(w[k])
    ensures CliVersion(Printed("ribasim " + w)) == Some(Split(w, "-")[0])
  {
    var o := "ribasim " + w;
    assert o[..8] == "ribasim ";
    assert o[|o| - 1] == w[|w| - 1];
    StripKeeps(o);
    WordsOfRibasim(w);
  }

  /** The output `ribasim <v>` gives the version `v` back. */
  lemma CliVersionPlain(v: string)
    requires |v| > 0 && '-' !in v && forall k :: 0 <= k < |v| ==> !IsSpace(v[k])
    ensures CliVersion(Printed("ribasim " + v)) == Some(v)
  {
    CliVersionOfWord(v);
    ContainsChar(v, '-');
    SplitNoSep(v, "-");
  }

  /** The output `ribasim <v>-<build>` of a development build gives the
      version `v` back. */
  lemma CliVersionBuild(v: string, build: string)
    requires |v| > 0 && '-' !in v && forall k :: 0 <= k < |v| ==> !IsSpace(v[k])
    requires forall k :: 0 <= k < |build| ==> !IsSpace(build[k])
    ensures CliVersion(Printed("ribasim " + v + "-" + build)) == Some(v)
  {
    var w := v + "-" + build;
    assert forall k :: 0 <= k < |w| ==> !IsSpace(w[k]) by {
      assert forall k :: 0 <= k < |v| ==> w[k] == v[k];
      assert forall k :: |v| + 1 <= k < |w| ==> w[k] == build[k - |v| - 1];
    }
    CliVersionOfWord(w);
    assert "ribasim " + w == "ribasim " + v + "-" + build;
    FindCharSep(v, '-');
    SplitFirst(v, "-", build);
  }

  // ---------------------------------------------------------------------
  // The platform

  /** The release archive and executable for a platform. */
  datatype Target = Target(zipName: string, exeName: string)

  /** The platform check of `_download_cli`: 64-bit Windows and Linux only. */
  function PlatformTarget(system: string, machine: string): (r: Result<Target>)
    ensures r.Ok? <==> (system == "Windows" && machine == "AMD64") || (system == "Linux" && machine == "x86_64")
    ensures r.Ok? && system == "Windows" ==> r.value == Target("ribasim_windows.zip", "ribasim.exe")
    ensures r.Ok? && system == "Linux" ==> r.value == Target("ribasim_linux.zip", "ribasim")
    ensures r.Err? ==> r.error.RuntimeError?
  {
    if system == "Windows" && machine == "AMD64" then Ok(Target("ribasim_windows.zip", "ribasim.exe"))
    else if system == "Linux" && machine == "x86_64" then Ok(Target("ribasim_linux.zip", "ribasim"))
    else Err(RuntimeError("Platform " + system + " " + machine + " is not supported. " +
                          "Ribasim CLI is only available for Windows x64 and Linux x64."))
  }

  /** Where the download for a version puts its executable. */
  function CachedExe(cliDir: Path, version: string, exeName: string): Path {
    Child(Child(Child(cliDir, version), "ribasim"), exeName)
  }

  function ReleaseUrl(version: string, zipName: string): string {
    "https://github.com/Deltares/Ribasim/releases/download/v" + version + "/" + zipName
  }

  // ---------------------------------------------------------------------
  // PATH

  /** The PATH entries `_find_cli` keeps: those not resolving to the
      Python scripts directory, in their order. */
  function FilterPath(dirs: seq<string>, resolve: Path -> Path, scripts: Path): seq<string> {
    if dirs == [] then []
    else
      var rest := FilterPath(dirs[1..], resolve, scripts);
      if resolve(Parse(dirs[0])) != resolve(scripts) then [dirs[0]] + rest else rest
  }

  /** The filter keeps exactly the entries not resolving to the scripts
      directory, and it works entry by entry, so order is kept. */
  lemma {:induction false} FilterPathFacts(a: seq<string>, b: seq<string>, resolve: Path -> Path, scripts: Path)
    ensures FilterPath(a + b, resolve, scripts) == FilterPath(a, resolve, scripts) + FilterPath(b, resolve, scripts)
    ensures forall d :: d in FilterPath(a, resolve, scripts) <==> d in a && resolve(Parse(d)) != resolve(scripts)
    decreases |a|
  {
    if a == [] {
      assert a + b == b;
    } else {
      assert (a + b)[0] == a[0] && (a + b)[1..] == a[1..] + b;
      FilterPathFacts(a[1..], b, resolve, scripts);
      assert a == [a[0]] + a[1..];
    }
  }

  /** Filtering twice is filtering once. */
  lemma {:induction false} FilterPathIdempotent(dirs: seq<string>, resolve: Path -> Path, scripts: Path)
    ensures FilterPath(FilterPath(dirs, resolve, scripts), resolve, scripts) == FilterPath(dirs, resolve, scripts)
    decreases |dirs|
  {
    if dirs != [] {
      FilterPathIdempotent(dirs[1..], resolve, scripts);
      var rest := FilterPath(dirs[1..], resolve, scripts);
      if resolve(Parse(dirs[0])) != resolve(scripts) {
        assert ([dirs[0]] + rest)[1..] == rest;
      }
    }
  }

  /** The filtered PATH, joined and split again by `shutil.which`, is the
      list of kept entries. */
  lemma FilteredPathReads(original: string, sep: char, resolve: Path -> Path, scripts: Path)
    ensures var dirs := FilterPath(Split(original, [sep]), resolve, scripts);
      |dirs| >= 1 ==> Split(Join(dirs, [sep]), [sep]) == dirs
  {
    var pieces := Split(original, [sep]);
    var dirs := FilterPath(pieces, resolve, scripts);
    SplitPiecesFree(original, sep);
    FilterPathFacts(pieces, [], resolve, scripts);
    if |dirs| >= 1 {
      forall k | 0 <= k < |dirs| ensures sep !in dirs[k] {
        assert dirs[k] in pieces;
      }
      SplitJoin(dirs, sep);
    }
  }

  /** `shutil.which`: the first directory of a non-empty search path
      holding the executable. */
  function Which(exeName: string, path: string, sep: char, files: set<Path>): Option<Path> {
    if path == "" then None else FirstHolding(exeName, Split(path, [sep]), files)
  }

  function FirstHolding(exeName: string, dirs: seq<string>, files: set<Path>): (r: Option<Path>)
    ensures r.Some? ==> r.value in files && exists k :: 0 <= k < |dirs| && r.value == Child(Parse(dirs[k]), exeName)
    ensures r.None? ==> forall k :: 0 <= k < |dirs| ==> Child(Parse(dirs[k]), exeName) !in files
  {
    if dirs == [] then None
    else if Child(Parse(dirs[0]), exeName) in files then Some(Child(Parse(dirs[0]), exeName))
    else
      var r := FirstHolding(exeName, dirs[1..], files);
      assert forall k :: 1 <= k < |dirs| ==> dirs[k] == dirs[1..][k - 1];
      r
  }

  // ---------------------------------------------------------------------
  // The stateful steps

  /** What the process sees of its host. */
  datatype Host = Host(
    system: string,
    machine: string,
    prefix: Path,
    pathVar: Option<string>,
    resolve: Path -> Path,
    cliDir: Path,
    runs: map<Path, VersionRun>,
    downloaded: VersionRun)

  /** What `<exe> --version` does on this host: a file that is not there
      cannot run. */
  function RunVersion(h: Host, exe: Path, files: set<Path>): VersionRun {
    if exe in files && exe in h.runs then h.runs[exe] else Failed
  }

  /** What a step leaves: its result, the files on disk and the downloads
      made. */
  datatype Outcome = Outcome(result: Result<Path>, files: set<Path>, downloads: seq<string>)

  /** `_download_cli` on the given files and downloads. */
  function DownloadOutcome(h: Host, version: string, files: set<Path>, downloads: seq<string>): Outcome {
    match PlatformTarget(h.system, h.machine)
    case Err(e) => Outcome(Err(e), files, downloads)
    case Ok(t) =>
      var exe := CachedExe(h.cliDir, version, t.exeName);
      if exe in files && CliVersion(RunVersion(h, exe, files)) == Some(version)
      then Outcome(Ok(exe), files, downloads)
      else Outcome(Ok(exe), files + {exe}, downloads + [ReleaseUrl(version, t.zipName)])
  }

  /** The filtered PATH holds a program that reports the package version. */
  predicate PathMatch(h: Host, version: string, files: set<Path>) {
    FoundOnPath(h, files).Some? &&
    CliVersion(RunVersion(h, h.resolve(FoundOnPath(h, files).value), files)) == Some(version)
  }

  /** `_find_cli` on the given files and downloads. */
  function FindOutcome(h: Host, version: string, files: set<Path>, downloads: seq<string>): Outcome {
    if PathMatch(h, version, files) then Outcome(Ok(h.resolve(FoundOnPath(h, files).value)), files, downloads)
    else DownloadOutcome(h, version, files, downloads)
  }

  /** `run_ribasim` on the given files and downloads, the program exiting
      with `returncode`. */
  function RunOutcome(h: Host, version: string, returncode: int, files: set<Path>, downloads: seq<string>): Outcome {
    var found := FindOutcome(h, version, files, downloads);
    if found.result.Ok? && returncode != 0 then found.(result := Err(CalledProcessError(returncode)))
    else found
  }

  /** The program `_find_cli` returns is on disk and is either a program on
      the PATH that reports the version, without any download, or the
      cached executable; it fails, with the platform's RuntimeError, exactly
      when no PATH program matches and the platform is unsupported, and
      at most the cached executable and its release download are added. */
  lemma FindOutcomeFacts(h: Host, version: string, files: set<Path>, downloads: seq<string>)
    ensures var o := FindOutcome(h, version, files, downloads);
      (o.result.Err? <==> !PathMatch(h, version, files) && PlatformTarget(h.system, h.machine).Err?) &&
      (o.result.Err? ==> o.result.error == PlatformTarget(h.system, h.machine).error) &&
      (o.result.Ok? ==> o.result.value in o.files) &&
      (o.result.Ok? && !PathMatch(h, version, files) ==>
        o.result.value == CachedExe(h.cliDir, version, PlatformTarget(h.system, h.machine).value.exeName)) &&
      (PathMatch(h, version, files) ==> o.files == files && o.downloads == downloads) &&
      (o.downloads != downloads ==>
        !PathMatch(h, version, files) && PlatformTarget(h.system, h.machine).Ok? &&
        o.downloads == downloads + [ReleaseUrl(version, PlatformTarget(h.system, h.machine).value.zipName)] &&
        o.files == files + {o.result.value})
  {
    if PathMatch(h, version, files) {
      var p := h.resolve(FoundOnPath(h, files).value);
      assert RunVersion(h, p, files) != Failed;
    }
  }

  /** `run_ribasim` raises as its documentation says: the RuntimeError when
      the platform is unsupported and no program on the PATH matches, and
      otherwise CalledProcessError with the return code exactly when it is
      non-zero; on success the result is the program found. */
  lemma RunOutcomeFacts(h: Host, version: string, returncode: int, files: set<Path>, downloads: seq<string>)
    ensures var o := RunOutcome(h, version, returncode, files, downloads);
      var found := FindOutcome(h, version, files, downloads);
      (o.result.Err? <==> (!PathMatch(h, version, files) && PlatformTarget(h.system, h.machine).Err?) || returncode != 0) &&
      (o.result == Err(CalledProcessError(returncode)) <==>
        returncode != 0 && (PathMatch(h, version, files) || PlatformTarget(h.system, h.machine).Ok?)) &&
      (o.result.Err? && !o.result.error.CalledProcessError? ==> o.result.error.RuntimeError?) &&
      (o.result.Ok? ==> returncode == 0 && o.result == found.result) &&
      o.files == found.files && o.downloads == found.downloads
  {
    FindOutcomeFacts(h, version, files, downloads);
  }

  /** The files on disk and the downloads made so far. */
  class Machine {
    var files: set<Path>
    var downloads: seq<string>

    constructor(files: set<Path>)
      ensures this.files == files && this.downloads == []
    {
      this.files := files;
      this.downloads := [];
    }

    /** `_download_cli`: refuse an unsupported platform; reuse the cached
        executable exactly when it exists and reports the package version;
        otherwise fetch the release archive and unpack it into the cache. */
    method DownloadCli(h: Host, version: string) returns (r: Result<Path>)
      modifies this
      ensures PlatformTarget(h.system, h.machine).Err? ==>
        r == Err(PlatformTarget(h.system, h.machine).error) && files == old(files) && downloads == old(downloads)
      ensures PlatformTarget(h.system, h.machine).Ok? ==>
        var t := PlatformTarget(h.system, h.machine).value;
        var exe := CachedExe(h.cliDir, version, t.exeName);
        r == Ok(exe) && exe in files &&
        (if old(exe in files) && CliVersion(RunVersion(h, exe, old(files))) == Some(version)
         then files == old(files) && downloads == old(downloads)
         else files == old(files) + {exe} && downloads == old(downloads) + [ReleaseUrl(version, t.zipName)])
      ensures Outcome(r, files, downloads) == DownloadOutcome(h, version, old(files), old(downloads))
    {
      var target :- PlatformTarget(h.system, h.machine);
      var exePath := CachedExe(h.cliDir, version, target.exeName);
      if exePath in files {
        var existing := CliVersion(RunVersion(h, exePath, files));
        if existing == Some(version) {
          return Ok(exePath);
        }
      }
      downloads := downloads + [ReleaseUrl(version, target.zipName)];
      files := files + {exePath};
      return Ok(exePath);
    }

    /** `_find_cli`: a program on the filtered PATH is used when it reports
        the package version; otherwise `_download_cli` decides. */
    method FindCli(h: Host, version: string) returns (r: Result<Path>)
      modifies this
      ensures FoundOnPath(h, old(files)).Some? &&
              CliVersion(RunVersion(h, h.resolve(FoundOnPath(h, old(files)).value), old(files))) == Some(version) ==>
        r == Ok(h.resolve(FoundOnPath(h, old(files)).value)) && files == old(files) && downloads == old(downloads)
      ensures r.Ok? && r.value !in old(files) ==>
        PlatformTarget(h.system, h.machine).Ok? &&
        downloads == old(downloads) + [ReleaseUrl(version, PlatformTarget(h.system, h.machine).value.zipName)]
      ensures !PathMatch(h, version, old(files)) ==>
        Outcome(r, files, downloads) == DownloadOutcome(h, version, old(files), old(downloads))
      ensures r.Err? ==> PlatformTarget(h.system, h.machine).Err? && r.error == PlatformTarget(h.system, h.machine).error
      ensures Outcome(r, files, downloads) == FindOutcome(h, version, old(files), old(downloads))
    {
      var which := FoundOnPath(h, files);
      if which.Some? {
        var ribasimPath := h.resolve(which.value);
        var found := CliVersion(RunVersion(h, ribasimPath, files));
        if found == Some(version) {
          return Ok(ribasimPath);
        }
      }
      r := DownloadCli(h, version);
    }

    /** `run_ribasim`: find the program and run it with the arguments; a
        non-zero return code raises CalledProcessError. */
    method RunRibasim(h: Host, version: string, returncode: int) returns (r: Result<Path>)
      modifies this
      ensures FindOutcome(h, version, old(files), old(downloads)).result.Err? ==>
        r == FindOutcome(h, version, old(files), old(downloads)).result
      ensures FindOutcome(h, version, old(files), old(downloads)).result.Ok? && returncode == 0 ==>
        r == FindOutcome(h, version, old(files), old(downloads)).result
      ensures FindOutcome(h, version, old(files), old(downloads)).result.Ok? && returncode != 0 ==>
        r == Err(CalledProcessError(returncode))
      ensures Outcome(r, files, downloads) == RunOutcome(h, version, returncode, old(files), old(downloads))
    {
      var cli :- FindCli(h, version);
      if returncode != 0 {
        return Err(CalledProcessError(returncode));
      }
      return Ok(cli);
    }
  }

  /** What `shutil.which` finds on the PATH left after filtering out the
      Python scripts directory. */
  function FoundOnPath(h: Host, files: set<Path>): Option<Path> {
    var sep := PathSep(h.system);
    Which(ExeName(h.system), Join(FilterPath(Split(PathText(h), [sep]), h.resolve, Scripts(h)), [sep]), sep, files)
  }

  function ExeName(system: string): string {
    if system == "Windows" then "ribasim.exe" else "ribasim"
  }

  function PathSep(system: string): char {
    if system == "Windows" then ';' else ':'
  }

  function PathText(h: Host): string {
    if h.pathVar.Some? then h.pathVar.value else ""
  }

  /** Where the Python wrapper script is installed. */
  function Scripts(h: Host): Path {
    Child(h.prefix, if h.system == "Windows" then "Scripts" else "bin")
  }
}
