/** The plugin's background task running a simulation: it names the model
    after its TOML path, reads the CLI's output line by line, forwards each
    line to the panel (overwriting the previous progress line), tracks the
    progress percentage, honours cancellation and reports success by the
    exit code. The subprocess is an input: whether it starts, the lines it
    prints, how it ends, and when the user cancels. */
module Task {
  import opened Common
  import opened Strings
  import opened Paths

  // ---------------------------------------------------------------------
  // The model name

  /** `f"{p.parent.stem}/{p.stem}"`. */
  function ModelName(p: Path): string {
    Stem(Parent(p)) + "/" + Stem(p)
  }

  /** A name without a dot is its own stem. */
  lemma StemNoDot(p: Path)
    requires '.' !in Name(p)
    ensures Stem(p) == Name(p)
  {
  }

  /** `path/to/basic/ribasim.toml` names the model `basic/ribasim`: the
      directory holding the file, then the file's name without its
      extension. */
  lemma ModelNameOf(absolute: bool, dirs: seq<string>, dir: string, base: string)
    requires '.' !in dir && |base| > 0
    ensures ModelName(Path(absolute, dirs + [dir, base + ".toml"])) == dir + "/" + base
  {
    var p := Path(absolute, dirs + [dir, base + ".toml"]);
    assert Parent(p).parts == dirs + [dir];
    StemNoDot(Parent(p));
    StemOfSuffixed(p, base, "toml");
  }

  // ---------------------------------------------------------------------
  // `re.search(r"(\d+)%", line)`

  /** A match of the pattern: the digits `s[i..j]`, then `%` at `j`. */
  predicate MatchAt(s: string, i: int, j: int) {
    0 <= i < j < |s| && s[j] == '%' && forall k :: i <= k < j ==> IsDigit(s[k])
  }

  /** The end of the run of digits starting at `i`. */
  function DigitEnd(s: string, i: nat): (j: nat)
    requires i <= |s|
    ensures i <= j <= |s|
    ensures forall k :: i <= k < j ==> IsDigit(s[k])
    ensures j == |s| || !IsDigit(s[j])
    decreases |s| - i
  {
    if i < |s| && IsDigit(s[i]) then DigitEnd(s, i + 1) else i
  }

  /** The search from place `i` on: the number in the first match. */
  function PercentFrom(s: string, i: nat): Option<nat>
    requires i <= |s|
    decreases |s| - i
  {
    if i == |s| then None
    else if IsDigit(s[i]) then
      var j := DigitEnd(s, i);
      if j < |s| && s[j] == '%' then Some(DigitsValue(s[i..j])) else PercentFrom(s, j)
    else PercentFrom(s, i + 1)
  }

  /** `int(match.group(1))` when the pattern occurs in the line. */
  function Percent(s: string): Option<nat> {
    PercentFrom(s, 0)
  }

  /** The search from `i` finds the leftmost match starting at `i` or
      later, and nothing when there is none. */
  lemma {:induction false} PercentFromFacts(s: string, i: nat)
    requires i <= |s|
    ensures PercentFrom(s, i).None? <==> forall a, b :: i <= a && MatchAt(s, a, b) ==> false
    ensures PercentFrom(s, i).Some? ==>
      exists a, b :: i <= a && MatchAt(s, a, b) && PercentFrom(s, i).value == DigitsValue(s[a..b]) &&
                     forall a2, b2 :: i <= a2 && MatchAt(s, a2, b2) ==> a <= a2
    decreases |s| - i
  {
    if i < |s| {
      if !IsDigit(s[i]) {
        PercentFromFacts(s, i + 1);
        assert forall b :: !MatchAt(s, i, b);
      } else {
        var j := DigitEnd(s, i);
        if j < |s| && s[j] == '%' {
          assert MatchAt(s, i, j);
        } else {
          PercentFromFacts(s, j);
          forall a, b | i <= a < j && MatchAt(s, a, b) ensures false {
          }
        }
      }
    }
  }

  /** The percentage in a line: the number of the leftmost match, and
      nothing exactly when the pattern does not occur. */
  lemma PercentFacts(s: string)
    ensures Percent(s).None? <==> forall a, b :: MatchAt(s, a, b) ==> false
    ensures Percent(s).Some? ==>
      exists a, b :: MatchAt(s, a, b) && Percent(s).value == DigitsValue(s[a..b]) &&
                     forall a2, b2 :: MatchAt(s, a2, b2) ==> a <= a2
  {
    PercentFromFacts(s, 0);
  }

  // ---------------------------------------------------------------------
  // What the line loop produces

  /** What the task forwards to the panel for one line: the line, and
      whether it overwrites the previous one. */
  datatype Emission = Emission(line: string, replace: bool)

  predicate IsSimulating(line: string) {
    StartsWith(line, "Simulating")
  }

  /** Whether some line, stripped, is a progress line. */
  predicate AnySimulating(lines: seq<string>) {
    exists k :: 0 <= k < |lines| && IsSimulating(RStrip(lines[k]))
  }

  /** The emissions for the lines read, in order. */
  function Emissions(lines: seq<string>): seq<Emission> {
    if lines == [] then []
    else
      var init := lines[..|lines| - 1];
      var line := RStrip(lines[|lines| - 1]);
      Emissions(init) + [Emission(line, IsSimulating(line) && AnySimulating(init))]
  }

  /** One more line read: its emission goes after the others. */
  lemma EmissionsStep(lines: seq<string>, i: nat)
    requires i < |lines|
    ensures Emissions(lines[..i + 1]) ==
      Emissions(lines[..i]) + [Emission(RStrip(lines[i]), IsSimulating(RStrip(lines[i])) && AnySimulating(lines[..i]))]
  {
    assert lines[..i + 1][..i] == lines[..i];
  }

  /** One emission per line read. */
  lemma {:induction false} EmissionsLength(lines: seq<string>)
    ensures |Emissions(lines)| == |lines|
  {
    if lines != [] {
      EmissionsLength(lines[..|lines| - 1]);
    }
  }

  /** The emission of line `k` is that line, stripped, replacing the
      previous one exactly when it is a progress line that follows one. */
  lemma {:induction false} EmissionAt(lines: seq<string>, k: nat)
    requires k < |lines|
    ensures |Emissions(lines)| == |lines|
    ensures Emissions(lines)[k] == Emission(RStrip(lines[k]), IsSimulating(RStrip(lines[k])) && AnySimulating(lines[..k]))
    decreases |lines|
  {
    EmissionsLength(lines);
    var n := |lines| - 1;
    var init := lines[..n];
    if k < n {
      EmissionAt(init, k);
      assert init[k] == lines[k] && init[..k] == lines[..k];
    }
  }

  /** Every line is forwarded right-stripped, in order. */
  lemma EmissionsLines(lines: seq<string>)
    ensures |Emissions(lines)| == |lines|
    ensures forall k :: 0 <= k < |lines| ==> Emissions(lines)[k].line == RStrip(lines[k])
  {
    EmissionsLength(lines);
    forall k | 0 <= k < |lines| ensures Emissions(lines)[k].line == RStrip(lines[k]) {
      EmissionAt(lines, k);
    }
  }

  /** A line overwrites the previous one exactly when it is a progress
      line and an earlier line was one too, so the first progress line is
      appended and the later ones replace it. */
  lemma EmissionsReplace(lines: seq<string>)
    ensures |Emissions(lines)| == |lines|
    ensures forall k :: 0 <= k < |lines| ==>
      (Emissions(lines)[k].replace <==> IsSimulating(RStrip(lines[k])) && AnySimulating(lines[..k]))
  {
    EmissionsLength(lines);
    forall k | 0 <= k < |lines|
      ensures Emissions(lines)[k].replace <==> IsSimulating(RStrip(lines[k])) && AnySimulating(lines[..k])
    {
      EmissionAt(lines, k);
    }
  }

  /** Whether a line, stripped, moves the progress bar. */
  predicate SetsProgress(line: string) {
    IsSimulating(RStrip(line)) && Percent(RStrip(line)).Some?
  }

  /** The progress after the lines read, starting from `p0`. */
  function LastProgress(lines: seq<string>, p0: int): int {
    if lines == [] then p0
    else
      var p := LastProgress(lines[..|lines| - 1], p0);
      var line := lines[|lines| - 1];
      if SetsProgress(line) then Percent(RStrip(line)).value else p
  }

  /** One more line read: it sets the progress when it has a percentage. */
  lemma LastProgressStep(lines: seq<string>, i: nat, p0: int)
    requires i < |lines|
    ensures LastProgress(lines[..i + 1], p0) ==
      if SetsProgress(lines[i]) then Percent(RStrip(lines[i])).value else LastProgress(lines[..i], p0)
  {
    assert lines[..i + 1][..i] == lines[..i];
  }

  /** The progress is the percentage of the last progress line that has
      one, and stays where it was when no line has one. */
  lemma LastProgressFacts(lines: seq<string>, p0: int)
    ensures (forall k :: 0 <= k < |lines| ==> !SetsProgress(lines[k])) ==> LastProgress(lines, p0) == p0
    ensures forall k :: 0 <= k < |lines| && SetsProgress(lines[k]) &&
                        (forall k2 :: k < k2 < |lines| ==> !SetsProgress(lines[k2])) ==>
                        LastProgress(lines, p0) == Percent(RStrip(lines[k])).value
  {
    LastProgressNone(lines, p0);
    forall k | 0 <= k < |lines| && SetsProgress(lines[k]) &&
               (forall k2 :: k < k2 < |lines| ==> !SetsProgress(lines[k2]))
      ensures LastProgress(lines, p0) == Percent(RStrip(lines[k])).value
    {
      LastProgressAt(lines, p0, k);
    }
  }

  lemma {:induction false} LastProgressNone(lines: seq<string>, p0: int)
    ensures (forall k :: 0 <= k < |lines| ==> !SetsProgress(lines[k])) ==> LastProgress(lines, p0) == p0
    decreases |lines|
  {
    if lines != [] {
      var n := |lines| - 1;
      var init := lines[..n];
      LastProgressNone(init, p0);
      assert forall k :: 0 <= k < n ==> lines[k] == init[k];
    }
  }

  lemma {:induction false} LastProgressAt(lines: seq<string>, p0: int, k: nat)
    requires k < |lines| && SetsProgress(lines[k])
    requires forall k2 :: k < k2 < |lines| ==> !SetsProgress(lines[k2])
    ensures LastProgress(lines, p0) == Percent(RStrip(lines[k])).value
    decreases |lines|
  {
    var n := |lines| - 1;
    if k < n {
      var init := lines[..n];
      assert init[k] == lines[k];
      assert forall k2 :: k < k2 < |init| ==> init[k2] == lines[k2];
      LastProgressAt(init, p0, k);
      assert !SetsProgress(lines[n]);
    }
  }

  // ---------------------------------------------------------------------
  // The task

  /** How reading the output ends: the process exits with a code, or an
      exception is raised. */
  datatype End = Exited(returncode: int) | Raised

  /** The subprocess: it fails to start, or prints lines and then ends. */
  datatype Launch = FailedToStart | Started(lines: seq<string>, end: End)

  /** Whether the user's cancellation, first seen before line `cancelAt`,
      interrupts the loop. A cancellation after the last line is never
      looked at. */
  predicate CanceledDuring(launch: Launch, cancelAt: Option<nat>) {
    launch.Started? && cancelAt.Some? && cancelAt.value < |launch.lines|
  }

  /** The number of lines the loop handles. */
  function Processed(launch: Launch, cancelAt: Option<nat>): (n: nat)
    requires launch.Started?
    ensures n <= |launch.lines|
  {
    if CanceledDuring(launch, cancelAt) then cancelAt.value else |launch.lines|
  }

  class RibasimTask {
    const cli: string
    const tomlPath: string
    const description: string
    var exitCode: Option<int>
    var process: Option<seq<string>>
    var wasCanceled: bool
    var terminated: bool
    var progress: int
    var emitted: seq<Emission>

    constructor(cli: string, tomlPath: string)
      ensures this.cli == cli && this.tomlPath == tomlPath
      ensures description == "Ribasim simulation - " + ModelName(Parse(tomlPath))
      ensures exitCode == None && process == None && !wasCanceled && !terminated
      ensures progress == 0 && emitted == []
    {
      this.cli := cli;
      this.tomlPath := tomlPath;
      description := "Ribasim simulation - " + ModelName(Parse(tomlPath));
      exitCode := None;
      process := None;
      wasCanceled := false;
      terminated := false;
      progress := 0;
      emitted := [];
    }

    /** One line of output: right-stripped, it moves the progress bar
        when it is a progress line with a percentage, and is forwarded,
        overwriting the previous line when it is a progress line and one
        was seen before. */
    method ForwardLine(raw: string, firstSimulatingSeen: bool) returns (isSimulating: bool)
      modifies this`emitted, this`progress
      ensures isSimulating == IsSimulating(RStrip(raw))
      ensures emitted == old(emitted) + [Emission(RStrip(raw), isSimulating && firstSimulatingSeen)]
      ensures progress == if SetsProgress(raw) then Percent(RStrip(raw)).value else old(progress)
    {
      var line := RStrip(raw);
      isSimulating := StartsWith(line, "Simulating");
      var replace := isSimulating && firstSimulatingSeen;
      if isSimulating {
        var found := Percent(line);
        if found.Some? {
          progress := found.value;
        }
      }
      emitted := emitted + [Emission(line, replace)];
    }

    /** The line loop of `run`: before each line it looks for a
        cancellation, which terminates the process; each line is
        right-stripped, moves the progress bar when it is a progress line
        with a percentage, and is forwarded. */
    method ForwardLines(lines: seq<string>, cancelAt: Option<nat>) returns (canceled: bool)
      modifies this`emitted, this`progress, this`wasCanceled, this`terminated
      ensures canceled <==> cancelAt.Some? && cancelAt.value < |lines|
      ensures canceled ==> wasCanceled && terminated
      ensures !canceled ==> wasCanceled == old(wasCanceled) && terminated == old(terminated)
      ensures var n := if canceled then cancelAt.value else |lines|;
        emitted == old(emitted) + Emissions(lines[..n]) && progress == LastProgress(lines[..n], old(progress))
    {
      var firstSimulatingSeen := false;
      var i := 0;
      while i < |lines|
        invariant i <= |lines|
        invariant cancelAt.Some? ==> i <= cancelAt.value
        invariant firstSimulatingSeen <==> AnySimulating(lines[..i])
        invariant emitted == old(emitted) + Emissions(lines[..i])
        invariant progress == LastProgress(lines[..i], old(progress))
        invariant wasCanceled == old(wasCanceled) && terminated == old(terminated)
      {
        if cancelAt.Some? && cancelAt.value <= i {
          terminated := true;
          wasCanceled := true;
          return true;
        }
        EmissionsStep(lines, i);
        LastProgressStep(lines, i, old(progress));
        SimulatingStep(lines, i);
        ghost var before := emitted;
        var isSimulating := ForwardLine(lines[i], firstSimulatingSeen);
        assert emitted == old(emitted) + Emissions(lines[..i + 1]) by {
          Glue2(old(emitted), Emissions(lines[..i]), emitted[|before|..]);
        }
        firstSimulatingSeen := firstSimulatingSeen || isSimulating;
        i := i + 1;
      }
      assert lines[..|lines|] == lines;
      return false;
    }

    /** `run`: start the CLI on the TOML file, forward its lines until it
        ends or the user cancels, and report whether it exited with 0; any
        exception sets the exit code to -1. */
    method Run(launch: Launch, cancelAt: Option<nat>) returns (result: bool)
      modifies this
      ensures launch.FailedToStart? ==>
        !result && exitCode == Some(-1) && process == old(process) && emitted == old(emitted) &&
        progress == old(progress) && wasCanceled == old(wasCanceled) && terminated == old(terminated)
      ensures launch.Started? ==>
        process == Some([cli, tomlPath]) &&
        emitted == old(emitted) + Emissions(launch.lines[..Processed(launch, cancelAt)]) &&
        progress == LastProgress(launch.lines[..Processed(launch, cancelAt)], old(progress))
      ensures CanceledDuring(launch, cancelAt) ==> !result && wasCanceled && terminated && exitCode == old(exitCode)
      ensures launch.Started? && !CanceledDuring(launch, cancelAt) ==>
        wasCanceled == old(wasCanceled) && terminated == old(terminated) &&
        (launch.end.Exited? ==> exitCode == Some(launch.end.returncode) && (result <==> launch.end.returncode == 0)) &&
        (launch.end.Raised? ==> exitCode == Some(-1) && !result)
    {
      if launch.FailedToStart? {
        exitCode := Some(-1);
        return false;
      }
      process := Some([cli, tomlPath]);
      var canceled := ForwardLines(launch.lines, cancelAt);
      if canceled {
        return false;
      }
      match launch.end
      case Exited(code) =>
        exitCode := Some(code);
        return code == 0;
      case Raised =>
        exitCode := Some(-1);
        return false;
    }
  }

  /** One more line read: a progress line has been seen when one was
      before or this line is one. */
  lemma Glue2<T>(a: seq<T>, b: seq<T>, c: seq<T>)
    ensures (a + b) + c == a + (b + c)
  {
  }

  lemma SimulatingStep(lines: seq<string>, i: nat)
    requires i < |lines|
    ensures AnySimulating(lines[..i + 1]) <==> AnySimulating(lines[..i]) || IsSimulating(RStrip(lines[i]))
  {
    var next := lines[..i + 1];
    assert next[i] == lines[i];
    if AnySimulating(lines[..i]) {
      var k :| 0 <= k < i && IsSimulating(RStrip(lines[..i][k]));
      assert next[k] == lines[..i][k];
    }
    if AnySimulating(next) {
      var k :| 0 <= k < i + 1 && IsSimulating(RStrip(next[k]));
      if k < i {
        assert lines[..i][k] == next[k];
      }
    }
  }
}
