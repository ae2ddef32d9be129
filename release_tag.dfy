/** The release script: the checked-out tag must be a release tag
    `v20YY.M.P`, optionally followed by `.devN` or `rcN`, before the
    `gh release create` command is built. Running `git describe` and the
    `gh` command are left out: the script's input is the finished
    `git describe` process and its output is the command it would run. */
module ReleaseTag {
  import opened Common
  import opened Strings

  /** The part every tag pattern opens with: `v20`, two digits, `.`, a
      minor digit 1-9, `.`, a patch digit. */
  predicate CoreAt(t: string) {
    |t| >= 9 && t[0] == 'v' && t[1] == '2' && t[2] == '0' && IsDigit(t[3]) && IsDigit(t[4]) &&
    t[5] == '.' && '1' <= t[6] <= '9' && t[7] == '.' && IsDigit(t[8])
  }

  /** `^v20\d{2}\.[1-9]\.\d$` */
  predicate IsNormal(t: string) {
    |t| == 9 && CoreAt(t)
  }

  /** `^v20\d{2}\.[1-9]\.\d\.dev[1-9]$` */
  predicate IsDev(t: string) {
    |t| == 14 && CoreAt(t) && t[9] == '.' && t[10] == 'd' && t[11] == 'e' && t[12] == 'v' && '1' <= t[13] <= '9'
  }

  /** `^v20\d{2}\.[1-9]\.\drc[1-9]$` */
  predicate IsRc(t: string) {
    |t| == 12 && CoreAt(t) && t[9] == 'r' && t[10] == 'c' && '1' <= t[11] <= '9'
  }

  predicate IsPrerelease(t: string) {
    IsDev(t) || IsRc(t)
  }

  // ---------------------------------------------------------------------
  // The version a tag names

  datatype Pre = Final | Dev(n: int) | Rc(n: int)

  /** Year `20yy`, minor, patch and prerelease number as the patterns
      allow them. */
  datatype TagVersion = TagVersion(yy: int, minor: int, patch: int, pre: Pre)

  predicate ValidVersion(v: TagVersion) {
    0 <= v.yy < 100 && 1 <= v.minor <= 9 && 0 <= v.patch <= 9 &&
    (v.pre.Dev? || v.pre.Rc? ==> 1 <= v.pre.n <= 9)
  }

  function Suffix(p: Pre): string
    requires p.Dev? || p.Rc? ==> 1 <= p.n <= 9
  {
    match p
    case Final => ""
    case Dev(n) => ".dev" + [DigitChar(n)]
    case Rc(n) => "rc" + [DigitChar(n)]
  }

  /** The tag naming a version. */
  function Format(v: TagVersion): string
    requires ValidVersion(v)
  {
    "v20" + [DigitChar(v.yy / 10), DigitChar(v.yy % 10), '.', DigitChar(v.minor), '.', DigitChar(v.patch)] + Suffix(v.pre)
  }

  /** The version a tag names, if it matches one of the patterns. */
  function Parse(t: string): Option<TagVersion> {
    if !CoreAt(t) then None
    else
      var core := TagVersion(10 * DigitValue(t[3]) + DigitValue(t[4]), DigitValue(t[6]), DigitValue(t[8]), Final);
      if |t| == 9 then Some(core)
      else if IsDev(t) then Some(core.(pre := Dev(DigitValue(t[13]))))
      else if IsRc(t) then Some(core.(pre := Rc(DigitValue(t[11]))))
      else None
  }

  /** A tag parses exactly when it matches a pattern, as a prerelease
      exactly when it matches a prerelease pattern, and then it is the
      tag of the version it parses to. */
  lemma ParseMatches(t: string)
    ensures Parse(t).Some? <==> IsNormal(t) || IsPrerelease(t)
    ensures Parse(t).Some? ==> ValidVersion(Parse(t).value) && (Parse(t).value.pre != Final <==> IsPrerelease(t))
    ensures Parse(t).Some? ==> Format(Parse(t).value) == t
  {
    if Parse(t).Some? {
      var v := Parse(t).value;
      var f := Format(v);
      assert |f| == |t|;
      forall k | 0 <= k < |t| ensures f[k] == t[k] {
        if k == 3 || k == 4 {
          assert v.yy / 10 == DigitValue(t[3]) && v.yy % 10 == DigitValue(t[4]);
        }
      }
    }
  }

  /** Every valid version's tag matches a pattern and parses back to it. */
  lemma FormatParse(v: TagVersion)
    requires ValidVersion(v)
    ensures IsNormal(Format(v)) || IsPrerelease(Format(v))
    ensures IsPrerelease(Format(v)) <==> v.pre != Final
    ensures Parse(Format(v)) == Some(v)
  {
    var t := Format(v);
    assert DigitValue(t[3]) == v.yy / 10 && DigitValue(t[4]) == v.yy % 10;
    if v.pre.Dev? {
      assert t[9..] == ".dev" + [DigitChar(v.pre.n)];
    }
  }

  // ---------------------------------------------------------------------
  // The script

  /** The finished `git describe --tags --exact-match`. */
  datatype CompletedProcess = CompletedProcess(returncode: int, stdout: string, stderr: string)

  /** What a run of the script comes to. */
  datatype Outcome =
    | NoRelease(stderr: string)
    | Raised(error: Exception)
    | Command(cmd: seq<string>)

  const ASSETS: seq<string> := ["ribasim_linux.zip", "ribasim_windows.zip", "ribasim_qgis.zip", "generated_testmodels.zip"]

  /** The script: no release unless `git describe` succeeded on a tag
      starting with `v20`; a tag matching no pattern raises ValueError;
      otherwise the `gh release create` command, marked as a prerelease
      exactly for a prerelease tag. */
  method RunRelease(proc: CompletedProcess) returns (outcome: Outcome)
    ensures !(proc.returncode == 0 && StartsWith(proc.stdout, "v20")) <==> outcome == NoRelease(proc.stderr)
    ensures outcome.Raised? <==>
      proc.returncode == 0 && StartsWith(proc.stdout, "v20") && !IsNormal(Strip(proc.stdout)) && !IsPrerelease(Strip(proc.stdout))
    ensures outcome.Raised? ==> outcome.error.ValueError?
    ensures outcome.Command? ==> Parse(Strip(proc.stdout)).Some?
    ensures outcome.Command? ==>
      (|outcome.cmd| == 10 <==> IsPrerelease(Strip(proc.stdout))) &&
      (|outcome.cmd| == 9 <==> IsNormal(Strip(proc.stdout)))
    ensures outcome.Command? && |outcome.cmd| >= 9 ==>
      outcome.cmd[..5] == ["gh", "release", "create", Strip(proc.stdout), "--generate-notes"] &&
      outcome.cmd[|outcome.cmd| - 4..] == ASSETS
    ensures outcome.Command? ==> ("--prerelease" in outcome.cmd <==> IsPrerelease(Strip(proc.stdout)))
  {
    if !(proc.returncode == 0 && StartsWith(proc.stdout, "v20")) {
      return NoRelease(proc.stderr);
    }
    var tagName := Strip(proc.stdout);
    var isNormal := IsNormal(tagName);
    var isPrerelease := IsDev(tagName) || IsRc(tagName);
    if !(isNormal || isPrerelease) {
      return Raised(ValueError("Tag name '" + tagName + "' does not match expected pattern. " +
                               "Expected v20XX.X.X or v20XX.X.X.devX or v20XX.X.XrcX " +
                               "(where minor and prerelease digits must be 1-9)"));
    }
    ParseMatches(tagName);
    var cmd := ReleaseCommand(tagName, isPrerelease);
    return Command(cmd);
  }

  /** The `gh release create` command for tag `tagName`. */
  method ReleaseCommand(tagName: string, isPrerelease: bool) returns (cmd: seq<string>)
    requires |tagName| > 0 && tagName[0] == 'v'
    ensures |cmd| == if isPrerelease then 10 else 9
    ensures cmd[..5] == ["gh", "release", "create", tagName, "--generate-notes"]
    ensures cmd[|cmd| - 4..] == ASSETS
    ensures "--prerelease" in cmd <==> isPrerelease
  {
    cmd := ["gh", "release", "create", tagName, "--generate-notes"];
    if isPrerelease {
      cmd := cmd + ["--prerelease"];
    }
    cmd := cmd + ASSETS;
    assert "--prerelease" in cmd ==> isPrerelease by {
      if !isPrerelease {
        assert forall k :: 0 <= k < |cmd| ==> cmd[k] != "--prerelease" by {
          assert "--prerelease"[0] == '-';
        }
      }
    }
  }
}
