/** The native `ribasim` launcher. It takes the model file from its argument
    or, when started without arguments, from a file dialog; checks that the
    file exists; sets `JULIA_NUM_THREADS`; loads the shared library
    `libribasim` that lies next to it; calls its `execute` entry point; and
    exits with the low eight bits of the returned code. The dialog, the file
    system, the library loader and `execute` itself are inputs of the model. */
module Launcher {
  import opened Common
  import opened Bytes
  import opened Paths
  import opened Strings

  /** What the launcher finds around it when it starts. */
  datatype Host = Host(
    os: Os,
    exeDir: Path,              // the directory of the running executable
    argCount: nat,             // the number of arguments after the program name
    tomlArg: Option<Path>,     // the positional `toml_path` argument, as parsed
    threads: string,           // the `--threads` value, "1" when it is omitted
    files: set<Path>,          // the paths that are regular files
    picked: Option<Path>,      // what the file dialog returns; None when cancelled
    loadError: Option<string>, // why loading the library fails; None when it loads
    hasExecute: bool,          // the library exports `execute`
    utf8: bool,                // the model path is valid UTF-8
    executeResult: int32)      // what `execute` returns

  /** How the process ends: with an exit status, or by a panic. */
  datatype Outcome = Exit(code: byte) | Panic(reason: string)

  const FAILURE: byte := 1
  const THREADS_VAR := "JULIA_NUM_THREADS"
  const ENTER_PROMPT := "Press Enter to close..."
  const MISSING_PATH := "Missing TOML file path"

  /** Where the model path came from. */
  datatype Resolved = Given(path: Path, viaPicker: bool) | Cancelled | Missing

  /** The argument if there is one; the dialog if there are no arguments at all. */
  function ResolvePath(h: Host): (r: Resolved)
    ensures r.Given? && r.viaPicker <==> h.tomlArg.None? && h.argCount == 0 && h.picked.Some?
    ensures h.tomlArg.Some? ==> r == Given(h.tomlArg.value, false)
    ensures r.Given? && r.viaPicker ==> r.path == h.picked.value
    ensures r.Cancelled? <==> h.tomlArg.None? && h.argCount == 0 && h.picked.None?
    ensures r.Missing? <==> h.tomlArg.None? && h.argCount > 0
  {
    match h.tomlArg
    case Some(p) => Given(p, false)
    case None =>
      if h.argCount == 0 then
        match h.picked
        case Some(p) => Given(p, true)
        case None => Cancelled
      else Missing
  }

  /** The shared library to load; None where `main` stops with
      `unimplemented!` because the operating system is not supported. */
  function SharedLibPath(os: Os, exeDir: Path): (r: Option<Path>)
    ensures r.None? <==> os.OtherOs?
    ensures os == Windows ==> r == Some(Child(exeDir, "libribasim.dll"))
    ensures os == Linux || os == MacOs ==>
      r.Some? && Parent(r.value) == JoinPath(exeDir, Path(false, ["..", "lib"])) &&
      Name(r.value) == (if os == Linux then "libribasim.so" else "libribasim.dylib")
  {
    match os
    case Windows => Some(JoinPath(exeDir, Path(false, ["libribasim.dll"])))
    case Linux => Some(JoinPath(exeDir, Path(false, ["..", "lib", "libribasim.so"])))
    case MacOs => Some(JoinPath(exeDir, Path(false, ["..", "lib", "libribasim.dylib"])))
    case OtherOs(_) => None
  }

  /** `{:?}` of a path: the displayed path in double quotes. */
  function Quoted(p: Path, os: Os): string {
    "\"" + Display(p, Separator(os)) + "\""
  }

  /** Everything one run of the launcher does that can be observed afterwards. */
  datatype Trace = Trace(
    outcome: Outcome,
    env: map<string, string>,   // the process environment when it ends
    stderr: seq<string>,        // the lines written to standard error
    library: Option<Path>,      // the library that was loaded, if any
    executed: Option<string>,   // the path handed to `execute`, if it was called
    stdinReads: nat)            // the lines read from standard input

  /** One run of the launcher from the environment `env`. */
  function Run(h: Host, env: map<string, string>): Trace {
    match ResolvePath(h)
    case Cancelled => Trace(Exit(FAILURE), env, [], None, None, 0)
    case Missing => Trace(Exit(FAILURE), env, [MISSING_PATH], None, None, 0)
    case Given(path, viaPicker) =>
      if path !in h.files then
        Trace(Exit(FAILURE), env, ["File not found " + Quoted(path, h.os)], None, None, 0)
      else
        var env1 := env[THREADS_VAR := h.threads];
        match SharedLibPath(h.os, h.exeDir)
        case None => Trace(Panic("Your OS is not supported yet."), env1, [], None, None, 0)
        case Some(lib) =>
          if h.loadError.Some? then
            Trace(Exit(FAILURE), env1,
                  ["Failed to load libribasim from " + Quoted(lib, h.os), "Error: " + h.loadError.value],
                  None, None, 0)
          else if !h.hasExecute then Trace(Panic("no symbol execute"), env1, [], Some(lib), None, 0)
          else if !h.utf8 then Trace(Panic("path is not UTF-8"), env1, [], Some(lib), None, 0)
          else
            var text := Display(path, Separator(h.os));
            if 0 as char in text then Trace(Panic("nul byte in path"), env1, [], Some(lib), None, 0)
            else
              Trace(Exit(LowByte(h.executeResult)), env1,
                    if viaPicker then [ENTER_PROMPT] else [],
                    Some(lib), Some(text), if viaPicker then 1 else 0)
  }

  /** The launcher process: its environment and what it has written, loaded,
      executed and read. */
  class Process {
    var env: map<string, string>
    var stderr: seq<string>
    var library: Option<Path>
    var executed: Option<string>
    var stdinReads: nat

    constructor (env0: map<string, string>)
      ensures env == env0 && stderr == [] && library.None? && executed.None? && stdinReads == 0
    {
      env := env0;
      stderr := [];
      library := None;
      executed := None;
      stdinReads := 0;
    }

    /** `main`, step by step, on a fresh process. */
    method Launch(h: Host) returns (outcome: Outcome)
      requires stderr == [] && library.None? && executed.None? && stdinReads == 0
      modifies this
      ensures Trace(outcome, env, stderr, library, executed, stdinReads) == Run(h, old(env))
    {
      var usedFilePicker := false;
      var tomlPath: Path;
      if h.tomlArg.Some? {
        tomlPath := h.tomlArg.value;
      } else if h.argCount == 0 {
        if h.picked.Some? {
          usedFilePicker := true;
          tomlPath := h.picked.value;
        } else {
          return Exit(FAILURE);
        }
      } else {
        stderr := stderr + [MISSING_PATH];
        return Exit(FAILURE);
      }

      if tomlPath !in h.files {
        stderr := stderr + ["File not found " + Quoted(tomlPath, h.os)];
        return Exit(FAILURE);
      }

      env := env[THREADS_VAR := h.threads];

      var lib: Path;
      match h.os {
        case Windows => lib := JoinPath(h.exeDir, Path(false, ["libribasim.dll"]));
        case Linux => lib := JoinPath(h.exeDir, Path(false, ["..", "lib", "libribasim.so"]));
        case MacOs => lib := JoinPath(h.exeDir, Path(false, ["..", "lib", "libribasim.dylib"]));
        case OtherOs(_) => return Panic("Your OS is not supported yet.");
      }

      if h.loadError.Some? {
        stderr := stderr + ["Failed to load libribasim from " + Quoted(lib, h.os)];
        stderr := stderr + ["Error: " + h.loadError.value];
        return Exit(FAILURE);
      }
      library := Some(lib);
      if !h.hasExecute {
        return Panic("no symbol execute");
      }
      if !h.utf8 {
        return Panic("path is not UTF-8");
      }
      var text := Display(tomlPath, Separator(h.os));
      if 0 as char in text {
        return Panic("nul byte in path");
      }
      executed := Some(text);
      var exitCode := h.executeResult;

      if usedFilePicker {
        stderr := stderr + [ENTER_PROMPT];
        stdinReads := stdinReads + 1;
      }
      return Exit(LowByte(exitCode));
    }
  }

  /** Started without arguments and with the dialog cancelled, the launcher
      fails silently and touches nothing. */
  lemma CancelledPickerFailsQuietly(h: Host, env: map<string, string>)
    requires h.argCount == 0 && h.tomlArg.None? && h.picked.None?
    ensures Run(h, env) == Trace(Exit(FAILURE), env, [], None, None, 0)
  {
  }

  /** Arguments without a model path give the message and failure. */
  lemma MissingPathFails(h: Host, env: map<string, string>)
    requires h.argCount > 0 && h.tomlArg.None?
    ensures Run(h, env) == Trace(Exit(FAILURE), env, [MISSING_PATH], None, None, 0)
  {
  }

  /** A model path that is not a file is reported before the environment is
      changed or any library is loaded. */
  lemma FileNotFoundFails(h: Host, env: map<string, string>)
    requires ResolvePath(h).Given? && ResolvePath(h).path !in h.files
    ensures var t := Run(h, env);
      t.outcome == Exit(FAILURE) && t.env == env && t.library.None? && t.executed.None? &&
      |t.stderr| == 1 && StartsWith(t.stderr[0], "File not found ")
  {
  }

  /** Once the file check passes, `JULIA_NUM_THREADS` is the `--threads` value,
      whatever it was before, and no other variable changes. */
  lemma ThreadsAlwaysSet(h: Host, env: map<string, string>)
    requires ResolvePath(h).Given? && ResolvePath(h).path in h.files
    ensures var t := Run(h, env);
      THREADS_VAR in t.env && t.env[THREADS_VAR] == h.threads &&
      t.env.Keys == env.Keys + {THREADS_VAR} &&
      forall k :: k in env && k != THREADS_VAR ==> t.env[k] == env[k]
  {
    assert Run(h, env).env == env[THREADS_VAR := h.threads];
  }

  /** The environment changes only when the model file exists. */
  lemma EnvChangesOnlyAfterFileCheck(h: Host, env: map<string, string>)
    requires Run(h, env).env != env
    ensures ResolvePath(h).Given? && ResolvePath(h).path in h.files
  {
  }

  /** `execute` is called with the model path exactly when every earlier step
      succeeded, and the exit status is then its result modulo 256. */
  lemma ExecutedRunExitsWithLowByte(h: Host, env: map<string, string>)
    requires Run(h, env).executed.Some?
    ensures ResolvePath(h).Given? && ResolvePath(h).path in h.files
    ensures !h.os.OtherOs? && h.loadError.None? && h.hasExecute && h.utf8
    ensures Run(h, env).outcome == Exit(LowByte(h.executeResult))
    ensures Run(h, env).library == SharedLibPath(h.os, h.exeDir)
  {
  }

  /** A failed library load ends the run with failure before `execute`. */
  lemma LoadFailureFails(h: Host, env: map<string, string>)
    requires ResolvePath(h).Given? && ResolvePath(h).path in h.files
    requires !h.os.OtherOs? && h.loadError.Some?
    ensures Run(h, env).outcome == Exit(FAILURE) && Run(h, env).executed.None?
  {
  }

  /** The exit status wraps: 260 exits with 4 and -1 with 255. */
  lemma ExitCodeWraps()
    ensures LowByte(260) == 4 && LowByte(-1) == 255 && LowByte(0) == 0
  {
  }

  /** The prompt is shown and a line read exactly when the
      dialog supplied the model path and `execute` returned. */
  lemma PromptIffPicker(h: Host, env: map<string, string>)
    requires Run(h, env).executed.Some?
    ensures var t := Run(h, env);
      (t.stdinReads == 1 && t.stderr == [ENTER_PROMPT]) <==> ResolvePath(h).viaPicker
    ensures var t := Run(h, env);
      (t.stdinReads == 0 && t.stderr == []) <==> !ResolvePath(h).viaPicker
  {
  }

  /** No prompt and no read happen on any path other than a completed pick. */
  lemma NoPromptWithoutPicker(h: Host, env: map<string, string>)
    requires !(h.argCount == 0 && h.tomlArg.None? && h.picked.Some?)
    ensures Run(h, env).stdinReads == 0 && ENTER_PROMPT !in Run(h, env).stderr
  {
    var r := ResolvePath(h);
    if r.Given? && r.path in h.files && !h.os.OtherOs? && h.loadError.Some? {
      var lib := SharedLibPath(h.os, h.exeDir).value;
      var msgs := ["Failed to load libribasim from " + Quoted(lib, h.os), "Error: " + h.loadError.value];
      assert msgs[0][0] == 'F' && msgs[1][0] == 'E';
    } else if r.Given? && r.path !in h.files {
      assert ("File not found " + Quoted(r.path, h.os))[0] == 'F';
    }
  }
}
