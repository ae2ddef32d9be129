/** The `ribasim` wrapper executable shipped next to a `bin` directory. It
    puts `bin` in front of the library search path of its platform, runs
    `bin/ribasim.exe` with its own arguments, and exits with the child's exit
    code. Spawning the child is an input of the model. */
module CliWrapper {
  import opened Common
  import opened Bytes
  import opened Paths

  /** What the wrapper finds around it when it starts. */
  datatype Host = Host(
    os: Os,
    exeDir: Path,                  // the directory of the running executable
    argv: seq<string>,             // the full argument vector, program name first
    spawnOk: bool,                 // the child process could be started
    childCode: Option<int32>)      // the child's exit code; None when a signal ended it

  datatype Outcome = Exit(code: int32) | Panic(reason: string)

  /** Everything one run of the wrapper does that can be observed afterwards. */
  datatype Trace = Trace(
    outcome: Outcome,
    env: map<string, string>,            // the environment the child sees
    spawned: Option<(Path, seq<string>)>) // the program started and its arguments

  function BinPath(h: Host): (bin: Path)
    ensures Parent(bin) == h.exeDir && Name(bin) == "bin"
  {
    ParentChild(h.exeDir, "bin");
    Child(h.exeDir, "bin")
  }

  /** The variable the wrapper prepends to: `PATH` on Windows,
      `LD_LIBRARY_PATH` everywhere else. */
  function SearchVar(os: Os): string {
    if os == Windows then "PATH" else "LD_LIBRARY_PATH"
  }

  /** `env::var(name).unwrap_or_default()`. */
  function VarOrEmpty(env: map<string, string>, name: string): string {
    if name in env then env[name] else ""
  }

  /** One run of the wrapper from the environment `env`. */
  function Run(h: Host, env: map<string, string>): Trace {
    var bin := BinPath(h);
    var sep := if h.os == Windows then ";" else ":";
    var name := SearchVar(h.os);
    var env1 := env[name := Display(bin, Separator(h.os)) + sep + VarOrEmpty(env, name)];
    var args := if |h.argv| == 0 then [] else h.argv[1..];
    if !h.spawnOk then Trace(Panic("Failed to execute ribasim"), env1, None)
    else
      Trace(Exit(if h.childCode.Some? then h.childCode.value else 1), env1,
            Some((Child(bin, "ribasim.exe"), args)))
  }

  /** The wrapper process: its environment and the child it started. */
  class Process {
    var env: map<string, string>
    var spawned: Option<(Path, seq<string>)>

    constructor (env0: map<string, string>)
      ensures env == env0 && spawned.None?
    {
      env := env0;
      spawned := None;
    }

    /** `main`, step by step, on a fresh process. */
    method Launch(h: Host) returns (outcome: Outcome)
      requires spawned.None?
      modifies this
      ensures Trace(outcome, env, spawned) == Run(h, old(env))
    {
      var binPath := Child(h.exeDir, "bin");
      match h.os {
        case Windows =>
          env := env["PATH" := Display(binPath, Separator(h.os)) + ";" + VarOrEmpty(env, "PATH")];
        case _ =>
          env := env["LD_LIBRARY_PATH" :=
            Display(binPath, Separator(h.os)) + ":" + VarOrEmpty(env, "LD_LIBRARY_PATH")];
      }

      var args := if |h.argv| == 0 then [] else h.argv[1..];

      if !h.spawnOk {
        return Panic("Failed to execute ribasim");
      }
      spawned := Some((Child(binPath, "ribasim.exe"), args));
      var code := if h.childCode.Some? then h.childCode.value else 1;
      return Exit(code);
    }
  }

  /** On Windows `PATH` becomes `bin;` followed by its old value (the empty
      text when it was unset), and nothing else changes. */
  lemma WindowsPrependsPath(h: Host, env: map<string, string>)
    requires h.os == Windows
    ensures var t := Run(h, env);
      t.env == env["PATH" := Display(BinPath(h), '\\') + ";" + VarOrEmpty(env, "PATH")]
    ensures "PATH" !in env ==> Run(h, env).env["PATH"] == Display(BinPath(h), '\\') + ";"
  {
  }

  /** Elsewhere `LD_LIBRARY_PATH` becomes `bin:` followed by its old value and
      `PATH` is left alone. */
  lemma OthersPrependLibraryPath(h: Host, env: map<string, string>)
    requires h.os != Windows
    ensures var t := Run(h, env);
      t.env == env["LD_LIBRARY_PATH" := Display(BinPath(h), '/') + ":" + VarOrEmpty(env, "LD_LIBRARY_PATH")]
    ensures var t := Run(h, env);
      ("PATH" in t.env <==> "PATH" in env) && ("PATH" in env ==> t.env["PATH"] == env["PATH"])
  {
  }

  /** The child is `bin/ribasim.exe` on every platform and receives the
      wrapper's arguments without the program name, in order. */
  lemma ChildAndArguments(h: Host, env: map<string, string>)
    requires h.spawnOk && |h.argv| >= 1
    ensures var t := Run(h, env);
      t.spawned.Some? && Parent(t.spawned.value.0) == BinPath(h) &&
      Name(t.spawned.value.0) == "ribasim.exe" &&
      |t.spawned.value.1| == |h.argv| - 1 &&
      forall k :: 0 <= k < |h.argv| - 1 ==> t.spawned.value.1[k] == h.argv[k + 1]
  {
    ParentChild(BinPath(h), "ribasim.exe");
  }

  /** The exit code is the child's, or 1 when it has none; a failed spawn
      panics. */
  lemma ExitCodePassThrough(h: Host, env: map<string, string>)
    ensures !h.spawnOk <==> Run(h, env).outcome.Panic?
    ensures h.spawnOk && h.childCode.Some? ==> Run(h, env).outcome == Exit(h.childCode.value)
    ensures h.spawnOk && h.childCode.None? ==> Run(h, env).outcome == Exit(1)
  {
  }
}
