/**
 * The build driver (builder/builder.go): preparing the source tree, the `go run
 * build/ci.go install` and `archive` invocations, picking archive names out of the
 * archive command's output and copying them out.
 *
 * Everything the driver asks of the operating system (cloning, copying, removing,
 * patching the entry point, running commands) is an `Action` handed to a `Host`,
 * which records it and answers success or failure from its `fails` oracle.
 */
module Builder {
  import opened Wrappers
  import opened FilePaths
  import Config
  import ArchiveMatch

  /** An external effect the driver asks for. */
  datatype Action =
    | GitClone(args: seq<string>)                  // `git <args>`, from `CloneRepo`
    | CopyTree(src: Path, destParent: Path)        // `copyLocalTracer(src, destParent)`
    | RemoveAll(target: Path)                      // `os.RemoveAll`
    | PatchImports(file: Path, importPath: string) // `transform.AddImportToFile`
    | GoRun(dir: Path, args: seq<string>)          // `go <args>` in `dir`
    | CopyFile(src: Path, dest: Path)              // `CopyFile`

  /** An error as returned: a failing step, a `fmt.Errorf` wrapping, or the missing archives. */
  datatype Error =
    | StepFailed(step: Action)
    | Wrapped(context: string, cause: Error)
    | NoArchiveFiles

  /** The steps performed when they run in order and the first failure stops the run. */
  function Attempted(steps: seq<Action>, fails: Action -> bool): seq<Action> {
    if steps == [] then []
    else if fails(steps[0]) then [steps[0]]
    else [steps[0]] + Attempted(steps[1..], fails)
  }

  /** The step that stopped the run, if one did. */
  function Failure(steps: seq<Action>, fails: Action -> bool): Option<Action> {
    if steps == [] then None
    else if fails(steps[0]) then Some(steps[0])
    else Failure(steps[1..], fails)
  }

  predicate AllSucceed(steps: seq<Action>, fails: Action -> bool) {
    forall i :: 0 <= i < |steps| ==> !fails(steps[i])
  }

  /** The operating system as the driver sees it. */
  class Host {
    var performed: seq<Action>
    const fails: Action -> bool
    /** Directories for which `os.Stat` does not report "does not exist". */
    const existing: set<Path>
    /** The captured standard output of each command. */
    const stdout: Action -> string

    constructor (fails: Action -> bool, existing: set<Path>, stdout: Action -> string)
      ensures performed == [] && this.fails == fails && this.existing == existing && this.stdout == stdout
    {
      performed := [];
      this.fails, this.existing, this.stdout := fails, existing, stdout;
    }

    method Perform(a: Action) returns (ok: bool)
      modifies this`performed
      ensures performed == old(performed) + [a]
      ensures ok == !fails(a)
    {
      performed := performed + [a];
      ok := !fails(a);
    }
  }

  /**
   * Step `k` of a run whose earlier steps all succeeded: on success the run goes on,
   * on failure it ends here with this step as its failure.
   */
  method PerformStep(host: Host, a: Action, ghost steps: seq<Action>, ghost k: nat, ghost start: seq<Action>)
    returns (ok: bool)
    requires k < |steps| && steps[k] == a
    requires host.performed == start + steps[..k] && AllSucceed(steps[..k], host.fails)
    modifies host`performed
    ensures ok == !host.fails(a)
    ensures ok ==> host.performed == start + steps[..k + 1] && AllSucceed(steps[..k + 1], host.fails)
    ensures !ok ==> host.performed == start + Attempted(steps, host.fails) && Failure(steps, host.fails) == Some(a)
  {
    ok := host.Perform(a);
    if ok {
      Advance(steps, k, host.fails);
    } else {
      AttemptedStopsAt(steps, k, host.fails);
    }
  }

  // Argument lists of the build tool

  /** `build`'s `go` arguments: `install`, then `--arch A` when set, then the package when not empty. */
  function InstallArgs(arch: Option<string>, pkg: string): seq<string> {
    ["run", "build/ci.go", "install"] + (if arch.Some? then ["--arch", arch.value] else []) +
    (if pkg != "" then [pkg] else [])
  }

  /** `Archive`'s `go` arguments: `archive`, `--arch A` when set, `--type T` and the geth command. */
  function ArchiveArgs(arch: Option<string>, typ: string): seq<string> {
    ["run", "build/ci.go", "archive"] + (if arch.Some? then ["--arch", arch.value] else []) +
    ["--type", typ] + ["./cmd/geth"]
  }

  /** A positional reading of the install arguments, showing the list is unambiguous. */
  function ParseInstallArgs(args: seq<string>): Option<(Option<string>, string)> {
    if |args| < 3 || args[..3] != ["run", "build/ci.go", "install"] then None
    else if |args| == 3 then Some((None, ""))
    else if |args| == 4 && args[3] != "" then Some((None, args[3]))
    else if |args| == 5 && args[3] == "--arch" then Some((Some(args[4]), ""))
    else if |args| == 6 && args[3] == "--arch" && args[5] != "" then Some((Some(args[4]), args[5]))
    else None
  }

  /** A positional reading of the archive arguments, showing the list is unambiguous. */
  function ParseArchiveArgs(args: seq<string>): Option<(Option<string>, string)> {
    if |args| < 6 || args[..3] != ["run", "build/ci.go", "archive"] || args[|args| - 1] != "./cmd/geth" then None
    else if |args| == 6 && args[3] == "--type" then Some((None, args[4]))
    else if |args| == 8 && args[3] == "--arch" && args[5] == "--type" then Some((Some(args[4]), args[6]))
    else None
  }

  /** The install arguments lose nothing: the architecture and the package can be read back. */
  lemma InstallArgsRoundTrip(arch: Option<string>, pkg: string)
    ensures ParseInstallArgs(InstallArgs(arch, pkg)) == Some((arch, pkg))
  {
    var r := InstallArgs(arch, pkg);
    assert r[..3] == ["run", "build/ci.go", "install"];
  }

  /** The archive arguments lose nothing: the architecture and the archive type can be read back. */
  lemma ArchiveArgsRoundTrip(arch: Option<string>, typ: string)
    ensures ParseArchiveArgs(ArchiveArgs(arch, typ)) == Some((arch, typ))
  {
    var r := ArchiveArgs(arch, typ);
    assert r[..3] == ["run", "build/ci.go", "archive"];
    assert r[|r| - 3..][0] == r[|r| - 3] && r[|r| - 3..][1] == r[|r| - 2] && r[|r| - 3..][2] == r[|r| - 1];
  }

  /** `git clone --depth 1 -b <branch> <repo> <dir>`. */
  function CloneArgs(repo: string, branch: string, dir: Path): seq<string> {
    ["clone", "--depth", "1", "-b", branch, repo, Render(dir)]
  }

  // Paths of `prepareSource`

  /** "./go-ethereum", where `Build` and `Archive` work. */
  const GethDir: Path := Path(false, [".", "go-ethereum"])

  /** The module path of go-ethereum followed by the directory of the native tracers. */
  const NativePackage: Path := Rel(["github.com", "ethereum", "go-ethereum", "eth", "tracers", "native"])

  /** `dest`: where the plugin directory is copied into. */
  function NativeDir(gethDir: Path): Path {
    Join(gethDir, Rel(["eth", "tracers", "native"]))
  }

  /** `newTracerPath`: the copied plugin directory. */
  function PluginDir(gethDir: Path, tracer: Path): Path {
    Join(NativeDir(gethDir), Base(tracer))
  }

  /** `gethMainPath`: the entry point that receives the import. */
  function MainFile(gethDir: Path): Path {
    Join(gethDir, Rel(["cmd", "geth", "main.go"]))
  }

  /** `importPath`: the Go import path of the copied plugin. */
  function PluginImportPath(tracer: Path): string {
    Render(Join(NativePackage, Base(tracer)))
  }

  /** `CloneRepo`'s steps: a clone unless the directory is there. */
  function CloneSteps(repo: string, branch: string, dir: Path, present: bool): seq<Action> {
    if present then [] else [GitClone(CloneArgs(repo, branch, dir))]
  }

  /** The copy of the plugin and the removal of its module files, in order. */
  function PluginSteps(tracer: Path, gethDir: Path): seq<Action> {
    [ CopyTree(tracer, NativeDir(gethDir)),
      RemoveAll(Join(PluginDir(gethDir, tracer), Rel(["go.mod"]))),
      RemoveAll(Join(PluginDir(gethDir, tracer), Rel(["go.sum"]))) ]
  }

  /** The steps of `prepareSource` after the clone, in order. */
  function InjectSteps(tracer: Path, gethDir: Path): seq<Action> {
    PluginSteps(tracer, gethDir) + [PatchImports(MainFile(gethDir), PluginImportPath(tracer))]
  }

  /** `Archive`'s copies: each match from the source tree to the output directory, in order. */
  function CopySteps(gethDir: Path, output: Path, matches: seq<string>): (r: seq<Action>)
    ensures |r| == |matches|
  {
    if matches == [] then []
    else CopySteps(gethDir, output, matches[..|matches| - 1]) + [CopyStep(gethDir, output, matches[|matches| - 1])]
  }

  lemma {:induction false} CopyStepsAt(gethDir: Path, output: Path, matches: seq<string>, i: nat)
    requires i < |matches|
    ensures CopySteps(gethDir, output, matches)[i] == CopyStep(gethDir, output, matches[i])
    decreases |matches|
  {
    if i < |matches| - 1 {
      CopyStepsAt(gethDir, output, matches[..|matches| - 1], i);
    }
  }

  /** The copy of one archive name, from the source tree to the output directory. */
  function CopyStep(gethDir: Path, output: Path, name: string): Action {
    CopyFile(Join(gethDir, FromString(name)), Join(output, FromString(name)))
  }

  /** The error after the archive command succeeded: no archive names, or the first failed copy. */
  function CopyOutcome(matches: seq<string>, copies: seq<Action>, fails: Action -> bool): Option<Error> {
    if matches == [] then Some(NoArchiveFiles)
    else if Failure(copies, fails).Some? then Some(Wrapped("failed to copy archive", StepFailed(Failure(copies, fails).value)))
    else None
  }

  class Builder {
    const config: Config.Config
    const arch: Option<string>
    /** The working copy `Build` and `Archive` clone into, "./go-ethereum". */
    const gethDir: Path

    constructor (config: Config.Config, arch: Option<string>)
      ensures this.config == config && this.arch == arch && gethDir == GethDir
    {
      this.config, this.arch, gethDir := config, arch, GethDir;
    }

    /** All the steps `prepareSource` may take, in order. */
    function PrepareSteps(host: Host, gethDir: Path): seq<Action>
      requires config.Valid()
    {
      CloneSteps(config.gethRepo, config.gethBranch, gethDir, gethDir in host.existing) +
      InjectSteps(config.AbsolutePath(), gethDir)
    }

    /** `build`'s argument list, appended to piece by piece. */
    method InstallCommand(pkg: string) returns (args: seq<string>)
      ensures args == InstallArgs(arch, pkg)
    {
      args := ["run", "build/ci.go", "install"];
      if arch.Some? {
        args := args + ["--arch", arch.value];
      }
      if pkg != "" {
        args := args + [pkg];
      }
    }

    /** The archive command's argument list, appended to piece by piece. */
    method ArchiveCommand(typ: string) returns (args: seq<string>)
      ensures args == ArchiveArgs(arch, typ)
    {
      args := ["run", "build/ci.go", "archive"];
      if arch.Some? {
        args := args + ["--arch", arch.value];
      }
      args := args + ["--type", typ];
      args := args + ["./cmd/geth"];
    }

    /** `build`: run the install step of the build tool in `gethDir`. */
    method BuildPackage(host: Host, gethDir: Path, pkg: string) returns (err: Option<Error>)
      modifies host`performed
      ensures host.performed == old(host.performed) + [GoRun(gethDir, InstallArgs(arch, pkg))]
      ensures err == if host.fails(GoRun(gethDir, InstallArgs(arch, pkg)))
                     then Some(StepFailed(GoRun(gethDir, InstallArgs(arch, pkg)))) else None
    {
      var args := InstallCommand(pkg);
      var ok := host.Perform(GoRun(gethDir, args));
      err := if ok then None else Some(StepFailed(GoRun(gethDir, args)));
    }

    /** `CloneRepo`: clone unless the directory is already there. */
    method CloneRepo(host: Host, repo: string, branch: string, dir: Path) returns (err: Option<Error>)
      modifies host`performed
      ensures var steps := CloneSteps(repo, branch, dir, dir in host.existing);
              host.performed == old(host.performed) + Attempted(steps, host.fails) &&
              err == (if Failure(steps, host.fails).Some? then Some(StepFailed(Failure(steps, host.fails).value)) else None)
    {
      if dir !in host.existing {
        var clone := GitClone(CloneArgs(repo, branch, dir));
        var ok := host.Perform(clone);
        if !ok {
          return Some(StepFailed(clone));
        }
      }
      return None;
    }

    /**
     * `prepareSource`: clone, resolve the plugin path, copy the plugin, remove its
     * go.mod and go.sum, add its import to the entry point; the first error stops it.
     */
    method PrepareSource(host: Host, gethDir: Path) returns (err: Option<Error>)
      requires config.Valid()
      modifies host`performed
      ensures var steps := PrepareSteps(host, gethDir);
              host.performed == old(host.performed) + Attempted(steps, host.fails) &&
              err == (if Failure(steps, host.fails).Some? then Some(StepFailed(Failure(steps, host.fails).value)) else None)
    {
      ghost var clone := CloneSteps(config.gethRepo, config.gethBranch, gethDir, gethDir in host.existing);
      ghost var before := host.performed;
      err := CloneRepo(host, config.gethRepo, config.gethBranch, gethDir);
      if err.Some? {
        RunStopped(clone, InjectSteps(config.AbsolutePath(), gethDir), host.fails, before, host.performed);
        AttemptedAppend(clone, InjectSteps(config.AbsolutePath(), gethDir), host.fails);
        return;
      }
      ghost var cloned := host.performed;
      var absTracerPath := config.AbsolutePath();
      err := InjectPlugin(host, absTracerPath, gethDir);
      RunContinued(clone, InjectSteps(absTracerPath, gethDir), host.fails, before, cloned, host.performed);
      AttemptedAppend(clone, InjectSteps(absTracerPath, gethDir), host.fails);
    }

    /**
     * The rest of `prepareSource`: copy the plugin into the native tracers, remove its
     * go.mod and go.sum, add its import to the entry point; the first error stops it.
     */
    method InjectPlugin(host: Host, absTracerPath: Path, gethDir: Path) returns (err: Option<Error>)
      modifies host`performed
      ensures var steps := InjectSteps(absTracerPath, gethDir);
              host.performed == old(host.performed) + Attempted(steps, host.fails) &&
              err == (if Failure(steps, host.fails).Some? then Some(StepFailed(Failure(steps, host.fails).value)) else None)
    {
      ghost var plugin := PluginSteps(absTracerPath, gethDir);
      ghost var before := host.performed;
      var gethMainPath := MainFile(gethDir);
      var importPath := PluginImportPath(absTracerPath);
      var patch := PatchImports(gethMainPath, importPath);
      AttemptedAppend(plugin, [patch], host.fails);
      AttemptedCons(patch, [], host.fails);
      assert [patch] + [] == [patch];
      err := CopyPlugin(host, absTracerPath, gethDir);
      if err.Some? {
        RunStopped(plugin, [patch], host.fails, before, host.performed);
        return;
      }
      ghost var copied := host.performed;
      var ok := host.Perform(patch);
      RunContinued(plugin, [patch], host.fails, before, copied, host.performed);
      if !ok {
        return Some(StepFailed(patch));
      }
      return None;
    }

    /** Copy the plugin into the native tracers and remove its go.mod and go.sum. */
    method CopyPlugin(host: Host, absTracerPath: Path, gethDir: Path) returns (err: Option<Error>)
      modifies host`performed
      ensures var steps := PluginSteps(absTracerPath, gethDir);
              host.performed == old(host.performed) + Attempted(steps, host.fails) &&
              err == (if Failure(steps, host.fails).Some? then Some(StepFailed(Failure(steps, host.fails).value)) else None)
    {
      ghost var steps := PluginSteps(absTracerPath, gethDir);
      ghost var start := host.performed;
      assert steps[..0] == [];
      var dest := NativeDir(gethDir);
      var ok := PerformStep(host, CopyTree(absTracerPath, dest), steps, 0, start);
      if !ok {
        return Some(StepFailed(CopyTree(absTracerPath, dest)));
      }
      var newTracerPath := PluginDir(gethDir, absTracerPath);
      ok := PerformStep(host, RemoveAll(Join(newTracerPath, Rel(["go.mod"]))), steps, 1, start);
      if !ok {
        return Some(StepFailed(RemoveAll(Join(newTracerPath, Rel(["go.mod"])))));
      }
      ok := PerformStep(host, RemoveAll(Join(newTracerPath, Rel(["go.sum"]))), steps, 2, start);
      if !ok {
        return Some(StepFailed(RemoveAll(Join(newTracerPath, Rel(["go.sum"])))));
      }
      assert steps[..3] == steps;
      AttemptedAll(steps, host.fails);
      return None;
    }

    /** `Build`: prepare the source, then install `./cmd/geth`; the directory is "" when preparing failed. */
    method Build(host: Host) returns (dir: Path, err: Option<Error>)
      requires config.Valid()
      modifies host`performed
      ensures var steps := PrepareSteps(host, gethDir) + [GoRun(gethDir, InstallArgs(arch, "./cmd/geth"))];
              host.performed == old(host.performed) + Attempted(steps, host.fails) &&
              err == (if Failure(steps, host.fails).Some? then Some(StepFailed(Failure(steps, host.fails).value)) else None) &&
              dir == (if Failure(PrepareSteps(host, gethDir), host.fails).Some? then Empty else gethDir)
    {
      ghost var install := GoRun(gethDir, InstallArgs(arch, "./cmd/geth"));
      ghost var before := host.performed;
      AttemptedAppend(PrepareSteps(host, gethDir), [install], host.fails);
      err := PrepareSource(host, gethDir);
      if err.Some? {
        RunStopped(PrepareSteps(host, gethDir), [install], host.fails, before, host.performed);
        return Empty, err;
      }
      ghost var prepared := host.performed;
      AttemptedCons(install, [], host.fails);
      err := BuildPackage(host, gethDir, "./cmd/geth");
      RunContinued(PrepareSteps(host, gethDir), [install], host.fails, before, prepared, host.performed);
      dir := gethDir;
    }

    /** The archive names in the command's output, copied out; none is an error. */
    method CollectArchives(host: Host, gethDir: Path, output: Path, out: string) returns (err: Option<Error>)
      modifies host`performed
      ensures var matches := ArchiveMatch.FindAll(out);
              var copies := CopySteps(gethDir, output, matches);
              host.performed == old(host.performed) + Attempted(copies, host.fails) &&
              err == CopyOutcome(matches, copies, host.fails)
    {
      var matches := ArchiveMatch.FindAll(out);
      if |matches| == 0 {
        return Some(NoArchiveFiles);
      }
      err := CopyArchives(host, gethDir, output, matches);
    }

    /** The copy loop of `Archive`: in order, stopping at the first failure. */
    method CopyArchives(host: Host, gethDir: Path, output: Path, matches: seq<string>) returns (err: Option<Error>)
      modifies host`performed
      ensures var steps := CopySteps(gethDir, output, matches);
              host.performed == old(host.performed) + Attempted(steps, host.fails) &&
              err == (if Failure(steps, host.fails).Some?
                      then Some(Wrapped("failed to copy archive", StepFailed(Failure(steps, host.fails).value)))
                      else None)
    {
      ghost var steps := CopySteps(gethDir, output, matches);
      var i := 0;
      while i < |matches|
        invariant 0 <= i <= |matches|
        invariant host.performed == old(host.performed) + steps[..i]
        invariant AllSucceed(steps[..i], host.fails)
      {
        var name := matches[i];
        var step := CopyStep(gethDir, output, name);
        CopyStepsAt(gethDir, output, matches, i);
        var ok := host.Perform(step);
        if !ok {
          AttemptedStopsAt(steps, i, host.fails);
          return Some(Wrapped("failed to copy archive", StepFailed(step)));
        }
        assert steps[..i + 1] == steps[..i] + [step];
        i := i + 1;
      }
      assert steps[..i] == steps;
      AttemptedAll(steps, host.fails);
      return None;
    }

    /**
     * `Archive`: prepare the source, install everything (no package), run the archive
     * command, find the archive names in its output and copy them to the output directory.
     */
    method Archive(host: Host, typ: string) returns (err: Option<Error>)
      requires config.Valid()
      modifies host`performed
      ensures var prepare := PrepareSteps(host, gethDir);
              var install := GoRun(gethDir, InstallArgs(arch, ""));
              var archive := GoRun(gethDir, ArchiveArgs(arch, typ));
              var matches := ArchiveMatch.FindAll(host.stdout(archive));
              var copies := CopySteps(gethDir, config.AbsoluteOutputDir(), matches);
              host.performed == old(host.performed) + Attempted(prepare + ([install] + ([archive] + copies)), host.fails) &&
              err == if Failure(prepare, host.fails).Some? then
                       Some(Wrapped("failed to fetch and transform source", StepFailed(Failure(prepare, host.fails).value)))
                     else if host.fails(install) then Some(Wrapped("failed to build binaries", StepFailed(install)))
                     else if host.fails(archive) then Some(Wrapped("geth archive cmd failed", StepFailed(archive)))
                     else CopyOutcome(matches, copies, host.fails)
    {
      ghost var rest := [GoRun(gethDir, InstallArgs(arch, ""))] + ([GoRun(gethDir, ArchiveArgs(arch, typ))] +
        CopySteps(gethDir, config.AbsoluteOutputDir(), ArchiveMatch.FindAll(host.stdout(GoRun(gethDir, ArchiveArgs(arch, typ))))));
      ghost var before := host.performed;
      var e := PrepareSource(host, gethDir);
      if e.Some? {
        RunStopped(PrepareSteps(host, gethDir), rest, host.fails, before, host.performed);
        return Some(Wrapped("failed to fetch and transform source", e.value));
      }
      ghost var prepared := host.performed;
      err := BuildAndExport(host, gethDir, typ);
      RunContinued(PrepareSteps(host, gethDir), rest, host.fails, before, prepared, host.performed);
    }

    /** `Archive` after the source is prepared: install everything, then export the archives. */
    method BuildAndExport(host: Host, gethDir: Path, typ: string) returns (err: Option<Error>)
      requires config.Valid()
      modifies host`performed
      ensures var install := GoRun(gethDir, InstallArgs(arch, ""));
              var archive := GoRun(gethDir, ArchiveArgs(arch, typ));
              var matches := ArchiveMatch.FindAll(host.stdout(archive));
              var copies := CopySteps(gethDir, config.AbsoluteOutputDir(), matches);
              host.performed == old(host.performed) + Attempted([install] + ([archive] + copies), host.fails) &&
              err == if host.fails(install) then Some(Wrapped("failed to build binaries", StepFailed(install)))
                     else if host.fails(archive) then Some(Wrapped("geth archive cmd failed", StepFailed(archive)))
                     else CopyOutcome(matches, copies, host.fails)
    {
      ghost var install := GoRun(gethDir, InstallArgs(arch, ""));
      ghost var archive := GoRun(gethDir, ArchiveArgs(arch, typ));
      ghost var copies := CopySteps(gethDir, config.AbsoluteOutputDir(), ArchiveMatch.FindAll(host.stdout(archive)));
      ghost var before := host.performed;
      var e := BuildPackage(host, gethDir, "");
      if e.Some? {
        StepStopped(install, [archive] + copies, host.fails, before, host.performed);
        return Some(Wrapped("failed to build binaries", e.value));
      }
      ghost var built := host.performed;
      err := ExportArchives(host, gethDir, typ);
      StepContinued(install, [archive] + copies, host.fails, before, built, host.performed);
    }

    /**
     * The second half of `Archive`: run the archive command, pick the archive names
     * out of its output and copy each to the output directory.
     */
    method ExportArchives(host: Host, gethDir: Path, typ: string) returns (err: Option<Error>)
      requires config.Valid()
      modifies host`performed
      ensures var archive := GoRun(gethDir, ArchiveArgs(arch, typ));
              var matches := ArchiveMatch.FindAll(host.stdout(archive));
              var copies := CopySteps(gethDir, config.AbsoluteOutputDir(), matches);
              host.performed == old(host.performed) + Attempted([archive] + copies, host.fails) &&
              err == if host.fails(archive) then Some(Wrapped("geth archive cmd failed", StepFailed(archive)))
                     else CopyOutcome(matches, copies, host.fails)
    {
      var args := ArchiveCommand(typ);
      var archive := GoRun(gethDir, args);
      ghost var copies := CopySteps(gethDir, config.AbsoluteOutputDir(), ArchiveMatch.FindAll(host.stdout(archive)));
      ghost var before := host.performed;
      var ok := host.Perform(archive);
      if !ok {
        StepStopped(archive, copies, host.fails, before, host.performed);
        return Some(Wrapped("geth archive cmd failed", StepFailed(archive)));
      }
      ghost var ran := host.performed;
      var output := config.AbsoluteOutputDir();
      err := CollectArchives(host, gethDir, output, host.stdout(archive));
      StepContinued(archive, copies, host.fails, before, ran, host.performed);
    }
  }

  // Properties of the step sequencing

  /**
   * The first failure aborts: what runs is a prefix of the steps; with no failure it
   * is all of them, otherwise it ends with the failing step and every earlier one succeeded.
   */
  lemma {:induction false} AttemptedFirstFailure(steps: seq<Action>, fails: Action -> bool)
    ensures var r := Attempted(steps, fails);
            r <= steps &&
            (Failure(steps, fails).None? <==> AllSucceed(steps, fails)) &&
            (Failure(steps, fails).None? ==> r == steps) &&
            (Failure(steps, fails).Some? ==>
               r != [] && r[|r| - 1] == Failure(steps, fails).value && fails(r[|r| - 1]) &&
               AllSucceed(r[..|r| - 1], fails))
  {
    if steps != [] {
      AttemptedFirstFailure(steps[1..], fails);
      var r := Attempted(steps, fails);
      if !fails(steps[0]) {
        var rest := Attempted(steps[1..], fails);
        assert r == [steps[0]] + rest;
        assert steps == [steps[0]] + steps[1..];
        if Failure(steps, fails).Some? {
          assert r[..|r| - 1] == [steps[0]] + rest[..|rest| - 1];
        }
        if AllSucceed(steps[1..], fails) {
          assert forall i :: 1 <= i < |steps| ==> steps[i] == steps[1..][i - 1];
        }
        if AllSucceed(steps, fails) {
          assert forall i :: 0 <= i < |steps[1..]| ==> steps[1..][i] == steps[i + 1];
        }
      }
    }
  }

  /** A first step that fails stops the run; one that succeeds lets the rest run. */
  lemma AttemptedCons(a: Action, rest: seq<Action>, fails: Action -> bool)
    ensures Attempted([a] + rest, fails) == if fails(a) then [a] else [a] + Attempted(rest, fails)
    ensures Failure([a] + rest, fails) == if fails(a) then Some(a) else Failure(rest, fails)
  {
    assert ([a] + rest)[1..] == rest;
  }

  /** Running one list after another is running their concatenation. */
  lemma {:induction false} AttemptedAppend(a: seq<Action>, b: seq<Action>, fails: Action -> bool)
    ensures Attempted(a + b, fails) == if Failure(a, fails).Some? then Attempted(a, fails) else a + Attempted(b, fails)
    ensures Failure(a + b, fails) == if Failure(a, fails).Some? then Failure(a, fails) else Failure(b, fails)
    decreases |a|
  {
    if a == [] {
      assert a + b == b;
    } else {
      assert (a + b)[0] == a[0];
      assert (a + b)[1..] == a[1..] + b;
      AttemptedAppend(a[1..], b, fails);
    }
  }

  /** A first step that fails ends the run. */
  lemma StepStopped(a: Action, rest: seq<Action>, fails: Action -> bool, before: seq<Action>, after: seq<Action>)
    requires fails(a) && after == before + [a]
    ensures after == before + Attempted([a] + rest, fails)
  {
    AttemptedCons(a, rest, fails);
  }

  /** A first step that succeeds lets the rest of the run follow it. */
  lemma StepContinued(a: Action, rest: seq<Action>, fails: Action -> bool,
                      before: seq<Action>, mid: seq<Action>, after: seq<Action>)
    requires !fails(a) && mid == before + [a] && after == mid + Attempted(rest, fails)
    ensures after == before + Attempted([a] + rest, fails)
  {
    AttemptedCons(a, rest, fails);
    ConcatAssoc(before, [a], Attempted(rest, fails));
  }

  /** A run that stopped in its first part does not reach the second. */
  lemma RunStopped(a: seq<Action>, b: seq<Action>, fails: Action -> bool, before: seq<Action>, after: seq<Action>)
    requires Failure(a, fails).Some? && after == before + Attempted(a, fails)
    ensures after == before + Attempted(a + b, fails)
  {
    AttemptedAppend(a, b, fails);
  }

  /** A run whose first part completed goes on with the second. */
  lemma RunContinued(a: seq<Action>, b: seq<Action>, fails: Action -> bool,
                     before: seq<Action>, mid: seq<Action>, after: seq<Action>)
    requires Failure(a, fails).None? && mid == before + Attempted(a, fails) && after == mid + Attempted(b, fails)
    ensures after == before + Attempted(a + b, fails)
  {
    AttemptedAppend(a, b, fails);
    AttemptedNone(a, fails);
    ConcatAssoc(before, a, Attempted(b, fails));
  }

  lemma ConcatAssoc(x: seq<Action>, y: seq<Action>, z: seq<Action>)
    ensures (x + y) + z == x + (y + z)
  {
  }

  /** When the run did not stop, every step ran. */
  lemma {:induction false} AttemptedNone(steps: seq<Action>, fails: Action -> bool)
    requires Failure(steps, fails).None?
    ensures Attempted(steps, fails) == steps
    decreases |steps|
  {
    if steps != [] {
      AttemptedNone(steps[1..], fails);
    }
  }

  /** When no step fails, all of them run. */
  lemma {:induction false} AttemptedAll(steps: seq<Action>, fails: Action -> bool)
    requires AllSucceed(steps, fails)
    ensures Attempted(steps, fails) == steps
    ensures Failure(steps, fails) == None
    decreases |steps|
  {
    if steps != [] {
      assert !fails(steps[0]);
      assert forall k :: 0 <= k < |steps[1..]| ==> steps[1..][k] == steps[k + 1];
      AttemptedAll(steps[1..], fails);
    }
  }

  /** One more step that succeeds extends the run. */
  lemma Advance(steps: seq<Action>, k: nat, fails: Action -> bool)
    requires k < |steps| && AllSucceed(steps[..k], fails) && !fails(steps[k])
    ensures AllSucceed(steps[..k + 1], fails)
    ensures steps[..k + 1] == steps[..k] + [steps[k]]
  {
    assert forall i :: 0 <= i < k ==> steps[..k + 1][i] == steps[..k][i];
  }

  /** When step `i` is the first to fail, exactly the steps up to it run. */
  lemma {:induction false} AttemptedStopsAt(steps: seq<Action>, i: nat, fails: Action -> bool)
    requires i < |steps| && fails(steps[i]) && AllSucceed(steps[..i], fails)
    ensures Attempted(steps, fails) == steps[..i + 1]
    ensures Failure(steps, fails) == Some(steps[i])
    decreases i
  {
    if i > 0 {
      assert !fails(steps[..i][0]);
      assert steps[1..][..i - 1] == steps[1..i];
      assert forall k :: 0 <= k < i - 1 ==> steps[1..i][k] == steps[..i][k + 1];
      AttemptedStopsAt(steps[1..], i - 1, fails);
      assert steps[..i + 1] == [steps[0]] + steps[1..][..i];
    }
  }

  // Properties of the paths

  /** Joining names with '/' and then one more name puts a '/' before it. */
  lemma {:induction false} IntercalateAppend(s: seq<string>, n: string)
    requires s != []
    ensures Intercalate(s + [n]) == Intercalate(s) + "/" + n
    decreases |s|
  {
    assert (s + [n])[0] == s[0];
    if |s| > 1 {
      assert (s + [n])[1..] == s[1..] + [n];
      IntercalateAppend(s[1..], n);
    } else {
      assert (s + [n])[1..] == [n];
    }
  }

  /**
   * For a working copy "./d" below the current directory and a plugin directory whose
   * last element is a plain name `n`, the plugin lands in d/eth/tracers/native/n.
   */
  lemma PluginDirPath(dir: seq<string>, tracer: Path, n: string)
    requires dir != [] && forall i :: 0 <= i < |dir| ==> IsName(dir[i])
    requires Base(tracer) == Path(false, [n]) && IsName(n)
    ensures PluginDir(Path(false, ["."] + dir), tracer) == Rel(dir + ["eth", "tracers", "native", n])
  {
    var native := dir + ["eth", "tracers", "native"];
    assert ["."] + dir + ["eth", "tracers", "native"] == ["."] + native;
    CleanOfNames(native);
    assert NativeDir(Path(false, ["."] + dir)) == Rel(native);
    assert native + [n] == dir + ["eth", "tracers", "native", n];
    CleanOfNames(native + [n]);
  }

  /** For the same working copy, the import goes into d/cmd/geth/main.go. */
  lemma MainFilePath(dir: seq<string>)
    requires dir != [] && forall i :: 0 <= i < |dir| ==> IsName(dir[i])
    ensures MainFile(Path(false, ["."] + dir)) == Rel(dir + ["cmd", "geth", "main.go"])
  {
    var main := dir + ["cmd", "geth", "main.go"];
    assert ["."] + dir + ["cmd", "geth", "main.go"] == ["."] + main;
    CleanOfNames(main);
  }

  /** The import path is the native tracers' package followed by /n. */
  lemma PluginImportPathOf(tracer: Path, n: string)
    requires Base(tracer) == Path(false, [n]) && IsName(n)
    ensures PluginImportPath(tracer) == Render(Rel(NativePackage.segments + [n]))
    ensures PluginImportPath(tracer) == Render(NativePackage) + "/" + n
  {
    var pkg := NativePackage.segments;
    assert forall i :: 0 <= i < |pkg| ==> IsName(pkg[i]);
    JoinNames(pkg, n);
  }

  /** Joining a name onto a relative path of names appends it after a '/'. */
  lemma JoinNames(names: seq<string>, n: string)
    requires names != [] && forall i :: 0 <= i < |names| ==> IsName(names[i])
    requires IsName(n)
    ensures Join(Rel(names), Path(false, [n])) == Rel(names + [n])
    ensures Render(Rel(names + [n])) == Render(Rel(names)) + "/" + n
  {
    CleanOfNames(names + [n]);
    IntercalateAppend(names, n);
  }

  /** The paths for the working copy "./go-ethereum" itself. */
  lemma GethPluginPaths(tracer: Path, n: string)
    requires Base(tracer) == Path(false, [n]) && IsName(n)
    ensures PluginDir(GethDir, tracer) == Rel(["go-ethereum", "eth", "tracers", "native", n])
    ensures MainFile(GethDir) == Rel(["go-ethereum", "cmd", "geth", "main.go"])
  {
    assert GethDir == Path(false, ["."] + ["go-ethereum"]);
    PluginDirPath(["go-ethereum"], tracer, n);
    MainFilePath(["go-ethereum"]);
  }

  /** The base of a resolved plugin directory below the root is its last element. */
  lemma BaseOfResolved(p: Path)
    requires p.absolute && IsClean(p) && p.segments != []
    ensures Base(p) == Path(false, [p.segments[|p.segments| - 1]])
    ensures IsName(p.segments[|p.segments| - 1])
  {
  }

  /**
   * For a loaded configuration whose plugin directory resolves to a clean path below the
   * root, with last element `n`, the steps after the clone copy the plugin into
   * go-ethereum/eth/tracers/native, remove go.mod and go.sum from
   * go-ethereum/eth/tracers/native/n, and add the import of the native tracers' package
   * followed by /n to go-ethereum/cmd/geth/main.go.
   */
  lemma LoadedInjectSteps(c: Config.Config)
    requires c.Valid()
    requires !c.path.absolute || IsClean(c.path)
    requires c.AbsolutePath().segments != []
    ensures var tracer := c.AbsolutePath();
            var n := tracer.segments[|tracer.segments| - 1];
            var dest := ["go-ethereum", "eth", "tracers", "native", n];
            InjectSteps(tracer, GethDir) ==
              [ CopyTree(tracer, Rel(["go-ethereum", "eth", "tracers", "native"])),
                RemoveAll(Rel(dest + ["go.mod"])),
                RemoveAll(Rel(dest + ["go.sum"])),
                PatchImports(Rel(["go-ethereum", "cmd", "geth", "main.go"]), Render(NativePackage) + "/" + n) ]
  {
    var tracer := c.AbsolutePath();
    var n := tracer.segments[|tracer.segments| - 1];
    var dest := ["go-ethereum", "eth", "tracers", "native", n];
    Config.ResolveRelative(c.configDir, c.path);
    assert tracer.absolute && IsClean(tracer);
    BaseOfResolved(tracer);
    GethPluginPaths(tracer, n);
    PluginImportPathOf(tracer, n);
    var native := ["go-ethereum", "eth", "tracers", "native"];
    CleanOfNames(native);
    assert GethDir.segments + ["eth", "tracers", "native"] == ["."] + native;
    assert NativeDir(GethDir) == Rel(native);
    assert PluginDir(GethDir, tracer) == Rel(dest);
    JoinNames(dest, "go.mod");
    JoinNames(dest, "go.sum");
  }
}
