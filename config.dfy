/**
 * The build configuration (config/config.go): the fields read from the YAML file,
 * the directory of that file, the verbose flag, and the resolution of the plugin
 * path and the output directory against the configuration file's directory.
 */
module Config {
  import opened Wrappers
  import opened FilePaths

  /** The fields the YAML decoder fills in. */
  datatype Fields = Fields(gethRepo: string, gethBranch: string, path: Path, buildFlags: string, outputDir: Path)

  /**
   * `AbsolutePath` and `AbsoluteOutputDir`: an absolute path is returned as it is;
   * a relative one is joined onto the configuration directory and made absolute.
   * Because the join is already absolute, `filepath.Abs` only cleans it and never
   * consults the working directory.
   */
  function Resolve(configDir: Path, p: Path): (r: Path)
    requires configDir.absolute && IsClean(configDir)
    ensures r.absolute
    ensures p.absolute ==> r == p
  {
    if p.absolute then p else Abs(Join(configDir, p), None).value
  }

  /** A relative path resolves to the cleaning of the directory followed by its pieces. */
  lemma ResolveRelative(configDir: Path, p: Path)
    requires configDir.absolute && IsClean(configDir)
    ensures !p.absolute ==> IsClean(Resolve(configDir, p))
    ensures !p.absolute ==> Resolve(configDir, p) == Clean(Path(true, configDir.segments + p.segments))
  {
    if !p.absolute {
      JoinIsClean(configDir, p);
      CleanOfClean(Join(configDir, p));
    }
  }

  class Config {
    const gethRepo: string
    const gethBranch: string
    const path: Path
    const buildFlags: string
    const outputDir: Path
    const configDir: Path
    var verbose: bool

    /** `LoadConfig` sets the directory from `filepath.Abs` and `filepath.Dir`. */
    ghost predicate Valid() {
      configDir.absolute && IsClean(configDir)
    }

    constructor (f: Fields, configDir: Path)
      ensures gethRepo == f.gethRepo && gethBranch == f.gethBranch && path == f.path
      ensures buildFlags == f.buildFlags && outputDir == f.outputDir
      ensures this.configDir == configDir && !verbose
    {
      gethRepo, gethBranch, path, buildFlags, outputDir := f.gethRepo, f.gethBranch, f.path, f.buildFlags, f.outputDir;
      this.configDir := configDir;
      verbose := false;
    }

    /** `SetVerbose`: only the flag changes. */
    method SetVerbose()
      modifies this`verbose
      ensures Verbose()
    {
      verbose := true;
    }

    function Verbose(): bool
      reads this
    {
      verbose
    }

    /** The plugin directory, resolved against the configuration directory. */
    function AbsolutePath(): (r: Path)
      requires Valid()
      ensures r.absolute && (path.absolute ==> r == path)
      ensures !path.absolute ==> r == Clean(Path(true, configDir.segments + path.segments))
    {
      ResolveRelative(configDir, path);
      Resolve(configDir, path)
    }

    /** The output directory, resolved by the same rule. */
    function AbsoluteOutputDir(): (r: Path)
      requires Valid()
      ensures r.absolute && (outputDir.absolute ==> r == outputDir)
      ensures !outputDir.absolute ==> r == Clean(Path(true, configDir.segments + outputDir.segments))
    {
      ResolveRelative(configDir, outputDir);
      Resolve(configDir, outputDir)
    }
  }

  datatype LoadError = ReadFailed | DecodeFailed | AbsFailed

  /**
   * `LoadConfig`: reading the file and decoding YAML are left to the caller, whose
   * outcomes arrive as `readable` and `decoded`; `cwd` is the working directory,
   * `None` when the process cannot obtain it.
   */
  method LoadConfig(configFile: Path, readable: bool, decoded: Option<Fields>, cwd: Option<Path>)
    returns (c: Config?, err: Option<LoadError>)
    requires cwd.Some? ==> cwd.value.absolute
    ensures !readable ==> c == null && err == Some(ReadFailed)
    ensures readable && decoded.None? ==> c == null && err == Some(DecodeFailed)
    ensures readable && decoded.Some? && Abs(configFile, cwd).None? ==> c == null && err == Some(AbsFailed)
    ensures readable && decoded.Some? && Abs(configFile, cwd).Some? ==>
              err == None && c != null && fresh(c) && c.Valid() && !c.verbose &&
              c.configDir == Dir(Abs(configFile, cwd).value) &&
              c.gethRepo == decoded.value.gethRepo && c.gethBranch == decoded.value.gethBranch &&
              c.path == decoded.value.path && c.buildFlags == decoded.value.buildFlags &&
              c.outputDir == decoded.value.outputDir
  {
    if !readable {
      return null, Some(ReadFailed);
    }
    if decoded.None? {
      return null, Some(DecodeFailed);
    }
    var absFile := Abs(configFile, cwd);
    if absFile.None? {
      return null, Some(AbsFailed);
    }
    DirIsClean(absFile.value);
    c := new Config(decoded.value, Dir(absFile.value));
    err := None;
  }

  // Properties of the resolution

  /** Resolving a resolved path again gives it back. */
  lemma ResolveIdempotent(configDir: Path, p: Path)
    requires configDir.absolute && IsClean(configDir)
    ensures Resolve(configDir, Resolve(configDir, p)) == Resolve(configDir, p)
  {
  }

  /** A relative path whose pieces are all names lands directly below the directory. */
  lemma {:induction false} ResolveNames(configDir: Path, prefix: seq<string>, names: seq<string>)
    requires configDir.absolute && IsClean(configDir)
    requires forall i :: 0 <= i < |prefix| ==> prefix[i] == "" || prefix[i] == "."
    requires forall i :: 0 <= i < |names| ==> IsName(names[i])
    ensures Resolve(configDir, Path(false, prefix + names)) == Path(true, configDir.segments + names)
  {
    ResolveRelative(configDir, Path(false, prefix + names));
    CleanUnder(configDir, prefix + names);
    DropDots(configDir.segments, prefix, names);
    CleanSegmentsOfNormal(true, configDir.segments, names);
  }

  lemma {:induction false} DropDots(out: seq<string>, prefix: seq<string>, rest: seq<string>)
    requires forall i :: 0 <= i < |prefix| ==> prefix[i] == "" || prefix[i] == "."
    ensures CleanSegments(true, out, prefix + rest) == CleanSegments(true, out, rest)
    decreases |prefix|
  {
    if prefix == [] {
      assert prefix + rest == rest;
    } else {
      assert (prefix + rest)[0] == prefix[0];
      assert (prefix + rest)[1..] == prefix[1..] + rest;
      assert prefix[0] == "" || prefix[0] == ".";
      DropDots(out, prefix[1..], rest);
    }
  }

  /** The configuration file's directory, as `LoadConfig` records it for "<dir>/config.yaml". */
  lemma DirOfConfigFile(configDir: Path)
    requires configDir.absolute && IsClean(configDir)
    ensures Dir(Path(true, configDir.segments + ["config.yaml"])) == configDir
  {
    assert (configDir.segments + ["config.yaml"])[..|configDir.segments|] == configDir.segments;
    CleanOfClean(configDir);
  }

  /**
   * The tabular test: "./" resolves to the configuration directory, "./supply" and
   * "./build" to the directories of those names inside it, and absolute paths stay.
   */
  lemma ResolveTestCases(configDir: Path, absoluteDir: Path)
    requires configDir.absolute && IsClean(configDir)
    requires absoluteDir.absolute && IsClean(absoluteDir)
    ensures Resolve(configDir, Path(false, [".", ""])) == configDir
    ensures Resolve(configDir, Path(false, [".", "supply"])) == Path(true, configDir.segments + ["supply"])
    ensures Resolve(configDir, Path(false, [".", "build"])) == Path(true, configDir.segments + ["build"])
    ensures var supply := Path(true, absoluteDir.segments + ["supply"]);
            Resolve(configDir, supply) == supply
  {
    ResolveNames(configDir, [".", ""], []);
    assert [".", ""] + [] == [".", ""];
    assert configDir.segments + [] == configDir.segments;
    assert IsName("supply") && IsName("build");
    assert ["."] + ["supply"] == [".", "supply"];
    assert ["."] + ["build"] == [".", "build"];
    ResolveNames(configDir, ["."], ["supply"]);
    ResolveNames(configDir, ["."], ["build"]);
  }

  /** A loaded configuration is valid, so its resolvers are defined and absolute. */
  lemma LoadedDirIsAbsolute(configFile: Path, cwd: Option<Path>)
    requires cwd.Some? ==> cwd.value.absolute
    requires Abs(configFile, cwd).Some?
    ensures Dir(Abs(configFile, cwd).value).absolute && IsClean(Dir(Abs(configFile, cwd).value))
  {
    DirIsClean(Abs(configFile, cwd).value);
  }
}
