# geth-builder, modelled in Dafny

geth-builder builds a custom go-ethereum (geth) binary with a tracer plugin
compiled in. It:

1. reads a YAML configuration naming the geth repository, branch, plugin directory and output directory;
2. clones geth into `./go-ethereum`;
3. copies the plugin into `eth/tracers/native`;
4. removes the plugin's `go.mod`/`go.sum`;
5. adds a blank import of the plugin to `cmd/geth/main.go`;
6. runs geth's own build tool (`go run build/ci.go install` / `archive`).

When archiving, it scrapes the archive file names out of the tool's output and copies them to
the output directory.

The project models the three parts that hold logic:

- **`Transform`** (`transform.dfy`): the blank-import injection into a parsed Go file.
  - The file is a class holding the syntax tree's `Imports` list and its top-level declarations.
  - A declaration is an `import` group with its specs, or anything else.
  - `HasImport` and `AddImport` are the search and update loops of `hasImport`/`addImport`.
  - `AddImportToFile` runs read → parse → early return → add → print → write over a `Disk` object.
  - The lemmas cover idempotence, the count of specs for the path, order preservation, "only the
    first import group changes", and the agreement between `Imports` and the groups.
- **`Config`** (`config.dfy`): the configuration object, its `verbose` flag, `LoadConfig`'s
  derivation of the configuration directory, and the resolution of the plugin path and output
  directory against that directory, including the cases of the tabular test.
- **`Builder`** (`builder.dfy`) and **`ArchiveMatch`** (`archives.dfy`): the build driver.
  - It covers the argument lists of the two build-tool invocations, with their read-back round trips.
  - Every external effect is an `Action` handed to a `Host` object. The host records the action and
    answers success or failure from an oracle.
  - Each driver method is proved to perform exactly the steps of its step list, in order,
    stopping at the first failure, and to return the matching (wrapped) error.
  - `ArchiveMatch` specifies what `regexp.MustCompile(`geth-.*\.(zip|tar.gz)`).FindAllString` returns,
    over strings. It picks leftmost matches, a greedy `.*` that stops at line ends, `zip` before
    `tar?gz`, and non-overlapping matches in text order.

`FilePaths` (`filepaths.dfy`) is the lexical part of Go's `path/filepath` (`Clean`, `Join`, `Base`,
`Dir`, `Abs`, `IsAbs`) on a '/' system. A path is kept split into its absolute flag and its pieces.
`Wrappers` (`wrappers.dfy`) holds `Option`.

## Model

| member | source | states |
|---|---|---|
| Transform.File.HasImport | transform/transform.go:43-50 | the search returns true exactly when `Imports` holds the path, the predicate the transform's early return uses: some spec has the literal `"` + path + `"`, compared as a raw string |
| Transform.File.AddImport | transform/transform.go:52-83 | the file afterwards is `WithImport` of the file before: the blank spec `_ "<path>"` appended to `Imports`, and appended to the first import group or put in front as a new group |
| Transform.FirstImportDecl | transform/transform.go:68-76 | the index found holds an import group and no earlier declaration is one; `None` only when no declaration is an import group |
| Transform.Literal | transform/transform.go:45 | the literal is the path between two double quotes, nothing escaped |
| Transform.AddImportToFile | transform/transform.go:12-41 | a read failure and a parse failure return their error with the file untouched; an import already present returns success with the file untouched; a print failure returns before the write; a failed write leaves what the write left; otherwise the file holds the patched unit; every success leaves `Patched(old unit)` |
| Transform.ImportsIffCounted | transform/transform.go:43-50 | the path is present exactly when its literal is counted at least once |
| Transform.PatchedImports | transform/transform.go:26-31 | after the transform the import is present |
| Transform.PatchedIdempotent | transform/transform.go:26-28 | running the transform again with the same path changes nothing |
| Transform.PatchedCount | transform/transform.go:26-31 | the count of specs for the path becomes 1 when it was 0 and is unchanged otherwise, so no duplicate is introduced |
| Transform.PatchedKeepsImports | transform/transform.go:53-61 | existing specs keep their place and order; at most one spec is added, and it is the blank import of the path |
| Transform.InsertSpecShape | transform/transform.go:64-82 | with an import group, only the first one changes, gaining the spec at its end, and the length is kept; without one, a new group holding just the spec is put in front |
| Transform.InsertSpecAllSpecs | transform/transform.go:61-82 | the import groups together gain exactly the new spec (as a multiset) |
| Transform.PatchedConsistent | transform/transform.go:61-82 | if `Imports` agreed with the groups' specs before, it still does |
| Transform.NoGroupGetsOne | transform/transform.go:78-82 | a file with no import group ends with exactly one group, first, holding exactly the new spec |
| Config.Resolve | config/config.go:51-65 | the result is absolute, and an absolute path is returned unchanged |
| Config.ResolveRelative | config/config.go:56 | a relative path resolves to the cleaning of the configuration directory followed by its pieces, and the result is clean |
| Config.Config.AbsolutePath | config/config.go:51-57 | the result is absolute; an absolute plugin path is returned as it is, a relative one becomes the cleaning of the configuration directory followed by its pieces |
| Config.Config.AbsoluteOutputDir | config/config.go:59-65 | the same rule for the output directory: absolute, unchanged when absolute, otherwise the cleaned join onto the configuration directory |
| Config.Config.SetVerbose | config/config.go:41-44 | afterwards `Verbose()` is true and only the flag may change |
| Config.LoadConfig | config/config.go:20-39 | read and decode failures return their error and no configuration; an `Abs` failure likewise; otherwise the decoded fields, `verbose` false, and the directory of the absolute configuration file, which is absolute and clean |
| Config.ResolveIdempotent | config/config.go:53-55 | resolving an already resolved path gives it back |
| Config.ResolveNames | config/config.go:56 | a relative path of "." or empty pieces followed by names lands directly below the configuration directory |
| Config.DirOfConfigFile | config/config.go:36 | the directory recorded for `<dir>/config.yaml` is `<dir>` |
| Config.ResolveTestCases | config/config_test.go:21-47 | "./" resolves to the configuration directory, "./supply" and "./build" to those names inside it, and an absolute path stays as it is |
| Config.LoadedDirIsAbsolute | config/config.go:32-36 | the directory of an absolute file path is absolute and clean, so the resolvers' precondition holds for a loaded configuration |
| FilePaths.Clean | config/config.go:56 | cleaning keeps whether the path is absolute |
| FilePaths.CleanIsClean | config/config.go:56 | what cleaning returns is clean |
| FilePaths.CleanIdempotent | config/config.go:56 | cleaning twice is cleaning once |
| FilePaths.CleanOfNames | builder/builder.go:118-133 | a relative path of plain names, with or without a leading ".", cleans to the names |
| FilePaths.JoinIsClean | config/config.go:56 | joining onto a non-empty path keeps whether it is absolute and gives a clean path |
| FilePaths.Abs | config/config.go:32 | an absolute path is only cleaned, and any result is absolute |
| FilePaths.AbsIsClean | config/config.go:32 | what `Abs` returns is clean |
| FilePaths.DirIsClean | config/config.go:36 | what `Dir` returns is clean |
| FilePaths.Base | builder/builder.go:124-134 | the base is one non-empty piece, or "/" (only for an absolute path); a path ending in a non-empty piece has that piece as its base |
| FilePaths.BaseIsLastName | builder/builder.go:124-134 | the base is the last non-empty piece, whatever empty pieces (trailing separators) follow it |
| FilePaths.BaseOfSeparators | builder/builder.go:124-134 | the base is "/" exactly for an absolute path of separators only, and "." for a relative path with no non-empty piece |
| FilePaths.IntercalateSplit | builder/builder.go:98 | splitting an archive name at '/' and joining it back gives the name |
| FilePaths.RenderFromString | builder/builder.go:98 | a path read from a string renders back to that string |
| ArchiveMatch.LineEnd | builder/builder.go:91 | the end of the line from `k`: a '\n' or the end of the text, with no '\n' before it |
| ArchiveMatch.ExtensionAt | builder/builder.go:91 | an extension match starts with '.' and is 4 (`.zip`) or 7 (`.tar?gz`) characters inside the text |
| ArchiveMatch.LastExtensionIsLast | builder/builder.go:91 | the greedy `.*` ends at the last position in the line where an extension matches, and there is no match when no extension does |
| ArchiveMatch.MatchAt | builder/builder.go:91 | a match from `i` is at least `geth-` plus an extension long and ends inside the text |
| ArchiveMatch.Spans | builder/builder.go:92 | every span found from `k` lies in the text at or after `k` |
| ArchiveMatch.SpansValid | builder/builder.go:92 | every span is the match found at its start, and each span starts where the previous one ended or later |
| ArchiveMatch.SpansLeftmost | builder/builder.go:92 | no match starts before the first one found |
| ArchiveMatch.SpansNoneBetween | builder/builder.go:92 | no match starts between two consecutive spans found |
| ArchiveMatch.SpansComplete | builder/builder.go:92 | no match starts after the end of the last span found (or anywhere from the start when none is found), so no later archive name is dropped |
| ArchiveMatch.MatchIsArchiveName | builder/builder.go:91 | every match is `geth-`, then characters other than '\n', then `.zip` or `.tar?gz` |
| ArchiveMatch.FindAllNames | builder/builder.go:91-92 | every string returned has that archive-name shape |
| ArchiveMatch.FindAllEmpty | builder/builder.go:92-95 | nothing is returned exactly when no position of the output starts a match |
| ArchiveMatch.NameAt | builder/builder.go:91 | a whole line with the archive-name shape is matched from its start to its end |
| ArchiveMatch.SingleName | builder/builder.go:91-92 | output made of one archive name returns exactly that name |
| ArchiveMatch.NamesOnSeparateLines | builder/builder.go:91-92 | two archive names on separate lines are returned separately, in order |
| ArchiveMatch.NamesOnOneLineMerge | builder/builder.go:91-92 | two archive names on one line are returned as one merged match |
| Builder.InstallArgsRoundTrip | builder/builder.go:37-43 | the install arguments are read back as exactly the architecture and the package given |
| Builder.ArchiveArgsRoundTrip | builder/builder.go:63-68 | the archive arguments are read back as exactly the architecture and the archive type given |
| Builder.Builder.InstallCommand | builder/builder.go:37-43 | the arguments appended piece by piece equal `InstallArgs` |
| Builder.Builder.ArchiveCommand | builder/builder.go:63-68 | the arguments appended piece by piece equal `ArchiveArgs` |
| Builder.Builder.BuildPackage | builder/builder.go:36-51 | exactly one `go` run with the install arguments in the working copy; its failure is the error |
| Builder.Builder.CloneRepo | builder/builder.go:143-154 | a shallow single-branch clone only when the directory is absent; its failure is the error |
| Builder.Builder.PrepareSource | builder/builder.go:106-141 | the steps taken are clone (when absent), copy, remove go.mod, remove go.sum, add the import, in order and up to the first failure, whose step is the error |
| Builder.Builder.InjectPlugin | builder/builder.go:118-140 | the copy, the two removals and the import, in order and up to the first failure |
| Builder.Builder.CopyPlugin | builder/builder.go:118-131 | the copy and the two removals, in order and up to the first failure |
| Builder.Builder.Build | builder/builder.go:26-34 | prepare then install `./cmd/geth`, up to the first failure; the directory is "" when preparing failed and the working copy otherwise |
| Builder.Builder.Archive | builder/builder.go:53-104 | prepare, install everything, archive, then one copy per match, up to the first failure; the error is the failure wrapped in the message of its stage, "no archive files found", or none |
| Builder.Builder.BuildAndExport | builder/builder.go:58-104 | an install failure stops before the archive command |
| Builder.Builder.ExportArchives | builder/builder.go:63-104 | an archive command failure stops before any copy; otherwise the matches are collected and copied |
| Builder.Builder.CollectArchives | builder/builder.go:91-101 | no match means no copy and "no archive files found"; otherwise the copies run in match order |
| Builder.Builder.CopyArchives | builder/builder.go:97-101 | the copies run in match order from `gethDir/m` to `output/m`; the first failure stops them and is the wrapped error |
| Builder.CopyStepsAt | builder/builder.go:97-98 | the i-th copy moves the i-th match from the working copy to the output directory |
| Builder.AttemptedFirstFailure | builder/builder.go:97-101 | what runs is a prefix of the steps; all of them when none fails, otherwise ending with the failing step after steps that all succeeded |
| Builder.PluginDirPath | builder/builder.go:118-124 | for a working copy `./d` and a plugin named `n`, the plugin lands in `d/eth/tracers/native/n` |
| Builder.MainFilePath | builder/builder.go:133 | the import goes into `d/cmd/geth/main.go` |
| Builder.PluginImportPathOf | builder/builder.go:134-135 | the import path is `github.com/ethereum/go-ethereum/eth/tracers/native` followed by `/n` |
| Builder.GethPluginPaths | builder/builder.go:118-133 | for `./go-ethereum`: `go-ethereum/eth/tracers/native/n` and `go-ethereum/cmd/geth/main.go` |
| Builder.BaseOfResolved | builder/builder.go:124 | the base of a clean absolute path below the root is its last element, a plain name |
| Builder.LoadedInjectSteps | builder/builder.go:112-140 | for a loaded configuration whose plugin directory resolves to a clean path below the root with last element `n`: copy into `go-ethereum/eth/tracers/native`, remove `go.mod` and `go.sum` from `go-ethereum/eth/tracers/native/n`, and add the native tracers' package followed by `/n` to `go-ethereum/cmd/geth/main.go`, in that order |

## Left out

- Go source parsing and printing (`go/parser`, `go/printer`, positions, comments and formatting): the file is the abstract record above; the parser's outcome and the printer's failure are inputs.
- Real file I/O, `os.Stat`, `os.RemoveAll`, `git` and `go` processes, their output streaming under the verbose flag, the unconditional `fmt.Printf` of the matches (builder/builder.go:96) and the `log.Printf` when the clone is skipped (builder/builder.go:152): each process or file operation is an `Action` whose success comes from the host's oracle, the archive command's output is the host's `stdout` for it, and the diagnostic printing is not modelled.
- The host's answers are fixed functions of the `Action`: two copies of the same archive name (the name listed twice, on separate lines) both succeed or both fail, where the real second copy could fail on its own.
- The order of `Imports` after a write is the in-memory order the transform leaves (the new spec last), not the source order a fresh parse of the printed file would give (the new spec inside the first group, before later groups' specs); only membership, counts and multisets are proved about it.
- The inside of `copyLocalTracer` and `CopyFile` (builder/builder.go:156-219), the directory walk and permission bits: each is one `CopyTree` or `CopyFile` step.
- The Go regexp engine: `ArchiveMatch` specifies what the pattern returns instead of modelling RE2.
- YAML decoding in `LoadConfig`: the decoded fields, or the failure, are an input; so are the working directory and whether the file can be read.
- Windows path rules; `FilePaths` is the '/' system's lexical rules only.
- Config.Config.AbsolutePath: the `error` result of `filepath.Abs` is not modelled, because the joined path is already absolute and `Abs` then only cleans; the same holds for `AbsoluteOutputDir`.
- The working copy "./go-ethereum" of `Build` and `Archive` is a constant field of the `Builder` object, set by its constructor, instead of a local variable.
- `main.go` (it calls a function the builder package does not have), `config/flags.go` (flag declarations only) and the example tracer plugin are not part of this model.
- Builder.PluginImportPathOf: states the import path as the rendered package path followed by `/n`, and not as one literal string.

The model follows the code as written:

- The file is overwritten with a plain `os.WriteFile`, which is not atomic, so a failed write may leave anything (`afterFailedWrite`).
- Two archive names on one line come back as one merged match (greedy `.*`); the '.' inside `tar.gz` matches any character but '\n'.
- The pattern is the fixed `geth-.*\.(zip|tar.gz)`, the archived package is always `./cmd/geth`, and the install before archiving has no package.
- The transform adds no new duplicate, but a file already holding the import twice keeps both.
