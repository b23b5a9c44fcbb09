# Automatonymous release rakefile — verified model of its pure logic

The Automatonymous build script (`rakefile.rb`) is mostly glue around Rake,
albacore, msbuild, NUnit, NuGet and git. This project models the four parts
of it that are self-contained logic and proves what they guarantee:

- **`waitfor`**, the bounded readiness poll used by `clean` after deleting
  the build roots (`polling.dfy`). The block it polls is an oracle
  `seq<bool>`: `probe[k]` is the answer of the k-th evaluation. Each
  half-second sleep is a counted step. The loop stops when the block holds or
  the counter has passed 10. Afterwards it raises when the counter has passed
  10, ignoring the last answer. So a poll makes at most 12 evaluations and
  11 sleeps, and a block that first holds on the 12th evaluation still ends
  in the timeout error (`Polling.WaitFor`, last ensures). `Polling.Clean`
  models the two polls `clean` makes, output root first, then artifacts root.
- **Version strings** of `:global_version` (`versioning.dfy`, with decimal
  rendering in `decimal.dfy`). The assembly and informational version is
  `BUILD_NUMBER_BASE + "." + REVISION` = `0.4.2.0`. The file version is the
  base plus the `%y%j` date stamp. When the `BUILD_NUMBER` environment value
  is set, it replaces the stamp. The date is given as a year and an ordinal
  day 1..366. The environment value is an `Option<string>`.
- **`add_files`**, the nuspec file mapping (`packaging.dfy`). The glob
  result is an input function. Each path becomes an entry whose source has
  every `/` replaced by `\` and whose target is `lib\net40`. The framework
  table is the one row `("net40", "net-4.0")`. The versions and dependencies
  of the two nuspec descriptors are modelled as values.
- **`copyOutputFiles`**, the artifact filter (`staging.dfy`). The glob
  matches are `(path, isFile)` pairs. Only regular files are copied, in glob
  order. The destination exists afterwards.

Three behaviours of the script are easy to misread:

- An empty `BUILD_NUMBER` still replaces the stamp and gives `0.4.2.`,
  because rakefile.rb:35 tests only for nil (`Versioning.OverrideExamples`).
- The block is evaluated up to 12 times and the poll sleeps up to 11 times,
  because the exit test and the raise test both use `checks > 10`.
- The informational version carries the revision: `0.4.2.0`.

## Model

| member | source | states |
|---|---|---|
| Polling.WaitFor | rakefile.rb:164-173 | The counter stays at most 11, and the number of sleeps equals it. There is one more evaluation than sleeps, and at most 12 evaluations. The counter is the index of the first true answer, or 11 if none. The poll returns normally exactly when some answer at index 0..10 is true, and otherwise raises the timeout message. A true first answer means no sleep and no error. A block that first holds on the 12th evaluation still raises. |
| Polling.Clean | rakefile.rb:51-59 | Clean succeeds exactly when both polls clear. A timeout on the output root stops before the artifacts root is polled. Clean polls the artifacts root exactly when the output poll clears. Both roots are created exactly when clean succeeds. Each poll evaluates its block up to and including the first true answer, or 12 times if none comes. |
| Decimal.ToDecimal | rakefile.rb:12 | `to_s` of a natural number gives a non-empty digit string that parses back to the number, with no leading zero except for `0` itself. |
| Decimal.Padded | rakefile.rb:33 | A zero-padded field of a given width gives exactly that many digits. |
| Decimal.ValueOfPadded | rakefile.rb:33 | A zero-padded field parses back to the number it renders. |
| Decimal.PaddedOfValue | rakefile.rb:33 | Any digit string is the padded rendering of its own value at its own width. This is the inverse direction of the round trip. |
| Versioning.AsmVersionIs | rakefile.rb:6-12 | The assembly version is `0.4.2.0`. |
| Versioning.DateStamp | rakefile.rb:33 | `%y%j` gives five digits. |
| Versioning.DateStampFields | rakefile.rb:33 | The first two digits of the stamp read back as the year mod 100 and the last three as the ordinal day. |
| Versioning.DateStampInjective | rakefile.rb:33 | Equal stamps mean the same year within the century and the same day. |
| Versioning.DateStampOnto | rakefile.rb:33 | Two digits followed by three digits naming a valid day are the stamp of any year with those last two digits. |
| Versioning.FileVersion | rakefile.rb:33-35 | The file version always starts with `0.4.2.`. With an override, the rest is exactly the override. Without one, the rest is five digits. |
| Versioning.FileVersionDated | rakefile.rb:33 | Without an override, the digits after `0.4.2.` read back as the year mod 100 and the ordinal day. |
| Versioning.DateStampOnDate | rakefile.rb:33 | Day 123 of 2024 is stamped `24123`. |
| Versioning.FileVersionOnDate | rakefile.rb:33 | With no override, day 123 of 2024 gives `0.4.2.24123`. |
| Versioning.OverrideReplacesDate | rakefile.rb:34-35 | Any override, including the empty string, gives `0.4.2.` followed by the override, the same on every date. |
| Versioning.OverrideExamples | rakefile.rb:34-35 | Override `456` gives `0.4.2.456`, and the empty override gives `0.4.2.`. |
| Versioning.GlobalVersion | rakefile.rb:33-42 | The assembly version and the informational version are both `0.4.2.0`. The file version is `build_number`: `0.4.2.` followed by the override when one is set, and `0.4.2.` followed by the date stamp otherwise. |
| Versioning.AssemblyVersionFixed | rakefile.rb:40-42 | Neither the date nor the override changes the assembly version or the informational version. Without an override, the file version differs from them. |
| Staging.RegularFiles | rakefile.rb:79-80 | The filter keeps at most as many paths as there are matches. Its full contract is in `Staging.RegularFilesInOrder` and `Staging.CopiesInOrderUnique`: it is exactly the regular-file matches, in glob order. |
| Staging.FileIndices | rakefile.rb:79-80 | Lists the positions of the regular-file matches in increasing order, with every regular-file position included. |
| Staging.RegularFilesInOrder | rakefile.rb:79-81 | The filter meets the in-order specification: the k-th copied path is the path of the k-th regular-file match, and every regular-file match is copied. |
| Staging.CopiesInOrderUnique | rakefile.rb:79-81 | The in-order specification has exactly one answer, the filter's result, so any copy list satisfying it is that result. |
| Staging.RegularFilesMembership | rakefile.rb:80 | A path is copied if and only if some match with that path is a regular file. Directories contribute nothing. |
| Staging.RegularFilesAppend | rakefile.rb:64-65 | Filtering two glob results one after the other gives the same copies as filtering their concatenation. |
| Staging.CopyOutputFiles | rakefile.rb:77-82 | The destination is created exactly when it was missing, and exists afterwards. The copies are exactly the regular-file matches, each once, in glob order. A path is copied if and only if it matched as a regular file. |
| Staging.StageCompileOutputs | rakefile.rb:63-66 | The two copies of `:compile` into `net-4.0` run `mkdir_p` once when the directory was missing and never otherwise, because the second call finds it. They copy exactly the regular files of the two globs in order, core first. |
| Packaging.Backslashed | rakefile.rb:159 | The source path keeps its length. Every `/` becomes `\` and every other character is unchanged. |
| Packaging.Slashed | rakefile.rb:159 | The script never performs this rewriting. It is the inverse that `Packaging.SlashedBackslashed` uses: it keeps the length, turns every `\` into `/` and leaves the rest unchanged. |
| Packaging.BackslashedNormal | rakefile.rb:159 | A rewritten path has no `/`, and rewriting it again changes nothing. |
| Packaging.SlashedBackslashed | rakefile.rb:159 | A path without backslashes is recovered from its rewritten form. |
| Packaging.EntriesFor | rakefile.rb:158-160 | One entry per glob match, in glob order. Each entry's source is the rewritten path and its target is `lib\` plus the moniker. |
| Packaging.GlobPattern | rakefile.rb:157 | `File.join(stage, fw[1], what_dlls)` splits back into the stage, the framework directory and the file pattern, with a `/` after each of the first two. |
| Packaging.AddFilesOver | rakefile.rb:156-161 | For any framework table, no entry's source keeps a forward slash, and every target lies under `lib\`. |
| Packaging.AddFiles | rakefile.rb:155-162 | With the one-row framework table, `add_files` adds one entry per path of the `net-4.0` glob, in glob order. Each source is the path with backslashes and the same length, and each target is `lib\net40`. |
| Packaging.CoreNuspec | rakefile.rb:107-119 | The `Automatonymous` package has version `0.4.2.0` and no dependencies. It has one file entry per staged `Automatonymous.{dll,pdb,xml}` match, in glob order. Each source is that path with backslashes, and each target is `lib\net40`. |
| Packaging.MassTransitNuspec | rakefile.rb:121-135 | The `Automatonymous.MassTransit` package has version `0.4.2.0`. It depends on MassTransit `2.1.1.0` and Automatonymous `0.4.2.0`, in that order. It has one file entry per staged integration match, in glob order. Each source is that path with backslashes, and each target is `lib\net40`. |
| Packaging.NuspecVersionsAgree | rakefile.rb:107-133 | Both packages carry version `0.4.2.0`, the assembly version, whatever the date and override. The integration package depends on the core package at exactly that version. |

## Left out

- Rake's task graph and how it executes (ordering, at-most-once runs of
  `:all`, `:default`, `:compile` and the rest). The file only declares
  edges, and the engine belongs to Rake.
- `msbuild`, `nunit`, `nuget pack`, `zip` and the assemblyinfo file
  generation. These are external tools and albacore wrappers. Only the
  version values and the nuspec's id, version, dependencies and files are
  modelled; titles, URLs, license fields and the output file are not.
- `get_commit_hash_and_date`. It shells out to git and parses a date.
- The file operations of `clean` (`rm_rf`, `mkdir`). Only its two polls and
  their order are modelled, and directory creation is a flag.
- `project_outputs` and `:zip_output`. Each refers to an undefined name
  (`BUILD_CONFIG`, `props[:stage]`), and `project_outputs` is never called.
- Real sleeping and timing. The 0.5 s interval is a counted step.
- Calendar conversion from a real `Date`. The year and the ordinal day are
  inputs.
- `Dir.glob` itself, including brace alternation. Its result is an input.
  `File.join` is modelled as joining with `/` and does not collapse
  duplicate separators.
- Staging.CopyOutputFiles: takes `outDirExisted` to mean the destination
  exists as a directory. When `outDir` is a regular file, `exists?` is
  still true, so `mkdir_p` is skipped and each `copy` overwrites that one
  file. The model does not represent this case.
- Staging.CopyOutputFiles: always returns normally. A failing `mkdir_p`
  or `copy` raises in the script, and that failure is not modelled.
- The destination file name of each copy. A copy is recorded by its source
  path into the one destination directory.
