/** `add_files` and the version-carrying parts of the two nuspec package
    descriptors. The glob is an input: `glob(pattern)` is the list of paths
    `Dir.glob` returns for `pattern`, in its order. */
module Packaging {

  import Versioning
  import opened Options

  /** A row of the framework table: the NuGet moniker used inside the
      package and the directory label used in the staged output. */
  datatype Framework = Framework(moniker: string, directory: string)

  /** The framework table `add_files` iterates over. */
  const Frameworks := [Framework("net40", "net-4.0")]

  /** A `<file src=… target=…/>` entry of a nuspec. */
  datatype FileEntry = FileEntry(source: string, target: string)

  datatype Dependency = Dependency(id: string, version: string)

  /** The version-carrying fields of a nuspec descriptor. */
  datatype Nuspec = Nuspec(id: string, version: string, dependencies: seq<Dependency>, files: seq<FileEntry>)

  /** `gsub("/", "\\")`: every forward slash becomes a backslash; every
      other character stays where it was. */
  function Backslashed(path: string): (r: string)
    ensures |r| == |path|
    ensures forall i :: 0 <= i < |path| && path[i] == '/' ==> r[i] == '\\'
    ensures forall i :: 0 <= i < |path| && path[i] != '/' ==> r[i] == path[i]
  {
    if |path| == 0 then ""
    else [if path[0] == '/' then '\\' else path[0]] + Backslashed(path[1..])
  }

  /** The reverse rewriting, backslashes to forward slashes. The script
      never performs it; it is the inverse that `SlashedBackslashed` uses to
      show the rewriting loses nothing. */
  function Slashed(path: string): (r: string)
    ensures |r| == |path|
    ensures forall i :: 0 <= i < |path| && path[i] == '\\' ==> r[i] == '/'
    ensures forall i :: 0 <= i < |path| && path[i] != '\\' ==> r[i] == path[i]
  {
    if |path| == 0 then ""
    else [if path[0] == '\\' then '/' else path[0]] + Slashed(path[1..])
  }

  /** The rewritten path has no forward slash left, and rewriting it again
      changes nothing. */
  lemma BackslashedNormal(path: string)
    ensures '/' !in Backslashed(path)
    ensures Backslashed(Backslashed(path)) == Backslashed(path)
  {
  }

  /** A glob path holds no backslash, so the rewriting loses nothing:
      turning the backslashes back into slashes gives the path again. */
  lemma SlashedBackslashed(path: string)
    requires '\\' !in path
    ensures Slashed(Backslashed(path)) == path
  {
  }

  /** `File.join(stage, fw[1], what_dlls)`: the pattern splits back into
      the stage, the framework directory and the file pattern, each
      followed by a `/` separator except the last. */
  function GlobPattern(stage: string, fw: Framework, whatDlls: string): (r: string)
    ensures var d := |stage| + 1 + |fw.directory|;
            && |r| == d + 1 + |whatDlls|
            && r[..|stage|] == stage && r[|stage|] == '/'
            && r[|stage| + 1..d] == fw.directory && r[d] == '/'
            && r[d + 1..] == whatDlls
  {
    stage + "/" + fw.directory + "/" + whatDlls
  }

  /** The entries one framework row contributes: one per match. */
  function EntriesFor(fw: Framework, matches: seq<string>): (r: seq<FileEntry>)
    ensures |r| == |matches|
    ensures forall i :: 0 <= i < |matches| ==>
              r[i] == FileEntry(Backslashed(matches[i]), "lib\\" + fw.moniker)
  {
    if |matches| == 0 then []
    else [FileEntry(Backslashed(matches[0]), "lib\\" + fw.moniker)] + EntriesFor(fw, matches[1..])
  }

  /** `add_files` over a framework table: the rows in order, each row's
      glob matches in glob order. Whatever the table, no source keeps a
      forward slash and every target lies under `lib\`. */
  function AddFilesOver(table: seq<Framework>, stage: string, whatDlls: string, glob: string -> seq<string>): (r: seq<FileEntry>)
    ensures forall i :: 0 <= i < |r| ==> '/' !in r[i].source
    ensures forall i :: 0 <= i < |r| ==> |r[i].target| >= 4 && r[i].target[..4] == "lib\\"
  {
    if |table| == 0 then []
    else
      var fw := table[0];
      var here := EntriesFor(fw, glob(GlobPattern(stage, fw, whatDlls)));
      assert forall i :: 0 <= i < |here| ==> '/' !in here[i].source;
      assert forall i :: 0 <= i < |here| ==> here[i].target[..4] == "lib\\";
      here + AddFilesOver(table[1..], stage, whatDlls, glob)
  }

  /** `add_files(stage, what_dlls, nuspec)`: with the one-row table, it adds
      one entry per path of the `net-4.0` glob, in glob order, whose source
      is that path with its slashes turned to backslashes (same length) and
      whose target is `lib\net40`. */
  function AddFiles(stage: string, whatDlls: string, glob: string -> seq<string>): (r: seq<FileEntry>)
    ensures var matches := glob(stage + "/net-4.0/" + whatDlls);
            && |r| == |matches|
            && forall i :: 0 <= i < |r| ==>
                 && r[i].target == "lib\\net40"
                 && r[i].source == Backslashed(matches[i])
                 && |r[i].source| == |matches[i]|
  {
    var fw := Frameworks[0];
    assert GlobPattern(stage, fw, whatDlls) == stage + "/net-4.0/" + whatDlls;
    assert Frameworks[1..] == [];
    assert AddFilesOver(Frameworks[1..], stage, whatDlls, glob) == [];
    var e := EntriesFor(fw, glob(GlobPattern(stage, fw, whatDlls)));
    assert AddFilesOver(Frameworks, stage, whatDlls, glob) == e + [];
    assert e + [] == e;
    AddFilesOver(Frameworks, stage, whatDlls, glob)
  }

  /** The file patterns the two packages collect. */
  const CoreFiles := "Automatonymous.{dll,pdb,xml}"
  const IntegrationFiles := "Automatonymous.MassTransitIntegration.{dll,pdb,xml}"

  /** The `Automatonymous` package: version `0.4.2.0`, no dependencies,
      one `lib\net40` entry per staged core assembly file. */
  function CoreNuspec(stage: string, glob: string -> seq<string>): (r: Nuspec)
    ensures r.id == "Automatonymous" && r.version == "0.4.2.0" && r.dependencies == []
    ensures |r.files| == |glob(stage + "/net-4.0/" + CoreFiles)|
    ensures forall i :: 0 <= i < |r.files| ==> r.files[i].target == "lib\\net40"
    ensures forall i :: 0 <= i < |r.files| ==>
              r.files[i].source == Backslashed(glob(stage + "/net-4.0/" + CoreFiles)[i])
  {
    Versioning.AsmVersionIs();
    Nuspec("Automatonymous", Versioning.AsmVersion, [],
           AddFiles(stage, CoreFiles, glob))
  }

  /** The `Automatonymous.MassTransit` package, which depends on MassTransit
      and on the core package at the same version: version `0.4.2.0`, one
      `lib\net40` entry per staged integration assembly file. */
  function MassTransitNuspec(stage: string, glob: string -> seq<string>): (r: Nuspec)
    ensures r.id == "Automatonymous.MassTransit" && r.version == "0.4.2.0"
    ensures r.dependencies == [Dependency("MassTransit", "2.1.1.0"), Dependency("Automatonymous", "0.4.2.0")]
    ensures |r.files| == |glob(stage + "/net-4.0/" + IntegrationFiles)|
    ensures forall i :: 0 <= i < |r.files| ==> r.files[i].target == "lib\\net40"
    ensures forall i :: 0 <= i < |r.files| ==>
              r.files[i].source == Backslashed(glob(stage + "/net-4.0/" + IntegrationFiles)[i])
  {
    Versioning.AsmVersionIs();
    Nuspec("Automatonymous.MassTransit", Versioning.AsmVersion,
           [Dependency("MassTransit", "2.1.1.0"), Dependency("Automatonymous", Versioning.AsmVersion)],
           AddFiles(stage, IntegrationFiles, glob))
  }

  /** Both packages carry the assembly version, whatever the date and the
      `BUILD_NUMBER` override, and the integration package pins the core
      package to exactly that version. */
  lemma NuspecVersionsAgree(stage: string, glob: string -> seq<string>, year: int, yday: int, env: Option<string>)
    requires Versioning.ValidOrdinalDay(yday)
    ensures CoreNuspec(stage, glob).version == Versioning.GlobalVersion(year, yday, env).version
    ensures MassTransitNuspec(stage, glob).version == Versioning.GlobalVersion(year, yday, env).version
    ensures CoreNuspec(stage, glob).version == "0.4.2.0"
    ensures Dependency("Automatonymous", CoreNuspec(stage, glob).version) in MassTransitNuspec(stage, glob).dependencies
  {
    Versioning.AsmVersionIs();
  }
}
