/** `copyOutputFiles`: make the destination directory if it is missing, then
    copy the glob matches that are regular files into it. The glob's result
    is an input: each match is a path and whether it is a regular file. */
module Staging {

  datatype Match = Match(path: string, isFile: bool)

  /** The paths of the regular-file matches, in glob order. */
  function RegularFiles(matches: seq<Match>): (r: seq<string>)
    ensures |r| <= |matches|
  {
    if |matches| == 0 then []
    else
      var last := matches[|matches| - 1];
      RegularFiles(matches[..|matches| - 1]) + (if last.isFile then [last.path] else [])
  }

  /** Strictly increasing, so every position appears once, in order. */
  predicate Increasing(s: seq<nat>) {
    forall k, l :: 0 <= k < l < |s| ==> s[k] < s[l]
  }

  /** `copied` lists the paths of exactly the regular-file matches, in glob
      order, and `picked` gives the position of each one among the matches. */
  ghost predicate CopiesInOrder(matches: seq<Match>, copied: seq<string>, picked: seq<nat>) {
    && |picked| == |copied|
    && (forall k :: 0 <= k < |picked| ==>
          picked[k] < |matches| && matches[picked[k]].isFile && copied[k] == matches[picked[k]].path)
    && Increasing(picked)
    && (forall i :: 0 <= i < |matches| && matches[i].isFile ==> i in picked)
  }

  /** The positions of the regular-file matches, in increasing order. */
  function FileIndices(matches: seq<Match>): (r: seq<nat>)
    ensures forall k :: 0 <= k < |r| ==> r[k] < |matches| && matches[r[k]].isFile
    ensures Increasing(r)
    ensures forall i :: 0 <= i < |matches| && matches[i].isFile ==> i in r
  {
    if |matches| == 0 then []
    else
      var n := |matches| - 1;
      FileIndices(matches[..n]) + (if matches[n].isFile then [n] else [])
  }

  /** The filter meets the specification: its k-th path is the path of
      the k-th regular-file match. */
  lemma {:induction false} RegularFilesInOrder(matches: seq<Match>)
    ensures CopiesInOrder(matches, RegularFiles(matches), FileIndices(matches))
  {
    if |matches| > 0 {
      var n := |matches| - 1;
      RegularFilesInOrder(matches[..n]);
      var idx := FileIndices(matches[..n]);
      forall k | 0 <= k < |idx|
        ensures matches[..n][idx[k]] == matches[idx[k]]
      {
      }
    }
  }

  /** The head of an increasing sequence is its least element, and its
      tail holds every other element. */
  lemma IncreasingHead(s: seq<nat>, x: nat)
    requires Increasing(s) && |s| > 0
    ensures x in s ==> s[0] <= x
    ensures x in s[1..] <==> x in s && x != s[0]
  {
    if x in s {
      var k :| 0 <= k < |s| && s[k] == x;
      if k > 0 {
        assert s[1..][k - 1] == x;
      }
    }
    assert s == [s[0]] + s[1..];
  }

  /** Two increasing sequences with the same elements are equal. */
  lemma {:induction false} IncreasingSameElements(a: seq<nat>, b: seq<nat>)
    requires Increasing(a) && Increasing(b)
    requires forall x :: x in a <==> x in b
    ensures a == b
  {
    assert |a| > 0 ==> a[0] in b;
    assert |b| > 0 ==> b[0] in a;
    if |a| > 0 {
      IncreasingHead(a, b[0]);
      IncreasingHead(b, a[0]);
      assert a[0] == b[0];
      forall x
        ensures x in a[1..] <==> x in b[1..]
      {
        IncreasingHead(a, x);
        IncreasingHead(b, x);
      }
      IncreasingSameElements(a[1..], b[1..]);
      assert a == [a[0]] + a[1..] && b == [b[0]] + b[1..];
    }
  }

  /** The specification has one answer: any copies listed in order are the
      filter's result. */
  lemma CopiesInOrderUnique(matches: seq<Match>, copied: seq<string>, picked: seq<nat>)
    requires CopiesInOrder(matches, copied, picked)
    ensures copied == RegularFiles(matches)
    ensures picked == FileIndices(matches)
  {
    var idx := FileIndices(matches);
    RegularFilesInOrder(matches);
    forall x
      ensures x in picked <==> x in idx
    {
      if x in picked {
        var k :| 0 <= k < |picked| && picked[k] == x;
      }
      if x in idx {
        var k :| 0 <= k < |idx| && idx[k] == x;
      }
    }
    IncreasingSameElements(picked, idx);
  }

  /** A path is copied exactly when some match with that path is a regular
      file; directories contribute nothing. */
  lemma {:induction false} RegularFilesMembership(matches: seq<Match>, p: string)
    ensures p in RegularFiles(matches) <==>
              exists i :: 0 <= i < |matches| && matches[i] == Match(p, true)
  {
    if |matches| > 0 {
      var n := |matches| - 1;
      RegularFilesMembership(matches[..n], p);
      if p in RegularFiles(matches[..n]) {
        var i :| 0 <= i < n && matches[..n][i] == Match(p, true);
        assert matches[i] == Match(p, true);
      }
      if exists i :: 0 <= i < |matches| && matches[i] == Match(p, true) {
        var i :| 0 <= i < |matches| && matches[i] == Match(p, true);
        if i < n {
          assert matches[..n][i] == Match(p, true);
        }
      }
    }
  }

  /** Filtering two glob results one after the other is filtering their
      concatenation. */
  lemma {:induction false} RegularFilesAppend(a: seq<Match>, b: seq<Match>)
    ensures RegularFiles(a + b) == RegularFiles(a) + RegularFiles(b)
  {
    if |b| > 0 {
      var n := |b| - 1;
      assert (a + b)[..|a + b| - 1] == a + b[..n];
      RegularFilesAppend(a, b[..n]);
    } else {
      assert a + b == a;
    }
  }

  /** `copyOutputFiles(fromDir, filePattern, outDir)` over the glob's matches.
      `outDirExisted` is whether `outDir` existed beforehand; `created` is
      whether `mkdir_p` ran. */
  method CopyOutputFiles(matches: seq<Match>, outDirExisted: bool)
    returns (created: bool, outDirExists: bool, copied: seq<string>, ghost picked: seq<nat>)
    ensures created <==> !outDirExisted
    ensures outDirExists
    ensures CopiesInOrder(matches, copied, picked)
    ensures forall p :: p in copied <==> exists i :: 0 <= i < |matches| && matches[i] == Match(p, true)
  {
    created := !outDirExisted;
    outDirExists := true;
    copied, picked := [], [];
    var i := 0;
    while i < |matches|
      invariant 0 <= i <= |matches|
      invariant forall k :: 0 <= k < |picked| ==> picked[k] < i
      invariant CopiesInOrder(matches[..i], copied, picked)
    {
      assert forall j :: 0 <= j < i ==> matches[..i + 1][j] == matches[..i][j];
      if matches[i].isFile {
        copied, picked := copied + [matches[i].path], picked + [i];
      }
      i := i + 1;
    }
    assert matches[..i] == matches;
    forall p
      ensures p in copied <==> exists i :: 0 <= i < |matches| && matches[i] == Match(p, true)
    {
      CopiesInOrderUnique(matches, copied, picked);
      RegularFilesMembership(matches, p);
    }
  }

  /** The copying part of the `:compile` task: the core assembly's outputs,
      then the MassTransit integration's, into the same `net-4.0` directory.
      `mkdir_p` runs once when the directory is missing and never
      otherwise (the second call finds it), and the copies are those of
      one filter over both globs in turn. */
  method StageCompileOutputs(coreMatches: seq<Match>, integrationMatches: seq<Match>, outDirExisted: bool)
    returns (mkdirs: nat, copied: seq<string>, ghost picked: seq<nat>)
    ensures mkdirs == if outDirExisted then 0 else 1
    ensures CopiesInOrder(coreMatches + integrationMatches, copied, picked)
  {
    var made1, made2, exists1, exists2;
    var copied1, copied2;
    ghost var picked1, picked2;
    made1, exists1, copied1, picked1 := CopyOutputFiles(coreMatches, outDirExisted);
    made2, exists2, copied2, picked2 := CopyOutputFiles(integrationMatches, exists1);
    mkdirs := (if made1 then 1 else 0) + (if made2 then 1 else 0);
    copied := copied1 + copied2;
    CopiesInOrderUnique(coreMatches, copied1, picked1);
    CopiesInOrderUnique(integrationMatches, copied2, picked2);
    RegularFilesAppend(coreMatches, integrationMatches);
    RegularFilesInOrder(coreMatches + integrationMatches);
    picked := FileIndices(coreMatches + integrationMatches);
  }
}
