/**
 * Derivation of the state names the bucket should hold, from a walk of the
 * infrastructure repository: one `(root, files)` pair per directory visited
 * by `os.walk(start_path)`, in walk order.
 */
module Scan {
  import opened Wrappers
  import opened Text

  /** Directories of Terragrunt's cache are never infrastructure units. */
  const CacheMarker := ".terragrunt-cache"
  /** Suffix of a Terragrunt configuration file. */
  const ConfigSuffix := ".hcl"
  /** The state file every unit owns. */
  const StateFileName := "default.tfstate"

  /** The fixed table from state bucket to organization directory. */
  const Organizations: map<string, string> :=
    map["platform-tf-admin-dev" := "extenda-io", "platform-tf-admin-prod" := "extendaretail-com"]

  /** One directory visited by the walk and the names of the files directly in it. */
  datatype WalkEntry = WalkEntry(root: string, files: seq<string>)

  /**
   * `os.path.join(repo, 'organization', organizations.get(bucket))`; None
   * when the bucket is not in the table, where the script fails on `None`.
   */
  function StartPath(repo: string, bucket: string): (r: Option<string>)
    ensures r.Some? <==> bucket in Organizations
  {
    if bucket in Organizations then
      Some(JoinPath(JoinPath(repo, "organization"), Organizations[bucket]))
    else None
  }

  /** For a repository path without a trailing `/`, the walk starts at `repo/organization/<organization>`. */
  lemma StartPathForm(repo: string, bucket: string)
    requires bucket in Organizations && repo != [] && repo[|repo| - 1] != '/'
    ensures StartPath(repo, bucket) == Some(repo + "/organization/" + Organizations[bucket])
  {
    var org := Organizations[bucket];
    OrganizationIsSegment(bucket);
    JoinSegmentsTwice(repo, "organization", org);
    assert "/" + "organization" + "/" == "/organization/";
  }

  /** Every organization directory name is a plain path segment. */
  lemma OrganizationIsSegment(bucket: string)
    requires bucket in Organizations
    ensures var org := Organizations[bucket];
            org != [] && org[0] != '/' && org[|org| - 1] != '/'
  {
    if bucket == "platform-tf-admin-dev" {
      assert Organizations[bucket] == "extenda-io";
    } else {
      assert Organizations[bucket] == "extendaretail-com";
    }
  }

  predicate IsCached(root: string) {
    Contains(root, CacheMarker)
  }

  /**
   * The script's test for an infrastructure unit. Its `filter(...)` object is
   * truthy whatever it yields, so the files of the directory never matter.
   */
  predicate QualifiesAsWritten(e: WalkEntry) {
    !IsCached(e.root)
  }

  /** At least one configuration file directly in the directory. */
  predicate HasConfigFile(files: seq<string>) {
    exists i :: 0 <= i < |files| && EndsWith(files[i], ConfigSuffix)
  }

  /** The test the script evidently means: an uncached directory holding a configuration file. */
  predicate QualifiesIntended(e: WalkEntry) {
    !IsCached(e.root) && HasConfigFile(e.files)
  }

  /** The expected state name of a walked directory: its path with every copy of `start` cut out, `/` stripped at both ends, joined with `default.tfstate`. */
  function BlobNameFor(start: string, root: string): string {
    JoinPath(Strip(RemoveAll(root, start), '/'), StateFileName)
  }

  /** `repo_actual_blobs` as the script builds it. */
  function ExpectedNames(start: string, walk: seq<WalkEntry>): seq<string>
    decreases |walk|
  {
    if walk == [] then []
    else
      var e := walk[|walk| - 1];
      ExpectedNames(start, walk[..|walk| - 1]) +
        (if QualifiesAsWritten(e) then [BlobNameFor(start, e.root)] else [])
  }

  /** The expected names under the intended unit test. */
  function IntendedExpectedNames(start: string, walk: seq<WalkEntry>): seq<string>
    decreases |walk|
  {
    if walk == [] then []
    else
      var e := walk[|walk| - 1];
      IntendedExpectedNames(start, walk[..|walk| - 1]) +
        (if QualifiesIntended(e) then [BlobNameFor(start, e.root)] else [])
  }

  /** Number of walked directories outside the cache. */
  function UncachedCount(walk: seq<WalkEntry>): nat
    decreases |walk|
  {
    if walk == [] then 0
    else UncachedCount(walk[..|walk| - 1]) + (if IsCached(walk[|walk| - 1].root) then 0 else 1)
  }

  /** The walk loop of the obsolete-state pass, appending one name per qualifying directory. */
  method CollectExpectedNames(start: string, walk: seq<WalkEntry>) returns (names: seq<string>)
    ensures names == ExpectedNames(start, walk)
  {
    names := [];
    for i := 0 to |walk|
      invariant names == ExpectedNames(start, walk[..i])
    {
      assert walk[..i + 1][..i] == walk[..i];
      var e := walk[i];
      if !Contains(e.root, CacheMarker) {
        // a filter object is truthy, so the directory counts whatever its files are
        var isTfDirectory := true;
        if isTfDirectory {
          var tfDirectory := Strip(RemoveAll(e.root, start), '/');
          names := names + [JoinPath(tfDirectory, StateFileName)];
        }
      }
    }
    assert walk[..|walk|] == walk;
  }

  /** The directory at index i of the walk yields name n. */
  predicate Yields(start: string, walk: seq<WalkEntry>, i: int, n: string) {
    0 <= i < |walk| && !IsCached(walk[i].root) && n == BlobNameFor(start, walk[i].root)
  }

  /** A name is expected iff some uncached walked directory yields it. */
  lemma ExpectedNamesIff(start: string, walk: seq<WalkEntry>, n: string)
    ensures n in ExpectedNames(start, walk) <==> exists i :: Yields(start, walk, i, n)
  {
    if n in ExpectedNames(start, walk) {
      ExpectedNameHasSource(start, walk, n);
    }
    if exists i :: Yields(start, walk, i, n) {
      var i :| Yields(start, walk, i, n);
      SourceYieldsExpectedName(start, walk, i, n);
    }
  }

  lemma {:induction false} ExpectedNameHasSource(start: string, walk: seq<WalkEntry>, n: string)
    requires n in ExpectedNames(start, walk)
    ensures exists i :: Yields(start, walk, i, n)
    decreases |walk|
  {
    var init := walk[..|walk| - 1];
    if n in ExpectedNames(start, init) {
      ExpectedNameHasSource(start, init, n);
      var i :| Yields(start, init, i, n);
      assert walk[i] == init[i];
      assert Yields(start, walk, i, n);
    } else {
      assert Yields(start, walk, |walk| - 1, n);
    }
  }

  lemma {:induction false} SourceYieldsExpectedName(start: string, walk: seq<WalkEntry>, i: int, n: string)
    requires Yields(start, walk, i, n)
    ensures n in ExpectedNames(start, walk)
    decreases |walk|
  {
    var init := walk[..|walk| - 1];
    if i < |init| {
      assert init[i] == walk[i];
      SourceYieldsExpectedName(start, init, i, n);
    }
  }

  /** Every uncached walked directory contributes exactly one name, cached ones none. */
  lemma {:induction false} ExpectedNamesLength(start: string, walk: seq<WalkEntry>)
    ensures |ExpectedNames(start, walk)| == UncachedCount(walk)
    decreases |walk|
  {
    if walk != [] {
      ExpectedNamesLength(start, walk[..|walk| - 1]);
    }
  }

  /** The files of a directory never exclude it: walks with the same directories expect the same names. */
  lemma {:induction false} FilesNeverExclude(start: string, walk: seq<WalkEntry>, other: seq<WalkEntry>)
    requires |walk| == |other|
    requires forall i :: 0 <= i < |walk| ==> walk[i].root == other[i].root
    ensures ExpectedNames(start, walk) == ExpectedNames(start, other)
    decreases |walk|
  {
    if walk != [] {
      FilesNeverExclude(start, walk[..|walk| - 1], other[..|other| - 1]);
    }
  }

  /** The start directory itself is expected to hold `default.tfstate`. */
  lemma StartDirectoryName(start: string)
    ensures BlobNameFor(start, start) == StateFileName
  {
    if start != [] {
      assert start[..|start|] == start;
      assert RemoveAll(start, start) == RemoveAll([], start) == [];
    }
  }

  /** A subdirectory `start/rel` in which `start` occurs only as the prefix is expected at `rel/default.tfstate`. */
  lemma SubdirectoryName(start: string, rel: string)
    requires start != []
    requires rel != [] && rel[0] != '/' && rel[|rel| - 1] != '/'
    requires !Contains("/" + rel, start)
    ensures BlobNameFor(start, start + "/" + rel) == rel + "/" + StateFileName
  {
    var root := start + "/" + rel;
    assert RemoveAll(root, start) == "/" + rel by {
      assert root[..|start|] == start;
      assert root[|start|..] == "/" + rel;
    }
    assert Strip("/" + rel, '/') == rel by {
      assert ("/" + rel)[1..] == rel;
      assert StripLeading("/" + rel, '/') == StripLeading(rel, '/') == rel;
      assert StripTrailing(rel, '/') == rel;
    }
    assert StateFileName[0] == 'd' && StateFileName[|StateFileName| - 1] == 'e';
    JoinSegments(rel, StateFileName);
  }

  /** One worked example: as written, `start` is cut out wherever it occurs in a path, not only at the front. */
  lemma StartCutOutEverywhere()
    ensures BlobNameFor("/r", "/r/a/r/b") == "a/b/default.tfstate"
  {
    CutOutTwice();
    StripSlashes();
    JoinStateFileName();
  }

  lemma JoinStateFileName()
    ensures JoinPath("a/b", StateFileName) == "a/b/default.tfstate"
  {
    assert !StartsWith(StateFileName, "/") by {
      assert StateFileName[..1][0] != '/';
    }
    assert !EndsWith("a/b", "/") by {
      assert "a/b"[2..][0] != '/';
    }
  }

  lemma CutOutTail()
    ensures RemoveAll("/r/b", "/r") == "/b"
  {
    assert RemoveAll("b", "/r") == "b";
    assert RemoveAll("/b", "/r") == "/b" by {
      assert "/b"[..2][1] != "/r"[1] && "/b"[1..] == "b";
      assert ['/'] + "b" == "/b";
    }
    assert "/r/b"[..2] == "/r" && "/r/b"[2..] == "/b";
  }

  lemma CutOutTwice()
    ensures RemoveAll("/r/a/r/b", "/r") == "/a/b"
  {
    CutOutTail();
    assert RemoveAll("a/r/b", "/r") == "a/b" by {
      assert "a/r/b"[..2][0] != "/r"[0] && "a/r/b"[1..] == "/r/b";
      assert ['a'] + "/b" == "a/b";
    }
    assert RemoveAll("/a/r/b", "/r") == "/a/b" by {
      assert "/a/r/b"[..2][1] != "/r"[1] && "/a/r/b"[1..] == "a/r/b";
      assert ['/'] + "a/b" == "/a/b";
    }
    assert "/r/a/r/b"[..2] == "/r" && "/r/a/r/b"[2..] == "/a/r/b";
  }

  lemma StripSlashes()
    ensures Strip("/a/b", '/') == "a/b"
  {
    assert "/a/b"[1..] == "a/b";
    assert StripLeading("a/b", '/') == "a/b";
    assert StripLeading("/a/b", '/') == "a/b";
    assert StripTrailing("a/b", '/') == "a/b";
  }

  /** Every name expected under the intended test is also expected as written. */
  lemma {:induction false} IntendedWithinAsWritten(start: string, walk: seq<WalkEntry>, n: string)
    requires n in IntendedExpectedNames(start, walk)
    ensures n in ExpectedNames(start, walk)
    decreases |walk|
  {
    var init := walk[..|walk| - 1];
    if n in IntendedExpectedNames(start, init) {
      IntendedWithinAsWritten(start, init, n);
    }
  }

  /** The two tests agree when every uncached directory holds a configuration file. */
  lemma {:induction false} IntendedAgreesWhenEveryUnitHasConfig(start: string, walk: seq<WalkEntry>)
    requires forall i :: 0 <= i < |walk| && !IsCached(walk[i].root) ==> HasConfigFile(walk[i].files)
    ensures IntendedExpectedNames(start, walk) == ExpectedNames(start, walk)
    decreases |walk|
  {
    if walk != [] {
      var init := walk[..|walk| - 1];
      assert forall i :: 0 <= i < |init| ==> init[i] == walk[i];
      IntendedAgreesWhenEveryUnitHasConfig(start, init);
    }
  }

  /** The intended test never yields more names than there are uncached directories. */
  lemma {:induction false} IntendedAtMostUncached(start: string, walk: seq<WalkEntry>)
    ensures |IntendedExpectedNames(start, walk)| <= UncachedCount(walk)
    decreases |walk|
  {
    if walk != [] {
      IntendedAtMostUncached(start, walk[..|walk| - 1]);
    }
  }

  /** The intended test yields one name per uncached directory only if the i-th one holds a configuration file. */
  lemma {:induction false} FullIntendedCountNeedsConfig(start: string, walk: seq<WalkEntry>, i: int)
    requires 0 <= i < |walk| && !IsCached(walk[i].root)
    ensures |IntendedExpectedNames(start, walk)| == UncachedCount(walk) ==> HasConfigFile(walk[i].files)
    decreases |walk|
  {
    var init := walk[..|walk| - 1];
    IntendedAtMostUncached(start, init);
    if i < |init| {
      assert init[i] == walk[i];
      FullIntendedCountNeedsConfig(start, init, i);
    }
  }

  /** Conversely, the two tests agree only when every uncached directory holds a configuration file. */
  lemma EveryUnitHasConfigWhenTestsAgree(start: string, walk: seq<WalkEntry>)
    requires IntendedExpectedNames(start, walk) == ExpectedNames(start, walk)
    ensures forall i :: 0 <= i < |walk| && !IsCached(walk[i].root) ==> HasConfigFile(walk[i].files)
  {
    ExpectedNamesLength(start, walk);
    forall i | 0 <= i < |walk| && !IsCached(walk[i].root)
      ensures HasConfigFile(walk[i].files)
    {
      FullIntendedCountNeedsConfig(start, walk, i);
    }
  }

  /** A directory with no configuration file at all still adds its name as written, and none under the intended test. */
  lemma DirectoryWithoutConfigStillExpected(start: string, walk: seq<WalkEntry>, e: WalkEntry)
    requires !IsCached(e.root) && !HasConfigFile(e.files)
    ensures ExpectedNames(start, walk + [e]) == ExpectedNames(start, walk) + [BlobNameFor(start, e.root)]
    ensures IntendedExpectedNames(start, walk + [e]) == IntendedExpectedNames(start, walk)
  {
    assert (walk + [e])[..|walk|] == walk;
  }
}
