/**
 * Objects of the state bucket: a blob's name, size and (abstract) JSON
 * payload, the three per-object classification rules of the cleanup
 * passes, and the bucket that remains once some names are deleted.
 */
module Objects {
  import opened Text

  /** Suffix of a Terraform state object name. */
  const StateSuffix := ".tfstate"
  /** Size gate of the empty-state pass: an empty state file is typically 157 to 159 bytes. */
  const EmptyStateSizeLimit := 200

  /** One entry of a state file's `resources` list; only its presence matters. */
  datatype Resource = Resource(address: string)

  /** A stored object; `resources` stands for the parsed payload's `resources` field. */
  datatype Blob = Blob(name: string, size: nat, resources: seq<Resource>)

  predicate IsStateName(name: string) {
    EndsWith(name, StateSuffix)
  }

  /** The cheap test the empty-state pass makes before it downloads a blob. */
  predicate PassesEmptyGate(b: Blob) {
    IsStateName(b.name) && b.size < EmptyStateSizeLimit
  }

  /** Empty state: a small `.tfstate` object whose `resources` list is empty (falsy). */
  predicate IsEmptyState(b: Blob) {
    PassesEmptyGate(b) && b.resources == []
  }

  /** Obsolete state: a `.tfstate` object whose name is not among the expected names. */
  predicate IsObsoleteState(b: Blob, expected: seq<string>) {
    IsStateName(b.name) && b.name !in expected
  }

  /** Extra object: anything whose name is not a state name. */
  predicate IsExtraObject(b: Blob) {
    !IsStateName(b.name)
  }

  function Names(bs: seq<Blob>): (ns: seq<string>)
    ensures |ns| == |bs| && forall i :: 0 <= i < |bs| ==> ns[i] == bs[i].name
  {
    seq(|bs|, i requires 0 <= i < |bs| => bs[i].name)
  }

  /** Object names in a bucket are unique. */
  predicate DistinctNames(bs: seq<Blob>) {
    forall i, j :: 0 <= i < j < |bs| ==> bs[i].name != bs[j].name
  }

  /** The bucket after every object named in `gone` is deleted: the others, in listing order. */
  function Keep(bs: seq<Blob>, gone: set<string>): seq<Blob>
    decreases |bs|
  {
    if bs == [] then []
    else
      var last := bs[|bs| - 1];
      Keep(bs[..|bs| - 1], gone) + (if last.name in gone then [] else [last])
  }

  lemma NamesSnoc(bs: seq<Blob>, b: Blob)
    ensures Names(bs + [b]) == Names(bs) + [b.name]
  {
    assert forall i :: 0 <= i < |bs| + 1 ==> Names(bs + [b])[i] == (Names(bs) + [b.name])[i];
  }

  lemma NameIn(bs: seq<Blob>, b: Blob)
    requires b in bs
    ensures b.name in Names(bs)
  {
    var i :| 0 <= i < |bs| && bs[i] == b;
    assert Names(bs)[i] == b.name;
  }

  /** Deleting keeps exactly the objects whose names were not deleted. */
  lemma {:induction false} KeepIff(bs: seq<Blob>, gone: set<string>, b: Blob)
    ensures b in Keep(bs, gone) <==> b in bs && b.name !in gone
    decreases |bs|
  {
    if bs != [] {
      var init := bs[..|bs| - 1];
      KeepIff(init, gone, b);
      assert bs == init + [bs[|bs| - 1]];
    }
  }

  /** Deleting nothing leaves the bucket as it is. */
  lemma {:induction false} KeepNone(bs: seq<Blob>)
    ensures Keep(bs, {}) == bs
    decreases |bs|
  {
    if bs != [] {
      KeepNone(bs[..|bs| - 1]);
    }
  }

  /** Deleting a name that is already gone changes nothing further: two deletions compose. */
  lemma {:induction false} KeepKeep(bs: seq<Blob>, first: set<string>, second: set<string>)
    ensures Keep(Keep(bs, first), second) == Keep(bs, first + second)
    decreases |bs|
  {
    if bs != [] {
      var init := bs[..|bs| - 1];
      var last := bs[|bs| - 1];
      KeepKeep(init, first, second);
      var k := Keep(init, first);
      if last.name !in first {
        assert Keep(bs, first) == k + [last];
        assert (k + [last])[..|k + [last]| - 1] == k;
      } else {
        assert Keep(bs, first) == k;
      }
    }
  }

  /** Deleting a name no object carries leaves the objects as they are. */
  lemma {:induction false} KeepAbsent(bs: seq<Blob>, gone: set<string>, n: string)
    requires n !in Names(bs)
    ensures Keep(bs, gone + {n}) == Keep(bs, gone)
    decreases |bs|
  {
    if bs != [] {
      var init := bs[..|bs| - 1];
      assert bs == init + [bs[|bs| - 1]];
      NamesSnoc(init, bs[|bs| - 1]);
      KeepAbsent(init, gone, n);
    }
  }

  /** Deleting objects keeps the names of the remaining ones unique. */
  lemma {:induction false} KeepDistinct(bs: seq<Blob>, gone: set<string>)
    requires DistinctNames(bs)
    ensures DistinctNames(Keep(bs, gone))
    decreases |bs|
  {
    if bs != [] {
      var init := bs[..|bs| - 1];
      var last := bs[|bs| - 1];
      KeepDistinct(init, gone);
      var k := Keep(init, gone);
      if last.name !in gone {
        forall i | 0 <= i < |k|
          ensures k[i].name != last.name
        {
          KeepIff(init, gone, k[i]);
          var j :| 0 <= j < |init| && init[j] == k[i];
          assert bs[j] == init[j] && bs[|bs| - 1] == last;
        }
      }
    }
  }
}
