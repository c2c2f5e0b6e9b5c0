/**
 * One invocation of the script: the cleanup-mode flags after `--cleanup-all`
 * is applied, the usage error when no mode is left, and the three passes
 * in their fixed order, each over a fresh listing of the bucket that the
 * earlier passes left.
 */
module Session {
  import opened Wrappers
  import opened Objects
  import opened Scan
  import opened Disposition

  /** The parsed command line. */
  datatype Flags = Flags(dryrun: bool, noconfirm: bool, bucket: string, repo: string,
                         cleanupEmpty: bool, cleanupObsolete: bool, cleanupExtra: bool, cleanupAll: bool)

  predicate AnyMode(f: Flags) {
    f.cleanupEmpty || f.cleanupObsolete || f.cleanupExtra
  }

  /** `--cleanup-all` switches the three modes on; nothing else changes. */
  function Resolve(f: Flags): (g: Flags)
    ensures f.cleanupAll ==> g.cleanupEmpty && g.cleanupObsolete && g.cleanupExtra
    ensures !f.cleanupAll ==> g == f
    ensures g.(cleanupEmpty := f.cleanupEmpty, cleanupObsolete := f.cleanupObsolete, cleanupExtra := f.cleanupExtra) == f
    ensures AnyMode(g) <==> f.cleanupAll || AnyMode(f)
  {
    if f.cleanupAll then f.(cleanupEmpty := true, cleanupObsolete := true, cleanupExtra := true) else f
  }

  /** Why a run stops early: end of input at a prompt, or a bucket with no organization. */
  datatype Failure = EndOfInput | UnknownBucket

  datatype Outcome = Completed | UsageError | Aborted(failure: Failure)

  /** The process status: 0 after a completed run, 1 after the usage message or an uncaught exception. */
  function ExitCode(o: Outcome): (code: int)
    ensures code == 0 <==> o == Completed
    ensures code == 0 || code == 1
  {
    if o == Completed then 0 else 1
  }

  datatype Progress = Progress(world: World, outcome: Outcome)

  function ToProgress(r: PassResult): Progress {
    Progress(r.world, if r.aborted then Aborted(EndOfInput) else Completed)
  }

  /** `cleanup_empty_states` */
  function EmptyCleanup(f: Flags, w: World): Progress {
    ToProgress(ApplyPass(EmptyPass, PolicyOf(f.dryrun, f.noconfirm), w))
  }

  /** `cleanup_obsolte_states`: the walk given is the one of the organization directory. */
  function ObsoleteCleanup(f: Flags, walk: seq<WalkEntry>, w: World): Progress {
    match StartPath(f.repo, f.bucket)
    case None => Progress(w, Aborted(UnknownBucket))
    case Some(start) =>
      ToProgress(ApplyPass(ObsoletePass(ExpectedNames(start, walk)), PolicyOf(f.dryrun, f.noconfirm), w))
  }

  /** `cleanup_extra_objects` */
  function ExtraCleanup(f: Flags, w: World): Progress {
    ToProgress(ApplyPass(ExtraPass, PolicyOf(f.dryrun, f.noconfirm), w))
  }

  /** `main` after argument parsing. */
  function RunSpec(f: Flags, w: World, walk: seq<WalkEntry>): Progress {
    var g := Resolve(f);
    if !AnyMode(g) then Progress(w, UsageError)
    else
      var p1 := if g.cleanupEmpty then EmptyCleanup(g, w) else Progress(w, Completed);
      var p2 := if p1.outcome == Completed && g.cleanupObsolete then ObsoleteCleanup(g, walk, p1.world) else p1;
      if p2.outcome == Completed && g.cleanupExtra then ExtraCleanup(g, p2.world) else p2
  }

  /** With no cleanup mode the run prints its usage, exits with 1 and never touches the bucket. */
  lemma NoModeIsUsageError(f: Flags, w: World, walk: seq<WalkEntry>)
    requires !f.cleanupAll && !AnyMode(f)
    ensures RunSpec(f, w, walk) == Progress(w, UsageError)
    ensures ExitCode(RunSpec(f, w, walk).outcome) == 1
  {
  }

  /** A pass under a policy other than interactive consumes no answer and never stops early. */
  lemma NonInteractivePass(pass: Pass, policy: Policy, w: World)
    requires policy != Interactive
    ensures ApplyPass(pass, policy, w).world.answers == w.answers
    ensures !ApplyPass(pass, policy, w).aborted
  {
    if policy == DryRun {
      DryRunDeletesNothing(pass, w.blobs, w.answers);
    } else {
      NoConfirmDeletesEverySelected(pass, w.blobs, w.answers);
    }
  }

  /** A dry-run pass leaves the bucket as it is. */
  lemma DryRunPassKeepsBucket(pass: Pass, w: World)
    ensures ApplyPass(pass, DryRun, w).world.blobs == w.blobs
  {
    DryRunDeletesNothing(pass, w.blobs, w.answers);
    var t := RunPass(pass, DryRun, w.blobs, w.answers);
    assert (set n | n in t.deleted) == {};
    KeepNone(w.blobs);
  }

  /** A dry run never deletes and never asks, whatever other flags are set. */
  lemma DryRunNeverDeletes(f: Flags, w: World, walk: seq<WalkEntry>)
    requires f.dryrun
    ensures RunSpec(f, w, walk).world.blobs == w.blobs
    ensures RunSpec(f, w, walk).world.answers == w.answers
    ensures RunSpec(f, w, walk).outcome != Aborted(EndOfInput)
  {
    var g := Resolve(f);
    assert PolicyOf(g.dryrun, g.noconfirm) == DryRun;
    forall pass: Pass, v: World
      ensures ApplyPass(pass, DryRun, v).world.blobs == v.blobs
      ensures ApplyPass(pass, DryRun, v).world.answers == v.answers && !ApplyPass(pass, DryRun, v).aborted
    {
      DryRunPassKeepsBucket(pass, v);
      NonInteractivePass(pass, DryRun, v);
    }
  }

  /** A pass without confirmation over a bucket with unique names leaves exactly the unselected objects. */
  lemma NoConfirmPass(pass: Pass, w: World)
    requires DistinctNames(w.blobs)
    ensures ApplyPass(pass, NoConfirm, w) ==
            PassResult(World(Unselected(pass, w.blobs), w.downloads + Inspected(pass, w.blobs), w.answers,
                             w.log + Deletions(CategoryOf(pass), Names(Selected(pass, w.blobs)))), false)
    ensures DistinctNames(Unselected(pass, w.blobs))
  {
    NoConfirmDeletesEverySelected(pass, w.blobs, w.answers);
    DeletingSelectedLeavesUnselected(pass, w.blobs);
    KeepDistinct(w.blobs, set n | n in Names(Selected(pass, w.blobs)));
  }

  /** With `--cleanup-all` the three passes run in their fixed order, each on what the one before left. */
  lemma CleanupAllRunsInOrder(f: Flags, w: World, walk: seq<WalkEntry>)
    requires f.cleanupAll
    ensures var g := Resolve(f);
            var p1 := EmptyCleanup(g, w);
            var p2 := ObsoleteCleanup(g, walk, p1.world);
            RunSpec(f, w, walk) ==
            if p1.outcome != Completed then p1
            else if p2.outcome != Completed then p2
            else ExtraCleanup(g, p2.world)
  {
  }

  /**
   * `--cleanup-all --noconfirm` with a known bucket deletes every empty
   * state, then every state with no unit among the remaining objects, then
   * every extra object among what is left, asking nothing. The log lists
   * the deletions pass by pass in that order.
   */
  lemma NoConfirmAllDeletesPassByPass(f: Flags, w: World, walk: seq<WalkEntry>, start: string)
    requires f.cleanupAll && !f.dryrun && f.noconfirm
    requires StartPath(f.repo, f.bucket) == Some(start)
    requires DistinctNames(w.blobs)
    ensures var expected := ExpectedNames(start, walk);
            var b1 := Unselected(EmptyPass, w.blobs);
            var b2 := Unselected(ObsoletePass(expected), b1);
            RunSpec(f, w, walk) ==
            Progress(World(Unselected(ExtraPass, b2),
                           w.downloads + Inspected(EmptyPass, w.blobs) + Inspected(ObsoletePass(expected), b1)
                                       + Inspected(ExtraPass, b2),
                           w.answers,
                           w.log + Deletions(EmptyState, Names(Selected(EmptyPass, w.blobs)))
                                 + Deletions(ObsoleteState, Names(Selected(ObsoletePass(expected), b1)))
                                 + Deletions(ExtraObject, Names(Selected(ExtraPass, b2)))),
                     Completed)
  {
    var g := Resolve(f);
    assert StartPath(g.repo, g.bucket) == Some(start);
    var expected := ExpectedNames(start, walk);
    assert PolicyOf(g.dryrun, g.noconfirm) == NoConfirm;
    var b0 := w.blobs;
    var b1 := Unselected(EmptyPass, b0);
    var b2 := Unselected(ObsoletePass(expected), b1);
    CleanupAllRunsInOrder(f, w, walk);
    NoConfirmPass(EmptyPass, w);
    var w1 := World(b1, w.downloads + Inspected(EmptyPass, b0), w.answers,
                    w.log + Deletions(EmptyState, Names(Selected(EmptyPass, b0))));
    assert EmptyCleanup(g, w) == Progress(w1, Completed);
    NoConfirmPass(ObsoletePass(expected), w1);
    var w2 := World(b2, w1.downloads + Inspected(ObsoletePass(expected), b1), w.answers,
                    w1.log + Deletions(ObsoleteState, Names(Selected(ObsoletePass(expected), b1))));
    assert ObsoleteCleanup(g, walk, w1) == Progress(w2, Completed);
    NoConfirmPass(ExtraPass, w2);
  }

  /** After `--cleanup-all --noconfirm` exactly the non-empty state files whose names the repository expects remain. */
  lemma NoConfirmAllKeepsOnlyLiveStates(f: Flags, w: World, walk: seq<WalkEntry>, start: string)
    requires f.cleanupAll && !f.dryrun && f.noconfirm
    requires StartPath(f.repo, f.bucket) == Some(start)
    requires DistinctNames(w.blobs)
    ensures forall b :: b in RunSpec(f, w, walk).world.blobs <==>
              b in w.blobs && IsStateName(b.name) && !IsEmptyState(b) && b.name in ExpectedNames(start, walk)
  {
    NoConfirmAllDeletesPassByPass(f, w, walk, start);
    LiveStatesIff(w.blobs, ExpectedNames(start, walk));
  }

  /** The objects no pass selects are the non-empty state files the repository expects. */
  lemma LiveStatesIff(b0: seq<Blob>, expected: seq<string>)
    ensures var b2 := Unselected(ObsoletePass(expected), Unselected(EmptyPass, b0));
            forall b :: b in Unselected(ExtraPass, b2) <==>
              b in b0 && IsStateName(b.name) && !IsEmptyState(b) && b.name in expected
  {
    var b1 := Unselected(EmptyPass, b0);
    var b2 := Unselected(ObsoletePass(expected), b1);
    forall b
      ensures b in Unselected(ExtraPass, b2) <==>
              b in b0 && IsStateName(b.name) && !IsEmptyState(b) && b.name in expected
    {
      UnselectedIff(ExtraPass, b2, b);
      UnselectedIff(ObsoletePass(expected), b1, b);
      UnselectedIff(EmptyPass, b0, b);
    }
  }
}
