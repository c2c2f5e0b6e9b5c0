/**
 * The script itself: the bucket and the console as objects the passes
 * update in place, the loop shared by the three cleanup functions, the
 * disposition of a matched object, and `main`.
 */
module Cleanup {
  import opened Wrappers
  import opened Text
  import opened Objects
  import opened Scan
  import opened Disposition
  import opened Session

  /** The storage bucket, held in memory. */
  class Bucket {
    /** The stored objects, in listing order. */
    var blobs: seq<Blob>
    /** Names of the objects whose content was fetched, in order. */
    var downloads: seq<string>

    ghost predicate Valid()
      reads this
    {
      DistinctNames(blobs)
    }

    constructor (initial: seq<Blob>)
      requires DistinctNames(initial)
      ensures Valid() && blobs == initial && downloads == []
    {
      blobs := initial;
      downloads := [];
    }

    /** `list_blobs(bucket)`: the objects as they stand when the pass starts. */
    method ListBlobs() returns (listing: seq<Blob>)
      ensures listing == blobs
    {
      listing := blobs;
    }

    /** `json.loads(blob.download_as_string())['resources']` for a stored object. */
    method Download(b: Blob) returns (resources: seq<Resource>)
      requires b in blobs
      modifies this`downloads
      ensures resources == b.resources
      ensures downloads == old(downloads) + [b.name]
    {
      resources := b.resources;
      downloads := downloads + [b.name];
    }

    /** `blob.delete()` for a stored object. */
    method Delete(name: string)
      requires Valid() && name in Names(blobs)
      modifies this`blobs
      ensures Valid()
      ensures blobs == Keep(old(blobs), {name})
    {
      KeepDistinct(blobs, {name});
      blobs := Keep(blobs, {name});
    }
  }

  /** The operator's terminal: scripted answers in, outcome lines out. */
  class Console {
    /** Lines not yet read. */
    var answers: seq<string>
    var log: seq<Event>

    constructor (script: seq<string>)
      ensures answers == script && log == []
    {
      answers := script;
      log := [];
    }

    /** `input(...)`: the next line, or None at end of input. */
    method ReadLine() returns (line: Option<string>)
      modifies this`answers
      ensures old(answers) == [] ==> line == None && answers == []
      ensures old(answers) != [] ==> line == Some(old(answers)[0]) && answers == old(answers)[1..]
    {
      if answers == [] {
        line := None;
      } else {
        line := Some(answers[0]);
        answers := answers[1..];
      }
    }

    method Emit(e: Event)
      modifies this`log
      ensures log == old(log) + [e]
    {
      log := log + [e];
    }
  }

  /** The parsed arguments; `main` switches the mode flags on in place. */
  class Args {
    var dryrun: bool
    var noconfirm: bool
    var bucket: string
    var repo: string
    var cleanupEmpty: bool
    var cleanupObsolete: bool
    var cleanupExtra: bool
    var cleanupAll: bool

    constructor (f: Flags)
      ensures AsFlags() == f
    {
      dryrun, noconfirm, bucket, repo := f.dryrun, f.noconfirm, f.bucket, f.repo;
      cleanupEmpty, cleanupObsolete, cleanupExtra, cleanupAll :=
        f.cleanupEmpty, f.cleanupObsolete, f.cleanupExtra, f.cleanupAll;
    }

    function AsFlags(): Flags
      reads this
    {
      Flags(dryrun, noconfirm, bucket, repo, cleanupEmpty, cleanupObsolete, cleanupExtra, cleanupAll)
    }
  }

  ghost function WorldOf(bucket: Bucket, console: Console): World
    reads bucket, console
  {
    World(bucket.blobs, bucket.downloads, console.answers, console.log)
  }

  /** The disposition of one matched object, identical in the three passes. */
  method Dispose(category: Category, b: Blob, dryrun: bool, noconfirm: bool, bucket: Bucket, console: Console)
    returns (aborted: bool)
    requires bucket.Valid() && b.name in Names(bucket.blobs)
    modifies bucket, console
    ensures bucket.Valid()
    ensures var policy := PolicyOf(dryrun, noconfirm);
            var d := Decide(policy, old(console.answers));
            && aborted == (d == NoAnswer)
            && bucket.blobs == (if d == Remove then Keep(old(bucket.blobs), {b.name}) else old(bucket.blobs))
            && bucket.downloads == old(bucket.downloads)
            && console.answers == Remaining(policy, old(console.answers))
            && console.log == old(console.log) + Logged(d, category, b.name)
  {
    aborted := false;
    if dryrun {
      console.Emit(Reported(category, b.name));
    } else if noconfirm {
      bucket.Delete(b.name);
      console.Emit(Deleted(category, b.name));
    } else {
      var line := console.ReadLine();
      if line.None? {
        return true;
      }
      var confirm := Lower(line.value);
      if confirm == "y" {
        bucket.Delete(b.name);
        console.Emit(Deleted(category, b.name));
      } else {
        console.Emit(Skipped(category, b.name));
      }
    }
  }

  /** The pass's match rule for one object, fetching its content when the empty-state gate lets it through. */
  method Inspect(pass: Pass, b: Blob, bucket: Bucket) returns (matched: bool)
    requires b in bucket.blobs
    modifies bucket`downloads
    ensures matched == Matches(pass, b)
    ensures bucket.downloads == old(bucket.downloads) + (if Inspects(pass, b) then [b.name] else [])
  {
    matched := false;
    match pass {
      case EmptyPass =>
        if EndsWith(b.name, StateSuffix) && b.size < EmptyStateSizeLimit {
          var resources := bucket.Download(b);
          matched := resources == [];
        }
      case ObsoletePass(expected) =>
        matched := EndsWith(b.name, StateSuffix) && b.name !in expected;
      case ExtraPass =>
        matched := !EndsWith(b.name, StateSuffix);
    }
  }

  /** One iteration of a cleanup loop: the pass's match rule for `listing[i]`, then the disposition of a match. */
  method Visit(pass: Pass, listing: seq<Blob>, i: nat, dryrun: bool, noconfirm: bool, bucket: Bucket, console: Console,
               ghost w0: World)
    returns (stop: bool)
    requires i < |listing| && listing == w0.blobs && DistinctNames(listing)
    requires bucket.Valid() && !RunPass(pass, PolicyOf(dryrun, noconfirm), listing[..i], w0.answers).aborted
    requires WorldOf(bucket, console) == Applied(w0, RunPass(pass, PolicyOf(dryrun, noconfirm), listing[..i], w0.answers))
    modifies bucket, console
    ensures bucket.Valid()
    ensures var next := RunPass(pass, PolicyOf(dryrun, noconfirm), listing[..i + 1], w0.answers);
            stop == next.aborted && WorldOf(bucket, console) == Applied(w0, next)
  {
    ghost var policy := PolicyOf(dryrun, noconfirm);
    ghost var t := RunPass(pass, policy, listing[..i], w0.answers);
    var b := listing[i];
    assert listing[..i + 1][..i] == listing[..i];
    assert RunPass(pass, policy, listing[..i + 1], w0.answers) == Step(pass, policy, t, b);
    NotYetDeleted(pass, policy, listing, w0.answers, i);
    KeepIff(w0.blobs, (set n | n in t.deleted), b);
    NameIn(bucket.blobs, b);
    ghost var t1 := if Inspects(pass, b) then t.(fetched := t.fetched + [b.name]) else t;
    var matched := Inspect(pass, b, bucket);
    assert WorldOf(bucket, console) == Applied(w0, t1);
    stop := false;
    if matched {
      stop := Dispose(CategoryOf(pass), b, dryrun, noconfirm, bucket, console);
      DisposedApplied(w0, policy, CategoryOf(pass), b.name, t1);
    }
  }

  /** The loop of a cleanup function over one listing of the bucket. */
  method CleanupPass(pass: Pass, dryrun: bool, noconfirm: bool, bucket: Bucket, console: Console)
    returns (aborted: bool)
    requires bucket.Valid()
    modifies bucket, console
    ensures bucket.Valid()
    ensures PassResult(WorldOf(bucket, console), aborted) ==
            ApplyPass(pass, PolicyOf(dryrun, noconfirm), old(WorldOf(bucket, console)))
  {
    var listing := bucket.ListBlobs();
    ghost var policy := PolicyOf(dryrun, noconfirm);
    ghost var w0 := WorldOf(bucket, console);
    PassStarts(pass, policy, w0);
    var i := 0;
    while i < |listing|
      invariant listing == w0.blobs && DistinctNames(listing)
      invariant 0 <= i <= |listing|
      invariant bucket.Valid()
      invariant !RunPass(pass, policy, listing[..i], w0.answers).aborted
      invariant WorldOf(bucket, console) == Applied(w0, RunPass(pass, policy, listing[..i], w0.answers))
    {
      var stop := Visit(pass, listing, i, dryrun, noconfirm, bucket, console, w0);
      if stop {
        PassEnds(pass, policy, w0, i + 1);
        return true;
      }
      i := i + 1;
    }
    PassEnds(pass, policy, w0, i);
    return false;
  }

  /** `cleanup_empty_states` */
  method CleanupEmptyStates(args: Args, bucket: Bucket, console: Console) returns (outcome: Outcome)
    requires bucket.Valid()
    modifies bucket, console
    ensures bucket.Valid()
    ensures Progress(WorldOf(bucket, console), outcome) == EmptyCleanup(args.AsFlags(), old(WorldOf(bucket, console)))
  {
    var aborted := CleanupPass(EmptyPass, args.dryrun, args.noconfirm, bucket, console);
    outcome := if aborted then Aborted(EndOfInput) else Completed;
  }

  /** `cleanup_obsolte_states`; `walk` is what `os.walk` yields for the organization directory. */
  method CleanupObsoleteStates(args: Args, bucket: Bucket, console: Console, walk: seq<WalkEntry>)
    returns (outcome: Outcome)
    requires bucket.Valid()
    modifies bucket, console
    ensures bucket.Valid()
    ensures Progress(WorldOf(bucket, console), outcome) ==
            ObsoleteCleanup(args.AsFlags(), walk, old(WorldOf(bucket, console)))
  {
    var startPath := StartPath(args.repo, args.bucket);
    if startPath.None? {
      return Aborted(UnknownBucket);
    }
    var expected := CollectExpectedNames(startPath.value, walk);
    var aborted := CleanupPass(ObsoletePass(expected), args.dryrun, args.noconfirm, bucket, console);
    outcome := if aborted then Aborted(EndOfInput) else Completed;
  }

  /** `cleanup_extra_objects` */
  method CleanupExtraObjects(args: Args, bucket: Bucket, console: Console) returns (outcome: Outcome)
    requires bucket.Valid()
    modifies bucket, console
    ensures bucket.Valid()
    ensures Progress(WorldOf(bucket, console), outcome) == ExtraCleanup(args.AsFlags(), old(WorldOf(bucket, console)))
  {
    var aborted := CleanupPass(ExtraPass, args.dryrun, args.noconfirm, bucket, console);
    outcome := if aborted then Aborted(EndOfInput) else Completed;
  }

  /** `main` after argument parsing; an exception raised by a pass ends the run there. */
  method Run(args: Args, bucket: Bucket, console: Console, walk: seq<WalkEntry>) returns (outcome: Outcome)
    requires bucket.Valid()
    modifies args, bucket, console
    ensures bucket.Valid()
    ensures args.AsFlags() == Resolve(old(args.AsFlags()))
    ensures Progress(WorldOf(bucket, console), outcome) ==
            RunSpec(old(args.AsFlags()), old(WorldOf(bucket, console)), walk)
  {
    if args.cleanupAll {
      args.cleanupEmpty := true;
      args.cleanupObsolete := true;
      args.cleanupExtra := true;
    }
    if !args.cleanupEmpty && !args.cleanupObsolete && !args.cleanupExtra {
      return UsageError;
    }
    outcome := Completed;
    if args.cleanupEmpty {
      outcome := CleanupEmptyStates(args, bucket, console);
      if outcome != Completed {
        return;
      }
    }
    if args.cleanupObsolete {
      outcome := CleanupObsoleteStates(args, bucket, console, walk);
      if outcome != Completed {
        return;
      }
    }
    if args.cleanupExtra {
      outcome := CleanupExtraObjects(args, bucket, console);
    }
  }
}
