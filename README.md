# Terragrunt state bucket cleanup, modelled in Dafny

`cleanup-state-bucket.py` tidies a Google Cloud Storage bucket that holds
Terragrunt/Terraform state. It runs up to three passes over the bucket, always
in the same order:

- the **empty-state** pass: a `.tfstate` object under 200 bytes whose parsed
  `resources` list is empty;
- the **obsolete-state** pass: a `.tfstate` object whose name is not among the
  names derived from a walk of the infrastructure repository;
- the **extra-object** pass: any object whose name does not end in `.tfstate`.

Each matched object is then handled the same way in every pass:

- a dry run only reports it;
- `--noconfirm` deletes it;
- otherwise the operator is asked, and only an answer that lower-cases to `y`
  deletes it.

`--cleanup-all` switches all three modes on. With no mode set, the script
prints its usage and exits with status 1.

The model has six modules:

- `Text`: the Python string and path builtins the script uses (`endswith`,
  `in`, `replace`, `strip`, `lower`, `os.path.join`), restated on `seq<char>`.
- `Objects`: blobs, the three classification predicates, and the bucket
  after deletions (`Keep`).
- `Scan`: the expected state names, derived from a walk of the organization
  directory. This is both a reference function and the imperative walk loop.
- `Disposition`: one pass as a function of the listing and the operator's
  scripted answers (`RunPass`, producing a `Trace`), plus its properties.
- `Session`: flag resolution and the ordering of the passes in `main`
  (`RunSpec`).
- `Cleanup`: the script itself, as imperative code. The bucket, the console
  and the parsed arguments are classes updated in place. The shared pass
  loop (`CleanupPass`) is proved to end in exactly the world the
  `Disposition` specification computes, and `Run` is proved against
  `RunSpec`.

Where the code and the intended design differ, the model follows the code:

- `filter(...)` in the walk loop returns a filter object, which is always
  truthy. So every directory outside `.terragrunt-cache` counts as an
  infrastructure unit, whatever files it holds. `Scan.ExpectedNames` is the
  code as written. `Scan.IntendedExpectedNames` is the evidently intended
  test (a directory holding a `.hcl` file). Lemmas relate the two.
- `root.replace(start_path, '')` cuts out every occurrence of the start path,
  not only the leading one (shown on one worked example by `Scan.StartCutOutEverywhere`).
- `str.lower` is modelled for ASCII letters only. That is enough to decide
  whether an answer is `y`.

## Model

| member | source | states |
|---|---|---|
| Objects.KeepIff | cleanup-state-bucket.py:20 | after deleting the names in a set, an object remains iff it was there and its name is not in the set |
| Objects.KeepKeep | cleanup-state-bucket.py:20 | two successive rounds of deletion equal one deletion of the union of the names |
| Objects.KeepAbsent | cleanup-state-bucket.py:20 | deleting a name no object carries changes nothing |
| Objects.KeepDistinct | cleanup-state-bucket.py:20 | deleting objects keeps the remaining names unique |
| Objects.KeepNone | cleanup-state-bucket.py:13-28 | deleting no name leaves the bucket unchanged |
| Text.ContainsIff | cleanup-state-bucket.py:39 | the substring test `p in s` holds exactly when p occurs as a contiguous run at some index i with i + len(p) <= len(s) |
| Text.RemoveAll | cleanup-state-bucket.py:42 | `replace(p, '')` never lengthens a string and leaves a string without `p` unchanged |
| Text.StripLeading | cleanup-state-bucket.py:42 | `lstrip` never lengthens its input, and its result does not start with the stripped character |
| Text.StripTrailing | cleanup-state-bucket.py:42 | `rstrip` never lengthens its input, and its result does not end with the stripped character |
| Text.StripLeadingDropsOnly | cleanup-state-bucket.py:42 | `lstrip` returns a suffix of its input and drops only the stripped character |
| Text.StripTrailingDropsOnly | cleanup-state-bucket.py:42 | `rstrip` returns a prefix of its input and drops only the stripped character |
| Text.Strip | cleanup-state-bucket.py:42 | the result of `strip('/')` neither starts nor ends with `/` and is no longer than its input |
| Text.Lower | cleanup-state-bucket.py:23 | lower-casing keeps the length |
| Text.JoinPath | cleanup-state-bucket.py:43 | `os.path.join(a, b)` ends with a relative `b`, and is `b` itself when `a` is empty |
| Text.JoinSegments | cleanup-state-bucket.py:37 | joining two plain segments puts exactly one `/` between them |
| Scan.StartPath | cleanup-state-bucket.py:33-37 | a start directory exists iff the bucket is one of the two known buckets |
| Scan.StartPathForm | cleanup-state-bucket.py:33-37 | for a repository path without a trailing `/`, the walk starts at `repo/organization/<organization>` |
| Scan.OrganizationIsSegment | cleanup-state-bucket.py:33-36 | each organization directory in the table is a plain path segment, with no `/` at either end |
| Scan.CollectExpectedNames | cleanup-state-bucket.py:32-44 | the walk loop returns exactly `ExpectedNames` of the walk |
| Scan.ExpectedNamesIff | cleanup-state-bucket.py:38-44 | a name is expected iff some walked directory outside the cache yields it |
| Scan.ExpectedNamesLength | cleanup-state-bucket.py:38-44 | each uncached directory contributes exactly one name and cached ones contribute none |
| Scan.FilesNeverExclude | cleanup-state-bucket.py:40-41 | as written, the files of a directory never affect the expected names |
| Scan.StartDirectoryName | cleanup-state-bucket.py:42-43 | the start directory itself is expected at `default.tfstate` |
| Scan.SubdirectoryName | cleanup-state-bucket.py:42-43 | `start/rel` is expected at `rel/default.tfstate` when `start` occurs only as its prefix |
| Scan.StartCutOutEverywhere | cleanup-state-bucket.py:42 | one worked example: for start `/r` and root `/r/a/r/b`, the expected name is `a/b/default.tfstate`: every copy of the start is cut out |
| Scan.IntendedWithinAsWritten | cleanup-state-bucket.py:40-41 | every name expected under the intended `.hcl` test is also expected as written |
| Scan.IntendedAgreesWhenEveryUnitHasConfig | cleanup-state-bucket.py:40-41 | if every uncached directory holds a `.hcl` file, the two tests give the same names |
| Scan.IntendedAtMostUncached | cleanup-state-bucket.py:40-41 | the intended test yields at most one name per uncached directory |
| Scan.FullIntendedCountNeedsConfig | cleanup-state-bucket.py:40-41 | if the intended test yields as many names as there are uncached directories, each uncached directory holds a `.hcl` file |
| Scan.EveryUnitHasConfigWhenTestsAgree | cleanup-state-bucket.py:40-41 | conversely, if the two tests give the same names, every uncached directory holds a `.hcl` file; with the row above, the tests agree exactly when that holds |
| Scan.DirectoryWithoutConfigStillExpected | cleanup-state-bucket.py:40-41 | a directory without any `.hcl` file still adds its name as written, but adds none under the intended test |
| Disposition.PolicyOf | cleanup-state-bucket.py:17-23 | a dry run wins over no-confirm, and interactive mode applies only when neither flag is set |
| Disposition.IsYesIff | cleanup-state-bucket.py:23-24 | exactly the answers `y` and `Y` confirm a deletion |
| Disposition.SelectedIff | cleanup-state-bucket.py:13-16 | a pass selects exactly the listed objects its rule matches |
| Disposition.UnselectedIff | cleanup-state-bucket.py:48-50 | a pass leaves exactly the listed objects its rule does not match |
| Disposition.InspectedIff | cleanup-state-bucket.py:14-15 | only the empty-state pass downloads, and only objects named `.tfstate` that are smaller than 200 bytes |
| Disposition.EmptyPassSelection | cleanup-state-bucket.py:14-16 | an object is an empty state iff it is a `.tfstate`, is smaller than 200 bytes, and has no resources |
| Disposition.NamesOfSelected | cleanup-state-bucket.py:48-50 | a name is selected iff a listed object with that name matches |
| Disposition.ObsoleteIsSetDifference | cleanup-state-bucket.py:48-50 | the obsolete pass selects the listed state names minus the expected names |
| Disposition.ExtraSelectsNonState | cleanup-state-bucket.py:68-69 | the extra pass selects exactly the listed names that do not end in `.tfstate` |
| Disposition.DryRunDeletesNothing | cleanup-state-bucket.py:17-18 | a dry run deletes nothing, reads no answer, and reports every selected object in listing order |
| Disposition.NoConfirmDeletesEverySelected | cleanup-state-bucket.py:19-21 | without confirmation every selected object is deleted once, in listing order, and no answer is read |
| Disposition.InteractiveDisposes | cleanup-state-bucket.py:22-28 | one prompt consumes the next answer, and a yes deletes while anything else skips |
| Disposition.InteractiveAsksOncePerSelected | cleanup-state-bucket.py:22-28 | with enough answers, the k-th selected object consumes the k-th answer and is deleted iff that answer is yes |
| Disposition.InteractiveStopsWhenAnswersRunOut | cleanup-state-bucket.py:23 | when the answers run out, the pass stops at the first unanswered prompt, having deleted only the confirmed names before it |
| Disposition.OnlySelectedAreDeleted | cleanup-state-bucket.py:16-25 | no pass deletes an object it does not select |
| Disposition.FetchesOnlyInspected | cleanup-state-bucket.py:14-15 | the objects a pass downloads are a prefix of those past its gate, and are all of them unless the run stops early |
| Disposition.AbortedStays | cleanup-state-bucket.py:23 | once a pass has stopped, the rest of the listing changes nothing |
| Disposition.DeletingSelectedLeavesUnselected | cleanup-state-bucket.py:13-28 | in a bucket with unique names, deleting every selected name leaves exactly the unselected objects, in order |
| Disposition.DisposedApplied | cleanup-state-bucket.py:17-28 | one disposition deletes the name iff the decision is to remove it, consumes at most one answer, and logs one line unless input ended |
| Disposition.NotYetDeleted | cleanup-state-bucket.py:13 | in a listing with unique names, the object at index i has not been deleted by the iterations before it |
| Disposition.PassStarts | cleanup-state-bucket.py:12-13 | before its first iteration a pass has changed nothing |
| Disposition.PassEnds | cleanup-state-bucket.py:13 | a pass that has seen the whole listing, or has stopped, has done everything it will do |
| Session.Resolve | cleanup-state-bucket.py:99-102 | `--cleanup-all` turns on the three modes and changes nothing else; some mode is on iff `--cleanup-all` or a mode flag was given |
| Session.ExitCode | cleanup-state-bucket.py:104-106 | the exit status is 0 exactly after a completed run, and 1 otherwise |
| Session.NoModeIsUsageError | cleanup-state-bucket.py:104-106 | with no mode the run is a usage error with status 1, and the bucket is not touched |
| Session.NonInteractivePass | cleanup-state-bucket.py:17-21 | a dry-run or no-confirm pass reads no answer and never stops early |
| Session.DryRunPassKeepsBucket | cleanup-state-bucket.py:17-18 | a dry-run pass leaves the bucket as it is |
| Session.DryRunNeverDeletes | cleanup-state-bucket.py:99-113 | a dry run never deletes, never reads an answer and never ends at a prompt, whatever other flags are given |
| Session.NoConfirmPass | cleanup-state-bucket.py:19-21 | a no-confirm pass over unique names leaves exactly the unselected objects, downloads the inspected ones and logs one deletion per selected object |
| Session.CleanupAllRunsInOrder | cleanup-state-bucket.py:99-113 | with `--cleanup-all` the passes run empty, obsolete, extra, each on what the one before left, and the run ends at the first pass that does not complete |
| Session.NoConfirmAllDeletesPassByPass | cleanup-state-bucket.py:99-113 | `--cleanup-all --noconfirm` with a known bucket completes, runs empty, obsolete and extra in that order, each on what the previous pass left, and logs their deletions in that order |
| Session.NoConfirmAllKeepsOnlyLiveStates | cleanup-state-bucket.py:99-113 | after `--cleanup-all --noconfirm`, exactly the non-empty state files whose names the repository expects remain |
| Session.LiveStatesIff | cleanup-state-bucket.py:14-16 | the objects no pass selects are exactly the non-empty `.tfstate` objects with an expected name |
| Cleanup.Bucket.ListBlobs | cleanup-state-bucket.py:12 | a listing returns the stored objects in order |
| Cleanup.Bucket.Delete | cleanup-state-bucket.py:20 | deleting a stored object removes exactly that name and keeps the names unique |
| Cleanup.Bucket.Download | cleanup-state-bucket.py:15 | a download returns the object's payload and records the fetch |
| Cleanup.Console.ReadLine | cleanup-state-bucket.py:23 | `input()` returns the next scripted line, or nothing at end of input |
| Cleanup.Console.Emit | cleanup-state-bucket.py:17-28 | each printed outcome line is appended to the log |
| Cleanup.Args.constructor | cleanup-state-bucket.py:97 | the parsed arguments hold exactly the given flags |
| Cleanup.Dispose | cleanup-state-bucket.py:17-28 | the disposition of a matched object changes the bucket, the answers and the log exactly as `Decide` says |
| Cleanup.Inspect | cleanup-state-bucket.py:14-16 | the match rule of each pass returns `Matches`, downloading only past the empty-state gate |
| Cleanup.Visit | cleanup-state-bucket.py:13-28 | one loop iteration takes the world from the trace after i objects to the trace after i+1 |
| Cleanup.CleanupPass | cleanup-state-bucket.py:12-28 | the loop over one listing ends in exactly the world and stop flag that `ApplyPass` specifies |
| Cleanup.CleanupEmptyStates | cleanup-state-bucket.py:10-28 | the empty-state function does what `EmptyCleanup` specifies |
| Cleanup.CleanupObsoleteStates | cleanup-state-bucket.py:31-62 | the obsolete-state function does what `ObsoleteCleanup` specifies, failing before any listing for an unknown bucket |
| Cleanup.CleanupExtraObjects | cleanup-state-bucket.py:65-82 | the extra-object function does what `ExtraCleanup` specifies |
| Cleanup.Run | cleanup-state-bucket.py:99-113 | `main` after parsing resolves the flags in place and does what `RunSpec` specifies |

## Left out

- The Google Cloud Storage client is not modelled. Listing, download and
  delete are methods on an in-memory `Bucket`. A listing is taken as one
  snapshot when a pass starts. Paging of a lazy listing and concurrent
  writers are not modelled.
- JSON parsing is not modelled. A blob's `resources` field stands for the
  parsed payload. A malformed payload, or a missing `resources` key, would
  raise and end the script; neither is modelled.
- `blob.time_created.date()` and the exact text of prompts and report lines
  are left out. Each line is an `Event` carrying its category and the
  object's name.
- `argparse`, its defaults (including the default repository path derived
  from the script's location) and `print_help` are left out. Parsing is done
  by the time `Run` starts.
- `os.walk` is not modelled. The walk of the organization directory is an
  input (`walk`), one `(root, files)` entry per directory in walk order.
- Standard input is modelled as a scripted list of answers. End of input
  (`EOFError`) ends the run with status 1 (`Aborted(EndOfInput)`).
- An unknown bucket makes `os.path.join` raise on `None`. This is
  `Aborted(UnknownBucket)`, raised before the walk and before any listing.
- `Text.Lower`: only ASCII capitals are mapped. Other Unicode case mappings
  are left out.
- `Cleanup.Bucket.Delete` requires the object to be present. In the script, a
  `NotFound` from a concurrent delete would raise. Within one run it cannot
  happen, because names are unique and each object is visited once
  (`Disposition.NotYetDeleted`).
- `Text.JoinPath` models posix `os.path.join` for two arguments only.
