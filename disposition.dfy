/**
 * What one cleanup pass does, as a function of the bucket listing it walks
 * and the operator's scripted answers: which objects it downloads, which it
 * deletes, what it reports, and which answers it consumes. The three passes
 * differ only in their match rule; the disposition of a matched object is
 * the same in all of them.
 */
module Disposition {
  import opened Text
  import opened Objects

  datatype Pass = EmptyPass | ObsoletePass(expected: seq<string>) | ExtraPass

  datatype Category = EmptyState | ObsoleteState | ExtraObject

  function CategoryOf(pass: Pass): Category {
    match pass
    case EmptyPass => EmptyState
    case ObsoletePass(_) => ObsoleteState
    case ExtraPass => ExtraObject
  }

  /** Whether the pass downloads the object's content before deciding. */
  predicate Inspects(pass: Pass, b: Blob) {
    pass.EmptyPass? && PassesEmptyGate(b)
  }

  /** The pass's match rule. */
  predicate Matches(pass: Pass, b: Blob) {
    match pass
    case EmptyPass => IsEmptyState(b)
    case ObsoletePass(expected) => IsObsoleteState(b, expected)
    case ExtraPass => IsExtraObject(b)
  }

  datatype Policy = DryRun | NoConfirm | Interactive

  /** The flags in the order the passes test them: a dry run wins over no-confirm. */
  function PolicyOf(dryrun: bool, noconfirm: bool): (p: Policy)
    ensures p == DryRun <==> dryrun
    ensures p == NoConfirm <==> !dryrun && noconfirm
    ensures p == Interactive <==> !dryrun && !noconfirm
  {
    if dryrun then DryRun else if noconfirm then NoConfirm else Interactive
  }

  /** The operator's answer, lower-cased, is `y`. */
  predicate IsYes(answer: string) {
    Lower(answer) == "y"
  }

  /** Exactly `y` and `Y` confirm a deletion. */
  lemma IsYesIff(answer: string)
    ensures IsYes(answer) <==> answer == "y" || answer == "Y"
  {
    if IsYes(answer) {
      assert Lower(answer)[0] == LowerChar(answer[0]);
      assert answer == [answer[0]];
    }
  }

  datatype Decision = Report | Remove | Retain | NoAnswer

  /** The disposition of a matched object; in interactive mode the next answer decides, and a missing answer ends the run. */
  function Decide(policy: Policy, answers: seq<string>): Decision {
    match policy
    case DryRun => Report
    case NoConfirm => Remove
    case Interactive =>
      if answers == [] then NoAnswer
      else if IsYes(answers[0]) then Remove
      else Retain
  }

  /** Answers left after disposing of one matched object. */
  function Remaining(policy: Policy, answers: seq<string>): seq<string> {
    if policy == Interactive && answers != [] then answers[1..] else answers
  }

  /** Outcome lines the script prints, without their formatting. */
  datatype Event = Reported(category: Category, name: string)
                 | Deleted(category: Category, name: string)
                 | Skipped(category: Category, name: string)

  function Logged(d: Decision, category: Category, name: string): seq<Event> {
    match d
    case Report => [Reported(category, name)]
    case Remove => [Deleted(category, name)]
    case Retain => [Skipped(category, name)]
    case NoAnswer => []
  }

  /** What a pass has done so far: names deleted and downloaded, in order, lines logged and answers left. */
  datatype Trace = Trace(deleted: seq<string>, fetched: seq<string>, log: seq<Event>,
                         rest: seq<string>, aborted: bool)

  function Disposed(policy: Policy, category: Category, name: string, t: Trace): Trace {
    var d := Decide(policy, t.rest);
    Trace(t.deleted + (if d == Remove then [name] else []), t.fetched,
          t.log + Logged(d, category, name), Remaining(policy, t.rest), d == NoAnswer)
  }

  /** One iteration of a pass's loop over the listing. */
  function Step(pass: Pass, policy: Policy, t: Trace, b: Blob): Trace {
    if t.aborted then t
    else
      var t1 := if Inspects(pass, b) then t.(fetched := t.fetched + [b.name]) else t;
      if Matches(pass, b) then Disposed(policy, CategoryOf(pass), b.name, t1) else t1
  }

  /** A pass over `listing` with the operator's answers `answers`. */
  function RunPass(pass: Pass, policy: Policy, listing: seq<Blob>, answers: seq<string>): Trace
    decreases |listing|
  {
    if listing == [] then Trace([], [], [], answers, false)
    else Step(pass, policy, RunPass(pass, policy, listing[..|listing| - 1], answers), listing[|listing| - 1])
  }

  /** The objects of `listing` the pass matches, in order. */
  function Selected(pass: Pass, listing: seq<Blob>): seq<Blob>
    decreases |listing|
  {
    if listing == [] then []
    else
      var b := listing[|listing| - 1];
      Selected(pass, listing[..|listing| - 1]) + (if Matches(pass, b) then [b] else [])
  }

  /** The objects of `listing` the pass does not match, in order. */
  function Unselected(pass: Pass, listing: seq<Blob>): seq<Blob>
    decreases |listing|
  {
    if listing == [] then []
    else
      var b := listing[|listing| - 1];
      Unselected(pass, listing[..|listing| - 1]) + (if Matches(pass, b) then [] else [b])
  }

  /** Names of the objects of `listing` the pass downloads, in order. */
  function Inspected(pass: Pass, listing: seq<Blob>): seq<string>
    decreases |listing|
  {
    if listing == [] then []
    else
      var b := listing[|listing| - 1];
      Inspected(pass, listing[..|listing| - 1]) + (if Inspects(pass, b) then [b.name] else [])
  }

  function Reports(category: Category, names: seq<string>): seq<Event>
    decreases |names|
  {
    if names == [] then []
    else Reports(category, names[..|names| - 1]) + [Reported(category, names[|names| - 1])]
  }

  function Deletions(category: Category, names: seq<string>): seq<Event>
    decreases |names|
  {
    if names == [] then []
    else Deletions(category, names[..|names| - 1]) + [Deleted(category, names[|names| - 1])]
  }

  /** The interactive log: the k-th name is deleted or skipped as the k-th answer says. */
  function Answered(category: Category, names: seq<string>, answers: seq<string>): seq<Event>
    requires |names| <= |answers|
    decreases |names|
  {
    if names == [] then []
    else
      var k := |names| - 1;
      Answered(category, names[..k], answers) +
        [if IsYes(answers[k]) then Deleted(category, names[k]) else Skipped(category, names[k])]
  }

  /** The names whose answer is yes, in order. */
  function Confirmed(names: seq<string>, answers: seq<string>): seq<string>
    requires |names| <= |answers|
    decreases |names|
  {
    if names == [] then []
    else
      var k := |names| - 1;
      Confirmed(names[..k], answers) + (if IsYes(answers[k]) then [names[k]] else [])
  }

  lemma SelectedNamesStep(pass: Pass, listing: seq<Blob>)
    requires listing != []
    ensures var init, b := listing[..|listing| - 1], listing[|listing| - 1];
            Names(Selected(pass, listing)) == Names(Selected(pass, init)) + (if Matches(pass, b) then [b.name] else [])
  {
    var init, b := listing[..|listing| - 1], listing[|listing| - 1];
    if Matches(pass, b) {
      assert Selected(pass, listing) == Selected(pass, init) + [b];
      NamesSnoc(Selected(pass, init), b);
    } else {
      assert Selected(pass, listing) == Selected(pass, init);
    }
  }

  /** A pass selects exactly the listed objects its rule matches. */
  lemma {:induction false} SelectedIff(pass: Pass, listing: seq<Blob>, b: Blob)
    ensures b in Selected(pass, listing) <==> b in listing && Matches(pass, b)
    decreases |listing|
  {
    if listing != [] {
      var init := listing[..|listing| - 1];
      SelectedIff(pass, init, b);
      assert listing == init + [listing[|listing| - 1]];
    }
  }

  /** A pass leaves exactly the listed objects its rule does not match. */
  lemma {:induction false} UnselectedIff(pass: Pass, listing: seq<Blob>, b: Blob)
    ensures b in Unselected(pass, listing) <==> b in listing && !Matches(pass, b)
    decreases |listing|
  {
    if listing != [] {
      var init := listing[..|listing| - 1];
      UnselectedIff(pass, init, b);
      assert listing == init + [listing[|listing| - 1]];
    }
  }

  /** Only the empty-state pass downloads, and only objects past its name and size gate. */
  lemma {:induction false} InspectedIff(pass: Pass, listing: seq<Blob>, n: string)
    ensures n in Inspected(pass, listing) <==>
              pass.EmptyPass? && exists i :: 0 <= i < |listing| && listing[i].name == n && PassesEmptyGate(listing[i])
    decreases |listing|
  {
    if listing != [] {
      var init := listing[..|listing| - 1];
      InspectedIff(pass, init, n);
      assert forall i :: 0 <= i < |init| ==> init[i] == listing[i];
    }
  }

  /** The empty-state pass matches a listed object iff it passes the gate and its `resources` list is empty. */
  lemma EmptyPassSelection(listing: seq<Blob>, b: Blob)
    requires b in listing
    ensures b in Selected(EmptyPass, listing) <==>
              IsStateName(b.name) && b.size < EmptyStateSizeLimit && b.resources == []
  {
    SelectedIff(EmptyPass, listing, b);
  }

  lemma NamesOfSelected(pass: Pass, listing: seq<Blob>, n: string)
    ensures n in Names(Selected(pass, listing)) <==> exists b :: b in listing && Matches(pass, b) && b.name == n
  {
    var sel := Selected(pass, listing);
    if n in Names(sel) {
      var i :| 0 <= i < |sel| && Names(sel)[i] == n;
      SelectedIff(pass, listing, sel[i]);
    }
    if exists b :: b in listing && Matches(pass, b) && b.name == n {
      var b :| b in listing && Matches(pass, b) && b.name == n;
      SelectedIff(pass, listing, b);
      NameIn(sel, b);
    }
  }

  /** The obsolete pass selects the set difference of the listed state names and the expected names. */
  lemma ObsoleteIsSetDifference(expected: seq<string>, listing: seq<Blob>)
    ensures (set n | n in Names(Selected(ObsoletePass(expected), listing))) ==
            (set n | n in Names(listing) && IsStateName(n)) - (set n | n in expected)
  {
    var pass := ObsoletePass(expected);
    forall n
      ensures n in Names(Selected(pass, listing)) <==> n in Names(listing) && IsStateName(n) && n !in expected
    {
      NamesOfSelected(pass, listing, n);
      if n in Names(listing) {
        var i :| 0 <= i < |listing| && Names(listing)[i] == n;
        assert listing[i] in listing && listing[i].name == n;
      }
      if exists b :: b in listing && Matches(pass, b) && b.name == n {
        var b :| b in listing && Matches(pass, b) && b.name == n;
        NameIn(listing, b);
      }
    }
  }

  /** The extra-object pass selects exactly the listed names that are not state names. */
  lemma ExtraSelectsNonState(listing: seq<Blob>)
    ensures (set n | n in Names(Selected(ExtraPass, listing))) ==
            (set n | n in Names(listing) && !IsStateName(n))
  {
    forall n
      ensures n in Names(Selected(ExtraPass, listing)) <==> n in Names(listing) && !IsStateName(n)
    {
      NamesOfSelected(ExtraPass, listing, n);
      if n in Names(listing) {
        var i :| 0 <= i < |listing| && Names(listing)[i] == n;
        assert listing[i] in listing && listing[i].name == n;
      }
      if exists b :: b in listing && Matches(ExtraPass, b) && b.name == n {
        var b :| b in listing && Matches(ExtraPass, b) && b.name == n;
        NameIn(listing, b);
      }
    }
  }

  /** A dry run deletes nothing and consumes no answer; it reports every selected object. */
  lemma {:induction false} DryRunDeletesNothing(pass: Pass, listing: seq<Blob>, answers: seq<string>)
    ensures RunPass(pass, DryRun, listing, answers) ==
            Trace([], Inspected(pass, listing), Reports(CategoryOf(pass), Names(Selected(pass, listing))), answers, false)
    decreases |listing|
  {
    if listing != [] {
      var init := listing[..|listing| - 1];
      var b := listing[|listing| - 1];
      DryRunDeletesNothing(pass, init, answers);
      SelectedNamesStep(pass, listing);
      var t := RunPass(pass, DryRun, init, answers);
      var t1 := if Inspects(pass, b) then t.(fetched := t.fetched + [b.name]) else t;
      assert t1.fetched == Inspected(pass, listing);
      if Matches(pass, b) {
        var ns := Names(Selected(pass, init)) + [b.name];
        assert ns[..|ns| - 1] == Names(Selected(pass, init));
        assert Disposed(DryRun, CategoryOf(pass), b.name, t1).deleted == [];
        assert Disposed(DryRun, CategoryOf(pass), b.name, t1).log == Reports(CategoryOf(pass), ns);
        assert RunPass(pass, DryRun, listing, answers) == Disposed(DryRun, CategoryOf(pass), b.name, t1);
      } else {
        assert RunPass(pass, DryRun, listing, answers) == t1;
        assert Names(Selected(pass, listing)) == Names(Selected(pass, init));
      }
    }
  }

  /** Without confirmation every selected object is deleted, once, in listing order, and no answer is consumed. */
  lemma {:induction false} NoConfirmDeletesEverySelected(pass: Pass, listing: seq<Blob>, answers: seq<string>)
    ensures var names := Names(Selected(pass, listing));
            RunPass(pass, NoConfirm, listing, answers) ==
            Trace(names, Inspected(pass, listing), Deletions(CategoryOf(pass), names), answers, false)
    decreases |listing|
  {
    if listing != [] {
      var init := listing[..|listing| - 1];
      var b := listing[|listing| - 1];
      NoConfirmDeletesEverySelected(pass, init, answers);
      SelectedNamesStep(pass, listing);
      var ns := Names(Selected(pass, init)) + [b.name];
      assert ns[..|ns| - 1] == Names(Selected(pass, init));
    }
  }

  /** One interactive disposition with an answer left: the next answer is consumed, and a yes deletes. */
  lemma InteractiveDisposes(c: Category, t: Trace, names: seq<string>, name: string, answers: seq<string>)
    requires |names| < |answers|
    requires t.deleted == Confirmed(names, answers) && t.log == Answered(c, names, answers)
    requires t.rest == answers[|names|..]
    ensures Disposed(Interactive, c, name, t) ==
            Trace(Confirmed(names + [name], answers), t.fetched, Answered(c, names + [name], answers),
                  answers[|names| + 1..], false)
  {
    var ns := names + [name];
    var k := |names|;
    assert ns[..k] == names && ns[k] == name;
    assert t.rest[0] == answers[k] && t.rest[1..] == answers[k + 1..];
  }

  /**
   * Interactively, with an answer for every selected object, the k-th
   * selected object consumes the k-th answer and is deleted iff that answer
   * is yes.
   */
  lemma {:induction false} InteractiveAsksOncePerSelected(pass: Pass, listing: seq<Blob>, answers: seq<string>)
    requires |Selected(pass, listing)| <= |answers|
    ensures var names := Names(Selected(pass, listing));
            RunPass(pass, Interactive, listing, answers) ==
            Trace(Confirmed(names, answers), Inspected(pass, listing),
                  Answered(CategoryOf(pass), names, answers), answers[|names|..], false)
    decreases |listing|
  {
    if listing != [] {
      SelectedNamesStep(pass, listing);
      InteractiveAsksOncePerSelected(pass, listing[..|listing| - 1], answers);
      InteractiveAsksNext(pass, listing, answers);
    }
  }

  /** The inductive step of the lemma above: one more listed object. */
  lemma InteractiveAsksNext(pass: Pass, listing: seq<Blob>, answers: seq<string>)
    requires listing != [] && |Selected(pass, listing)| <= |answers|
    requires var init := listing[..|listing| - 1];
             var names := Names(Selected(pass, init));
             |names| <= |answers| &&
             RunPass(pass, Interactive, init, answers) ==
             Trace(Confirmed(names, answers), Inspected(pass, init),
                   Answered(CategoryOf(pass), names, answers), answers[|names|..], false)
    ensures var names := Names(Selected(pass, listing));
            RunPass(pass, Interactive, listing, answers) ==
            Trace(Confirmed(names, answers), Inspected(pass, listing),
                  Answered(CategoryOf(pass), names, answers), answers[|names|..], false)
  {
    var init := listing[..|listing| - 1];
    var b := listing[|listing| - 1];
    SelectedNamesStep(pass, listing);
    var ns := Names(Selected(pass, init));
    var t := RunPass(pass, Interactive, init, answers);
    var t1 := if Inspects(pass, b) then t.(fetched := t.fetched + [b.name]) else t;
    assert t1.fetched == Inspected(pass, listing);
    if Matches(pass, b) {
      assert RunPass(pass, Interactive, listing, answers) == Disposed(Interactive, CategoryOf(pass), b.name, t1);
      InteractiveDisposes(CategoryOf(pass), t1, ns, b.name, answers);
    } else {
      assert RunPass(pass, Interactive, listing, answers) == t1;
      assert Names(Selected(pass, listing)) == ns;
    }
  }

  /** Interactively, when the answers run out, the pass stops once it asks past the last one. */
  lemma {:induction false} InteractiveStopsWhenAnswersRunOut(pass: Pass, listing: seq<Blob>, answers: seq<string>)
    requires |answers| < |Selected(pass, listing)|
    ensures var t := RunPass(pass, Interactive, listing, answers);
            t.aborted && t.rest == [] &&
            t.deleted == Confirmed(Names(Selected(pass, listing))[..|answers|], answers)
    decreases |listing|
  {
    var init := listing[..|listing| - 1];
    var b := listing[|listing| - 1];
    SelectedNamesStep(pass, listing);
    var ns := Names(Selected(pass, init));
    var t := RunPass(pass, Interactive, init, answers);
    assert RunPass(pass, Interactive, listing, answers) == Step(pass, Interactive, t, b);
    if |answers| < |Selected(pass, init)| {
      InteractiveStopsWhenAnswersRunOut(pass, init, answers);
      assert Step(pass, Interactive, t, b) == t;
      if Matches(pass, b) {
        assert (ns + [b.name])[..|answers|] == ns[..|answers|];
      } else {
        assert Names(Selected(pass, listing)) == ns;
      }
    } else {
      InteractiveAsksOncePerSelected(pass, init, answers);
      assert Matches(pass, b) && |ns| == |answers|;
      assert t.rest == [];
      assert (ns + [b.name])[..|answers|] == ns;
    }
  }

  /** No pass deletes an object it does not select. */
  lemma {:induction false} OnlySelectedAreDeleted(pass: Pass, policy: Policy, listing: seq<Blob>, answers: seq<string>)
    ensures forall n :: n in RunPass(pass, policy, listing, answers).deleted ==> n in Names(Selected(pass, listing))
    decreases |listing|
  {
    if listing != [] {
      var init := listing[..|listing| - 1];
      var b := listing[|listing| - 1];
      OnlySelectedAreDeleted(pass, policy, init, answers);
      SelectedNamesStep(pass, listing);
    }
  }

  /** A pass downloads the objects past the gate in listing order, stopping only if the run ends early. */
  lemma {:induction false} FetchesOnlyInspected(pass: Pass, policy: Policy, listing: seq<Blob>, answers: seq<string>)
    ensures var t := RunPass(pass, policy, listing, answers);
            t.fetched <= Inspected(pass, listing) && (!t.aborted ==> t.fetched == Inspected(pass, listing))
    decreases |listing|
  {
    if listing != [] {
      FetchesOnlyInspected(pass, policy, listing[..|listing| - 1], answers);
    }
  }

  /** Once a pass has stopped it does nothing more. */
  lemma {:induction false} AbortedStays(pass: Pass, policy: Policy, listing: seq<Blob>, answers: seq<string>, i: nat)
    requires i <= |listing|
    requires RunPass(pass, policy, listing[..i], answers).aborted
    ensures RunPass(pass, policy, listing, answers) == RunPass(pass, policy, listing[..i], answers)
    decreases |listing|
  {
    if i < |listing| {
      var init := listing[..|listing| - 1];
      assert init[..i] == listing[..i];
      AbortedStays(pass, policy, init, answers, i);
    } else {
      assert listing[..i] == listing;
    }
  }

  /** In a bucket with unique names, deleting every selected name leaves exactly the unselected objects. */
  lemma {:induction false} DeletingSelectedLeavesUnselected(pass: Pass, listing: seq<Blob>)
    requires DistinctNames(listing)
    ensures Keep(listing, set n | n in Names(Selected(pass, listing))) == Unselected(pass, listing)
    decreases |listing|
  {
    if listing != [] {
      var init := listing[..|listing| - 1];
      var b := listing[|listing| - 1];
      assert DistinctNames(init);
      DeletingSelectedLeavesUnselected(pass, init);
      SelectedNamesStep(pass, listing);
      var before := set n | n in Names(Selected(pass, init));
      forall c | c in init
        ensures c.name != b.name
      {
        var j :| 0 <= j < |init| && init[j] == c;
        assert listing[j] == c;
      }
      assert b.name !in Names(init);
      NamesOfSelected(pass, init, b.name);
      assert b.name !in before;
      if Matches(pass, b) {
        assert (set n | n in Names(Selected(pass, listing))) == before + {b.name};
        KeepAbsent(init, before, b.name);
      } else {
        assert (set n | n in Names(Selected(pass, listing))) == before;
      }
    }
  }

  /** The bucket as a pass finds and leaves it, with the downloads, answers and log around it. */
  datatype World = World(blobs: seq<Blob>, downloads: seq<string>, answers: seq<string>, log: seq<Event>)

  datatype PassResult = PassResult(world: World, aborted: bool)

  /** The world once the deletions, downloads, answers and lines of trace t are applied to w. */
  function Applied(w: World, t: Trace): World {
    World(Keep(w.blobs, set n | n in t.deleted), w.downloads + t.fetched, t.rest, w.log + t.log)
  }

  /** Applying one more disposition to a world is one more deletion, answer and line. */
  lemma DisposedApplied(w: World, policy: Policy, category: Category, name: string, t: Trace)
    ensures var d := Decide(policy, t.rest);
            var before := Applied(w, t);
            Applied(w, Disposed(policy, category, name, t)) ==
            World(if d == Remove then Keep(before.blobs, {name}) else before.blobs, before.downloads,
                  Remaining(policy, t.rest), before.log + Logged(d, category, name))
  {
    var d := Decide(policy, t.rest);
    var t2 := Disposed(policy, category, name, t);
    if d == Remove {
      KeepKeep(w.blobs, (set n | n in t.deleted), {name});
      assert (set n | n in t2.deleted) == (set n | n in t.deleted) + {name};
    } else {
      assert t2.deleted == t.deleted;
    }
  }

  /** A pass over a fresh listing of the whole bucket. */
  function ApplyPass(pass: Pass, policy: Policy, w: World): PassResult {
    var t := RunPass(pass, policy, w.blobs, w.answers);
    PassResult(Applied(w, t), t.aborted)
  }

  /** In a listing with unique names, the object at index i has not been deleted by the iterations before it. */
  lemma NotYetDeleted(pass: Pass, policy: Policy, listing: seq<Blob>, answers: seq<string>, i: nat)
    requires DistinctNames(listing) && i < |listing|
    ensures listing[i].name !in RunPass(pass, policy, listing[..i], answers).deleted
  {
    var prefix := listing[..i];
    OnlySelectedAreDeleted(pass, policy, prefix, answers);
    forall n | n in RunPass(pass, policy, prefix, answers).deleted
      ensures n != listing[i].name
    {
      NamesOfSelected(pass, prefix, n);
      var c :| c in prefix && Matches(pass, c) && c.name == n;
      var j :| 0 <= j < i && prefix[j] == c;
      assert listing[j] == c;
    }
  }

  /** Before its first iteration a pass has changed nothing. */
  lemma PassStarts(pass: Pass, policy: Policy, w: World)
    ensures var t := RunPass(pass, policy, w.blobs[..0], w.answers);
            !t.aborted && Applied(w, t) == w
  {
    var t := RunPass(pass, policy, w.blobs[..0], w.answers);
    assert t == Trace([], [], [], w.answers, false) by {
      assert w.blobs[..0] == [];
    }
    assert (set n | n in t.deleted) == {};
    KeepNone(w.blobs);
    assert w.downloads + [] == w.downloads && w.log + [] == w.log;
  }

  /** A pass that has stopped after i objects, or has seen them all, has done all it will do. */
  lemma PassEnds(pass: Pass, policy: Policy, w: World, i: nat)
    requires i <= |w.blobs|
    requires i == |w.blobs| || RunPass(pass, policy, w.blobs[..i], w.answers).aborted
    ensures var t := RunPass(pass, policy, w.blobs[..i], w.answers);
            ApplyPass(pass, policy, w) == PassResult(Applied(w, t), t.aborted)
  {
    if i == |w.blobs| {
      assert w.blobs[..i] == w.blobs;
    } else {
      AbortedStays(pass, policy, w.blobs, w.answers, i);
    }
  }
}
