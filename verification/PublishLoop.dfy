/** The publish loop for any round: what follows from its shape alone. */
module PublishLoop {
  import opened Wrappers
  import opened ArtifactManifest
  import opened PublishSnapshot

  // ---------------------------------------------------------------------------
  // One turn

  function TurnWorld(round: Round, only: set<string>, w: World, e: Entry): World {
    if Selected(only, e) then round(w, e).world else w
  }

  function TurnEntry(round: Round, only: set<string>, w: World, e: Entry): Entry {
    if Selected(only, e) then round(w, e).entry else e
  }

  predicate TurnFails(round: Round, only: set<string>, w: World, e: Entry) {
    Selected(only, e) && round(w, e).outcome.Err?
  }

  lemma LoopUnfolds(round: Round, only: set<string>, w: World, entries: seq<Entry>)
    requires entries != []
    ensures var o := LoopFrom(round, only, w, entries);
            if TurnFails(round, only, w, entries[0])
            then o.entries == entries && o.error.Some? && o.world == TurnWorld(round, only, w, entries[0]) && o.reports == []
            else
              var rest := LoopFrom(round, only, TurnWorld(round, only, w, entries[0]), entries[1..]);
              && o.entries == [TurnEntry(round, only, w, entries[0])] + rest.entries
              && o.error == rest.error && o.world == rest.world
              && o.reports == if Selected(only, entries[0]) then [round(w, entries[0]).outcome.value] + rest.reports else rest.reports
  {
  }

  lemma {:induction false} LoopCount(round: Round, only: set<string>, w: World, entries: seq<Entry>)
    ensures |LoopFrom(round, only, w, entries).entries| == |entries|
    decreases |entries|
  {
    if entries != [] {
      LoopUnfolds(round, only, w, entries);
      LoopCount(round, only, TurnWorld(round, only, w, entries[0]), entries[1..]);
    }
  }

  /** Where the entries of a loop that returns come from: the first turn, or the rest of the loop. */
  lemma EntryUnfolds(round: Round, only: set<string>, w: World, entries: seq<Entry>, i: nat)
    requires i < |entries| && LoopFrom(round, only, w, entries).error.None?
    ensures var rest := LoopFrom(round, only, TurnWorld(round, only, w, entries[0]), entries[1..]);
            && !TurnFails(round, only, w, entries[0]) && rest.error.None?
            && |LoopFrom(round, only, w, entries).entries| == |entries| && |rest.entries| == |entries| - 1
            && LoopFrom(round, only, w, entries).entries[i] ==
               if i == 0 then TurnEntry(round, only, w, entries[0]) else rest.entries[i - 1]
  {
    LoopCount(round, only, w, entries);
    LoopUnfolds(round, only, w, entries);
  }

  // ---------------------------------------------------------------------------
  // Principles

  /** What every round keeps, the loop keeps, whether it returns or fails. */
  lemma {:induction false} LoopKeeps(round: Round, only: set<string>, w: World, entries: seq<Entry>, inv: World -> bool)
    requires inv(w) && forall v, e :: inv(v) ==> inv(round(v, e).world)
    ensures inv(LoopFrom(round, only, w, entries).world)
    decreases |entries|
  {
    if entries != [] {
      LoopUnfolds(round, only, w, entries);
      LoopKeeps(round, only, TurnWorld(round, only, w, entries[0]), entries[1..], inv);
    }
  }

  /** A loop that returns makes of each entry what its turn makes of it, in some world that the loop passes through. */
  lemma {:induction false} LoopVisits(round: Round, only: set<string>, w: World, entries: seq<Entry>, i: nat, inv: World -> bool)
    returns (v: World)
    requires i < |entries| && LoopFrom(round, only, w, entries).error.None?
    requires inv(w) && forall v, e :: inv(v) ==> inv(round(v, e).world)
    ensures inv(v) && !TurnFails(round, only, v, entries[i])
    ensures var o := LoopFrom(round, only, w, entries);
            |o.entries| == |entries| && o.entries[i] == TurnEntry(round, only, v, entries[i])
    decreases |entries|
  {
    EntryUnfolds(round, only, w, entries, i);
    if i == 0 {
      v := w;
    } else {
      v := LoopVisits(round, only, TurnWorld(round, only, w, entries[0]), entries[1..], i - 1, inv);
    }
  }

  lemma {:induction false} ChosenConcat(only: set<string>, some: seq<Entry>, more: seq<Entry>)
    ensures Chosen(only, some + more) == Chosen(only, some) + Chosen(only, more)
    decreases |more|
  {
    if more == [] {
      assert some + more == some;
    } else {
      var init := more[..|more| - 1];
      ChosenConcat(only, some, init);
      assert (some + more)[..|some + more| - 1] == some + init;
    }
  }

  lemma ChosenCons(only: set<string>, entries: seq<Entry>, i: nat)
    requires 0 < i <= |entries|
    ensures |Chosen(only, entries[..i])| == |Chosen(only, entries[1..][..i - 1])| + if Selected(only, entries[0]) then 1 else 0
  {
    assert entries[..i] == [entries[0]] + entries[1..][..i - 1];
    ChosenConcat(only, [entries[0]], entries[1..][..i - 1]);
    assert Chosen(only, [entries[0]]) == if Selected(only, entries[0]) then [entries[0]] else [];
  }

  /** The chosen entries are the selected ones in their order: entry `i` comes after as many as are selected before it. */
  lemma {:induction false} ChosenAt(only: set<string>, entries: seq<Entry>, i: nat)
    requires i < |entries|
    ensures var k := |Chosen(only, entries[..i])|;
            if Selected(only, entries[i])
            then k < |Chosen(only, entries)| && Chosen(only, entries)[k] == entries[i] && |Chosen(only, entries[..i + 1])| == k + 1
            else |Chosen(only, entries[..i + 1])| == k
  {
    assert entries == entries[..i] + [entries[i]] + entries[i + 1..] && entries[..i + 1] == entries[..i] + [entries[i]];
    ChosenConcat(only, entries[..i], [entries[i]]);
    ChosenConcat(only, entries[..i + 1], entries[i + 1..]);
    assert Chosen(only, [entries[i]]) == if Selected(only, entries[i]) then [entries[i]] else [];
    assert entries[..i + 1] + entries[i + 1..] == entries;
  }

  lemma {:induction false} ChosenFrom(only: set<string>, entries: seq<Entry>, k: nat) returns (i: nat)
    requires k < |Chosen(only, entries)|
    ensures i < |entries| && Selected(only, entries[i]) && Chosen(only, entries)[k] == entries[i]
    decreases |entries|
  {
    var init := entries[..|entries| - 1];
    if k < |Chosen(only, init)| { i := ChosenFrom(only, init, k); } else { i := |entries| - 1; }
  }

  /** Where the reports of a loop that returns come from: the first turn, or the rest of the loop. */
  lemma ReportUnfolds(round: Round, only: set<string>, w: World, entries: seq<Entry>, i: nat)
    requires i < |entries| && LoopFrom(round, only, w, entries).error.None?
    ensures var reports, k := LoopFrom(round, only, w, entries).reports, |Chosen(only, entries[..i])|;
            if i == 0 then
              k == 0 && (Selected(only, entries[0]) ==> reports != [] && reports[0] == round(w, entries[0]).outcome.value)
            else
              var rest := LoopFrom(round, only, TurnWorld(round, only, w, entries[0]), entries[1..]).reports;
              var l := |Chosen(only, entries[1..][..i - 1])|;
              l < |rest| ==> k < |reports| && reports[k] == rest[l]
  {
    LoopUnfolds(round, only, w, entries);
    if i > 0 { ChosenCons(only, entries, i); }
  }

  /** A loop that returns reports on each selected entry in turn, each time what its turn reports in some world it passes through. */
  lemma {:induction false} LoopReports(round: Round, only: set<string>, w: World, entries: seq<Entry>, i: nat, inv: World -> bool)
    returns (v: World)
    requires i < |entries| && Selected(only, entries[i]) && LoopFrom(round, only, w, entries).error.None?
    requires inv(w) && forall v, e :: inv(v) ==> inv(round(v, e).world)
    ensures inv(v) && round(v, entries[i]).outcome.Ok?
    ensures var o, k := LoopFrom(round, only, w, entries), |Chosen(only, entries[..i])|;
            && |o.entries| == |entries| && o.entries[i] == round(v, entries[i]).entry
            && k < |o.reports| && o.reports[k] == round(v, entries[i]).outcome.value
    decreases |entries|
  {
    EntryUnfolds(round, only, w, entries, i);
    ReportUnfolds(round, only, w, entries, i);
    if i == 0 {
      v := w;
    } else {
      v := LoopReports(round, only, TurnWorld(round, only, w, entries[0]), entries[1..], i - 1, inv);
    }
  }

  lemma {:induction false} LoopReportCount(round: Round, only: set<string>, w: World, entries: seq<Entry>)
    requires LoopFrom(round, only, w, entries).error.None?
    ensures |LoopFrom(round, only, w, entries).reports| == |Chosen(only, entries)|
    decreases |entries|
  {
    if entries != [] {
      LoopUnfolds(round, only, w, entries);
      LoopReportCount(round, only, TurnWorld(round, only, w, entries[0]), entries[1..]);
      ChosenCons(only, entries, |entries|);
      assert entries[..|entries|] == entries && entries[1..][..|entries| - 1] == entries[1..];
    }
  }

  /** What holds at first and no longer in the end is lost in some entry's turn. */
  lemma {:induction false} LoopCrosses(round: Round, only: set<string>, w: World, entries: seq<Entry>, inv: World -> bool)
    returns (j: nat, v: World)
    requires LoopFrom(round, only, w, entries).error.None?
    requires inv(w) && !inv(LoopFrom(round, only, w, entries).world)
    ensures inv(v) && j < |entries| == |LoopFrom(round, only, w, entries).entries|
    ensures Selected(only, entries[j]) && !inv(round(v, entries[j]).world)
    ensures LoopFrom(round, only, w, entries).entries[j] == round(v, entries[j]).entry
    decreases |entries|
  {
    var next := TurnWorld(round, only, w, entries[0]);
    LoopUnfolds(round, only, w, entries);
    if inv(next) {
      j, v := LoopCrosses(round, only, next, entries[1..], inv);
      j := j + 1;
    } else {
      j, v := 0, w;
    }
    EntryUnfolds(round, only, w, entries, j);
  }

  /** What each entry gains in its turn and the other entries' turns keep, it has in the end. */
  lemma {:induction false} LoopGains(round: Round, only: set<string>, w: World, entries: seq<Entry>, i: nat,
                                     inv: World -> bool, good: (World, Entry) -> bool)
    requires i < |entries| && LoopFrom(round, only, w, entries).error.None?
    requires inv(w) && forall v, e :: inv(v) ==> inv(round(v, e).world)
    requires forall v, e, f :: inv(v) && good(v, f) ==> good(round(v, e).world, f)
    requires forall v :: inv(v) && !TurnFails(round, only, v, entries[i]) ==>
               good(TurnWorld(round, only, v, entries[i]), TurnEntry(round, only, v, entries[i]))
    ensures var o := LoopFrom(round, only, w, entries); |o.entries| == |entries| && good(o.world, o.entries[i])
    decreases |entries|
  {
    var next, tail := TurnWorld(round, only, w, entries[0]), entries[1..];
    EntryUnfolds(round, only, w, entries, i);
    LoopUnfolds(round, only, w, entries);
    if i == 0 {
      var f := TurnEntry(round, only, w, entries[0]);
      LoopKeeps(round, only, next, tail, v => inv(v) && good(v, f));
    } else {
      assert tail[i - 1] == entries[i];
      LoopGains(round, only, next, tail, i - 1, inv, good);
    }
  }

  /** What every round keeps between an entry and its update, the loop keeps for every entry, whether it returns or fails. */
  lemma {:induction false} LoopRelates(round: Round, only: set<string>, w: World, entries: seq<Entry>, related: (Entry, Entry) -> bool)
    requires (forall e :: related(e, e)) && forall v, e :: related(e, round(v, e).entry)
    ensures var o := LoopFrom(round, only, w, entries);
            |o.entries| == |entries| && forall i :: 0 <= i < |entries| ==> related(entries[i], o.entries[i])
    decreases |entries|
  {
    if entries != [] {
      LoopUnfolds(round, only, w, entries);
      LoopRelates(round, only, TurnWorld(round, only, w, entries[0]), entries[1..], related);
      assert related(entries[0], TurnEntry(round, only, w, entries[0]));
    }
  }

  /** A round that changes nothing. */
  predicate IdleRound(round: Round, w: World, e: Entry, quiet: Report -> bool) {
    var step := round(w, e);
    step.world == w && step.entry == e && step.outcome.Ok? && quiet(step.outcome.value)
  }

  /** A loop of such rounds changes nothing. */
  lemma {:induction false} LoopIdles(round: Round, only: set<string>, w: World, entries: seq<Entry>, quiet: Report -> bool)
    requires forall i :: 0 <= i < |entries| && Selected(only, entries[i]) ==> IdleRound(round, w, entries[i], quiet)
    ensures var o := LoopFrom(round, only, w, entries);
            o.world == w && o.entries == entries && o.error.None? && forall r :: r in o.reports ==> quiet(r)
    decreases |entries|
  {
    if entries != [] {
      var tail := entries[1..];
      assert forall i :: 0 <= i < |tail| ==> tail[i] == entries[i + 1];
      LoopUnfolds(round, only, w, entries);
      LoopIdles(round, only, w, tail, quiet);
      assert entries == [entries[0]] + tail;
    }
  }
}
