/**
 Run, switch and flip-flop statistics of a name series (scripts/build_walkforward_report.py).
 A missing label reads as the string "null" in all of them.
 */
module WalkforwardStats {
  import opened Wrappers

  function LabelOf(raw: Option<string>): string {
    match raw
    case None => "null"
    case Some(name) => name
  }

  function Clean(series: seq<Option<string>>): (s: seq<string>)
    ensures |s| == |series|
    ensures forall i :: 0 <= i < |s| ==> if series[i].None? then s[i] == "null" else series[i] == Some(s[i])
  {
    seq(|series|, i requires 0 <= i < |series| => LabelOf(series[i]))
  }

  function Max(a: int, b: int): int {
    if a < b then b else a
  }

  // ---------------------------------------------------------------------------
  // Blocks: the reference notion behind the run statistics

  /** `s[start..start+len]` is a non-empty block of one label. */
  predicate Block(s: seq<string>, name: string, start: nat, len: nat) {
    0 < len && start + len <= |s| && forall i :: start <= i < start + len ==> s[i] == name
  }

  /** Length of the longest block that ends the series. */
  function Trailing(s: seq<string>): (len: nat)
    ensures len <= |s|
  {
    if s == [] then 0
    else if |s| > 1 && s[|s| - 2] == s[|s| - 1] then Trailing(s[..|s| - 1]) + 1
    else 1
  }

  /** Length of the longest block of a label, 0 if the label does not occur. */
  function Best(s: seq<string>, name: string): nat {
    if s == [] then 0
    else
      var shorter := Best(s[..|s| - 1], name);
      if s[|s| - 1] == name && Trailing(s) > shorter then Trailing(s) else shorter
  }

  predicate EndBlock(s: seq<string>, name: string, start: nat) {
    start < |s| && forall i :: start <= i < |s| ==> s[i] == name
  }

  lemma {:induction false} TrailingIsBlock(s: seq<string>)
    requires s != []
    ensures Trailing(s) > 0 && EndBlock(s, s[|s| - 1], |s| - Trailing(s))
    ensures forall start: nat {:trigger EndBlock(s, s[|s| - 1], start)} :: EndBlock(s, s[|s| - 1], start) ==> |s| - start <= Trailing(s)
  {
    var t, last := s[..|s| - 1], s[|s| - 1];
    if |s| > 1 && t[|t| - 1] == last {
      TrailingIsBlock(t);
      forall start: nat | EndBlock(s, last, start) ensures |s| - start <= Trailing(s) {
        if start < |t| { assert EndBlock(t, last, start); }
      }
    } else if |s| > 1 {
      assert s[|s| - 2] != last;
    }
  }

  /** `Best` is attained by a block and no longer block of the label exists. */
  lemma {:induction false} BestIsLongest(s: seq<string>, name: string)
    ensures Best(s, name) > 0 ==> exists start: nat :: Block(s, name, start, Best(s, name))
    ensures forall start: nat, len: nat :: Block(s, name, start, len) ==> len <= Best(s, name)
    ensures Best(s, name) > 0 <==> name in s
  {
    if s != [] {
      var t, last := s[..|s| - 1], s[|s| - 1];
      BestIsLongest(t, name);
      TrailingIsBlock(s);
      assert s == t + [last];
      if Best(s, name) == Best(t, name) && Best(t, name) > 0 {
        var start: nat :| Block(t, name, start, Best(t, name));
        assert Block(s, name, start, Best(s, name));
      } else if Best(s, name) > 0 {
        assert Block(s, name, |s| - Trailing(s), Best(s, name));
      }
      forall start: nat, len: nat | Block(s, name, start, len) ensures len <= Best(s, name) {
        if start + len < |s| {
          assert Block(t, name, start, len);
        } else {
          assert s[start + len - 1] == name;
          assert EndBlock(s, last, start);
        }
      }
    }
  }

  // ---------------------------------------------------------------------------
  // The loops

  function Entry(runs: map<string, nat>, name: string): nat {
    if name in runs then runs[name] else 0
  }

  /** The loop state after a prefix: finished runs in the table, the run in progress beside it. */
  ghost predicate Tracks(prefix: seq<string>, runs: map<string, nat>, current: Option<string>, currentLen: nat) {
    && (current.None? <==> prefix == [])
    && (current.Some? ==> current.value == prefix[|prefix| - 1] && currentLen == Trailing(prefix))
    && (forall name :: name in prefix <==> name in runs || current == Some(name))
    && (forall name :: name in runs ==> runs[name] <= Best(prefix, name))
    && (forall name :: current != Some(name) ==> Entry(runs, name) == Best(prefix, name))
    && (current.Some? ==> Best(prefix, current.value) == Max(Entry(runs, current.value), currentLen))
  }

  function Closed(runs: map<string, nat>, current: Option<string>, currentLen: nat): map<string, nat> {
    match current
    case None => runs
    case Some(name) => runs[name := Max(Entry(runs, name), currentLen)]
  }

  lemma ClosedIsBest(prefix: seq<string>, runs: map<string, nat>, current: Option<string>, currentLen: nat)
    requires Tracks(prefix, runs, current, currentLen)
    ensures forall name :: name in Closed(runs, current, currentLen) <==> name in prefix
    ensures forall name :: Entry(Closed(runs, current, currentLen), name) == Best(prefix, name)
  {
  }

  lemma BestGrows(prefix: seq<string>, next: string, name: string)
    ensures Best(prefix + [next], name) ==
            if next == name then Max(Best(prefix, name), Trailing(prefix + [next])) else Best(prefix, name)
    ensures Trailing(prefix + [next]) == if prefix != [] && prefix[|prefix| - 1] == next then Trailing(prefix) + 1 else 1
  {
    assert (prefix + [next])[..|prefix|] == prefix;
  }

  lemma TracksStep(prefix: seq<string>, runs: map<string, nat>, current: Option<string>, currentLen: nat, next: string)
    requires Tracks(prefix, runs, current, currentLen)
    ensures current == Some(next) ==> Tracks(prefix + [next], runs, current, currentLen + 1)
    ensures current != Some(next) ==> Tracks(prefix + [next], Closed(runs, current, currentLen), Some(next), 1)
  {
    forall name { BestGrows(prefix, next, name); }
    if current != Some(next) {
      ClosedIsBest(prefix, runs, current, currentLen);
    }
  }

  /** What the loop holds after a prefix. */
  datatype Tally = Tally(runs: map<string, nat>, current: Option<string>, currentLen: nat)

  function TallyNext(t: Tally, next: string): Tally {
    if t.current == Some(next) then t.(currentLen := t.currentLen + 1)
    else Tally(Closed(t.runs, t.current, t.currentLen), Some(next), 1)
  }

  function TallyOf(s: seq<string>): Tally {
    if s == [] then Tally(map[], None, 0) else TallyNext(TallyOf(s[..|s| - 1]), s[|s| - 1])
  }

  lemma {:induction false} TallyTracks(s: seq<string>)
    ensures var t := TallyOf(s); Tracks(s, t.runs, t.current, t.currentLen)
  {
    if s != [] {
      var front, next := s[..|s| - 1], s[|s| - 1];
      TallyTracks(front);
      var t := TallyOf(front);
      TracksStep(front, t.runs, t.current, t.currentLen, next);
      assert s == front + [next];
    }
  }

  /** The closed tally is the table of the longest blocks. */
  lemma TallyIsBest(s: seq<string>)
    ensures var t := TallyOf(s); var runs := Closed(t.runs, t.current, t.currentLen);
            && (forall name :: name in runs <==> name in s)
            && (forall name :: name in runs ==> runs[name] == Best(s, name))
  {
    TallyTracks(s);
    var t := TallyOf(s);
    ClosedIsBest(s, t.runs, t.current, t.currentLen);
    var runs := Closed(t.runs, t.current, t.currentLen);
    assert forall name :: name in runs ==> runs[name] == Entry(runs, name);
  }

  /** `_longest_runs`. */
  method LongestRuns(series: seq<Option<string>>) returns (runs: map<string, nat>)
    ensures forall name :: name in runs <==> name in Clean(series)
    ensures forall name :: name in runs ==> runs[name] == Best(Clean(series), name)
  {
    runs := map[];
    var current: Option<string> := None;
    var currentLen := 0;
    ghost var s := Clean(series);
    for i := 0 to |series|
      invariant TallyOf(s[..i]) == Tally(runs, current, currentLen)
    {
      var name := LabelOf(series[i]);
      assert s[..i + 1][..i] == s[..i];
      if current == Some(name) {
        currentLen := currentLen + 1;
      } else {
        if current.Some? {
          runs := runs[current.value := Max(Entry(runs, current.value), currentLen)];
        }
        current, currentLen := Some(name), 1;
      }
    }
    assert s[..|s|] == s;
    TallyIsBest(s);
    if current.Some? {
      runs := runs[current.value := Max(Entry(runs, current.value), currentLen)];
    }
  }

  /** The length of the last block if it is one of this label. */
  function TrailingOf(s: seq<string>, name: string): nat {
    if s != [] && s[|s| - 1] == name then Trailing(s) else 0
  }

  /** `_unknown_stretch`: it agrees with the "unknown" entry of the longest runs. */
  method UnknownStretch(series: seq<Option<string>>) returns (longest: nat)
    ensures longest == Best(Clean(series), "unknown")
  {
    longest := 0;
    var cur := 0;
    ghost var s := Clean(series);
    for i := 0 to |series|
      invariant longest == Best(s[..i], "unknown")
      invariant cur == TrailingOf(s[..i], "unknown")
    {
      assert s[..i + 1] == s[..i] + [s[i]];
      BestGrows(s[..i], s[i], "unknown");
      if LabelOf(series[i]) == "unknown" {
        cur := cur + 1;
        longest := Max(longest, cur);
      } else {
        cur := 0;
      }
    }
    assert s[..|s|] == s;
  }

  // ---------------------------------------------------------------------------
  // Switches

  predicate SwitchAt(s: seq<string>, i: nat) {
    0 < i < |s| && s[i] != s[i - 1]
  }

  function Switches(s: seq<string>): (w: set<nat>)
    ensures forall i :: i in w ==> 0 < i < |s|
  {
    set i: nat | i < |s| && SwitchAt(s, i)
  }

  /** Number of places where the series differs from its shift by one; the first place always counts. */
  function ShiftDifferences(s: seq<string>): nat {
    if s == [] then 0
    else ShiftDifferences(s[..|s| - 1]) + (if |s| == 1 || s[|s| - 1] != s[|s| - 2] then 1 else 0)
  }

  /** `_switch_count`. */
  function SwitchCount(s: seq<string>): int {
    if s == [] then 0 else ShiftDifferences(s) - 1
  }

  lemma {:induction false} SwitchCountIsCardinality(s: seq<string>)
    ensures SwitchCount(s) == |Switches(s)|
  {
    if s == [] {
      assert Switches(s) == {};
    } else {
      var t := s[..|s| - 1];
      SwitchCountIsCardinality(t);
      assert forall i: nat :: i < |t| ==> (SwitchAt(t, i) <==> SwitchAt(s, i));
      if SwitchAt(s, |s| - 1) {
        assert Switches(s) == Switches(t) + {|s| - 1};
      } else {
        assert Switches(s) == Switches(t);
      }
    }
  }

  // ---------------------------------------------------------------------------
  // Maximal runs

  datatype Run = Run(name: string, len: nat)

  function Extend(front: seq<Run>, next: string): seq<Run> {
    if EndsWithRun(front, next)
    then front[..|front| - 1] + [Run(next, front[|front| - 1].len + 1)]
    else front + [Run(next, 1)]
  }

  function Encode(s: seq<string>): seq<Run> {
    if s == [] then [] else Extend(Encode(s[..|s| - 1]), s[|s| - 1])
  }

  function Decode(runs: seq<Run>): seq<string> {
    if runs == [] then []
    else Decode(runs[..|runs| - 1]) + seq(runs[|runs| - 1].len, _ => runs[|runs| - 1].name)
  }

  function TotalLen(runs: seq<Run>): nat {
    if runs == [] then 0 else TotalLen(runs[..|runs| - 1]) + runs[|runs| - 1].len
  }

  /** The runs are maximal: non-empty, neighbours differ. */
  predicate Maximal(runs: seq<Run>) {
    && (forall i :: 0 <= i < |runs| ==> runs[i].len > 0)
    && (forall i :: 0 < i < |runs| ==> runs[i].name != runs[i - 1].name)
  }

  /** The runs are maximal and, put one after the other, the series. */
  predicate Partition(runs: seq<Run>, s: seq<string>) {
    Decode(runs) == s && Maximal(runs) && TotalLen(runs) == |s|
  }

  /** A non-empty series is exactly `SwitchCount + 1` maximal runs put one after the other. */
  lemma {:induction false} MaximalRuns(s: seq<string>)
    ensures Decode(Encode(s)) == s && Maximal(Encode(s)) && TotalLen(Encode(s)) == |s|
    ensures s != [] ==> |Encode(s)| == SwitchCount(s) + 1
  {
    RunsPartition(s);
    if s != [] { RunCount(s); }
  }

  lemma PartitionGrows(runs: seq<Run>, s: seq<string>, next: string)
    requires Partition(runs, s)
    ensures Partition(Extend(runs, next), s + [next])
  {
    EncodeGrows(runs, next);
  }

  lemma {:induction false} RunsPartition(s: seq<string>)
    ensures Partition(Encode(s), s)
  {
    if s != [] {
      var front, next := s[..|s| - 1], s[|s| - 1];
      assert s == front + [next];
      RunsPartition(front);
      PartitionGrows(Encode(front), front, next);
    }
  }

  lemma {:induction false} RunCount(s: seq<string>)
    requires s != []
    ensures |Encode(s)| == ShiftDifferences(s) > 0
    ensures Encode(s)[|Encode(s)| - 1] == Run(s[|s| - 1], Trailing(s))
  {
    var t := s[..|s| - 1];
    if t == [] {
      assert Encode(t) == [] && ShiftDifferences(t) == 0;
    } else {
      RunCount(t);
      assert t[|t| - 1] == s[|s| - 2];
    }
  }

  lemma DecodeSnoc(runs: seq<Run>, run: Run)
    ensures Decode(runs + [run]) == Decode(runs) + seq(run.len, _ => run.name)
    ensures TotalLen(runs + [run]) == TotalLen(runs) + run.len
  {
    assert (runs + [run])[..|runs|] == runs;
  }

  lemma LongerRun(s: seq<string>, name: string, n: nat)
    ensures s + seq(n + 1, _ => name) == s + seq(n, _ => name) + [name]
  {
  }

  lemma LastRunGrows(init: seq<Run>, next: string, n: nat)
    ensures Decode(init + [Run(next, n + 1)]) == Decode(init + [Run(next, n)]) + [next]
    ensures TotalLen(init + [Run(next, n + 1)]) == TotalLen(init + [Run(next, n)]) + 1
  {
    DecodeSnoc(init, Run(next, n));
    DecodeSnoc(init, Run(next, n + 1));
    LongerRun(Decode(init), next, n);
  }

  lemma RunStarts(front: seq<Run>, next: string)
    ensures Decode(front + [Run(next, 1)]) == Decode(front) + [next]
    ensures TotalLen(front + [Run(next, 1)]) == TotalLen(front) + 1
  {
    DecodeSnoc(front, Run(next, 1));
    assert seq(1, _ => next) == [next];
  }

  predicate EndsWithRun(front: seq<Run>, next: string) {
    front != [] && front[|front| - 1].name == next
  }

  lemma ExtendMaximal(front: seq<Run>, next: string)
    requires Maximal(front)
    ensures Maximal(Extend(front, next))
  {
  }

  lemma ExtendLast(front: seq<Run>, next: string)
    requires EndsWithRun(front, next)
    ensures Decode(Extend(front, next)) == Decode(front) + [next] && TotalLen(Extend(front, next)) == TotalLen(front) + 1
  {
    var init, n := front[..|front| - 1], front[|front| - 1].len;
    LastRunGrows(init, next, n);
    assert init + [Run(next, n)] == front;
    assert init + [Run(next, n + 1)] == Extend(front, next);
  }

  lemma EncodeGrows(front: seq<Run>, next: string)
    requires Maximal(front)
    ensures Maximal(Extend(front, next))
    ensures Decode(Extend(front, next)) == Decode(front) + [next]
    ensures TotalLen(Extend(front, next)) == TotalLen(front) + 1
  {
    ExtendMaximal(front, next);
    if EndsWithRun(front, next) {
      ExtendLast(front, next);
    } else {
      RunStarts(front, next);
    }
  }

  lemma {:induction false} TotalLenBound(runs: seq<Run>, m: nat)
    requires forall i :: 0 <= i < |runs| ==> runs[i].len <= m
    ensures TotalLen(runs) <= m * |runs|
  {
    if runs != [] {
      TotalLenBound(runs[..|runs| - 1], m);
      assert m * |runs| == m * (|runs| - 1) + m;
    }
  }

  /** The run is one of a label of the series, and no longer than the label's longest block. */
  predicate Fits(run: Run, s: seq<string>) {
    run.name in s && run.len <= Best(s, run.name)
  }

  predicate RunsFit(runs: seq<Run>, s: seq<string>) {
    forall i :: 0 <= i < |runs| ==> Fits(runs[i], s)
  }

  lemma FitsLonger(run: Run, s: seq<string>, next: string)
    requires Fits(run, s)
    ensures Fits(run, s + [next])
  {
    BestGrows(s, next, run.name);
  }

  lemma TrailingFits(s: seq<string>, next: string)
    ensures Fits(Run(next, Trailing(s + [next])), s + [next])
  {
    BestGrows(s, next, next);
  }

  /** One more label extends the last run or adds one, and that run is the trailing block. */
  lemma RunsFitLonger(runs: seq<Run>, longer: seq<Run>, s: seq<string>, next: string)
    requires RunsFit(runs, s) && longer == Extend(runs, next) && longer[|longer| - 1] == Run(next, Trailing(s + [next]))
    ensures RunsFit(longer, s + [next])
  {
    TrailingFits(s, next);
    forall i | 0 <= i < |longer| ensures Fits(longer[i], s + [next]) {
      if i < |longer| - 1 {
        assert longer[i] == runs[i];
        FitsLonger(runs[i], s, next);
      }
    }
  }

  lemma {:induction false} RunsWithinBest(s: seq<string>)
    ensures RunsFit(Encode(s), s)
  {
    if s != [] {
      var front, next := s[..|s| - 1], s[|s| - 1];
      RunsWithinBest(front);
      RunCount(s);
      assert s == front + [next];
      RunsFitLonger(Encode(front), Encode(s), front, next);
    }
  }

  /** A series is no longer than its longest run times its number of runs. */
  lemma LengthBound(s: seq<string>, longest: nat)
    requires forall name :: name in s ==> Best(s, name) <= longest
    ensures |s| <= longest * (SwitchCount(s) + 1)
  {
    if s != [] {
      var runs := Encode(s);
      assert TotalLen(runs) == |s| && |runs| == SwitchCount(s) + 1 by {
        MaximalRuns(s);
      }
      assert TotalLen(runs) <= longest * |runs| by {
        RunsWithinBest(s);
        assert forall i :: 0 <= i < |runs| ==> Fits(runs[i], s);
        TotalLenBound(runs, longest);
      }
    }
  }

  // ---------------------------------------------------------------------------
  // Flip-flops

  function Min(a: int, b: int): int {
    if a < b then a else b
  }

  /** A switch at `i` that is undone within the horizon: the label left at `i` comes back. */
  predicate FlipAt(s: seq<string>, i: nat, horizon: nat) {
    && i + 1 < |s| && SwitchAt(s, i)
    && exists j: nat :: i < j <= i + horizon && j < |s| && s[j] == s[i - 1]
  }

  function Flips(s: seq<string>, horizon: nat): set<nat> {
    set i: nat | i < |s| && FlipAt(s, i, horizon)
  }

  function FlipsBefore(s: seq<string>, horizon: nat, end: nat): set<nat> {
    set i: nat | i < |s| && i < end && FlipAt(s, i, horizon)
  }

  lemma FlipsBeforeStep(s: seq<string>, horizon: nat, idx: nat)
    requires idx < |s|
    ensures |FlipsBefore(s, horizon, idx + 1)| == |FlipsBefore(s, horizon, idx)| + (if FlipAt(s, idx, horizon) then 1 else 0)
  {
    var before, after := FlipsBefore(s, horizon, idx), FlipsBefore(s, horizon, idx + 1);
    assert after == if FlipAt(s, idx, horizon) then before + {idx} else before;
  }

  lemma FlipsBeforeEnd(s: seq<string>, horizon: nat, end: nat)
    requires |s| <= end + 1
    ensures FlipsBefore(s, horizon, end) == Flips(s, horizon)
  {
  }

  lemma WindowIffFlip(s: seq<string>, i: nat, horizon: nat)
    requires SwitchAt(s, i) && i + 1 < |s|
    ensures s[i - 1] in s[i + 1..Min(|s|, i + horizon + 1)] <==> FlipAt(s, i, horizon)
  {
    var window := s[i + 1..Min(|s|, i + horizon + 1)];
    if s[i - 1] in window {
      var k :| 0 <= k < |window| && window[k] == s[i - 1];
      assert s[i + 1 + k] == s[i - 1];
    }
    if FlipAt(s, i, horizon) {
      var j: nat :| i < j <= i + horizon && j < |s| && s[j] == s[i - 1];
      assert window[j - i - 1] == s[j];
    }
  }

  /** `_false_switch_count`: the loop counts exactly the set of flip-flops. */
  method FalseSwitchCount(series: seq<Option<string>>, horizon: nat) returns (count: nat)
    ensures count == |Flips(Clean(series), horizon)|
  {
    var clean := Clean(series);
    count := 0;
    var idx := 1;
    while idx < |clean| - 1
      invariant 1 <= idx
      invariant count == |FlipsBefore(clean, horizon, idx)|
    {
      FlipsBeforeStep(clean, horizon, idx);
      if SwitchAt(clean, idx) { WindowIffFlip(clean, idx, horizon); }
      if clean[idx] != clean[idx - 1] {
        var windowEnd := Min(|clean|, idx + horizon + 1);
        if clean[idx - 1] in clean[idx + 1..windowEnd] {
          count := count + 1;
        }
      }
      idx := idx + 1;
    }
    FlipsBeforeEnd(clean, horizon, idx);
  }

  lemma SubsetCardinality(a: set<nat>, b: set<nat>)
    requires a <= b
    ensures |a| <= |b|
  {
    assert b == a + (b - a);
    assert |b| == |a| + |b - a|;
  }

  /** No more flip-flops than switches, so the reported rate lies in [0, 1]. */
  lemma FlipsAreSwitches(s: seq<string>, horizon: nat)
    ensures Flips(s, horizon) <= Switches(s)
    ensures 0 <= |Flips(s, horizon)| <= SwitchCount(s)
    ensures SwitchCount(s) != 0 ==> 0.0 <= |Flips(s, horizon)| as real / SwitchCount(s) as real <= 1.0
  {
    SwitchCountIsCardinality(s);
    SubsetCardinality(Flips(s, horizon), Switches(s));
    if SwitchCount(s) != 0 { Share(|Flips(s, horizon)|, SwitchCount(s)); }
  }

  lemma Share(part: nat, whole: nat)
    requires part <= whole && whole > 0
    ensures 0.0 <= part as real / whole as real <= 1.0
  {
  }

  lemma FlipsMonotone(s: seq<string>, h: nat, k: nat)
    requires h <= k
    ensures Flips(s, h) <= Flips(s, k) && |Flips(s, h)| <= |Flips(s, k)|
  {
    forall i | i in Flips(s, h) ensures i in Flips(s, k) {
      var j: nat :| i < j <= i + h && j < |s| && s[j] == s[i - 1];
      assert i < j <= i + k;
    }
    SubsetCardinality(Flips(s, h), Flips(s, k));
  }

  /** Without a switch in between, the label stays. */
  lemma {:induction false} ConstantBetween(s: seq<string>, i: nat, j: nat)
    requires i <= j < |s| && forall k: nat :: i < k <= j ==> !SwitchAt(s, k)
    ensures s[j] == s[i]
    decreases j
  {
    if i < j {
      ConstantBetween(s, i, j - 1);
      assert !SwitchAt(s, j);
    }
  }

  predicate TwoLabels(s: seq<string>, a: string, b: string) {
    forall i :: 0 <= i < |s| ==> s[i] == a || s[i] == b
  }

  /** With two labels, a switch is undone exactly when another switch follows. */
  lemma TwoLabelFlipIff(s: seq<string>, a: string, b: string, i: nat, horizon: nat)
    requires TwoLabels(s, a, b) && |s| <= horizon && SwitchAt(s, i)
    ensures FlipAt(s, i, horizon) <==> exists j: nat :: i < j && SwitchAt(s, j)
  {
    if FlipAt(s, i, horizon) {
      var j: nat :| i < j <= i + horizon && j < |s| && s[j] == s[i - 1];
      if forall k: nat :: i < k <= j ==> !SwitchAt(s, k) {
        ConstantBetween(s, i, j);
      }
    }
    if j: nat :| i < j && SwitchAt(s, j) {
      var back: nat := if s[j] == s[i - 1] then j else j - 1;
      assert s[back] == s[i - 1] && i < back <= i + horizon;
    }
  }

  lemma {:induction false} LastOf(w: set<nat>) returns (last: nat)
    requires w != {}
    ensures last in w && forall i :: i in w ==> i <= last
    decreases |w|
  {
    var x :| x in w;
    last := x;
    assert forall i :: i in w ==> i == x || i in w - {x};
    if w - {x} != {} {
      var y := LastOf(w - {x});
      last := if x < y then y else x;
    }
  }

  /** On a series of two labels with a horizon covering it, every switch but the last is a flip-flop. */
  lemma TwoLabelFlips(s: seq<string>, a: string, b: string, horizon: nat)
    requires TwoLabels(s, a, b) && |s| <= horizon
    ensures |Flips(s, horizon)| == Max(0, SwitchCount(s) - 1)
  {
    SwitchCountIsCardinality(s);
    FlipsAreSwitches(s, horizon);
    if Switches(s) != {} {
      var last := LastOf(Switches(s));
      forall i | i in Switches(s) ensures i in Flips(s, horizon) <==> i != last {
        TwoLabelFlipIff(s, a, b, i, horizon);
        assert i != last ==> i < last && SwitchAt(s, last);
        assert forall j: nat :: SwitchAt(s, j) ==> j in Switches(s);
      }
      assert Flips(s, horizon) == Switches(s) - {last};
    }
  }
}
