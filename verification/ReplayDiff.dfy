/**
 The JSON comparison behind every replay check: `_diff_values` and
 `_diff_touches_classification_fields` of scripts/run_shadow_replay_check.py.
 */
module ReplayDiff {
  import opened Wrappers
  import opened Strings

  /** A parsed JSON document. Python compares True with 1 and 1 with 1.0 as equal. Every NaN is the parser's one NaN object. */
  datatype Json =
    | JNull
    | JNaN
    | JBool(flag: bool)
    | JNum(num: real)
    | JInf(negative: bool)
    | JStr(text: string)
    | JList(items: seq<Json>)
    | JObj(fields: map<string, Json>)

  predicate Numeric(j: Json) {
    j.JBool? || j.JNum?
  }

  function NumericValue(j: Json): real
    requires Numeric(j)
  {
    match j
    case JBool(flag) => if flag then 1.0 else 0.0
    case JNum(num) => num
  }

  /** How dicts and lists compare what they hold: a NaN is the same object as itself, anything else compares with `==`. */
  predicate Same(a: Json, b: Json)
    decreases a
  {
    match a
    case JNull => b.JNull?
    case JNaN => b.JNaN?
    case JBool(_) => Numeric(b) && NumericValue(a) == NumericValue(b)
    case JNum(_) => Numeric(b) && NumericValue(a) == NumericValue(b)
    case JInf(negative) => b == JInf(negative)
    case JStr(text) => b.JStr? && b.text == text
    case JList(items) => b.JList? && |items| == |b.items| && forall i :: 0 <= i < |items| ==> Same(items[i], b.items[i])
    case JObj(fields) => b.JObj? && fields.Keys == b.fields.Keys && forall k :: k in fields ==> Same(fields[k], b.fields[k])
  }

  /** A truth value equals the numbers 1 and 0, and nothing else but a truth value. */
  lemma BooleansAreNumbers(flag: bool, b: Json)
    ensures Same(JBool(flag), b) <==> b == JBool(flag) || b == JNum(if flag then 1.0 else 0.0)
  {
  }

  /** Python's `==` on two parsed documents: on its own, a NaN is not even equal to itself. */
  predicate PyEq(a: Json, b: Json) {
    !a.JNaN? && Same(a, b)
  }

  function Leaf(replayed: Json, stored: Json): Json {
    JObj(map["replayed" := replayed, "stored" := stored])
  }

  /** `_diff_values` where at least one side is not a dict: no recursion happens there. */
  function AtomDiff(replayed: Json, stored: Json): Option<Json> {
    if PyEq(replayed, stored) then None else Some(Leaf(replayed, stored))
  }

  /** `_diff_values`. A key missing on one side is compared as null (`dict.get`). */
  function Diff(replayed: Json, stored: Json): Option<Json>
    decreases replayed
  {
    if PyEq(replayed, stored) then None
    else if replayed.JObj? && stored.JObj? then
      var nested := Nested(replayed, stored, replayed.fields.Keys + stored.fields.Keys);
      if nested == map[] then None else Some(JObj(nested))
    else Some(Leaf(replayed, stored))
  }

  /** The differing keys among `keys`, each with its own difference. */
  function Nested(replayed: Json, stored: Json, keys: set<string>): map<string, Json>
    requires replayed.JObj? && stored.JObj?
    decreases replayed, 1
  {
    map k | k in keys && ChildDiff(replayed, stored, k).Some? :: ChildDiff(replayed, stored, k).value
  }

  function ChildDiff(replayed: Json, stored: Json, k: string): Option<Json>
    requires replayed.JObj? && stored.JObj?
    decreases replayed, 0
  {
    if k in replayed.fields && k in stored.fields then Diff(replayed.fields[k], stored.fields[k])
    else if k in replayed.fields then AtomDiff(replayed.fields[k], JNull)
    else if k in stored.fields then AtomDiff(JNull, stored.fields[k])
    else None
  }

  /** The loop of `_diff_values` over the united keys; the order in which keys are visited is immaterial. */
  method DiffValues(replayed: Json, stored: Json) returns (diff: Option<Json>)
    ensures diff == Diff(replayed, stored)
    decreases replayed
  {
    if PyEq(replayed, stored) {
      return None;
    }
    if replayed.JObj? && stored.JObj? {
      var keys := replayed.fields.Keys + stored.fields.Keys;
      var nested: map<string, Json> := map[];
      ghost var seen: set<string> := {};
      while keys != {}
        invariant keys + seen == replayed.fields.Keys + stored.fields.Keys
        invariant keys !! seen
        invariant nested == Nested(replayed, stored, seen)
        decreases keys
      {
        var key :| key in keys;
        var child: Option<Json>;
        if key in replayed.fields && key in stored.fields {
          child := DiffValues(replayed.fields[key], stored.fields[key]);
        } else if key in replayed.fields {
          child := AtomDiff(replayed.fields[key], JNull);
        } else {
          child := AtomDiff(JNull, stored.fields[key]);
        }
        if child.Some? {
          nested := nested[key := child.value];
        }
        keys := keys - {key};
        seen := seen + {key};
      }
      assert seen == replayed.fields.Keys + stored.fields.Keys;
      return if nested == map[] then None else Some(JObj(nested));
    }
    return Some(Leaf(replayed, stored));
  }

  // ---------------------------------------------------------------------------
  // What "no difference" means

  /** Drops null-valued keys of dicts reached through dicts; lists are kept as they are. */
  function Prune(j: Json): Json {
    match j
    case JObj(fields) => JObj(map k | k in fields && !fields[k].JNull? :: Prune(fields[k]))
    case _ => j
  }

  /**
   A NaN on both sides that gets compared on its own: the dicts around it, up to the documents themselves, are compared
   key by key because they are not equal as a whole.
   */
  predicate ExposesNaN(a: Json, b: Json)
    decreases a
  {
    || (a.JNaN? && b.JNaN?)
    || (a.JObj? && b.JObj? && !Same(a, b)
        && exists k :: k in a.fields && k in b.fields && ExposesNaN(a.fields[k], b.fields[k]))
  }

  /** Equality up to null-valued keys of dicts reached through dicts. */
  predicate Agree(a: Json, b: Json) {
    Same(Prune(a), Prune(b))
  }

  lemma {:induction false} SamePrune(a: Json, b: Json)
    requires Same(a, b)
    ensures Agree(a, b)
    decreases a
  {
    if a.JObj? {
      forall k | k in a.fields && !a.fields[k].JNull?
        ensures !b.fields[k].JNull? && Agree(a.fields[k], b.fields[k])
      {
        SamePrune(a.fields[k], b.fields[k]);
      }
      var p, q := Prune(a).fields, Prune(b).fields;
      assert p.Keys == q.Keys by {
        forall k | k in a.fields ensures a.fields[k].JNull? == b.fields[k].JNull? {
          assert Same(a.fields[k], b.fields[k]);
        }
      }
    }
  }

  /** "No difference" is equality up to null-valued keys, except where a NaN is compared on its own. */
  lemma {:induction false} DiffNoneIff(a: Json, b: Json)
    ensures Diff(a, b).None? <==> Agree(a, b) && !ExposesNaN(a, b)
    decreases a
  {
    if PyEq(a, b) {
      SamePrune(a, b);
    } else if a.JObj? && b.JObj? {
      NestedNoneIff(a, b);
      ChildrenNoneIff(a, b);
    }
  }

  lemma NestedNoneIff(a: Json, b: Json)
    requires a.JObj? && b.JObj?
    ensures Nested(a, b, a.fields.Keys + b.fields.Keys) == map[]
            <==> forall k :: k in a.fields.Keys + b.fields.Keys ==> ChildDiff(a, b, k).None?
  {
    var nested := Nested(a, b, a.fields.Keys + b.fields.Keys);
    if k :| k in a.fields.Keys + b.fields.Keys && ChildDiff(a, b, k).Some? {
      assert k in nested;
    }
  }

  lemma {:induction false} ChildrenNoneIff(a: Json, b: Json)
    requires a.JObj? && b.JObj? && !Same(a, b)
    ensures (forall k :: k in a.fields.Keys + b.fields.Keys ==> ChildDiff(a, b, k).None?) <==> Agree(a, b) && !ExposesNaN(a, b)
    decreases a, 0
  {
    var p, q := Prune(a).fields, Prune(b).fields;
    forall k | k in a.fields.Keys + b.fields.Keys
      ensures ChildDiff(a, b, k).None? <==>
              ChildAgrees(p, q, k) && !(k in a.fields && k in b.fields && ExposesNaN(a.fields[k], b.fields[k]))
    {
      if k in a.fields && k in b.fields {
        DiffNoneIff(a.fields[k], b.fields[k]);
      }
    }
    ChildrenAgree(a, b);
  }

  predicate ChildAgrees(p: map<string, Json>, q: map<string, Json>, k: string) {
    (k in p <==> k in q) && (k in p && k in q ==> Same(p[k], q[k]))
  }

  lemma ChildrenAgree(a: Json, b: Json)
    requires a.JObj? && b.JObj?
    ensures Agree(a, b) <==> forall k :: k in a.fields.Keys + b.fields.Keys ==> ChildAgrees(Prune(a).fields, Prune(b).fields, k)
  {
    var p, q := Prune(a).fields, Prune(b).fields;
    if forall k :: k in a.fields.Keys + b.fields.Keys ==> ChildAgrees(p, q, k) {
      assert p.Keys == q.Keys by {
        forall k ensures k in p <==> k in q {
          if k in p || k in q {
            assert ChildAgrees(p, q, k);
          }
        }
      }
    }
  }

  // ---------------------------------------------------------------------------
  // Where a NaN is exposed

  /** Both documents hold a NaN at the end of a path through dicts, and the two dicts that hold it are not equal. */
  predicate NaNAt(a: Json, b: Json, path: seq<Step>) {
    && DictPath(a, b, path) && Lookup(a, path).JNaN? && Lookup(b, path).JNaN?
    && (path != [] ==> !Same(Lookup(a, path[..|path| - 1]), Lookup(b, path[..|path| - 1])))
  }

  lemma {:induction false} SameBelow(a: Json, b: Json, path: seq<Step>)
    requires Same(a, b)
    ensures Same(Lookup(a, path), Lookup(b, path))
    decreases |path|
  {
    if path != [] { SameBelow(Get(a, path[0]), Get(b, path[0]), path[1..]); }
  }

  lemma NaNAtCons(a: Json, b: Json, path: seq<Step>)
    requires path != [] && a.JObj? && b.JObj? && path[0].Key? && path[0].key in a.fields && path[0].key in b.fields
    ensures NaNAt(a, b, path) <==>
            NaNAt(Get(a, path[0]), Get(b, path[0]), path[1..]) && (|path| == 1 ==> !Same(a, b))
  {
    if |path| > 1 {
      assert path[..|path| - 1][1..] == path[1..][..|path| - 2];
    } else {
      assert path[..|path| - 1] == [] && path[1..] == [];
    }
  }

  lemma {:induction false} ExposedHasPath(a: Json, b: Json) returns (path: seq<Step>)
    requires ExposesNaN(a, b)
    ensures NaNAt(a, b, path)
    decreases a
  {
    if a.JNaN? {
      path := [];
    } else {
      var k :| k in a.fields && k in b.fields && ExposesNaN(a.fields[k], b.fields[k]);
      var rest := ExposedHasPath(a.fields[k], b.fields[k]);
      path := [Key(k)] + rest;
      assert path[1..] == rest;
      NaNAtCons(a, b, path);
    }
  }

  lemma {:induction false} PathExposes(a: Json, b: Json, path: seq<Step>)
    requires NaNAt(a, b, path)
    ensures ExposesNaN(a, b)
    decreases |path|
  {
    if path != [] {
      if path[0].key !in a.fields || path[0].key !in b.fields {
        LookupNull(path[1..]);
      }
      NaNAtCons(a, b, path);
      PathExposes(Get(a, path[0]), Get(b, path[0]), path[1..]);
      if Same(a, b) { SameBelow(a, b, path[..|path| - 1]); }
    }
  }

  /** A NaN is exposed exactly if it sits in two unequal dicts at the same place, or is the whole of both documents. */
  lemma ExposedIff(a: Json, b: Json)
    ensures ExposesNaN(a, b) <==> exists path :: NaNAt(a, b, path)
  {
    if ExposesNaN(a, b) {
      var path := ExposedHasPath(a, b);
    }
    if path :| NaNAt(a, b, path) {
      PathExposes(a, b, path);
    }
  }

  predicate HasNaN(j: Json) {
    match j
    case JNaN => true
    case JList(items) => exists i :: 0 <= i < |items| && HasNaN(items[i])
    case JObj(fields) => exists k :: k in fields && HasNaN(fields[k])
    case _ => false
  }

  lemma {:induction false} NoNaNToExpose(a: Json, b: Json)
    requires !HasNaN(a)
    ensures !ExposesNaN(a, b)
    decreases a
  {
    if a.JObj? && b.JObj? {
      forall k | k in a.fields && k in b.fields { NoNaNToExpose(a.fields[k], b.fields[k]); }
    }
  }

  /** If one of the documents has no NaN, "no difference" is plain equality up to null-valued keys. */
  lemma DiffWithoutNaN(a: Json, b: Json)
    requires !HasNaN(a) || !HasNaN(b)
    ensures Diff(a, b).None? <==> Agree(a, b)
  {
    DiffNoneIff(a, b);
    if !HasNaN(a) {
      NoNaNToExpose(a, b);
    } else {
      NoNaNToExpose(b, a);
      if ExposesNaN(a, b) { ExposedSymmetric(a, b); }
    }
  }

  // ---------------------------------------------------------------------------
  // "No difference" is an equivalence relation (reflexive on everything but a bare NaN)

  lemma {:induction false} SameReflexive(a: Json)
    ensures Same(a, a)
  {
    match a
    case JList(items) =>
      forall i | 0 <= i < |items| { SameReflexive(items[i]); }
    case JObj(fields) =>
      forall k | k in fields { SameReflexive(fields[k]); }
    case _ =>
  }

  lemma {:induction false} SameSymmetric(a: Json, b: Json)
    requires Same(a, b)
    ensures Same(b, a)
    decreases a
  {
    match a
    case JList(items) =>
      forall i | 0 <= i < |items| { SameSymmetric(items[i], b.items[i]); }
    case JObj(fields) =>
      forall k | k in fields { SameSymmetric(fields[k], b.fields[k]); }
    case _ =>
  }

  lemma {:induction false} SameTransitive(a: Json, b: Json, c: Json)
    requires Same(a, b) && Same(b, c)
    ensures Same(a, c)
    decreases a
  {
    match a
    case JList(items) =>
      forall i | 0 <= i < |items| { SameTransitive(items[i], b.items[i], c.items[i]); }
    case JObj(fields) =>
      forall k | k in fields { SameTransitive(fields[k], b.fields[k], c.fields[k]); }
    case _ =>
  }

  lemma {:induction false} ExposedSymmetric(a: Json, b: Json)
    requires ExposesNaN(a, b)
    ensures ExposesNaN(b, a)
    decreases a
  {
    if a.JObj? {
      var k :| k in a.fields && k in b.fields && ExposesNaN(a.fields[k], b.fields[k]);
      ExposedSymmetric(a.fields[k], b.fields[k]);
      if Same(b, a) { SameSymmetric(b, a); }
    }
  }

  /** A NaN in the middle is exposed on one side or the other if it is exposed between the ends. */
  lemma {:induction false} ExposedBetween(a: Json, b: Json, c: Json)
    requires Agree(a, b) && Agree(b, c) && ExposesNaN(a, c)
    ensures ExposesNaN(a, b) || ExposesNaN(b, c)
    decreases a
  {
    if a.JObj? {
      var k :| k in a.fields && k in c.fields && ExposesNaN(a.fields[k], c.fields[k]);
      ChildrenAgree(a, b);
      ChildrenAgree(b, c);
      assert ChildAgrees(Prune(a).fields, Prune(b).fields, k) && ChildAgrees(Prune(b).fields, Prune(c).fields, k);
      ExposedBetween(a.fields[k], b.fields[k], c.fields[k]);
      if Same(a, b) && Same(b, c) {
        SameTransitive(a, b, c);
      }
      SameChildrenExpose(a, b, c, k);
    }
  }

  /** A child that is exposed only where its parents are equal stays unexposed on that side. */
  lemma SameChildrenExpose(a: Json, b: Json, c: Json, k: string)
    requires a.JObj? && b.JObj? && c.JObj? && k in a.fields && k in b.fields && k in c.fields
    requires ExposesNaN(a.fields[k], c.fields[k]) && !Same(a, c)
    requires ExposesNaN(a.fields[k], b.fields[k]) || ExposesNaN(b.fields[k], c.fields[k])
    requires Same(a, b) ==> !Same(b, c)
    ensures ExposesNaN(a, b) || ExposesNaN(b, c)
  {
    if Same(a, b) {
      ExposedUnderSame(a.fields[k], b.fields[k], c.fields[k]);
    } else if Same(b, c) {
      ExposedUnderSameRight(a.fields[k], b.fields[k], c.fields[k]);
    }
  }

  /** Replacing one side by an equal value does not hide an exposed NaN. */
  lemma {:induction false} ExposedUnderSame(a: Json, b: Json, c: Json)
    requires Same(a, b) && ExposesNaN(a, c)
    ensures ExposesNaN(b, c)
    decreases a
  {
    if a.JObj? {
      var k :| k in a.fields && k in c.fields && ExposesNaN(a.fields[k], c.fields[k]);
      ExposedUnderSame(a.fields[k], b.fields[k], c.fields[k]);
      if Same(b, c) { SameTransitive(a, b, c); }
    }
  }

  lemma ExposedUnderSameRight(a: Json, b: Json, c: Json)
    requires Same(b, c) && ExposesNaN(a, c)
    ensures ExposesNaN(a, b)
  {
    ExposedSymmetric(a, c);
    SameSymmetric(b, c);
    ExposedUnderSame(c, b, a);
    ExposedSymmetric(b, a);
  }

  /** A document has no difference to itself, unless it is a bare NaN. */
  lemma NoDifferenceReflexiveIff(a: Json)
    ensures Diff(a, a).None? <==> !a.JNaN?
  {
    SameReflexive(a);
  }

  lemma NoDifferenceSymmetric(a: Json, b: Json)
    ensures Diff(a, b).None? <==> Diff(b, a).None?
  {
    DiffNoneIff(a, b);
    DiffNoneIff(b, a);
    if Agree(a, b) { SameSymmetric(Prune(a), Prune(b)); }
    if Agree(b, a) { SameSymmetric(Prune(b), Prune(a)); }
    if ExposesNaN(a, b) { ExposedSymmetric(a, b); }
    if ExposesNaN(b, a) { ExposedSymmetric(b, a); }
  }

  lemma NoDifferenceTransitive(a: Json, b: Json, c: Json)
    requires Diff(a, b).None? && Diff(b, c).None?
    ensures Diff(a, c).None?
  {
    DiffNoneIff(a, b);
    DiffNoneIff(b, c);
    DiffNoneIff(a, c);
    SameTransitive(Prune(a), Prune(b), Prune(c));
    if ExposesNaN(a, c) { ExposedBetween(a, b, c); }
  }

  /** The verdict is weaker than equality: a null-valued key does not count outside lists, and does count inside one. */
  lemma WeakerThanEquality(k: string)
    ensures var extra := JObj(map[k := JNull]);
            && !PyEq(extra, JObj(map[])) && Diff(extra, JObj(map[])).None?
            && Diff(JList([extra]), JList([JObj(map[])])).Some?
  {
    var extra, none := JObj(map[k := JNull]), JObj(map[]);
    assert k in extra.fields && k !in none.fields;
    assert Prune(extra) == none == Prune(none);
    DiffNoneIff(extra, none);
    assert !Same(JList([extra]).items[0], JList([none]).items[0]);
  }

  /** A dict with a NaN has no difference to itself, but a null-valued key beside the NaN makes one. */
  lemma NullKeyExposesNaN(k: string, n: string)
    requires k != n
    ensures var plain, extra := JObj(map[k := JNaN]), JObj(map[k := JNaN, n := JNull]);
            Diff(plain, plain).None? && Agree(plain, extra) && Diff(plain, extra).Some?
  {
    var plain, extra := JObj(map[k := JNaN]), JObj(map[k := JNaN, n := JNull]);
    NoDifferenceReflexiveIff(plain);
    assert n in extra.fields && n !in plain.fields;
    assert k in plain.fields && k in extra.fields;
    assert Prune(extra).fields.Keys == {k} == Prune(plain).fields.Keys;
    DiffNoneIff(plain, extra);
  }

  // ---------------------------------------------------------------------------
  // Classification fields

  predicate ClassificationKey(key: string) {
    key == "state" || key == "label" || EndsWith(key, "_state") || EndsWith(key, "_label")
  }

  lemma EndsWithIff(s: string, suffix: string)
    ensures EndsWith(s, suffix) <==> exists front :: s == front + suffix
  {
    if EndsWith(s, suffix) { assert s == s[..|s| - |suffix|] + suffix; }
  }

  /** Which keys hold a classification: "state" and "label", alone or after something and an underscore. */
  lemma ClassificationKeyIff(key: string)
    ensures ClassificationKey(key) <==>
            key == "state" || key == "label" || exists front :: key == front + "_state" || key == front + "_label"
  {
    EndsWithIff(key, "_state");
    EndsWithIff(key, "_label");
  }

  /** `_diff_touches_classification_fields`. */
  predicate Touches(diff: Json) {
    match diff
    case JObj(fields) => exists k :: k in fields && (ClassificationKey(k) || Touches(fields[k]))
    case JList(items) => exists i :: 0 <= i < |items| && Touches(items[i])
    case _ => false
  }

  datatype Step = Key(key: string) | Index(index: nat)

  /** The value one step below a document; null where there is none. */
  function Get(j: Json, step: Step): Json {
    match step
    case Key(key) => if j.JObj? && key in j.fields then j.fields[key] else JNull
    case Index(index) => if j.JList? && index < |j.items| then j.items[index] else JNull
  }

  function Lookup(j: Json, path: seq<Step>): Json
    decreases |path|
  {
    if path == [] then j else Lookup(Get(j, path[0]), path[1..])
  }

  predicate ClassificationPath(path: seq<Step>) {
    exists i :: 0 <= i < |path| && path[i].Key? && ClassificationKey(path[i].key)
  }

  /** What agrees up to null-valued keys agrees so at every path. */
  lemma {:induction false} AgreementPropagates(a: Json, b: Json, path: seq<Step>)
    requires Agree(a, b)
    ensures Agree(Lookup(a, path), Lookup(b, path))
    decreases |path|
  {
    if path != [] {
      AgreementBelow(a, b, path[0]);
      AgreementPropagates(Get(a, path[0]), Get(b, path[0]), path[1..]);
    }
  }

  lemma AgreementBelow(a: Json, b: Json, step: Step)
    requires Agree(a, b)
    ensures Agree(Get(a, step), Get(b, step))
  {
    if a.JObj? && b.JObj? && step.Key? {
      ChildrenAgree(a, b);
      if step.key in a.fields.Keys + b.fields.Keys {
        assert ChildAgrees(Prune(a).fields, Prune(b).fields, step.key);
      }
    } else if a.JList? && step.Index? && step.index < |a.items| {
      SamePrune(a.items[step.index], b.items[step.index]);
    }
  }

  lemma {:induction false} UntouchedHasNoClassification(j: Json, path: seq<Step>)
    requires !Touches(j) && ClassificationPath(path)
    ensures Lookup(j, path) == JNull
    decreases |path|
  {
    if Get(j, path[0]) == JNull {
      LookupNull(path[1..]);
    } else {
      ClassificationPathTail(path);
      UntouchedHasNoClassification(Get(j, path[0]), path[1..]);
    }
  }

  lemma {:induction false} LookupNull(path: seq<Step>)
    ensures Lookup(JNull, path) == JNull
    decreases |path|
  {
    if path != [] { LookupNull(path[1..]); }
  }

  lemma ChildIsDiffOfGets(a: Json, b: Json, k: string)
    requires a.JObj? && b.JObj?
    ensures ChildDiff(a, b, k) == Diff(Get(a, Key(k)), Get(b, Key(k)))
  {
    if !(k in a.fields && k in b.fields) {
      assert !(Get(a, Key(k)).JObj? && Get(b, Key(k)).JObj?);
    }
  }

  /** An untouched difference of two dicts passes down: below a classification key nothing differs, elsewhere nothing is touched. */
  lemma UntouchedChild(a: Json, b: Json, step: Step)
    requires a.JObj? && b.JObj?
    requires Diff(a, b).Some? && !Touches(Diff(a, b).value)
    ensures var child := Diff(Get(a, step), Get(b, step));
            child.Some? ==> !Touches(child.value) && step.Key? && !ClassificationKey(step.key)
  {
    if step.Key? {
      ChildIsDiffOfGets(a, b, step.key);
      var nested := Diff(a, b).value.fields;
      if step.key in nested {
        assert !ClassificationKey(step.key) && !Touches(nested[step.key]);
      }
    }
  }

  lemma FieldUntouched(fields: map<string, Json>, key: string)
    requires !Touches(JObj(fields)) && key in fields
    ensures !Touches(fields[key])
  {
  }

  lemma LeafUntouched(a: Json, b: Json)
    requires !Touches(Leaf(a, b))
    ensures !Touches(a) && !Touches(b)
  {
    FieldUntouched(Leaf(a, b).fields, "replayed");
    FieldUntouched(Leaf(a, b).fields, "stored");
  }

  lemma ClassificationPathTail(path: seq<Step>)
    requires ClassificationPath(path) && !(path[0].Key? && ClassificationKey(path[0].key))
    ensures ClassificationPath(path[1..])
  {
    var i :| 0 <= i < |path| && path[i].Key? && ClassificationKey(path[i].key);
    assert path[1..][i - 1] == path[i];
  }

  /**
   A mismatch that does not break qualification leaves every classification value alone: whatever lies at or below
   a `state`, `label`, `*_state` or `*_label` key, reached through any dicts and lists, agrees in both documents.
   */
  lemma {:induction false} ClassificationSound(a: Json, b: Json, path: seq<Step>)
    requires Diff(a, b).Some? ==> !Touches(Diff(a, b).value)
    requires ClassificationPath(path)
    ensures Agree(Lookup(a, path), Lookup(b, path))
    decreases |path|
  {
    if Diff(a, b).None? {
      DiffNoneIff(a, b);
      AgreementPropagates(a, b, path);
    } else if a.JObj? && b.JObj? {
      UntouchedChild(a, b, path[0]);
      var x, y := Get(a, path[0]), Get(b, path[0]);
      if Diff(x, y).None? {
        DiffNoneIff(x, y);
        AgreementPropagates(x, y, path[1..]);
      } else {
        ClassificationPathTail(path);
        ClassificationSound(x, y, path[1..]);
      }
    } else {
      LeafUntouched(a, b);
      UntouchedHasNoClassification(a, path);
      UntouchedHasNoClassification(b, path);
    }
  }

  // ---------------------------------------------------------------------------
  // What the difference reports

  /** Every proper prefix of the path leads to a dict on both sides. */
  predicate DictPath(a: Json, b: Json, path: seq<Step>)
    decreases |path|
  {
    path == [] || (a.JObj? && b.JObj? && path[0].Key? && DictPath(Get(a, path[0]), Get(b, path[0]), path[1..]))
  }

  /** The documents part here: the values are not both dicts and not the same, or an exposed NaN. */
  predicate Parts(a: Json, b: Json, path: seq<Step>) {
    && DictPath(a, b, path) && !(Lookup(a, path).JObj? && Lookup(b, path).JObj?)
    && (!Same(Lookup(a, path), Lookup(b, path)) || NaNAt(a, b, path))
  }

  lemma PartsBelow(a: Json, b: Json, path: seq<Step>)
    requires Parts(a, b, path) && path != []
    ensures Parts(Get(a, path[0]), Get(b, path[0]), path[1..]) && !Same(a, b)
  {
    if Same(a, b) {
      SameBelow(a, b, path);
      SameBelow(a, b, path[..|path| - 1]);
    }
    if NaNAt(a, b, path) {
      if path[0].key !in a.fields || path[0].key !in b.fields {
        LookupNull(path[1..]);
      }
      NaNAtCons(a, b, path);
    }
  }

  /** Where the two documents part, the difference holds exactly the two values found there, each under its own side. */
  lemma {:induction false} DiffReportsBothSides(a: Json, b: Json, path: seq<Step>)
    requires Parts(a, b, path)
    ensures Diff(a, b).Some?
    ensures Lookup(Diff(a, b).value, path) == JObj(map["replayed" := Lookup(a, path), "stored" := Lookup(b, path)])
    decreases |path|
  {
    if path != [] {
      PartsBelow(a, b, path);
      DiffReportsBothSides(Get(a, path[0]), Get(b, path[0]), path[1..]);
      ChildIsDiffOfGets(a, b, path[0].key);
      ChildIsReported(a, b, path[0].key);
    }
  }

  lemma ChildIsReported(a: Json, b: Json, k: string)
    requires a.JObj? && b.JObj? && !Same(a, b) && ChildDiff(a, b, k).Some?
    ensures Diff(a, b).Some? && Get(Diff(a, b).value, Key(k)) == ChildDiff(a, b, k).value
  {
    var nested := Nested(a, b, a.fields.Keys + b.fields.Keys);
    assert k in nested;
  }

  // ---------------------------------------------------------------------------
  // When the difference touches a classification field

  /** The path leads somewhere in the document. */
  predicate Reaches(j: Json, path: seq<Step>)
    decreases |path|
  {
    path == [] ||
    match path[0]
    case Key(key) => j.JObj? && key in j.fields && Reaches(j.fields[key], path[1..])
    case Index(index) => j.JList? && index < |j.items| && Reaches(j.items[index], path[1..])
  }

  /** There is a classification key somewhere in the document. */
  ghost predicate HoldsClassification(j: Json) {
    exists path :: Reaches(j, path) && ClassificationPath(path)
  }

  lemma HoldsBelow(j: Json, step: Step, path: seq<Step>)
    requires Reaches(j, [step]) && Reaches(Get(j, step), path)
    requires ClassificationPath(path) || (step.Key? && ClassificationKey(step.key))
    ensures HoldsClassification(j)
  {
    var longer := [step] + path;
    assert longer[1..] == path && longer[0] == step;
    if ClassificationPath(path) {
      var i :| 0 <= i < |path| && path[i].Key? && ClassificationKey(path[i].key);
      assert longer[i + 1] == path[i];
    }
    assert Reaches(j, longer) && ClassificationPath(longer);
  }

  lemma {:induction false} TouchedHolds(j: Json)
    requires Touches(j)
    ensures HoldsClassification(j)
    decreases j
  {
    match j
    case JObj(fields) =>
      var k :| k in fields && (ClassificationKey(k) || Touches(fields[k]));
      if Touches(fields[k]) {
        TouchedHolds(fields[k]);
        var path :| Reaches(fields[k], path) && ClassificationPath(path);
        HoldsBelow(j, Key(k), path);
      } else {
        HoldsBelow(j, Key(k), []);
      }
    case JList(items) =>
      var i :| 0 <= i < |items| && Touches(items[i]);
      TouchedHolds(items[i]);
      var path :| Reaches(items[i], path) && ClassificationPath(path);
      HoldsBelow(j, Index(i), path);
    case _ =>
  }

  lemma {:induction false} HolderIsTouched(j: Json, path: seq<Step>)
    requires Reaches(j, path) && ClassificationPath(path)
    ensures Touches(j)
    decreases |path|
  {
    if !(path[0].Key? && ClassificationKey(path[0].key)) {
      ClassificationPathTail(path);
      HolderIsTouched(Get(j, path[0]), path[1..]);
    }
  }

  /** `_diff_touches_classification_fields` finds a classification key exactly where there is one. */
  lemma TouchesIff(j: Json)
    ensures Touches(j) <==> HoldsClassification(j)
  {
    if Touches(j) { TouchedHolds(j); }
    if path :| Reaches(j, path) && ClassificationPath(path) { HolderIsTouched(j, path); }
  }

  /** The documents part here, below a classification key or with one in what is found there. */
  ghost predicate ClassificationParts(a: Json, b: Json, path: seq<Step>) {
    Parts(a, b, path) && (ClassificationPath(path) || HoldsClassification(Lookup(a, path)) || HoldsClassification(Lookup(b, path)))
  }

  lemma PartsAbove(a: Json, b: Json, k: string, path: seq<Step>)
    requires a.JObj? && b.JObj? && !Same(a, b) && Parts(Get(a, Key(k)), Get(b, Key(k)), path)
    ensures Parts(a, b, [Key(k)] + path)
    ensures Lookup(a, [Key(k)] + path) == Lookup(Get(a, Key(k)), path) && Lookup(b, [Key(k)] + path) == Lookup(Get(b, Key(k)), path)
  {
    var longer := [Key(k)] + path;
    assert longer[1..] == path && longer[0] == Key(k);
    if NaNAt(Get(a, Key(k)), Get(b, Key(k)), path) {
      if k !in a.fields || k !in b.fields { LookupNull(path); }
      NaNAtCons(a, b, longer);
    }
  }

  lemma ClassificationPathCons(step: Step, path: seq<Step>)
    ensures ClassificationPath([step] + path) <==> ClassificationPath(path) || (step.Key? && ClassificationKey(step.key))
  {
    var longer := [step] + path;
    if ClassificationPath(path) {
      var i :| 0 <= i < |path| && path[i].Key? && ClassificationKey(path[i].key);
      assert longer[i + 1] == path[i];
    }
    if step.Key? && ClassificationKey(step.key) { assert longer[0] == step; }
    if ClassificationPath(longer) && !(step.Key? && ClassificationKey(step.key)) {
      ClassificationPathTail(longer);
      assert longer[1..] == path;
    }
  }

  /** A difference of dicts comes from the difference at a key. */
  lemma ReportedKey(a: Json, b: Json, k: string)
    requires a.JObj? && b.JObj? && Diff(a, b).Some? && k in Diff(a, b).value.fields
    ensures !Same(a, b) && Diff(Get(a, Key(k)), Get(b, Key(k))) == Some(Diff(a, b).value.fields[k])
  {
    ChildIsDiffOfGets(a, b, k);
  }

  /** A difference comes from a place where the documents part. */
  lemma {:induction false} DifferenceHasPart(a: Json, b: Json) returns (path: seq<Step>)
    requires Diff(a, b).Some?
    ensures Parts(a, b, path)
    decreases a
  {
    path := [];
    if a.JObj? && b.JObj? {
      var nested := Diff(a, b).value.fields;
      var k :| k in nested;
      ReportedKey(a, b, k);
      if k in a.fields { path := DifferenceHasPart(a.fields[k], Get(b, Key(k))); }
      PartsAbove(a, b, k, path);
      path := [Key(k)] + path;
    }
  }

  lemma LeafTouched(a: Json, b: Json)
    requires Touches(Leaf(a, b))
    ensures HoldsClassification(a) || HoldsClassification(b)
  {
    var k :| k in Leaf(a, b).fields && (ClassificationKey(k) || Touches(Leaf(a, b).fields[k]));
    TouchesIff(a);
    TouchesIff(b);
  }

  /** Two values that are not both dicts part right here. */
  lemma LeafParts(a: Json, b: Json)
    requires Diff(a, b).Some? && !(a.JObj? && b.JObj?)
    ensures Parts(a, b, []) && Lookup(a, []) == a && Lookup(b, []) == b && Diff(a, b).value == Leaf(a, b)
  {
  }

  lemma TouchedLeafParts(a: Json, b: Json)
    requires Diff(a, b).Some? && !(a.JObj? && b.JObj?) && Touches(Diff(a, b).value)
    ensures ClassificationParts(a, b, [])
  {
    LeafParts(a, b);
    LeafTouched(a, b);
  }

  lemma ClassificationPartsAbove(a: Json, b: Json, k: string, path: seq<Step>)
    requires a.JObj? && b.JObj? && !Same(a, b) && Parts(Get(a, Key(k)), Get(b, Key(k)), path)
    requires ClassificationKey(k) || ClassificationParts(Get(a, Key(k)), Get(b, Key(k)), path)
    ensures ClassificationParts(a, b, [Key(k)] + path)
  {
    ClassificationPathCons(Key(k), path);
    PartsAbove(a, b, k, path);
  }

  /** A difference that touches a classification field does so at a place where the documents part. */
  lemma {:induction false} TouchedHasPart(a: Json, b: Json) returns (path: seq<Step>)
    requires Diff(a, b).Some? && Touches(Diff(a, b).value)
    ensures ClassificationParts(a, b, path)
    decreases a
  {
    path := [];
    if a.JObj? && b.JObj? {
      var nested := Diff(a, b).value.fields;
      var k :| k in nested && (ClassificationKey(k) || Touches(nested[k]));
      ReportedKey(a, b, k);
      path := PartBelow(a, b, k, Get(a, Key(k)), Get(b, Key(k)));
      ClassificationPartsAbove(a, b, k, path);
      path := [Key(k)] + path;
    } else {
      TouchedLeafParts(a, b);
    }
  }

  lemma {:induction false} PartBelow(a: Json, b: Json, k: string, x: Json, y: Json) returns (path: seq<Step>)
    requires a.JObj? && x == Get(a, Key(k)) && y == Get(b, Key(k)) && Diff(x, y).Some?
    requires ClassificationKey(k) || Touches(Diff(x, y).value)
    ensures Parts(x, y, path) && (ClassificationKey(k) || ClassificationParts(x, y, path))
    decreases a, 0
  {
    path := [];
    if !(x.JObj? && y.JObj?) {
      LeafParts(x, y);
      if Touches(Diff(x, y).value) { TouchedLeafParts(x, y); }
    } else if ClassificationKey(k) {
      path := DifferenceHasPart(x, y);
    } else {
      path := TouchedHasPart(x, y);
    }
  }

  lemma {:induction false} TouchedFromBelow(j: Json, path: seq<Step>)
    requires Touches(Lookup(j, path)) || (Lookup(j, path) != JNull && ClassificationPath(path))
    ensures Touches(j)
    decreases |path|
  {
    if path != [] {
      if Get(j, path[0]) == JNull { LookupNull(path[1..]); }
      if !Touches(Lookup(j, path)) && !(path[0].Key? && ClassificationKey(path[0].key)) { ClassificationPathTail(path); }
      if !(path[0].Key? && ClassificationKey(path[0].key)) { TouchedFromBelow(Get(j, path[0]), path[1..]); }
    }
  }

  lemma PartTouches(a: Json, b: Json, path: seq<Step>)
    requires ClassificationParts(a, b, path)
    ensures Diff(a, b).Some? && Touches(Diff(a, b).value)
  {
    DiffReportsBothSides(a, b, path);
    var x, y := Lookup(a, path), Lookup(b, path);
    var leaf := Leaf(x, y);
    TouchesIff(x);
    TouchesIff(y);
    if HoldsClassification(x) { assert leaf.fields["replayed"] == x; }
    if HoldsClassification(y) { assert leaf.fields["stored"] == y; }
    TouchedFromBelow(Diff(a, b).value, path);
  }

  /**
   Exactly when a difference breaks qualification: somewhere the documents part below a classification key, or what is found
   at such a place on either side has a classification key in it.
   */
  lemma DiffTouchesIff(a: Json, b: Json)
    ensures Diff(a, b).Some? && Touches(Diff(a, b).value) <==> exists path :: ClassificationParts(a, b, path)
  {
    if Diff(a, b).Some? && Touches(Diff(a, b).value) {
      var path := TouchedHasPart(a, b);
    }
    if path :| ClassificationParts(a, b, path) {
      PartTouches(a, b, path);
    }
  }
}
