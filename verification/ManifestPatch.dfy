/**
 The manifest patcher of scripts/publish_canonical_snapshot.py: it rewrites scalar fields inside the blocks of changed
 artifacts and nothing else.
 */
module ManifestPatch {
  import opened Wrappers
  import opened Strings
  import opened ArtifactManifest
  import opened PublishSnapshot
  import opened ManifestLines
  import opened ManifestBlocks

  // ---------------------------------------------------------------------------
  // Patching

  /** Line `i` is the first one after `start` with its key. */
  predicate FirstOfKey(keys: Keys, start: nat, i: nat) {
    && start < i < |keys| && keys[i].Some?
    && forall j :: start < j < i ==> keys[j] != keys[i]
  }

  predicate Updated(keys: Keys, start: nat, updates: map<string, Scalar>, i: nat) {
    FirstOfKey(keys, start, i) && keys[i].value in updates
  }

  /** Line `i` of a block after the update. */
  function BlockLine(syntax: Syntax, lines: seq<string>, keys: Keys, start: nat, updates: map<string, Scalar>, i: nat): string
    requires i < |lines| == |keys|
  {
    if Updated(keys, start, updates, i) then syntax.patched(lines[i], updates[keys[i].value]) else lines[i]
  }

  predicate HasField(keys: Keys, span: Span, key: string) {
    exists i :: span.0 < i < span.1 <= |keys| && keys[i] == Some(key)
  }

  function MissingFields(keys: Keys, span: Span, updates: map<string, Scalar>): set<string> {
    set key | key in updates && !HasField(keys, span, key)
  }

  /** The lines once the block has been worked through up to line `end`. */
  function PatchedBlock(syntax: Syntax, lines: seq<string>, keys: Keys, start: nat, end: nat, updates: map<string, Scalar>)
    : (patched: seq<string>)
    requires |lines| == |keys|
    ensures |patched| == |lines|
  {
    seq(|lines|, i requires 0 <= i < |lines| => if start < i < end then BlockLine(syntax, lines, keys, start, updates, i) else lines[i])
  }

  /** The updates whose key has not turned up before line `end`. */
  function Remaining(keys: Keys, start: nat, end: nat, updates: map<string, Scalar>): map<string, Scalar> {
    map key | key in updates && !HasField(keys, (start, end), key) :: updates[key]
  }

  /** `_patch_artifact_block_lines`; `missing` names the fields that raise. */
  method PatchArtifactBlockLines(syntax: Syntax, lines: array<string>, start: nat, end: nat, updates: map<string, Scalar>)
    returns (missing: set<string>)
    requires start < end <= lines.Length
    modifies lines
    ensures missing == MissingFields(KeysOf(syntax, old(lines[..])), (start, end), updates)
    ensures lines[..] == PatchedBlock(syntax, old(lines[..]), KeysOf(syntax, old(lines[..])), start, end, updates)
  {
    ghost var was := lines[..];
    ghost var keys := KeysOf(syntax, was);
    var remaining := updates;
    BlockStart(syntax, was, keys, start, updates);
    for index := start + 1 to end
      invariant lines[..] == PatchedBlock(syntax, was, keys, start, index, updates)
      invariant remaining == Remaining(keys, start, index, updates)
    {
      BlockStep(syntax, was, keys, start, index, updates);
      assert lines[index] == lines[..][index] == was[index] && keys[index] == syntax.key(was[index]);
      var key := syntax.key(lines[index]);
      if key.Some? && key.value in remaining {
        var value := remaining[key.value];
        remaining := remaining - {key.value};
        lines[index] := syntax.patched(lines[index], value);
      }
    }
    missing := remaining.Keys;
  }

  lemma BlockStart(syntax: Syntax, lines: seq<string>, keys: Keys, start: nat, updates: map<string, Scalar>)
    requires |lines| == |keys|
    ensures lines == PatchedBlock(syntax, lines, keys, start, start + 1, updates)
    ensures updates == Remaining(keys, start, start + 1, updates)
  {
  }

  lemma BlockStep(syntax: Syntax, lines: seq<string>, keys: Keys, start: nat, index: nat, updates: map<string, Scalar>)
    requires start < index < |keys| == |lines|
    ensures var remaining, patched := Remaining(keys, start, index, updates), PatchedBlock(syntax, lines, keys, start, index, updates);
            && patched[index] == lines[index]
            && if keys[index].Some? && keys[index].value in remaining
               then && PatchedBlock(syntax, lines, keys, start, index + 1, updates)
                       == patched[index := syntax.patched(lines[index], remaining[keys[index].value])]
                    && Remaining(keys, start, index + 1, updates) == remaining - {keys[index].value}
               else && PatchedBlock(syntax, lines, keys, start, index + 1, updates) == patched
                    && Remaining(keys, start, index + 1, updates) == remaining
  {
    GrowBlock(keys, start, index);
  }

  lemma GrowBlock(keys: Keys, start: nat, index: nat)
    requires start < index < |keys|
    ensures FirstOfKey(keys, start, index) <==> keys[index].Some? && !HasField(keys, (start, index), keys[index].value)
    ensures forall key :: HasField(keys, (start, index + 1), key) <==> HasField(keys, (start, index), key) || keys[index] == Some(key)
  {
    forall key | HasField(keys, (start, index), key) ensures HasField(keys, (start, index + 1), key) {
      var i :| start < i < index && keys[i] == Some(key);
      assert start < i < index + 1;
    }
    forall key | keys[index] == Some(key) ensures HasField(keys, (start, index + 1), key) {
      assert start < index < index + 1;
    }
  }

  type Patches = map<string, map<string, Scalar>>

  /** Line `i` of the manifest with the patches for the artifacts in `names`. */
  function ManifestLine(syntax: Syntax, lines: seq<string>, marks: Marks, keys: Keys, patches: Patches, names: set<string>, i: nat): string
    requires i < |lines| == |marks| == |keys|
  {
    match OwnerOf(marks, i)
    case None => lines[i]
    case Some(owner) =>
      if owner.name in patches && owner.name in names then BlockLine(syntax, lines, keys, owner.start, patches[owner.name], i) else lines[i]
  }

  function PatchedFor(syntax: Syntax, lines: seq<string>, marks: Marks, keys: Keys, patches: Patches, names: set<string>)
    : (patched: seq<string>)
    requires |lines| == |marks| == |keys|
    ensures |patched| == |lines|
  {
    seq(|lines|, i requires 0 <= i < |lines| => ManifestLine(syntax, lines, marks, keys, patches, names, i))
  }

  /** The patched manifest, line by line; no order of the artifacts enters. */
  function PatchedLines(syntax: Syntax, lines: seq<string>, patches: Patches): (patched: seq<string>)
    ensures |patched| == |lines|
  {
    PatchedFor(syntax, lines, MarksOf(syntax, lines), KeysOf(syntax, lines), patches, patches.Keys)
  }

  datatype PatchError = MissingBlocks(names: set<string>) | MissingField(name: string, keys: set<string>)

  function MissingNames(marks: Marks, patches: Patches): set<string> {
    set name | name in patches && BlockOf(marks, name).None?
  }

  predicate FieldsPresent(marks: Marks, keys: Keys, name: string, updates: map<string, Scalar>) {
    BlockOf(marks, name).Some? && MissingFields(keys, BlockOf(marks, name).value, updates) == {}
  }

  predicate PresentFor(marks: Marks, keys: Keys, patches: Patches, names: set<string>) {
    forall name :: name in names && name in patches ==> FieldsPresent(marks, keys, name, patches[name])
  }

  /** Every artifact to patch has a block, with every field to patch. */
  predicate Patchable(syntax: Syntax, lines: seq<string>, patches: Patches) {
    PresentFor(MarksOf(syntax, lines), KeysOf(syntax, lines), patches, patches.Keys)
  }

  /** What is wrong with the manifest: blocks are looked for before fields. */
  predicate RightError(marks: Marks, keys: Keys, patches: Patches, error: PatchError) {
    match error
    case MissingBlocks(names) => names == MissingNames(marks, patches) != {}
    case MissingField(name, absent) =>
      && MissingNames(marks, patches) == {} && name in patches && BlockOf(marks, name).Some?
      && absent == MissingFields(keys, BlockOf(marks, name).value, patches[name]) != {}
  }

  /** `_patch_manifest_artifact_metadata`: the text to write, for the artifacts in any order. */
  method PatchManifest(syntax: Syntax, text: string, patches: Patches, order: seq<string>) returns (result: Result<string, PatchError>)
    requires Distinct(order) && forall name :: name in order <==> name in patches
    ensures result.Ok? <==> patches == map[] || Patchable(syntax, SplitLines(text), patches)
    ensures result.Ok? ==> result.value == if patches == map[] then text else Concat(PatchedLines(syntax, SplitLines(text), patches))
    ensures result.Err? ==> RightError(MarksOf(syntax, SplitLines(text)), KeysOf(syntax, SplitLines(text)), patches, result.error)
  {
    if patches == map[] {
      return Ok(text);
    }
    var patched := PatchAllBlocks(syntax, SplitLines(text), patches, order);
    return if patched.Ok? then Ok(Concat(patched.value)) else Err(patched.error);
  }

  /** The part of `_patch_manifest_artifact_metadata` between splitting the text and joining the lines again. */
  method PatchAllBlocks(syntax: Syntax, lines: seq<string>, patches: Patches, order: seq<string>)
    returns (result: Result<seq<string>, PatchError>)
    requires Distinct(order) && forall name :: name in order <==> name in patches
    ensures result.Ok? <==> Patchable(syntax, lines, patches)
    ensures result.Ok? ==> result.value == PatchedLines(syntax, lines, patches)
    ensures result.Err? ==> RightError(MarksOf(syntax, lines), KeysOf(syntax, lines), patches, result.error)
  {
    var spans := ArtifactBlockSpans(syntax, lines);
    ghost var marks, keys := MarksOf(syntax, lines), KeysOf(syntax, lines);
    var missing := set name | name in patches && name !in spans;
    if missing != {} {
      MissingBlocksStop(marks, keys, patches, missing);
      return Err(MissingBlocks(missing));
    }
    NoneMissing(marks, patches, spans);
    result := PatchEach(syntax, lines, patches, order, spans);
  }

  /** The loop over the artifacts, once all their blocks are known. */
  method PatchEach(syntax: Syntax, lines: seq<string>, patches: Patches, order: seq<string>, spans: map<string, Span>)
    returns (result: Result<seq<string>, PatchError>)
    requires Distinct(order) && forall name :: name in order <==> name in patches
    requires forall name :: BlockOf(MarksOf(syntax, lines), name) == if name in spans then Some(spans[name]) else None
    requires MissingNames(MarksOf(syntax, lines), patches) == {} && patches.Keys <= spans.Keys
    ensures result.Ok? <==> Patchable(syntax, lines, patches)
    ensures result.Ok? ==> result.value == PatchedLines(syntax, lines, patches)
    ensures result.Err? ==> RightError(MarksOf(syntax, lines), KeysOf(syntax, lines), patches, result.error)
  {
    ghost var marks, keys := MarksOf(syntax, lines), KeysOf(syntax, lines);
    var patched := new string[|lines|](i requires 0 <= i < |lines| => lines[i]);
    NothingTaken(syntax, lines, marks, keys, patches);
    assert patched[..] == lines;
    for k := 0 to |order|
      invariant WorkedTo(syntax, lines, marks, keys, patches, order, k, patched[..])
    {
      var absent := PatchNext(syntax, lines, patched, patches, order, k, spans[order[k]]);
      if absent != {} {
        return Err(MissingField(order[k], absent));
      }
    }
    assert Taken(order, |order|) == patches.Keys;
    return Ok(patched[..]);
  }

  /** The first `k` artifacts have been patched, and lacked no field. */
  predicate WorkedTo(syntax: Syntax, lines: seq<string>, marks: Marks, keys: Keys, patches: Patches, order: seq<string>, k: nat,
                     patched: seq<string>)
    requires |lines| == |marks| == |keys| && k <= |order|
  {
    patched == PatchedFor(syntax, lines, marks, keys, patches, Taken(order, k)) && PresentFor(marks, keys, patches, Taken(order, k))
  }

  /** The body of the loop over the artifacts. */
  method PatchNext(syntax: Syntax, ghost lines: seq<string>, patched: array<string>, patches: Patches, order: seq<string>, k: nat,
                   span: Span) returns (absent: set<string>)
    requires Distinct(order) && k < |order| && order[k] in patches && BlockOf(MarksOf(syntax, lines), order[k]) == Some(span)
    requires WorkedTo(syntax, lines, MarksOf(syntax, lines), KeysOf(syntax, lines), patches, order, k, patched[..])
    modifies patched
    ensures absent == MissingFields(KeysOf(syntax, lines), span, patches[order[k]])
    ensures absent == {} ==> WorkedTo(syntax, lines, MarksOf(syntax, lines), KeysOf(syntax, lines), patches, order, k + 1, patched[..])
    ensures absent != {} ==> !PresentFor(MarksOf(syntax, lines), KeysOf(syntax, lines), patches, patches.Keys)
  {
    BlockWorked(syntax, lines, MarksOf(syntax, lines), KeysOf(syntax, lines), patches, order, k, patched[..], span);
    assert |patched[..]| == |lines|;
    absent := PatchArtifactBlockLines(syntax, patched, span.0, span.1, patches[order[k]]);
  }

  /** What one round of the loop over the artifacts makes of the lines, and what the fields it misses mean. */
  lemma BlockWorked(syntax: Syntax, lines: seq<string>, marks: Marks, keys: Keys, patches: Patches, order: seq<string>, k: nat,
                    before: seq<string>, span: Span)
    requires |lines| == |marks| == |keys| && keys == KeysOf(syntax, lines)
    requires Distinct(order) && k < |order| && BlockOf(marks, order[k]) == Some(span) && order[k] in patches
    requires WorkedTo(syntax, lines, marks, keys, patches, order, k, before)
    ensures span.0 < span.1 <= |lines| == |before|
    ensures var absent := MissingFields(KeysOf(syntax, before), span, patches[order[k]]);
            && absent == MissingFields(keys, span, patches[order[k]])
            && (absent == {} ==> PresentFor(marks, keys, patches, Taken(order, k + 1)))
            && (absent != {} ==> !PresentFor(marks, keys, patches, patches.Keys))
    ensures PatchedBlock(syntax, before, KeysOf(syntax, before), span.0, span.1, patches[order[k]])
            == PatchedFor(syntax, lines, marks, keys, patches, Taken(order, k + 1))
  {
    BlockAdded(syntax, lines, marks, keys, patches, order, k);
    PresentStep(marks, keys, patches, order, k);
  }

  lemma MissingBlocksStop(marks: Marks, keys: Keys, patches: Patches, missing: set<string>)
    requires missing != {} && missing == MissingNames(marks, patches)
    ensures !PresentFor(marks, keys, patches, patches.Keys)
  {
    var name :| name in missing;
    assert !FieldsPresent(marks, keys, name, patches[name]);
  }

  lemma NoneMissing(marks: Marks, patches: Patches, spans: map<string, Span>)
    requires forall name :: BlockOf(marks, name) == if name in spans then Some(spans[name]) else None
    requires (set name | name in patches && name !in spans) == {}
    ensures MissingNames(marks, patches) == {} && patches.Keys <= spans.Keys
  {
    assert patches.Keys - spans.Keys == {};
    forall name | name in patches.Keys ensures name in spans.Keys {
      assert name !in patches.Keys - spans.Keys;
    }
  }

  lemma PresentStep(marks: Marks, keys: Keys, patches: Patches, order: seq<string>, k: nat)
    requires k < |order| && order[k] in patches && BlockOf(marks, order[k]).Some?
    requires PresentFor(marks, keys, patches, Taken(order, k))
    ensures var absent := MissingFields(keys, BlockOf(marks, order[k]).value, patches[order[k]]);
            && (absent == {} ==> PresentFor(marks, keys, patches, Taken(order, k + 1)))
            && (absent != {} ==> !PresentFor(marks, keys, patches, patches.Keys))
  {
    assert Taken(order, k + 1) == Taken(order, k) + {order[k]};
    assert FieldsPresent(marks, keys, order[k], patches[order[k]])
           <==> MissingFields(keys, BlockOf(marks, order[k]).value, patches[order[k]]) == {};
  }

  function Taken(order: seq<string>, k: nat): set<string>
    requires k <= |order|
  {
    set j | 0 <= j < k :: order[j]
  }

  lemma NothingTaken(syntax: Syntax, lines: seq<string>, marks: Marks, keys: Keys, patches: Patches)
    requires |lines| == |marks| == |keys|
    ensures PatchedFor(syntax, lines, marks, keys, patches, {}) == lines
  {
  }

  /** Patching one block reads nothing that patching the earlier ones changed, and adds exactly that block. */
  lemma BlockAdded(syntax: Syntax, lines: seq<string>, marks: Marks, keys: Keys, patches: Patches, order: seq<string>, k: nat)
    requires |lines| == |marks| == |keys| && keys == KeysOf(syntax, lines)
    requires Distinct(order) && k < |order| && BlockOf(marks, order[k]).Some? && order[k] in patches
    ensures var before, span := PatchedFor(syntax, lines, marks, keys, patches, Taken(order, k)), BlockOf(marks, order[k]).value;
            && MissingFields(KeysOf(syntax, before), span, patches[order[k]]) == MissingFields(keys, span, patches[order[k]])
            && PatchedBlock(syntax, before, KeysOf(syntax, before), span.0, span.1, patches[order[k]])
               == PatchedFor(syntax, lines, marks, keys, patches, Taken(order, k + 1))
  {
    var before, span := PatchedFor(syntax, lines, marks, keys, patches, Taken(order, k)), BlockOf(marks, order[k]).value;
    var keysBefore := KeysOf(syntax, before);
    assert Taken(order, k + 1) == Taken(order, k) + {order[k]};
    assert order[k] !in Taken(order, k);
    forall i | span.0 < i < span.1 ensures before[i] == lines[i] && keysBefore[i] == keys[i] {
      OwnedBy(marks, order[k], i);
    }
    SameFields(keys, keysBefore, span);
    var after := PatchedFor(syntax, lines, marks, keys, patches, Taken(order, k + 1));
    var block := PatchedBlock(syntax, before, keysBefore, span.0, span.1, patches[order[k]]);
    forall i | 0 <= i < |lines| ensures block[i] == after[i] {
      OwnedBy(marks, order[k], i);
      if span.0 < i < span.1 { SameFirst(keys, keysBefore, span, i); }
    }
  }

  lemma SameFields(keys: Keys, others: Keys, span: Span)
    requires |keys| == |others| && span.1 <= |keys| && forall i :: span.0 < i < span.1 ==> others[i] == keys[i]
    ensures forall key :: HasField(others, span, key) == HasField(keys, span, key)
  {
  }

  lemma SameFirst(keys: Keys, others: Keys, span: Span, i: nat)
    requires |keys| == |others| && span.0 < i < span.1 <= |keys| && forall j :: span.0 < j < span.1 ==> others[j] == keys[j]
    ensures FirstOfKey(others, span.0, i) == FirstOfKey(keys, span.0, i)
  {
  }
}
