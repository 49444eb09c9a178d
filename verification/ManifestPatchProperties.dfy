/** Exactness of the manifest patcher: what it keeps, what reads back, and when patching again changes nothing. */
module ManifestPatchProperties {
  import opened Wrappers
  import opened PublishSnapshot
  import opened ManifestLines
  import opened ManifestBlocks
  import opened ManifestPatch
  import opened ManifestLineLaws

  /** Every update names a field and writes a value that stays on its line. */
  predicate FieldUpdates(updates: map<string, Scalar>) {
    forall key :: key in updates ==> FieldKey(key) && OneLine(updates[key])
  }

  predicate FieldPatches(patches: Patches) {
    forall name :: name in patches ==> FieldUpdates(patches[name])
  }

  // ---------------------------------------------------------------------------
  // What a patch keeps

  /** A changed line lies in the block of a patched artifact and is the first there with its key, one of the updated ones. */
  lemma OnlyFirstOccurrences(syntax: Syntax, lines: seq<string>, patches: Patches, i: nat)
    requires i < |lines| && PatchedLines(syntax, lines, patches)[i] != lines[i]
    ensures var marks, keys := MarksOf(syntax, lines), KeysOf(syntax, lines);
            && OwnerOf(marks, i).Some? && OwnerOf(marks, i).value.name in patches
            && var name := OwnerOf(marks, i).value.name;
               && BlockOf(marks, name).Some?
               && var span := BlockOf(marks, name).value;
                  && span.0 < i < span.1 && FirstOfKey(keys, span.0, i) && keys[i].value in patches[name]
                  && PatchedLines(syntax, lines, patches)[i] == syntax.patched(lines[i], patches[name][keys[i].value])
  {
    var owner := OwnerOf(MarksOf(syntax, lines), i).value;
    OwnedBy(MarksOf(syntax, lines), owner.name, i);
  }

  lemma LineKeepsOutline(syntax: Syntax, lines: seq<string>, patches: Patches, i: nat)
    requires Lawful(syntax) && FieldPatches(patches) && i < |lines|
    ensures var line := PatchedLines(syntax, lines, patches)[i];
            syntax.nameLine(line) == syntax.nameLine(lines[i]) && syntax.key(line) == syntax.key(lines[i])
  {
    if PatchedLines(syntax, lines, patches)[i] != lines[i] {
      OnlyFirstOccurrences(syntax, lines, patches, i);
      var name := OwnerOf(MarksOf(syntax, lines), i).value.name;
      assert FieldUpdates(patches[name]);
    }
  }

  /** No line appears or disappears, and name lines, blocks and keys stay where they are. */
  lemma KeepsOutline(syntax: Syntax, lines: seq<string>, patches: Patches)
    requires Lawful(syntax) && FieldPatches(patches)
    ensures |PatchedLines(syntax, lines, patches)| == |lines|
    ensures MarksOf(syntax, PatchedLines(syntax, lines, patches)) == MarksOf(syntax, lines)
    ensures KeysOf(syntax, PatchedLines(syntax, lines, patches)) == KeysOf(syntax, lines)
  {
    forall i | 0 <= i < |lines|
      ensures MarksOf(syntax, PatchedLines(syntax, lines, patches))[i] == MarksOf(syntax, lines)[i]
      ensures KeysOf(syntax, PatchedLines(syntax, lines, patches))[i] == KeysOf(syntax, lines)[i]
    {
      LineKeepsOutline(syntax, lines, patches, i);
    }
  }

  // ---------------------------------------------------------------------------
  // Reading back

  /** The first line from `i` on, before `end`, with this key. */
  function FirstField(keys: Keys, i: nat, end: nat, key: string): (found: Option<nat>)
    requires end <= |keys|
    ensures found.Some? ==> i <= found.value < end && keys[found.value] == Some(key)
    decreases end - i
  {
    if i >= end then None else if keys[i] == Some(key) then Some(i) else FirstField(keys, i + 1, end, key)
  }

  lemma {:induction false} FirstFieldIsFirst(keys: Keys, start: nat, i: nat, end: nat, key: string)
    requires start < i && end <= |keys| && forall j :: start < j < i && j < end ==> keys[j] != Some(key)
    ensures FirstField(keys, i, end, key).Some? ==> FirstOfKey(keys, start, FirstField(keys, i, end, key).value)
    ensures FirstField(keys, i, end, key).None? ==> forall j :: start < j < end ==> keys[j] != Some(key)
    decreases end - i
  {
    if i < end && keys[i] != Some(key) { FirstFieldIsFirst(keys, start, i + 1, end, key); }
  }

  /** Where the field of an artifact stands. */
  function FieldLine(marks: Marks, keys: Keys, name: string, key: string): (line: Option<nat>)
    requires |marks| == |keys|
    ensures line.Some? ==> line.value < |keys|
  {
    var span := BlockOf(marks, name);
    if span.None? then None else FirstField(keys, span.value.0 + 1, span.value.1, key)
  }

  /** The text of an artifact's field, trimmed, if its block has the field. */
  function ReadField(syntax: Syntax, lines: seq<string>, name: string, key: string): Option<string> {
    var line := FieldLine(MarksOf(syntax, lines), KeysOf(syntax, lines), name, key);
    if line.None? then None else Some(syntax.value(lines[line.value]))
  }

  /** The updates that a patch holds for the field are exactly what changes its line. */
  lemma FieldLinePatched(syntax: Syntax, lines: seq<string>, patches: Patches, name: string, key: string)
    requires FieldLine(MarksOf(syntax, lines), KeysOf(syntax, lines), name, key).Some?
    ensures var i := FieldLine(MarksOf(syntax, lines), KeysOf(syntax, lines), name, key).value;
            && syntax.key(lines[i]) == Some(key)
            && PatchedLines(syntax, lines, patches)[i]
               == if name in patches && key in patches[name] then syntax.patched(lines[i], patches[name][key]) else lines[i]
  {
    var marks, keys := MarksOf(syntax, lines), KeysOf(syntax, lines);
    var span, i := BlockOf(marks, name).value, FieldLine(marks, keys, name, key).value;
    OwnedBy(marks, name, i);
    FirstFieldIsFirst(keys, span.0, span.0 + 1, span.1, key);
    assert keys[i] == syntax.key(lines[i]);
  }

  /** A field reads back as its new value if it was patched, and as before otherwise. */
  lemma ReadBack(syntax: Syntax, lines: seq<string>, patches: Patches, name: string, key: string)
    requires Lawful(syntax) && FieldPatches(patches)
    ensures ReadField(syntax, PatchedLines(syntax, lines, patches), name, key) ==
            match ReadField(syntax, lines, name, key)
            case None => None
            case Some(current) =>
              Some(if name in patches && key in patches[name] then syntax.rendered(patches[name][key], current) else current)
  {
    KeepsOutline(syntax, lines, patches);
    if FieldLine(MarksOf(syntax, lines), KeysOf(syntax, lines), name, key).Some? {
      FieldLinePatched(syntax, lines, patches, name, key);
      if name in patches && key in patches[name] { assert FieldUpdates(patches[name]); }
    }
  }

  /** Whether a patch applies is a matter of the outline, so it applies again to its own result. */
  lemma StaysPatchable(syntax: Syntax, lines: seq<string>, patches: Patches, others: Patches)
    requires Lawful(syntax) && FieldPatches(patches)
    ensures Patchable(syntax, PatchedLines(syntax, lines, patches), others) <==> Patchable(syntax, lines, others)
  {
    KeepsOutline(syntax, lines, patches);
  }

  // ---------------------------------------------------------------------------
  // Patching again

  /** Every field that the patch writes keeps its text when it is written once more. */
  ghost predicate AllSettle(syntax: Syntax, lines: seq<string>, patches: Patches) {
    forall name, key :: Rewrites(syntax, lines, patches, name, key) ==>
      syntax.settles(patches[name][key], ReadField(syntax, lines, name, key).value)
  }

  predicate Rewrites(syntax: Syntax, lines: seq<string>, patches: Patches, name: string, key: string) {
    name in patches && key in patches[name] && ReadField(syntax, lines, name, key).Some?
  }

  lemma RepatchedField(syntax: Syntax, lines: seq<string>, patches: Patches, name: string, key: string)
    requires Lawful(syntax) && FieldPatches(patches) && Rewrites(syntax, lines, patches, name, key)
    ensures var i := FieldLine(MarksOf(syntax, lines), KeysOf(syntax, lines), name, key).value;
            var once := PatchedLines(syntax, lines, patches);
            PatchedLines(syntax, once, patches)[i] == once[i]
            <==> syntax.settles(patches[name][key], ReadField(syntax, lines, name, key).value)
  {
    var once := PatchedLines(syntax, lines, patches);
    KeepsOutline(syntax, lines, patches);
    FieldLinePatched(syntax, lines, patches, name, key);
    FieldLinePatched(syntax, once, patches, name, key);
    assert FieldUpdates(patches[name]);
  }

  lemma RepatchedLine(syntax: Syntax, lines: seq<string>, patches: Patches, i: nat)
    requires Lawful(syntax) && FieldPatches(patches) && AllSettle(syntax, lines, patches) && i < |lines|
    ensures var once := PatchedLines(syntax, lines, patches); PatchedLines(syntax, once, patches)[i] == once[i]
  {
    var once := PatchedLines(syntax, lines, patches);
    if PatchedLines(syntax, once, patches)[i] != once[i] {
      KeepsOutline(syntax, lines, patches);
      OnlyFirstOccurrences(syntax, once, patches, i);
      var name, key := OwnerOf(MarksOf(syntax, lines), i).value.name, KeysOf(syntax, lines)[i].value;
      FirstIsField(MarksOf(syntax, lines), KeysOf(syntax, lines), name, i);
      RepatchedField(syntax, lines, patches, name, key);
    }
  }

  lemma FirstIsField(marks: Marks, keys: Keys, name: string, i: nat)
    requires |marks| == |keys| && BlockOf(marks, name).Some?
    requires var span := BlockOf(marks, name).value; i < span.1 && FirstOfKey(keys, span.0, i)
    ensures FieldLine(marks, keys, name, keys[i].value) == Some(i)
  {
    var span := BlockOf(marks, name).value;
    FirstFieldIsFirst(keys, span.0, span.0 + 1, span.1, keys[i].value);
    var found := FirstField(keys, span.0 + 1, span.1, keys[i].value);
    assert found.Some?;
    assert found.value >= i && i >= found.value;
  }

  /** Patching a second time changes nothing exactly if every written value settles. */
  lemma RepatchIsNoop(syntax: Syntax, lines: seq<string>, patches: Patches)
    requires Lawful(syntax) && FieldPatches(patches)
    ensures var once := PatchedLines(syntax, lines, patches);
            PatchedLines(syntax, once, patches) == once <==> AllSettle(syntax, lines, patches)
  {
    var once := PatchedLines(syntax, lines, patches);
    if AllSettle(syntax, lines, patches) {
      forall i | 0 <= i < |lines| ensures PatchedLines(syntax, once, patches)[i] == once[i] {
        RepatchedLine(syntax, lines, patches, i);
      }
    }
    if PatchedLines(syntax, once, patches) == once {
      forall name, key | Rewrites(syntax, lines, patches, name, key)
        ensures syntax.settles(patches[name][key], ReadField(syntax, lines, name, key).value)
      {
        RepatchedField(syntax, lines, patches, name, key);
      }
    }
  }
}
