/** The artifact blocks of a manifest (scripts/publish_canonical_snapshot.py), given which lines are name lines. */
module ManifestBlocks {
  import opened Wrappers
  import opened ManifestLines

  /** The first name line at or after `i`, or the end. */
  function NextName(marks: Marks, i: nat): (n: nat)
    requires i <= |marks|
    ensures i <= n <= |marks|
    ensures n < |marks| ==> marks[n].Some?
    decreases |marks| - i
  {
    if i == |marks| || marks[i].Some? then i else NextName(marks, i + 1)
  }

  /** The last name line before `i`. */
  function LastName(marks: Marks, i: nat): (n: Option<nat>)
    requires i <= |marks|
    ensures n.Some? ==> n.value < i && marks[n.value].Some?
  {
    if i == 0 then None else if marks[i - 1].Some? then Some(i - 1) else LastName(marks, i - 1)
  }

  /** The name line that a line follows is the one whose block the line is in. */
  lemma {:induction false} LastIsOpen(marks: Marks, start: nat, i: nat)
    requires start < i <= |marks| && marks[start].Some?
    ensures LastName(marks, i).Some? && start <= LastName(marks, i).value
    ensures LastName(marks, i) == Some(start) <==> i <= NextName(marks, start + 1)
    decreases i
  {
    if i > start + 1 {
      LastIsOpen(marks, start, i - 1);
      if i - 1 <= NextName(marks, start + 1) { NextNameFrom(marks, start + 1, i - 1); }
    }
  }

  lemma {:induction false} NextNameFrom(marks: Marks, i: nat, j: nat)
    requires i <= |marks| && i <= j <= NextName(marks, i)
    ensures NextName(marks, i) == NextName(marks, j)
    decreases j - i
  {
    if i < j { NextNameFrom(marks, i + 1, j); }
  }

  /** A block of `name` starts here and gets recorded: the name line that ends it, if any, has the same indentation. */
  predicate BlockAt(marks: Marks, i: nat, name: string) {
    && i < |marks| && marks[i].Some? && marks[i].value.name == name
    && var end := NextName(marks, i + 1);
       end < |marks| ==> marks[end].value.indent == marks[i].value.indent
  }

  type Span = (nat, nat)

  /** The last recorded block of `name` that ends before line `n`: its name line and where it ends. */
  function BlockBefore(marks: Marks, name: string, i: nat, n: nat): (span: Option<Span>)
    requires i <= |marks|
    ensures span.Some? ==> span.value.0 < i && BlockAt(marks, span.value.0, name)
                           && span.value.1 == NextName(marks, span.value.0 + 1) < n
  {
    if i == 0 then None
    else if BlockAt(marks, i - 1, name) && NextName(marks, i) < n then Some((i - 1, NextName(marks, i)))
    else BlockBefore(marks, name, i - 1, n)
  }

  /** The block that the patcher works on: the last recorded one. */
  function BlockOf(marks: Marks, name: string): Option<Span> {
    BlockBefore(marks, name, |marks|, |marks| + 1)
  }

  lemma {:induction false} BlockBeforeIsLast(marks: Marks, name: string, i: nat, n: nat, j: nat)
    requires j < i <= |marks| && BlockAt(marks, j, name) && NextName(marks, j + 1) < n
    ensures BlockBefore(marks, name, i, n).Some? && j <= BlockBefore(marks, name, i, n).value.0
  {
    if j < i - 1 { BlockBeforeIsLast(marks, name, i - 1, n, j); }
  }

  /** A name has a block exactly if one of its name lines is followed by a name line of the same indentation, or by none. */
  lemma BlockOfIff(marks: Marks, name: string)
    ensures BlockOf(marks, name).Some? <==> exists j: nat :: BlockAt(marks, j, name)
    ensures forall j: nat :: BlockAt(marks, j, name) ==> j <= BlockOf(marks, name).value.0
  {
    forall j: nat | BlockAt(marks, j, name) ensures BlockOf(marks, name).Some? && j <= BlockOf(marks, name).value.0 {
      BlockBeforeIsLast(marks, name, |marks|, |marks| + 1, j);
    }
  }

  predicate UniformIndent(marks: Marks) {
    forall i, j :: 0 <= i < |marks| && 0 <= j < |marks| && marks[i].Some? && marks[j].Some? ==>
      marks[i].value.indent == marks[j].value.indent
  }

  /** With uniform indentation no name line is lost, and the block of a name starts at its last name line. */
  lemma UniformIndentKeepsBlocks(marks: Marks, i: nat)
    requires UniformIndent(marks) && i < |marks| && marks[i].Some?
    ensures BlockOf(marks, marks[i].value.name).Some? && i <= BlockOf(marks, marks[i].value.name).value.0
  {
    assert BlockAt(marks, i, marks[i].value.name);
    BlockOfIff(marks, marks[i].value.name);
  }

  ghost predicate AreSpans(marks: Marks, spans: map<string, Span>, n: nat) {
    forall name :: BlockBefore(marks, name, |marks|, n) == if name in spans then Some(spans[name]) else None
  }

  /** `_artifact_block_spans`. */
  method ArtifactBlockSpans(syntax: Syntax, lines: seq<string>) returns (spans: map<string, Span>)
    ensures forall name :: BlockOf(MarksOf(syntax, lines), name) == if name in spans then Some(spans[name]) else None
  {
    spans := map[];
    var current: Option<(string, nat, string)> := None;
    ghost var marks := MarksOf(syntax, lines);
    for index := 0 to |lines|
      invariant AreSpans(marks, spans, index)
      invariant IsCurrent(marks, current, index)
    {
      var found := syntax.nameLine(lines[index]);
      CloseBlock(marks, spans, current, index);
      assert Ends(marks, current, index) == (current.Some? && found.Some? && found.value.indent == current.value.2) by {
        assert found == marks[index];
      }
      if found.Some? {
        if current.Some? && found.value.indent == current.value.2 {
          spans := spans[current.value.0 := (current.value.1, index)];
        }
        current := Some((found.value.name, index, found.value.indent));
      }
    }
    CloseBlock(marks, spans, current, |lines|);
    if current.Some? {
      spans := spans[current.value.0 := (current.value.1, |lines|)];
    }
  }

  /** The loop's current name, position and indentation are those of the last name line. */
  predicate IsCurrent(marks: Marks, current: Option<(string, nat, string)>, index: nat)
    requires index <= |marks|
  {
    match LastName(marks, index)
    case None => current.None?
    case Some(i) => current == Some((marks[i].value.name, i, marks[i].value.indent))
  }

  /** The current block is recorded as ending at line `index`. */
  predicate Ends(marks: Marks, current: Option<(string, nat, string)>, index: nat)
    requires index <= |marks|
  {
    current.Some? && (index < |marks| ==> marks[index].Some? && marks[index].value.indent == current.value.2)
  }

  /** Only the block of the current name line can end at line `index`. */
  lemma CloseBlock(marks: Marks, spans: map<string, Span>, current: Option<(string, nat, string)>, index: nat)
    requires index <= |marks| && AreSpans(marks, spans, index) && IsCurrent(marks, current, index)
    ensures AreSpans(marks, if Ends(marks, current, index) then spans[current.value.0 := (current.value.1, index)] else spans, index + 1)
  {
    var after := if Ends(marks, current, index) then spans[current.value.0 := (current.value.1, index)] else spans;
    forall name ensures BlockBefore(marks, name, |marks|, index + 1) == if name in after then Some(after[name]) else None {
      CloseName(marks, current, name, index);
      assert BlockBefore(marks, name, |marks|, index) == if name in spans then Some(spans[name]) else None;
    }
  }

  lemma CloseName(marks: Marks, current: Option<(string, nat, string)>, name: string, index: nat)
    requires index <= |marks| && IsCurrent(marks, current, index)
    ensures BlockBefore(marks, name, |marks|, index + 1) ==
            if Ends(marks, current, index) && name == current.value.0 then Some((current.value.1, index))
            else BlockBefore(marks, name, |marks|, index)
  {
    EndsAt(marks, name, |marks|, index);
    if current.Some? {
      LastIsOpen(marks, current.value.1, index);
      NextNameFrom(marks, current.value.1 + 1, index);
    }
  }

  /** The block of this name line is one of `name` and ends at line `index`. */
  predicate Closes(marks: Marks, name: string, last: Option<nat>, index: nat) {
    last.Some? && BlockAt(marks, last.value, name) && NextName(marks, last.value + 1) == index
  }

  lemma {:induction false} EndsAt(marks: Marks, name: string, i: nat, index: nat)
    requires i <= |marks| && index <= |marks|
    ensures var last := LastName(marks, index);
            BlockBefore(marks, name, i, index + 1) ==
            if last.Some? && last.value < i && Closes(marks, name, last, index)
            then Some((last.value, index)) else BlockBefore(marks, name, i, index)
  {
    if i > 0 {
      EndsAt(marks, name, i - 1, index);
      NameBefore(marks, i - 1, index);
      EndsOrStays(BlockAt(marks, i - 1, name), NextName(marks, i), i, index, LastName(marks, index),
                  Closes(marks, name, LastName(marks, index), index),
                  BlockBefore(marks, name, i - 1, index), BlockBefore(marks, name, i - 1, index + 1));
    }
  }

  /** The case distinction of `EndsAt`, free of the lines: `was` and `now` are the blocks found before and after line `index`. */
  lemma EndsOrStays(at: bool, end: nat, i: nat, index: nat, last: Option<nat>, closes: bool, was: Option<Span>, now: Option<Span>)
    requires 0 < i && now == if last.Some? && last.value < i - 1 && closes then Some((last.value, index)) else was
    requires at && end < index ==> last.Some? && last.value > i - 1
    requires at && end == index ==> last == Some(i - 1)
    requires last == Some(i - 1) ==> (closes <==> at && end == index)
    ensures (if at && end < index + 1 then Some((i - 1, end)) else now) ==
            if last.Some? && last.value < i && closes then Some((last.value, index))
            else if at && end < index then Some((i - 1, end)) else was
  {
  }

  /** Whether the block of a name line ends before, at or after a line tells where the last name line is. */
  lemma NameBefore(marks: Marks, start: nat, index: nat)
    requires start < |marks| && index <= |marks|
    ensures var last, end := LastName(marks, index), NextName(marks, start + 1);
            && (marks[start].Some? && end < index ==> last.Some? && last.value > start)
            && (marks[start].Some? && end == index ==> last == Some(start))
  {
    if marks[start].Some? && start < index { LastIsOpen(marks, start, index); }
  }

  /** The artifact whose recorded block a line is in, and the block's name line. */
  datatype Owner = Owner(name: string, start: nat)

  function OwnerOf(marks: Marks, i: nat): (owner: Option<Owner>)
    requires i < |marks|
    ensures owner.Some? ==> owner.value.start < i
  {
    var last := LastName(marks, i);
    if marks[i].Some? || last.None? then None
    else
      var name := marks[last.value].value.name;
      if BlockOf(marks, name) == Some((last.value, NextName(marks, last.value + 1))) then Some(Owner(name, last.value)) else None
  }

  /** The lines of a block are exactly those it owns. */
  lemma OwnedBy(marks: Marks, name: string, i: nat)
    requires i < |marks| && BlockOf(marks, name).Some?
    ensures var span := BlockOf(marks, name).value;
            OwnerOf(marks, i) == Some(Owner(name, span.0)) <==> span.0 < i < span.1
    ensures OwnerOf(marks, i).Some? && OwnerOf(marks, i).value.name == name ==>
              OwnerOf(marks, i).value.start == BlockOf(marks, name).value.0
  {
    var span, last := BlockOf(marks, name).value, LastName(marks, i);
    if span.0 < i {
      LastIsOpen(marks, span.0, i);
      if i <= span.1 { NextNameFrom(marks, span.0 + 1, i); }
    }
  }
}
