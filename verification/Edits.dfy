/** Incremental document edits, in the same line model as the token positions. */
module Edits {
  import opened Text
  import opened Coordinates

  datatype Position = Position(line: u32, character: u32)

  datatype Range = Range(start: Position, end: Position)

  /** One content change; without a range it replaces the whole document. */
  datatype Change = Change(range: Option<Range>, text: string)

  /** The document mirror, edited in place by scalar index. */
  class Rope {
    var text: string

    constructor (text: string)
      ensures this.text == text
    {
      this.text := text;
    }

    method Remove(from: nat, to: nat)
      requires from <= to <= |text|
      modifies this
      ensures text == old(text)[..from] + old(text)[to..]
    {
      text := text[..from] + text[to..];
    }

    method Insert(at: nat, inserted: string)
      requires at <= |text|
      modifies this
      ensures text == old(text)[..at] + inserted + old(text)[at..]
    {
      text := text[..at] + inserted + text[at..];
    }
  }

  /** The scalars a change replaces: its clamped start, and its clamped end no earlier than that. */
  function Replaced(doc: string, range: Range): (ends: (nat, nat))
    ensures ends.0 <= ends.1 <= |doc|
  {
    var from := SeekIndex(doc, range.start.line, range.start.character);
    var to := SeekIndex(doc, range.end.line, range.end.character);
    (from, if to < from then from else to)
  }

  function Edited(doc: string, change: Change): string {
    match change.range
    case None => change.text
    case Some(range) =>
      var ends := Replaced(doc, range);
      doc[..ends.0] + change.text + doc[ends.1..]
  }

  function EditedAll(doc: string, changes: seq<Change>): string
    decreases |changes|
  {
    if changes == [] then doc else EditedAll(Edited(doc, changes[0]), changes[1..])
  }

  lemma {:induction false} EditedAllAppend(doc: string, changes: seq<Change>, more: seq<Change>)
    ensures EditedAll(doc, changes + more) == EditedAll(EditedAll(doc, changes), more)
    decreases |changes|
  {
    if changes == [] {
      assert changes + more == more;
    } else {
      assert (changes + more)[1..] == changes[1..] + more;
      EditedAllAppend(Edited(doc, changes[0]), changes[1..], more);
    }
  }

  method ApplyChange(rope: Rope, range: Option<Range>, text: string)
    modifies rope
    ensures rope.text == Edited(old(rope.text), Change(range, text))
  {
    match range {
      case None =>
        rope.text := text;
      case Some(range) =>
        var snapshot := rope.text;
        var index := LineIndex.New(snapshot);
        var start := index.OffsetOf(range.start.line, range.start.character);
        var end := index.OffsetOf(range.end.line, range.end.character);
        ghost var from := SeekIndex(snapshot, range.start.line, range.start.character);
        ghost var to := SeekIndex(snapshot, range.end.line, range.end.character);
        ByteOffsetInjective(snapshot, from, to);
        IndexOfOffset(snapshot, from);
        IndexOfOffset(snapshot, to);
        end := if end < start then start else end;
        var startChar := FloorIndex(snapshot, start);
        var endChar := FloorIndex(snapshot, end);
        rope.Remove(startChar, endChar);
        rope.Insert(startChar, text);
        assert (snapshot[..startChar] + snapshot[endChar..])[startChar..] == snapshot[endChar..];
    }
  }

  method ApplyChanges(rope: Rope, changes: seq<Change>)
    modifies rope
    ensures rope.text == EditedAll(old(rope.text), changes)
  {
    assert changes[..0] == [];
    for i := 0 to |changes|
      invariant rope.text == EditedAll(old(rope.text), changes[..i])
    {
      ApplyChange(rope, changes[i].range, changes[i].text);
      assert changes[..i + 1] == changes[..i] + [changes[i]];
      EditedAllAppend(old(rope.text), changes[..i], [changes[i]]);
      assert EditedAll(EditedAll(old(rope.text), changes[..i]), [changes[i]]) == rope.text;
    }
    assert changes[..|changes|] == changes;
  }

  // ----- An editor that edits its own copy and reports positions -----

  /** Replace scalars `from..to`, neither end of which may split a `\r\n`; or retype the whole text. */
  datatype Splice = Splice(from: nat, to: nat, text: string) | Retype(text: string)

  predicate Reportable(doc: string, splice: Splice) {
    splice.Splice? ==>
      && splice.from <= splice.to <= |doc|
      && !InsideCrLf(doc, splice.from)
      && !InsideCrLf(doc, splice.to)
      && ByteLen(doc) < U32_LIMIT
  }

  function Spliced(doc: string, splice: Splice): string
    requires Reportable(doc, splice)
  {
    match splice
    case Splice(from, to, text) => doc[..from] + text + doc[to..]
    case Retype(text) => text
  }

  /** The change an editor sends: both ends as positions in its current text, or its whole new text. */
  function Reported(doc: string, splice: Splice): Change
    requires Reportable(doc, splice)
  {
    match splice
    case Retype(text) => Change(None, text)
    case Splice(from, to, text) =>
      ColumnOfPlace(doc, from);
      ColumnOfPlace(doc, to);
      var start, end := Place(doc, from), Place(doc, to);
      Change(Some(Range(Position(start.0, start.1), Position(end.0, end.1))), text)
  }

  ghost predicate ReportableAll(doc: string, splices: seq<Splice>)
    decreases |splices|
  {
    splices == []
    || (Reportable(doc, splices[0]) && ReportableAll(Spliced(doc, splices[0]), splices[1..]))
  }

  ghost function SplicedAll(doc: string, splices: seq<Splice>): string
    requires ReportableAll(doc, splices)
    decreases |splices|
  {
    if splices == [] then doc else SplicedAll(Spliced(doc, splices[0]), splices[1..])
  }

  ghost function ReportedAll(doc: string, splices: seq<Splice>): seq<Change>
    requires ReportableAll(doc, splices)
    decreases |splices|
  {
    if splices == [] then []
    else [Reported(doc, splices[0])] + ReportedAll(Spliced(doc, splices[0]), splices[1..])
  }

  /** Applying a reported change is exactly the splice it describes. */
  lemma ReportedChangeIsItsSplice(doc: string, splice: Splice)
    requires Reportable(doc, splice)
    ensures Edited(doc, Reported(doc, splice)) == Spliced(doc, splice)
  {
    if splice.Splice? {
      OffsetOfUndoesPosition(doc, splice.from);
      OffsetOfUndoesPosition(doc, splice.to);
    }
  }

  /** The server's mirror equals the editor's text after any sequence of reported splices and whole texts. */
  lemma {:induction false} MirrorFollowsEditor(doc: string, splices: seq<Splice>)
    requires ReportableAll(doc, splices)
    ensures EditedAll(doc, ReportedAll(doc, splices)) == SplicedAll(doc, splices)
    decreases |splices|
  {
    if splices != [] {
      ReportedChangeIsItsSplice(doc, splices[0]);
      var rest := ReportedAll(Spliced(doc, splices[0]), splices[1..]);
      assert ReportedAll(doc, splices)[1..] == rest;
      MirrorFollowsEditor(Spliced(doc, splices[0]), splices[1..]);
    }
  }
}
