/** One open document: its mirror, its generation, its cache and the handle of its current work. */
module DocumentRecord {
  import opened Text
  import opened Edits

  datatype Format = PlainText | Markdown

  /** What an analysis was made of; a finished computation is named by the inputs it was given. */
  datatype Analysis =
    | Oversized(bytes: nat, limit: nat)
    | Failed
    | Computed(text: string, format: Format, generation: nat)

  datatype Cached = Cached(generation: nat, version: i32, analysis: Analysis)

  /** `watch` is the value readers of the document see. */
  datatype Record = Record(
    text: string,
    generation: nat,
    version: i32,
    format: Format,
    cached: Option<Cached>,
    watch: Option<Cached>)

  function Opened(text: string, version: i32, format: Format): Record {
    Record(text, 1, version, format, None, None)
  }

  /** A change invalidates whatever was known of the text before it. */
  function Changed(record: Record, version: i32, changes: seq<Change>): Record {
    Record(EditedAll(record.text, changes), record.generation + 1, version, record.format, None, None)
  }

  function Installed(record: Record, cached: Cached): Record {
    record.(cached := Some(cached), watch := Some(cached))
  }

  /** A flag shared by a work item and the document it was made for; handles are compared by identity. */
  class CancellationHandle {
    var cancelled: bool

    constructor ()
      ensures !cancelled
    {
      cancelled := false;
    }

    method Cancel()
      modifies this
      ensures cancelled
    {
      cancelled := true;
    }
  }

  class DocumentState {
    const rope: Rope
    const format: Format
    var generation: nat
    var version: i32
    var cached: Option<Cached>
    var cancellation: CancellationHandle
    var updates: Option<Cached>

    function View(): Record
      reads this, rope
    {
      Record(rope.text, generation, version, format, cached, updates)
    }

    constructor (text: string, version: i32, format: Format)
      ensures fresh(rope) && fresh(cancellation) && !cancellation.cancelled
      ensures View() == Opened(text, version, format)
    {
      rope := new Rope(text);
      generation, this.version, this.format := 1, version, format;
      cached, updates := None, None;
      cancellation := new CancellationHandle();
    }

    /** Cancels the current work, edits the mirror in place and starts the next generation under a new handle. */
    method ApplyEdit(version: i32, changes: seq<Change>)
      modifies this, rope, cancellation
      ensures View() == Changed(old(View()), version, changes)
      ensures old(cancellation).cancelled && fresh(cancellation) && !cancellation.cancelled
    {
      cancellation.Cancel();
      ApplyChanges(rope, changes);
      generation, this.version := generation + 1, version;
      cached, updates := None, None;
      cancellation := new CancellationHandle();
    }

    /** Takes a result only for this very generation, and only from the handle the document still holds. */
    method Accept(handle: CancellationHandle, result: Cached) returns (installed: bool)
      modifies this
      ensures installed <==> result.generation == old(generation) && !cancellation.cancelled && cancellation == handle
      ensures View() == if installed then Installed(old(View()), result) else old(View())
      ensures cancellation == old(cancellation)
    {
      if generation != result.generation || cancellation.cancelled || cancellation != handle {
        return false;
      }
      cached, updates := Some(result), Some(result);
      return true;
    }
  }
}
