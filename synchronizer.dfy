/**
 * The synchronizer (src/utils/createSynchronizeHandler.ts): it keeps bounded,
 * most-recent-first histories of the text and the selection the host input
 * reports, records in a short queue which of the two was updated last, and
 * notifies its `sync` subscribers whenever the two newest queue entries form
 * a pair in the platform's delivery order.
 */
module Synchronizer {
  import opened Js
  import opened Types

  /** The tags the update queue records: `'text'` and `'selection'`. */
  datatype Update = TextUpdate | SelectionUpdate

  /** One notification of the `sync` subscribers: both histories, most recent first. */
  datatype SyncEvent = Sync(textBuffer: seq<string>, selectionBuffer: seq<Selection>)

  /** The update queue keeps at most this many tags. */
  const QueueCap := 10

  /**
   * `[x, ...s].slice(0, n)`: record x as the most recent entry of a history
   * and keep at most n entries (a non-positive n drops entries from the end,
   * as `slice` does with a negative end).
   */
  function Push<T>(x: T, s: seq<T>, n: int): (r: seq<T>)
    ensures n >= 1 ==> |r| == Min(n, |s| + 1) && r[0] == x && r[1..] == s[..|r| - 1]
    ensures n == 0 ==> r == []
    ensures n < 0 ==> |r| == Max(|s| + 1 + n, 0) && r == ([x] + s)[..|r|]
  {
    Slice([x] + s, 0, n)
  }

  /**
   * Whether the two most recent queue tags complete a pair: on Android a
   * selection update that follows a text update, elsewhere a text update
   * that follows a selection update. A missing entry is `undefined`.
   */
  predicate Pairs(isAndroid: bool, queue: seq<Update>)
  {
    var first := At(queue, 0);
    var last := At(queue, 1);
    if isAndroid then first == Some(SelectionUpdate) && last == Some(TextUpdate)
    else first == Some(TextUpdate) && last == Some(SelectionUpdate)
  }

  /** A pair is two different tags, the newer one fixed by the platform; so two updates of the same kind in a row never pair. */
  lemma PairsExactly(isAndroid: bool, queue: seq<Update>)
    ensures Pairs(isAndroid, queue) <==>
      |queue| >= 2 && queue[0] != queue[1] && queue[0] == (if isAndroid then SelectionUpdate else TextUpdate)
  {
  }

  /** An update pairs exactly when the previous update was of the other kind and this one is the platform's closing kind. */
  lemma {:induction false} PushPairs(isAndroid: bool, queue: seq<Update>, u: Update)
    ensures Pairs(isAndroid, Push(u, queue, QueueCap)) <==>
      |queue| >= 1 && queue[0] != u && u == (if isAndroid then SelectionUpdate else TextUpdate)
  {
    var q := Push(u, queue, QueueCap);
    PairsExactly(isAndroid, q);
    assert q[0] == u;
    if |queue| >= 1 {
      assert q[1..] == queue[..|q| - 1];
      assert q[1] == queue[0];
    } else {
      assert |q| == 1;
    }
  }

  class SyncHandler {
    /** `Platform.OS === 'android'`, injected. */
    const isAndroid: bool
    /** The configured history length `buffer`. */
    const buffer: int
    var selectionBuffer: seq<Selection>
    var textBuffer: seq<string>
    var queue: seq<Update>
    /** The calls of the `sync` subscribers so far, oldest first. */
    var events: seq<SyncEvent>

    /** The queue is capped; with a positive `buffer` both histories are non-empty and bounded by it. */
    ghost predicate Valid()
      reads this
    {
      && |queue| <= QueueCap
      && (buffer >= 1 ==> 1 <= |textBuffer| <= buffer && 1 <= |selectionBuffer| <= buffer)
    }

    constructor (initialText: string, initialSelection: Selection, buffer: int, isAndroid: bool)
      ensures Valid()
      ensures this.buffer == buffer && this.isAndroid == isAndroid
      ensures textBuffer == [initialText] && selectionBuffer == [initialSelection]
      ensures queue == [] && events == []
    {
      this.isAndroid := isAndroid;
      this.buffer := buffer;
      selectionBuffer := [initialSelection];
      textBuffer := [initialText];
      queue := [];
      events := [];
    }

    /** `check`: notify the subscribers with both full histories when the queue head completes a pair. */
    method Check()
      modifies this
      ensures textBuffer == old(textBuffer) && selectionBuffer == old(selectionBuffer) && queue == old(queue)
      ensures events == old(events) + (if Pairs(isAndroid, queue) then [Sync(textBuffer, selectionBuffer)] else [])
    {
      var first := At(queue, 0);
      var last := At(queue, 1);
      var sync :=
        if isAndroid then first == Some(SelectionUpdate) && last == Some(TextUpdate)
        else first == Some(TextUpdate) && last == Some(SelectionUpdate);
      if sync {
        events := events + [Sync(textBuffer, selectionBuffer)];
      }
    }

    /**
     * `updateSelection`: a selection equal to the newest stored one changes
     * nothing; any other is recorded in the history and the queue and may
     * complete a pair.
     */
    method UpdateSelection(selection: Selection)
      requires Valid() && selectionBuffer != []
      modifies this
      ensures Valid()
      ensures textBuffer == old(textBuffer)
      ensures old(selectionBuffer)[0] == selection ==>
        selectionBuffer == old(selectionBuffer) && queue == old(queue) && events == old(events)
      ensures old(selectionBuffer)[0] != selection ==>
        && selectionBuffer == Push(selection, old(selectionBuffer), buffer)
        && queue == Push(SelectionUpdate, old(queue), QueueCap)
        && events == old(events) + (if Pairs(isAndroid, queue) then [Sync(textBuffer, selectionBuffer)] else [])
    {
      var last := selectionBuffer[0];
      if last.start == selection.start && last.end == selection.end {
        return;
      }
      selectionBuffer := Slice([selection] + selectionBuffer, 0, buffer);
      queue := Slice([SelectionUpdate] + queue, 0, QueueCap);
      Check();
    }

    /** `updateText`: every text, even one equal to the newest stored text, is recorded and may complete a pair. */
    method UpdateText(text: string)
      requires Valid()
      modifies this
      ensures Valid()
      ensures selectionBuffer == old(selectionBuffer)
      ensures textBuffer == Push(text, old(textBuffer), buffer)
      ensures queue == Push(TextUpdate, old(queue), QueueCap)
      ensures events == old(events) + (if Pairs(isAndroid, queue) then [Sync(textBuffer, selectionBuffer)] else [])
    {
      textBuffer := Slice([text] + textBuffer, 0, buffer);
      queue := Slice([TextUpdate] + queue, 0, QueueCap);
      Check();
    }
  }

  /**
   * On Android a text update followed by a selection update is one edit:
   * exactly one notification fires, carrying both histories, and repeating
   * the same selection fires nothing more.
   */
  method AndroidPairingScenario()
  {
    var h := new SyncHandler("", Selection(0, 0), 10, true);
    h.UpdateText("a");
    assert h.queue == [TextUpdate];
    assert h.events == [];
    h.UpdateSelection(Selection(1, 1));
    assert h.queue == [SelectionUpdate, TextUpdate];
    assert h.textBuffer == ["a", ""];
    assert h.selectionBuffer == [Selection(1, 1), Selection(0, 0)];
    assert h.events == [Sync(["a", ""], [Selection(1, 1), Selection(0, 0)])];
    h.UpdateSelection(Selection(1, 1));
    assert |h.events| == 1;
  }
}
