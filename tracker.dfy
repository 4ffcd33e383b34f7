/**
 * The tracker (src/utils/createTrackingHandler.ts), one per trigger tag: an
 * idle/tracking machine driven by synchronized edits. While tracking it
 * knows the trigger's position and the live keyword, it tells its
 * subscribers when tracking starts and stops (only on an actual flip) and
 * when the keyword changes, and `commit` splices a chosen name into the text
 * in place of the keyword.
 *
 * Each step of the source is given twice: as a pure function over the
 * closure state (`State`), about which the lemmas speak, and as a method of
 * `TrackingHandler` that updates the fields step by step as the source does
 * and is proved to agree with that function.
 */
module Tracker {
  import opened Js
  import opened Types

  /** The tracking-history queue keeps at most this many entries after each check. */
  const QueueCap := 10

  /** What `commit` returns and hands to its subscribers. */
  datatype Commitment = Commitment(
    keyword: string, slicedText: string, name: string, id: string,
    text: string, start: int, end: int)

  /** One call of a subscriber, in the order in which the calls happen. */
  datatype TrackerEvent =
    | Started
    | Stopped
    | KeywordChanged(query: Option<string>)
    | Committed(result: Commitment)

  /** The closure state: the tracking history (most recent first), the trigger position (-1 while idle) and the keyword. */
  datatype State = State(queue: seq<bool>, position: int, keyword: string)

  /** The state a new tracker starts in. */
  const Idle := State([false], -1, "")

  /**
   * The invariant every step keeps: the newest history entry says whether
   * the tracker is tracking, which is exactly when it has a position; an idle
   * tracker has no keyword; and tracking only ever starts for a one-character
   * tag, because the tag is compared with one character of the text.
   */
  predicate Inv(s: State, tag: string)
  {
    && |s.queue| >= 1
    && s.position >= -1
    && (s.queue[0] <==> s.position >= 0)
    && (s.position == -1 ==> s.keyword == "")
    && (s.position >= 0 ==> |tag| == 1)
  }

  /** Whether the tracker is tracking, by the newest history entry. */
  predicate Tracking(s: State)
    requires |s.queue| >= 1
  {
    s.queue[0]
  }

  // ---------------------------------------------------------------------------
  // Whitespace, the keyword and its query

  /** JavaScript's `\s`: the white-space and line-terminator characters. */
  predicate IsWhitespace(c: char)
  {
    var n := c as int;
    || 9 <= n <= 13 || n == 32 || n == 0xA0 || n == 0x1680 || 0x2000 <= n <= 0x200A
    || n == 0x2028 || n == 0x2029 || n == 0x202F || n == 0x205F || n == 0x3000 || n == 0xFEFF
  }

  /** The number of whitespace characters s starts with. */
  function LeadingSpace(s: string): (n: nat)
    ensures n <= |s|
    ensures forall k :: 0 <= k < n ==> IsWhitespace(s[k])
    ensures n < |s| ==> !IsWhitespace(s[n])
  {
    if s == [] || !IsWhitespace(s[0]) then 0 else 1 + LeadingSpace(s[1..])
  }

  /** The length of the longest whitespace-free prefix of s. */
  function WordLength(s: string): (n: nat)
    ensures n <= |s|
    ensures forall k :: 0 <= k < n ==> !IsWhitespace(s[k])
    ensures n < |s| ==> IsWhitespace(s[n])
  {
    if s == [] || IsWhitespace(s[0]) then 0 else 1 + WordLength(s[1..])
  }

  /**
   * `/([^\s]+)/.exec(s)[0]`: the first maximal run of non-whitespace
   * characters of s, or `None` where `exec` returns null.
   */
  function FirstWord(s: string): (r: Option<string>)
    ensures r.None? <==> forall k :: 0 <= k < |s| ==> IsWhitespace(s[k])
    ensures r.Some? ==>
      var i := LeadingSpace(s);
      var w := r.value;
      && w != []
      && i + |w| <= |s| && w == s[i..i + |w|]
      && (forall k :: 0 <= k < |w| ==> !IsWhitespace(w[k]))
      && (i + |w| == |s| || IsWhitespace(s[i + |w|]))
  {
    var i := LeadingSpace(s);
    if i == |s| then None else Some(s[i..i + WordLength(s[i..])])
  }

  /** A word without whitespace is its own longest whitespace-free prefix. */
  lemma {:induction false} WordLengthOfWord(w: string)
    requires forall k :: 0 <= k < |w| ==> !IsWhitespace(w[k])
    ensures WordLength(w) == |w|
  {
    if w != [] {
      assert !IsWhitespace(w[0]);
      WordLengthOfWord(w[1..]);
    }
  }

  /** A non-empty word without whitespace is its own first word. */
  lemma WordIsFirstWord(w: string)
    requires w != [] && forall k :: 0 <= k < |w| ==> !IsWhitespace(w[k])
    ensures FirstWord(w) == Some(w)
  {
    assert !IsWhitespace(w[0]);
    assert LeadingSpace(w) == 0;
    assert w[0..] == w;
    WordLengthOfWord(w);
    assert w[0..0 + |w|] == w;
  }

  /** The index of the first c in s, or |s| when there is none. */
  function IndexOf(s: string, c: char): (i: nat)
    ensures i <= |s|
    ensures forall k :: 0 <= k < i ==> s[k] != c
    ensures i < |s| ==> s[i] == c
  {
    if s == [] || s[0] == c then 0 else 1 + IndexOf(s[1..], c)
  }

  /**
   * `s.split(c)[1]` for a one-character separator: the field between the
   * first and the second c (or the end of s), `undefined` when s has no c.
   */
  function SecondField(s: string, c: char): (r: Option<string>)
    ensures r.None? <==> c !in s
    ensures r.Some? ==>
      var i := IndexOf(s, c);
      var f := r.value;
      && i < |s| && i + 1 + |f| <= |s| && f == s[i + 1..i + 1 + |f|]
      && c !in f
      && (i + 1 + |f| == |s| || s[i + 1 + |f|] == c)
  {
    var i := IndexOf(s, c);
    if i == |s| then None
    else
      var rest := s[i + 1..];
      Some(rest[..IndexOf(rest, c)])
  }

  /** `text.substr(position)` searched for the keyword; `substr` of a non-negative position is a one-argument `slice`. */
  function KeywordAt(text: string, position: int): Option<string>
  {
    FirstWord(Slice(text, position, |text|))
  }

  /** The source reads `[0]` of the match, so a tracked position must have a keyword. */
  predicate KeywordDefined(s: State, text: string)
  {
    s.position != -1 ==> KeywordAt(text, s.position).Some?
  }

  // ---------------------------------------------------------------------------
  // The steps of an update, as functions of the closure state

  /** `stopTracking`: back to idle, recording `false`. */
  function Stop(s: State): (r: State)
    ensures r.queue == [false] + s.queue && r.position == -1 && r.keyword == ""
  {
    State([false] + s.queue, -1, "")
  }

  /**
   * `preHandleTrackingState`: start tracking at a trigger typed just before
   * the caret, or stop on a ranged previous selection, a space before the
   * caret or a caret moved before the trigger; when the state does not
   * change, its repeat is recorded, so exactly one entry is added.
   */
  function PreCheck(s: State, tag: string, e: TextState): (r: State)
    requires |s.queue| >= 1
    ensures |r.queue| == |s.queue| + 1 && r.queue[1..] == s.queue
    ensures Inv(s, tag) ==> Inv(r, tag)
  {
    var lastChar := At(e.text, e.selection.start - 1);
    var ranged := e.prevSelection.start != e.prevSelection.end;
    var tracking := s.queue[0];
    var s1 :=
      if !tracking then
        if lastChar.Some? && [lastChar.value] == tag
        then s.(queue := [true] + s.queue, position := e.selection.start - 1)
        else s
      else if ranged then Stop(s)
      else if lastChar == Some(' ') then Stop(s)
      else if e.selection.start - 1 < s.position then Stop(s)
      else s;
    if tracking == s1.queue[0] then s1.(queue := [tracking] + s1.queue) else s1
  }

  /**
   * `updateKeyword`: while a position is set, the keyword becomes the first
   * word of the text from the position on, and the subscribers get the part
   * of it between the first and the second tag character.
   */
  function RefreshKeyword(s: State, tag: string, text: string): (r: (State, seq<TrackerEvent>))
    requires KeywordDefined(s, text)
    requires s.position != -1 ==> |tag| == 1
    ensures r.0.queue == s.queue && r.0.position == s.position
    ensures Inv(s, tag) ==> Inv(r.0, tag)
  {
    if s.position != -1 then
      var k := KeywordAt(text, s.position).value;
      (s.(keyword := k), [KeywordChanged(SecondField(k, tag[0]))])
    else
      (s, [])
  }

  /** `postHandleTrackingState`: stop when the caret has moved past the end of the keyword. */
  function PostCheck(s: State, e: TextState): (r: State)
    requires |s.queue| >= 1
    ensures r == s || (s.queue[0] && r == Stop(s))
  {
    if s.queue[0] && e.selection.start - 1 > s.position + |s.keyword| then Stop(s) else s
  }

  /** The events `check` emits for a history: a start or a stop when its two newest entries differ (a missing entry is `undefined`, hence false). */
  function Flips(q: seq<bool>): seq<TrackerEvent>
    requires |q| >= 1
  {
    var currentTracking := q[0];
    var prevTracking := At(q, 1) == Some(true);
    if !prevTracking && currentTracking then [Started]
    else if prevTracking && !currentTracking then [Stopped]
    else []
  }

  /** `check`: truncate the history to its newest entries and emit the flip, if any. */
  function CheckStep(s: State): (r: (State, seq<TrackerEvent>))
    requires |s.queue| >= 1
    ensures |r.0.queue| <= QueueCap && r.0.position == s.position && r.0.keyword == s.keyword
    ensures |r.0.queue| >= 1 && r.0.queue[0] == s.queue[0]
    ensures |s.queue| >= 2 ==> |r.0.queue| >= 2 && r.0.queue[..2] == s.queue[..2]
    ensures r.0.queue == s.queue[..Min(QueueCap, |s.queue|)]
    ensures r.1 == Flips(r.0.queue)
  {
    var q := Slice(s.queue, 0, QueueCap);
    (s.(queue := q), Flips(q))
  }

  /** `updateTracker`: the pre-check, the keyword update, the post-check and the check, in this order. */
  function Step(s: State, tag: string, e: TextState): (r: (State, seq<TrackerEvent>))
    requires Inv(s, tag) && KeywordDefined(PreCheck(s, tag, e), e.text)
  {
    var s1 := PreCheck(s, tag, e);
    var (s2, changes) := RefreshKeyword(s1, tag, e.text);
    var s3 := PostCheck(s2, e);
    var (s4, flips) := CheckStep(s3);
    (s4, changes + flips)
  }

  /** What `commit` does to the state: check, stop tracking, check again. */
  function Finish(s: State): (r: (State, seq<TrackerEvent>))
    requires |s.queue| >= 1
  {
    var (s1, first) := CheckStep(s);
    var (s2, second) := CheckStep(Stop(s1));
    (s2, first + second)
  }

  /** The name as it appears in the committed text: `formatText(name)`, or the raw name without a formatter. */
  function Shown(name: string, formatText: Option<string -> string>): string
  {
    if formatText.Some? then formatText.value(name) else name
  }

  /** The result `commit` builds from the text, the tracked position and keyword, and the chosen name. */
  function Splice(text: string, position: int, keyword: string, name: string, id: string,
                  formatText: Option<string -> string>): Commitment
  {
    var left := Slice(text, 0, position);
    var right := Slice(text, position + |keyword| + 1, |text|);
    var shown := Shown(name, formatText);
    Commitment(keyword, left + " " + right, name, id, left + shown + " " + right, position, position + |name|)
  }

  // ---------------------------------------------------------------------------
  // Properties

  /**
   * An update tells the subscribers of a start exactly when the tracker went
   * from idle to tracking, and of a stop exactly when it went from tracking
   * to idle; a keyword change is reported exactly when the pre-check left a
   * position, and comes first. The invariant holds afterwards and the
   * history is back within its cap.
   */
  lemma {:induction false} StepEmitsOnFlip(s: State, tag: string, e: TextState)
    requires Inv(s, tag) && KeywordDefined(PreCheck(s, tag, e), e.text)
    ensures var (s', evs) := Step(s, tag, e);
      var s1 := PreCheck(s, tag, e);
      && Inv(s', tag) && |s'.queue| <= QueueCap
      && evs ==
        (if s1.position != -1 then [KeywordChanged(SecondField(KeywordAt(e.text, s1.position).value, tag[0]))] else [])
        + (if !Tracking(s) && Tracking(s') then [Started]
           else if Tracking(s) && !Tracking(s') then [Stopped]
           else [])
  {
    var s1 := PreCheck(s, tag, e);
    PreCheckStarts(s, tag, e);
    var r2 := RefreshKeyword(s1, tag, e.text);
    StepFromPre(s.queue[0], s1, tag, e);
    StepKeepsInv(s1, tag, e);
  }

  /** The keyword update, the post-check and the check keep the invariant, and the check caps the history. */
  lemma StepKeepsInv(s1: State, tag: string, e: TextState)
    requires Inv(s1, tag) && KeywordDefined(s1, e.text)
    ensures var r4 := CheckStep(PostCheck(RefreshKeyword(s1, tag, e.text).0, e)).0;
      Inv(r4, tag) && |r4.queue| <= QueueCap
  {
    var s2 := RefreshKeyword(s1, tag, e.text).0;
    assert Inv(s2, tag);
    var s3 := PostCheck(s2, e);
    assert Inv(s3, tag);
  }

  /** `preHandleTrackingState` starts tracking only at the character just before the caret. */
  lemma PreCheckStarts(s: State, tag: string, e: TextState)
    requires Inv(s, tag)
    ensures var s1 := PreCheck(s, tag, e);
      !Tracking(s) && Tracking(s1) ==> s1.position == e.selection.start - 1
  {
  }

  /** The rest of an update after the pre-check, stated for any pre-check result. */
  lemma {:induction false} StepFromPre(was: bool, s1: State, tag: string, e: TextState)
    requires Inv(s1, tag) && KeywordDefined(s1, e.text) && |s1.queue| >= 2 && s1.queue[1] == was
    requires !was && Tracking(s1) ==> s1.position == e.selection.start - 1
    ensures var r2 := RefreshKeyword(s1, tag, e.text);
      var r4 := CheckStep(PostCheck(r2.0, e));
      r4.1 == (if !was && Tracking(r4.0) then [Started]
                  else if was && !Tracking(r4.0) then [Stopped]
                  else [])
  {
    var r2 := RefreshKeyword(s1, tag, e.text);
    var s2 := r2.0;
    var s3 := PostCheck(s2, e);
    var r4 := CheckStep(s3);
    var q := r4.0.queue;
    assert s2.queue == s1.queue;
    if !was && Tracking(s1) {
      FreshStartSurvives(s1, tag, e);
    }
    if s3 == s2 {
      assert q[..2] == s1.queue[..2];
      assert q[0] == s1.queue[0] && q[1] == was;
    } else {
      assert s3 == Stop(s2) && s2.queue[0];
      assert q[..2] == [false, true];
      assert q[0] == false && q[1] == true && was;
    }
    FlipsOfTwo(q);
  }

  /** Tracking that has just started at the caret survives the post-check, since the keyword read there is not empty. */
  lemma FreshStartSurvives(s1: State, tag: string, e: TextState)
    requires Inv(s1, tag) && KeywordDefined(s1, e.text) && Tracking(s1)
    requires s1.position == e.selection.start - 1
    ensures PostCheck(RefreshKeyword(s1, tag, e.text).0, e) == RefreshKeyword(s1, tag, e.text).0
  {
    var s2 := RefreshKeyword(s1, tag, e.text).0;
    assert |s2.keyword| >= 1;
  }

  /** With two entries, `check` compares exactly the two newest ones. */
  lemma FlipsOfTwo(q: seq<bool>)
    requires |q| >= 2
    ensures Flips(q) == (if !q[1] && q[0] then [Started] else if q[1] && !q[0] then [Stopped] else [])
  {
  }

  /**
   * While a position is set after an update, the keyword is the first
   * whitespace-free run of the text from that position: non-empty and
   * without whitespace. Once idle the keyword is empty.
   */
  lemma KeywordIsWord(s: State, tag: string, e: TextState)
    requires Inv(s, tag) && KeywordDefined(PreCheck(s, tag, e), e.text)
    ensures var s' := Step(s, tag, e).0;
      && (s'.position != -1 ==>
            && Some(s'.keyword) == KeywordAt(e.text, s'.position)
            && s'.keyword != []
            && forall k :: 0 <= k < |s'.keyword| ==> !IsWhitespace(s'.keyword[k]))
      && (s'.position == -1 ==> s'.keyword == "")
  {
  }

  /**
   * Starting: an idle tracker starts exactly when the character before the
   * caret is the (one-character) tag; it then moves to the position before
   * the caret and records `true`, and otherwise stays idle and records
   * `false`.
   */
  lemma StartsAtTrigger(s: State, tag: string, e: TextState)
    requires Inv(s, tag) && !Tracking(s)
    ensures var r := PreCheck(s, tag, e);
      && (Tracking(r) <==> |tag| == 1 && At(e.text, e.selection.start - 1) == Some(tag[0]))
      && (Tracking(r) ==> r.position == e.selection.start - 1 && r.queue == [true] + s.queue)
      && (!Tracking(r) ==> r == s.(queue := [false] + s.queue))
  {
    if |tag| == 1 {
      assert [tag[0]] == tag;
    }
  }

  /**
   * Stopping: a tracking tracker stops in the pre-check exactly when the
   * previous selection was a range, a space precedes the caret, or the caret
   * is before the trigger; stopping clears the position and the keyword and
   * records `false`.
   */
  lemma StopsOnPreCheck(s: State, tag: string, e: TextState)
    requires Inv(s, tag) && Tracking(s)
    ensures var r := PreCheck(s, tag, e);
      && (!Tracking(r) <==>
            || e.prevSelection.start != e.prevSelection.end
            || At(e.text, e.selection.start - 1) == Some(' ')
            || e.selection.start - 1 < s.position)
      && (!Tracking(r) ==> r == State([false] + s.queue, -1, ""))
      && (Tracking(r) ==> r == s.(queue := [true] + s.queue))
  {
  }

  /**
   * The post-check never touches an idle tracker; a tracking one stays
   * tracking exactly when the caret is at most one past the keyword's end,
   * and otherwise it is back to idle with `false` recorded.
   */
  lemma PostCheckStops(s: State, e: TextState)
    requires |s.queue| >= 1
    ensures !Tracking(s) ==> PostCheck(s, e) == s
    ensures Tracking(s) ==>
      (Tracking(PostCheck(s, e)) <==> e.selection.start - 1 <= s.position + |s.keyword|)
    ensures Tracking(s) && !Tracking(PostCheck(s, e)) ==> PostCheck(s, e) == State([false] + s.queue, -1, "")
    ensures Tracking(PostCheck(s, e)) ==> PostCheck(s, e) == s
  {
  }

  /**
   * `commit` always tells the subscribers that tracking stopped; its first
   * check repeats a start when the last update was the one that started
   * tracking. It leaves the tracker idle, with the history within its cap.
   */
  lemma {:induction false} FinishStops(s: State, tag: string)
    requires Inv(s, tag) && Tracking(s)
    ensures var (s', evs) := Finish(s);
      && Inv(s', tag) && s'.position == -1 && s'.keyword == "" && !Tracking(s')
      && |s'.queue| <= QueueCap
      && evs == (if At(s.queue, 1) == Some(true) then [] else [Started]) + [Stopped]
  {
    var (s1, first) := CheckStep(s);
    assert s1.queue[0];
    assert At(s1.queue, 1) == At(s.queue, 1);
    var s2 := Stop(s1);
    assert s2.queue[0] == false && s2.queue[1] == true;
    assert Slice(s2.queue, 0, QueueCap)[..2] == s2.queue[..2];
  }

  /**
   * The commit splice: the text left of the trigger, then the shown name and
   * one space, then the text after the keyword and the one character that
   * follows it; the sliced text has a single space in place of the keyword
   * and that character, and removing the shown name from the new text gives
   * the sliced text back. End minus start is the length of the raw name.
   */
  lemma {:induction false} SpliceShape(text: string, position: int, keyword: string, name: string, id: string,
                                        formatText: Option<string -> string>)
    requires 0 <= position <= |text|
    ensures var r := Splice(text, position, keyword, name, id, formatText);
      var shown := Shown(name, formatText);
      var right := text[Min(position + |keyword| + 1, |text|)..];
      && r.slicedText == text[..position] + " " + right
      && r.text == text[..position] + shown + " " + right
      && r.start == position && r.end - r.start == |name|
      && r.keyword == keyword && r.name == name && r.id == id
      && |r.text| == |r.slicedText| + |shown|
      && r.text[..r.start] == text[..position]
      && r.text[r.start..r.start + |shown|] == shown
      && r.slicedText == r.text[..r.start] + r.text[r.start + |shown|..]
  {
    var r := Splice(text, position, keyword, name, id, formatText);
    var shown := Shown(name, formatText);
    var left := Slice(text, 0, position);
    var right := Slice(text, position + |keyword| + 1, |text|);
    assert left == text[..position];
    assert right == text[Min(position + |keyword| + 1, |text|)..];
    assert r.text == left + shown + (" " + right);
    assert r.text[..position] == left;
    assert r.text[position..position + |shown|] == shown;
    assert r.text[position + |shown|..] == " " + right;
  }

  /** The scenario "hi @bo" with the caret at the end, committing "Bob" unformatted: the new text is "hi Bob " and the mention spans [3, 6). */
  lemma CommitScenario()
    ensures var r := Splice("hi @bo", 3, "@bo", "Bob", "1", None);
      r.text == "hi Bob " && r.slicedText == "hi  " && r.start == 3 && r.end == 6
  {
    SpliceShape("hi @bo", 3, "@bo", "Bob", "1", None);
  }

  // ---------------------------------------------------------------------------
  // The handler

  class TrackingHandler {
    /** The trigger tag this tracker watches for. */
    const tag: string
    var trackingQueue: seq<bool>
    var position: int
    var keyword: string
    /** The calls of the subscribers so far, oldest first. */
    var events: seq<TrackerEvent>

    /** The closure state as a value. */
    function Snapshot(): State
      reads this
    {
      State(trackingQueue, position, keyword)
    }

    ghost predicate Valid()
      reads this
    {
      Inv(Snapshot(), tag) && |trackingQueue| <= QueueCap
    }

    constructor (tag: string)
      ensures Valid() && this.tag == tag && Snapshot() == Idle && events == []
    {
      this.tag := tag;
      trackingQueue := [false];
      position := -1;
      keyword := "";
      events := [];
    }

    method StopTracking()
      modifies this
      ensures Snapshot() == Stop(old(Snapshot())) && events == old(events)
    {
      position := -1;
      keyword := "";
      trackingQueue := [false] + trackingQueue;
    }

    method PreHandleTrackingState(e: TextState)
      requires |trackingQueue| >= 1
      modifies this
      ensures Snapshot() == PreCheck(old(Snapshot()), tag, e) && events == old(events)
    {
      var lastChar := At(e.text, e.selection.start - 1);
      var ranged := e.prevSelection.start != e.prevSelection.end;
      var tracking := trackingQueue[0];
      if !tracking {
        if lastChar.Some? && [lastChar.value] == tag {
          position := e.selection.start - 1;
          trackingQueue := [true] + trackingQueue;
        }
      } else {
        if ranged {
          StopTracking();
        } else if lastChar == Some(' ') {
          StopTracking();
        } else if e.selection.start - 1 < position {
          StopTracking();
        }
      }
      if tracking == trackingQueue[0] {
        trackingQueue := [tracking] + trackingQueue;
      }
    }

    method UpdateKeyword(e: TextState)
      requires KeywordDefined(Snapshot(), e.text) && (position != -1 ==> |tag| == 1)
      modifies this
      ensures Snapshot() == RefreshKeyword(old(Snapshot()), tag, e.text).0
      ensures events == old(events) + RefreshKeyword(old(Snapshot()), tag, e.text).1
    {
      if position != -1 {
        keyword := KeywordAt(e.text, position).value;
        events := events + [KeywordChanged(SecondField(keyword, tag[0]))];
      }
    }

    method PostHandleTrackingState(e: TextState)
      requires |trackingQueue| >= 1
      modifies this
      ensures Snapshot() == PostCheck(old(Snapshot()), e) && events == old(events)
    {
      var tracking := trackingQueue[0];
      if tracking {
        if e.selection.start - 1 > position + |keyword| {
          StopTracking();
        }
      }
    }

    method Check()
      requires |trackingQueue| >= 1
      modifies this
      ensures Snapshot() == CheckStep(old(Snapshot())).0
      ensures events == old(events) + CheckStep(old(Snapshot())).1
    {
      trackingQueue := Slice(trackingQueue, 0, QueueCap);
      var currentTracking := trackingQueue[0];
      var prevTracking := At(trackingQueue, 1) == Some(true);
      if !prevTracking && currentTracking {
        events := events + [Started];
      } else if prevTracking && !currentTracking {
        events := events + [Stopped];
      }
    }

    method UpdateTracker(e: TextState)
      requires Valid() && KeywordDefined(PreCheck(Snapshot(), tag, e), e.text)
      modifies this
      ensures Valid()
      ensures Snapshot() == Step(old(Snapshot()), tag, e).0
      ensures events == old(events) + Step(old(Snapshot()), tag, e).1
    {
      StepEmitsOnFlip(Snapshot(), tag, e);
      PreHandleTrackingState(e);
      UpdateKeyword(e);
      PostHandleTrackingState(e);
      Check();
    }

    method Commit(text: string, name: string, id: string, formatText: Option<string -> string>)
      returns (result: Commitment)
      requires Valid() && position != -1
      modifies this
      ensures Valid()
      ensures result == Splice(text, old(position), old(keyword), name, id, formatText)
      ensures Snapshot() == Finish(old(Snapshot())).0
      ensures position == -1 && keyword == "" && !trackingQueue[0]
      ensures events == old(events) + Finish(old(Snapshot())).1 + [Committed(result)]
    {
      FinishStops(Snapshot(), tag);
      result := Splice(text, position, keyword, name, id, formatText);
      ghost var s0 := Snapshot();
      ghost var (s1, first) := CheckStep(s0);
      ghost var (s2, second) := CheckStep(Stop(s1));
      Check();
      assert Snapshot() == s1;
      StopTracking();
      assert Snapshot() == Stop(s1);
      Check();
      assert Snapshot() == s2 && Finish(s0) == (s2, first + second);
      events := events + [Committed(result)];
    }
  }

  /** Typing "@" after "hi " starts tracking at 3 and reports the empty query. */
  lemma TypingTriggerStarts()
    ensures var e := TextState("hi @", "hi ", Selection(4, 4), Selection(3, 3));
      && KeywordDefined(PreCheck(Idle, "@", e), e.text)
      && Step(Idle, "@", e) == (State([true, false], 3, "@"), [KeywordChanged(Some("")), Started])
  {
    var e := TextState("hi @", "hi ", Selection(4, 4), Selection(3, 3));
    assert At(e.text, 3) == Some('@');
    assert PreCheck(Idle, "@", e) == State([true, false], 3, "");
    assert Slice(e.text, 3, 4) == "@";
    WordIsFirstWord("@");
    assert KeywordAt(e.text, 3) == Some("@");
    assert SecondField("@", '@') == Some("");
    var s2 := State([true, false], 3, "@");
    assert RefreshKeyword(PreCheck(Idle, "@", e), "@", e.text) == (s2, [KeywordChanged(Some(""))]);
    assert PostCheck(s2, e) == s2;
    assert Slice(s2.queue, 0, QueueCap) == s2.queue;
    assert CheckStep(s2) == (s2, [Started]);
    assert Step(Idle, "@", e) == (s2, [KeywordChanged(Some(""))] + [Started]);
    assert [KeywordChanged(Some(""))] + [Started] == [KeywordChanged(Some("")), Started];
  }

  /** Typing "b" after the trigger keeps tracking and reports the query "b", with no new start. */
  lemma TypingAfterTrigger()
    ensures var s := State([true, false], 3, "@");
      var e := TextState("hi @b", "hi @", Selection(5, 5), Selection(4, 4));
      && KeywordDefined(PreCheck(s, "@", e), e.text)
      && Step(s, "@", e) == (State([true, true, false], 3, "@b"), [KeywordChanged(Some("b"))])
  {
    var s := State([true, false], 3, "@");
    var e := TextState("hi @b", "hi @", Selection(5, 5), Selection(4, 4));
    assert At(e.text, 4) == Some('b');
    assert PreCheck(s, "@", e) == State([true, true, false], 3, "@");
    assert Slice(e.text, 3, 5) == "@b";
    WordIsFirstWord("@b");
    assert KeywordAt(e.text, 3) == Some("@b");
    assert SecondField("@b", '@') == Some("b");
    var s2 := State([true, true, false], 3, "@b");
    assert RefreshKeyword(PreCheck(s, "@", e), "@", e.text) == (s2, [KeywordChanged(Some("b"))]);
    assert PostCheck(s2, e) == s2;
    assert Slice(s2.queue, 0, QueueCap) == s2.queue;
    assert Flips(s2.queue) == [];
    assert CheckStep(s2) == (s2, []);
    assert Step(s, "@", e) == (s2, [KeywordChanged(Some("b"))] + []);
    assert [KeywordChanged(Some("b"))] + [] == [KeywordChanged(Some("b"))];
  }

  /**
   * Committing "Bob" right after the update that started tracking over
   * "hi @": the result is "hi Bob " with the mention at [3, 6), and since
   * the history still shows the flip, the commit's first check reports the
   * start a second time before the stop.
   */
  lemma CommitRightAfterStart()
    ensures Finish(State([true, false], 3, "@")) == (State([false, true, false], -1, ""), [Started, Stopped])
    ensures var r := Splice("hi @", 3, "@", "Bob", "1", None);
      r.text == "hi Bob " && r.slicedText == "hi  " && r.start == 3 && r.end == 6
  {
    var s := State([true, false], 3, "@");
    assert Slice(s.queue, 0, QueueCap) == s.queue;
    assert CheckStep(s) == (s, [Started]);
    var s1 := Stop(s);
    assert s1 == State([false, true, false], -1, "");
    assert Slice(s1.queue, 0, QueueCap) == s1.queue;
    assert CheckStep(s1) == (s1, [Stopped]);
    assert [Started] + [Stopped] == [Started, Stopped];
    SpliceShape("hi @", 3, "@", "Bob", "1", None);
  }

  /** The commit of `CommitRightAfterStart` on a handler. */
  method TrackingCommitScenario()
  {
    var h := new TrackingHandler("@");
    TypingTriggerStarts();
    h.UpdateTracker(TextState("hi @", "hi ", Selection(4, 4), Selection(3, 3)));
    assert h.Snapshot() == State([true, false], 3, "@");
    assert h.events == [KeywordChanged(Some("")), Started];
    CommitRightAfterStart();
    var r := h.Commit("hi @", "Bob", "1", None);
    assert r.text == "hi Bob " && r.start == 3 && r.end == 6;
    assert h.events == [KeywordChanged(Some("")), Started] + [Started, Stopped] + [Committed(r)];
    assert h.Snapshot() == State([false, true, false], -1, "");
  }
}
