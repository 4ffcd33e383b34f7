/**
 * The mentions registry (src/utils/createMentionsHandler.ts): the list of
 * committed mention spans over the current text. `addMention` gives a span
 * its identity and keeps the list sorted by start; `updateMentions` drops
 * the spans an edit invalidates, moves the rest along with the text, then
 * publishes a rendering (plain text interleaved with one node per mention)
 * and an extraction (the text with every mention replaced by its tag's
 * extractor output).
 */
module Mentions {
  import opened Js
  import opened Types

  /** A committed mention: its identity, the tag that produced it, its data and the span [start, end) it occupies. */
  datatype Mention = Mention(
    uniqueId: int, tag: string, id: string, value: string, name: string, start: int, end: int)

  /** The argument of `addMention`: a mention that has not been given its identity yet. */
  datatype MentionData = MentionData(tag: string, id: string, value: string, name: string, start: int, end: int)

  /** The mention `{ ...d, uniqueId }`. */
  function Identify(d: MentionData, uniqueId: int): Mention
  {
    Mention(uniqueId, d.tag, d.id, d.value, d.name, d.start, d.end)
  }

  /** One element of a rendering: a plain slice of the text or a rendered node of type N. */
  datatype Part<N> = Plain(text: string) | Node(node: N)

  /** One call of a subscriber: `render` gets the parts, `extract` the extracted string. */
  datatype MentionEvent<N> = Rendered(parts: seq<Part<N>>) | Extracted(text: string)

  // ---------------------------------------------------------------------------
  // Orders and identities

  predicate SortedByStart(ms: seq<Mention>)
  {
    forall i, j :: 0 <= i < j < |ms| ==> ms[i].start <= ms[j].start
  }

  /** No two mentions share a `uniqueId`. */
  predicate DistinctIds(ms: seq<Mention>)
  {
    forall i, j :: 0 <= i < j < |ms| ==> ms[i].uniqueId != ms[j].uniqueId
  }

  /** Every span is a range, and every span ends before (or where) the next one starts. */
  predicate NonOverlapping(ms: seq<Mention>)
  {
    && (forall i :: 0 <= i < |ms| ==> ms[i].start <= ms[i].end)
    && (forall i, j :: 0 <= i < j < |ms| ==> ms[i].end <= ms[j].start)
  }

  // ---------------------------------------------------------------------------
  // addMention: the push and the sort

  /** The mentions of ms that start at k, in their order in ms. */
  function WithStart(ms: seq<Mention>, k: int): seq<Mention>
  {
    if ms == [] then []
    else WithStart(ms[..|ms| - 1], k) + (if ms[|ms| - 1].start == k then [ms[|ms| - 1]] else [])
  }

  /** Insert m after every element that starts no later than it, scanning from the back (one step of a stable insertion sort). */
  function Insert(ms: seq<Mention>, m: Mention): seq<Mention>
  {
    if ms == [] || ms[|ms| - 1].start <= m.start then ms + [m]
    else Insert(ms[..|ms| - 1], m) + [ms[|ms| - 1]]
  }

  /** Insert adds m and nothing else. */
  lemma {:induction false} InsertPermutes(ms: seq<Mention>, m: Mention)
    ensures multiset(Insert(ms, m)) == multiset(ms) + multiset{m}
  {
    if ms != [] && m.start < ms[|ms| - 1].start {
      var init := ms[..|ms| - 1];
      var last := ms[|ms| - 1];
      InsertPermutes(init, m);
      assert ms == init + [last];
      calc {
        multiset(Insert(ms, m));
        multiset(Insert(init, m) + [last]);
        multiset(Insert(init, m)) + multiset{last};
        multiset(init) + multiset{m} + multiset{last};
        multiset(init + [last]) + multiset{m};
      }
    }
  }

  /**
   * `mentions.sort((left, right) => left.start - right.start)`: the stable
   * sort by start that JavaScript's `Array.prototype.sort` performs.
   */
  function SortByStart(ms: seq<Mention>): seq<Mention>
  {
    if ms == [] then [] else Insert(SortByStart(ms[..|ms| - 1]), ms[|ms| - 1])
  }

  /** The position Insert puts m at. */
  function InsertionPoint(ms: seq<Mention>, m: Mention): (p: nat)
    ensures p <= |ms|
  {
    if ms == [] || ms[|ms| - 1].start <= m.start then |ms| else InsertionPoint(ms[..|ms| - 1], m)
  }

  /**
   * Insert places m at its insertion point, after the element there (if
   * any) that starts no later than m, and before every element that starts
   * strictly later.
   */
  lemma {:induction false} InsertAt(ms: seq<Mention>, m: Mention)
    ensures var p := InsertionPoint(ms, m);
      && Insert(ms, m) == ms[..p] + [m] + ms[p..]
      && (0 < p ==> ms[p - 1].start <= m.start)
      && (forall j :: p <= j < |ms| ==> m.start < ms[j].start)
  {
    if ms == [] {
    } else if ms[|ms| - 1].start <= m.start {
      assert ms[..|ms|] == ms;
    } else {
      var init := ms[..|ms| - 1];
      var last := ms[|ms| - 1];
      var p := InsertionPoint(init, m);
      assert p == InsertionPoint(ms, m) && p <= |init|;
      InsertAt(init, m);
      assert Insert(ms, m) == Insert(init, m) + [last];
      assert Insert(ms, m) == ms[..p] + [m] + ms[p..] by {
        assert ms == init + [last];
        SliceOfSnoc(init, last, p);
      }
    }
  }

  lemma SliceOfSnoc<T>(s: seq<T>, x: T, p: nat)
    requires p <= |s|
    ensures (s + [x])[..p] == s[..p] && (s + [x])[p..] == s[p..] + [x]
  {
  }

  /** In a sorted list everything before the insertion point starts no later than m, so Insert keeps the list sorted. */
  lemma InsertSorted(ms: seq<Mention>, m: Mention)
    requires SortedByStart(ms)
    ensures forall j :: 0 <= j < InsertionPoint(ms, m) ==> ms[j].start <= m.start
    ensures SortedByStart(Insert(ms, m))
  {
    var p := InsertionPoint(ms, m);
    InsertAt(ms, m);
    forall j | 0 <= j < p ensures ms[j].start <= m.start {
      assert ms[j].start <= ms[p - 1].start;
    }
    SortedWithInserted(ms, p, m);
  }

  lemma SortedWithInserted(ms: seq<Mention>, p: nat, m: Mention)
    requires SortedByStart(ms) && p <= |ms|
    requires forall j :: 0 <= j < p ==> ms[j].start <= m.start
    requires forall j :: p <= j < |ms| ==> m.start <= ms[j].start
    ensures SortedByStart(ms[..p] + [m] + ms[p..])
  {
    var r := ms[..p] + [m] + ms[p..];
    forall i, j | 0 <= i < j < |r| ensures r[i].start <= r[j].start {
      if j < p {
        assert r[i] == ms[i] && r[j] == ms[j];
      } else if j == p {
        assert r[j] == m;
        assert r[i] == ms[i];
      } else {
        assert r[j] == ms[j - 1];
        if i < p {
          assert r[i] == ms[i];
        } else if i == p {
          assert r[i] == m;
        } else {
          assert r[i] == ms[i - 1];
        }
      }
    }
  }

  /** Insert is stable: the elements that start at any given k keep their order, and m joins them last. */
  lemma {:induction false} InsertStable(ms: seq<Mention>, m: Mention, k: int)
    ensures WithStart(Insert(ms, m), k) == WithStart(ms, k) + (if m.start == k then [m] else [])
  {
    if ms == [] || ms[|ms| - 1].start <= m.start {
      assert (ms + [m])[..|ms|] == ms;
    } else {
      var init := ms[..|ms| - 1];
      var last := ms[|ms| - 1];
      InsertStable(init, m, k);
      assert (Insert(init, m) + [last])[..|Insert(init, m)|] == Insert(init, m);
    }
  }

  /**
   * The sort is the stable sort by start: the result is sorted, it is a
   * permutation of the input, and the mentions that share a start keep
   * their relative order.
   */
  lemma SortByStartSpec(ms: seq<Mention>)
    ensures SortedByStart(SortByStart(ms))
    ensures multiset(SortByStart(ms)) == multiset(ms)
    ensures forall k :: WithStart(SortByStart(ms), k) == WithStart(ms, k)
  {
    SortIsSorted(ms);
    SortPermutes(ms);
    forall k ensures WithStart(SortByStart(ms), k) == WithStart(ms, k) {
      SortIsStable(ms, k);
    }
  }

  lemma {:induction false} SortIsSorted(ms: seq<Mention>)
    ensures SortedByStart(SortByStart(ms))
  {
    if ms != [] {
      SortIsSorted(ms[..|ms| - 1]);
      InsertSorted(SortByStart(ms[..|ms| - 1]), ms[|ms| - 1]);
    }
  }

  lemma {:induction false} SortPermutes(ms: seq<Mention>)
    ensures multiset(SortByStart(ms)) == multiset(ms)
  {
    if ms != [] {
      var init := ms[..|ms| - 1];
      var last := ms[|ms| - 1];
      var sorted := SortByStart(init);
      SortPermutes(init);
      InsertPermutes(sorted, last);
      assert SortByStart(ms) == Insert(sorted, last);
      assert ms == init + [last];
      calc {
        multiset(SortByStart(ms));
        multiset(sorted) + multiset{last};
        multiset(init) + multiset{last};
        multiset(init + [last]);
      }
    }
  }

  lemma {:induction false} SortIsStable(ms: seq<Mention>, k: int)
    ensures WithStart(SortByStart(ms), k) == WithStart(ms, k)
  {
    if ms != [] {
      SortIsStable(ms[..|ms| - 1], k);
      InsertStable(SortByStart(ms[..|ms| - 1]), ms[|ms| - 1], k);
    }
  }

  /** Sorting a list that is already sorted changes nothing. */
  lemma {:induction false} SortSortedIsIdentity(ms: seq<Mention>)
    requires SortedByStart(ms)
    ensures SortByStart(ms) == ms
  {
    if ms != [] {
      var init := ms[..|ms| - 1];
      var last := ms[|ms| - 1];
      InitSorted(ms);
      SortSortedIsIdentity(init);
      assert Insert(init, last) == init + [last];
      assert ms == init + [last];
    }
  }

  lemma InitSorted(ms: seq<Mention>)
    requires SortedByStart(ms) && ms != []
    ensures SortedByStart(ms[..|ms| - 1])
    ensures |ms| >= 2 ==> ms[..|ms| - 1][|ms| - 2].start <= ms[|ms| - 1].start
  {
    var init := ms[..|ms| - 1];
    forall i, j | 0 <= i < j < |init| ensures init[i].start <= init[j].start {
      assert init[i] == ms[i] && init[j] == ms[j];
    }
  }

  /**
   * What `addMention` does to the list: it grows by exactly the new
   * mention, the result is sorted, and when the list was sorted the new
   * mention is inserted after every mention that starts no later than it and
   * before every mention that starts later, the others keeping their order.
   */
  lemma AddedMention(ms: seq<Mention>, m: Mention)
    ensures var r := SortByStart(ms + [m]);
      && |r| == |ms| + 1 && m in r
      && multiset(r) == multiset(ms) + multiset{m}
      && SortedByStart(r)
      && (SortedByStart(ms) ==>
            var p := InsertionPoint(ms, m);
            && r == ms[..p] + [m] + ms[p..]
            && (forall j :: 0 <= j < p ==> ms[j].start <= m.start)
            && (forall j :: p <= j < |ms| ==> m.start < ms[j].start))
  {
    var r := SortByStart(ms + [m]);
    SortByStartSpec(ms + [m]);
    assert |r| == |multiset(r)|;
    assert m in multiset(r);
    if SortedByStart(ms) {
      assert (ms + [m])[..|ms|] == ms;
      SortSortedIsIdentity(ms);
      InsertAt(ms, m);
      InsertSorted(ms, m);
    }
  }

  /** Sorting keeps identities distinct, and a mention with a fresh identity can join. */
  lemma {:induction false} SortKeepsDistinctIds(ms: seq<Mention>, m: Mention)
    requires DistinctIds(ms) && forall i :: 0 <= i < |ms| ==> ms[i].uniqueId != m.uniqueId
    ensures DistinctIds(SortByStart(ms + [m]))
  {
    DistinctAppend(ms, m);
    DistinctSorted(ms + [m]);
  }

  /**
   * A mention whose identity is the counter joins a list whose identities
   * are distinct and below the counter: after the sort they still are, below
   * the next counter value.
   */
  lemma FreshIdJoins(ms: seq<Mention>, m: Mention)
    requires DistinctIds(ms) && 0 <= m.uniqueId
    requires forall i :: 0 <= i < |ms| ==> 0 <= ms[i].uniqueId < m.uniqueId
    ensures var r := SortByStart(ms + [m]);
      && DistinctIds(r)
      && forall i :: 0 <= i < |r| ==> 0 <= r[i].uniqueId < m.uniqueId + 1
  {
    var all := ms + [m];
    SortKeepsDistinctIds(ms, m);
    SortPermutes(all);
    var r := SortByStart(all);
    forall i | 0 <= i < |r| ensures 0 <= r[i].uniqueId < m.uniqueId + 1 {
      assert r[i] in multiset(all);
      assert r[i] in all;
    }
  }

  lemma DistinctAppend(ms: seq<Mention>, m: Mention)
    requires DistinctIds(ms) && forall i :: 0 <= i < |ms| ==> ms[i].uniqueId != m.uniqueId
    ensures DistinctIds(ms + [m])
  {
  }

  lemma {:induction false} DistinctInsert(ms: seq<Mention>, m: Mention)
    requires DistinctIds(ms) && forall x :: x in ms ==> x.uniqueId != m.uniqueId
    ensures DistinctIds(Insert(ms, m))
  {
    if ms == [] || ms[|ms| - 1].start <= m.start {
    } else {
      var init := ms[..|ms| - 1];
      var last := ms[|ms| - 1];
      assert DistinctIds(init) by {
        forall i, j | 0 <= i < j < |init| ensures init[i].uniqueId != init[j].uniqueId {
          assert init[i] == ms[i] && init[j] == ms[j];
        }
      }
      DistinctInsert(init, m);
      InsertPermutes(init, m);
      var r := Insert(init, m);
      forall x | x in r ensures x.uniqueId != last.uniqueId {
        assert x in multiset(r);
        if x != m {
          var i :| 0 <= i < |init| && init[i] == x;
          assert ms[i] == x;
        }
      }
    }
  }

  lemma {:induction false} DistinctSorted(ms: seq<Mention>)
    requires DistinctIds(ms)
    ensures DistinctIds(SortByStart(ms))
  {
    if ms != [] {
      var init := ms[..|ms| - 1];
      var last := ms[|ms| - 1];
      assert DistinctIds(init) by {
        forall i, j | 0 <= i < j < |init| ensures init[i].uniqueId != init[j].uniqueId {
          assert init[i] == ms[i] && init[j] == ms[j];
        }
      }
      DistinctSorted(init);
      SortByStartSpec(init);
      var s := SortByStart(init);
      forall x | x in s ensures x.uniqueId != last.uniqueId {
        assert x in multiset(s);
        var i :| 0 <= i < |init| && init[i] == x;
        assert ms[i] == x;
      }
      DistinctInsert(s, last);
    }
  }

  // ---------------------------------------------------------------------------
  // handleRemove: the removal pass

  /**
   * Whether an edit invalidates a mention. A ranged edit (the previous
   * selection was a range) removes a mention the previous selection
   * straddles at its start or its end or lies within; a batch edit (the
   * caret jumped by more than one) tests the span from the smaller of the
   * two carets to the larger of the new end and the previous caret; an
   * other edit removes a mention the previous caret was strictly inside of,
   * its end included when the text got shorter.
   */
  predicate Removed(e: TextState, m: Mention)
  {
    var prev := e.prevSelection;
    var ranged := prev.start != prev.end;
    var batch := Abs(e.selection.start - prev.start) > 1;
    if ranged || batch then
      var intersectStart := prev.start < m.start && prev.end > m.start;
      var intersectEnd := prev.start < m.end && prev.end > m.end;
      var intersectBetween := prev.start >= m.start && prev.end <= m.end;
      if ranged then intersectStart || intersectEnd || intersectBetween
      else
        var batchStart := Min(e.selection.start, prev.start);
        var batchEnd := Max(e.selection.end, prev.start);
        var batchIntersectEnd := batchStart <= m.end && batchEnd >= m.end;
        var batchIntersectBetween := batchStart >= m.start && batchEnd <= m.end;
        batchIntersectEnd || batchIntersectBetween
    else if |e.text| < |e.prevText| then prev.start > m.start && prev.end <= m.end
    else prev.start > m.start && prev.end < m.end
  }

  /** `a` is `b` with some elements left out, the rest in their order. */
  predicate IsSubsequence<T(==)>(a: seq<T>, b: seq<T>)
    decreases |b|
  {
    if a == [] then true
    else if b == [] then false
    else if a[0] == b[0] then IsSubsequence(a[1..], b[1..])
    else IsSubsequence(a, b[1..])
  }

  /**
   * `mentions.filter(...)` of the removal pass: it only removes. What is
   * left is the old list with the invalidated mentions left out, in order,
   * each surviving mention unchanged.
   */
  function Survivors(ms: seq<Mention>, e: TextState): (r: seq<Mention>)
    ensures |r| <= |ms|
    ensures forall m :: m in r <==> m in ms && !Removed(e, m)
    ensures IsSubsequence(r, ms)
  {
    if ms == [] then []
    else
      var rest := Survivors(ms[1..], e);
      if Removed(e, ms[0]) then
        assert IsSubsequence(rest, ms) by { SubsequenceOfTail(rest, ms); }
        rest
      else [ms[0]] + rest
  }

  /** The removal pass keeps every surviving mention exactly as often as the list had it. */
  lemma {:induction false} SurvivorsCount(ms: seq<Mention>, e: TextState)
    ensures forall m :: multiset(Survivors(ms, e))[m] == if Removed(e, m) then 0 else multiset(ms)[m]
  {
    if ms != [] {
      SurvivorsCount(ms[1..], e);
      assert ms == [ms[0]] + ms[1..];
      assert multiset(ms) == multiset{ms[0]} + multiset(ms[1..]);
    }
  }

  lemma {:induction false} SubsequenceOfTail<T>(a: seq<T>, b: seq<T>)
    requires b != [] && IsSubsequence(a, b[1..])
    ensures IsSubsequence(a, b)
    decreases |a| + |b|
  {
    if a != [] && a[0] == b[0] {
      DropFirst(a, b[1..]);
    }
  }

  lemma {:induction false} DropFirst<T>(a: seq<T>, b: seq<T>)
    requires a != [] && IsSubsequence(a, b)
    ensures IsSubsequence(a[1..], b)
    decreases |a| + |b|
  {
    if a[0] != b[0] {
      DropFirst(a, b[1..]);
    }
    SubsequenceOfTail(a[1..], b);
  }

  /** The removal pass keeps the list sorted. */
  lemma {:induction false} SurvivorsSorted(ms: seq<Mention>, e: TextState)
    requires SortedByStart(ms)
    ensures SortedByStart(Survivors(ms, e))
  {
    if ms != [] {
      TailSorted(ms);
      SurvivorsSorted(ms[1..], e);
      if !Removed(e, ms[0]) {
        ConsSorted(ms[0], Survivors(ms[1..], e));
      }
    }
  }

  lemma TailSorted(ms: seq<Mention>)
    requires ms != [] && SortedByStart(ms)
    ensures SortedByStart(ms[1..])
    ensures forall x :: x in ms[1..] ==> ms[0].start <= x.start
  {
    var tail := ms[1..];
    forall i, j | 0 <= i < j < |tail| ensures tail[i].start <= tail[j].start {
      assert tail[i] == ms[i + 1] && tail[j] == ms[j + 1];
    }
  }

  lemma ConsSorted(m: Mention, rest: seq<Mention>)
    requires SortedByStart(rest)
    requires forall x :: x in rest ==> m.start <= x.start
    ensures SortedByStart([m] + rest)
  {
    var r := [m] + rest;
    forall i, j | 0 <= i < j < |r| ensures r[i].start <= r[j].start {
      assert r[j] == rest[j - 1] && r[j] in rest;
      if i > 0 {
        assert r[i] == rest[i - 1];
      }
    }
  }

  lemma TailApart(ms: seq<Mention>)
    requires ms != [] && NonOverlapping(ms)
    ensures NonOverlapping(ms[1..])
    ensures forall x :: x in ms[1..] ==> ms[0].end <= x.start
  {
    var tail := ms[1..];
    forall i, j | 0 <= i < j < |tail| ensures tail[i].end <= tail[j].start {
      assert tail[i] == ms[i + 1] && tail[j] == ms[j + 1];
    }
    forall i | 0 <= i < |tail| ensures tail[i].start <= tail[i].end {
      assert tail[i] == ms[i + 1];
    }
  }

  lemma ConsApart(m: Mention, rest: seq<Mention>)
    requires NonOverlapping(rest) && m.start <= m.end
    requires forall x :: x in rest ==> m.end <= x.start
    ensures NonOverlapping([m] + rest)
  {
    var r := [m] + rest;
    forall i, j | 0 <= i < j < |r| ensures r[i].end <= r[j].start {
      assert r[j] == rest[j - 1] && r[j] in rest;
      if i > 0 {
        assert r[i] == rest[i - 1];
      }
    }
    forall i | 0 <= i < |r| ensures r[i].start <= r[i].end {
      if i > 0 {
        assert r[i] == rest[i - 1];
      }
    }
  }

  /** The removal pass keeps the spans apart. */
  lemma {:induction false} SurvivorsApart(ms: seq<Mention>, e: TextState)
    requires NonOverlapping(ms)
    ensures NonOverlapping(Survivors(ms, e))
  {
    if ms != [] {
      TailApart(ms);
      SurvivorsApart(ms[1..], e);
      if !Removed(e, ms[0]) {
        ConsApart(ms[0], Survivors(ms[1..], e));
      }
    }
  }

  /** The removal pass keeps identities distinct. */
  lemma {:induction false} SurvivorsDistinct(ms: seq<Mention>, e: TextState)
    requires DistinctIds(ms)
    ensures DistinctIds(Survivors(ms, e))
  {
    if ms != [] {
      TailDistinct(ms);
      SurvivorsDistinct(ms[1..], e);
      if !Removed(e, ms[0]) {
        ConsDistinct(ms[0], Survivors(ms[1..], e));
      }
    }
  }

  lemma TailDistinct(ms: seq<Mention>)
    requires ms != [] && DistinctIds(ms)
    ensures DistinctIds(ms[1..])
    ensures forall x :: x in ms[1..] ==> ms[0].uniqueId != x.uniqueId
  {
    var tail := ms[1..];
    forall i, j | 0 <= i < j < |tail| ensures tail[i].uniqueId != tail[j].uniqueId {
      assert tail[i] == ms[i + 1] && tail[j] == ms[j + 1];
    }
  }

  lemma ConsDistinct(m: Mention, rest: seq<Mention>)
    requires DistinctIds(rest)
    requires forall x :: x in rest ==> m.uniqueId != x.uniqueId
    ensures DistinctIds([m] + rest)
  {
    var r := [m] + rest;
    forall i, j | 0 <= i < j < |r| ensures r[i].uniqueId != r[j].uniqueId {
      assert r[j] == rest[j - 1] && r[j] in rest;
      if i > 0 {
        assert r[i] == rest[i - 1];
      }
    }
  }

  /**
   * A ranged edit removes exactly the mentions whose span shares a position
   * with the previously selected range.
   */
  lemma RangedRemovesOverlapping(e: TextState, m: Mention)
    requires e.prevSelection.start < e.prevSelection.end && m.start <= m.end
    ensures Removed(e, m) <==> e.prevSelection.start < m.end && m.start < e.prevSelection.end
  {
  }

  /**
   * A batch edit (a caret jump of more than one from a caret) removes a
   * mention exactly when its span meets the batched span (end points
   * included) and does not start inside it while ending past it: so a
   * mention ending at or inside the batched span, or containing it, goes,
   * while one whose start the span covers and which ends past it stays.
   */
  lemma BatchRemoval(e: TextState, m: Mention)
    requires e.prevSelection.start == e.prevSelection.end
    requires Abs(e.selection.start - e.prevSelection.start) > 1
    requires m.start <= m.end
    ensures var lo := Min(e.selection.start, e.prevSelection.start);
      var hi := Max(e.selection.end, e.prevSelection.start);
      && (Removed(e, m) <==> lo <= m.end && m.start <= hi && !(lo < m.start && hi < m.end))
      && (lo <= m.start && m.end <= hi ==> Removed(e, m))
      && (hi < m.start || m.end < lo ==> !Removed(e, m))
      && (lo < m.start <= hi < m.end ==> !Removed(e, m))
  {
  }

  /**
   * Pasting (or autocompleting) two or more characters with the caret at a
   * mention's end removes the mention, although typing one character there
   * keeps it.
   */
  lemma PasteAtEndRemoves(m: Mention, k: int, text: string, prevText: string)
    requires m.start <= m.end && k > 1
    ensures Removed(TextState(text, prevText, Selection(m.end + k, m.end + k), Selection(m.end, m.end)), m)
  {
  }

  /**
   * A one-character step from a caret: typing at a mention's start or end
   * keeps it; deleting back from its end removes it; with the caret strictly
   * inside, either edit removes it.
   */
  lemma CaretEditBoundaries(e: TextState, m: Mention)
    requires e.prevSelection.start == e.prevSelection.end
    requires Abs(e.selection.start - e.prevSelection.start) <= 1
    requires m.start < m.end
    ensures var p := e.prevSelection.start;
      && (|e.text| >= |e.prevText| && (p == m.start || p == m.end) ==> !Removed(e, m))
      && (|e.text| < |e.prevText| && p == m.end ==> Removed(e, m))
      && (|e.text| < |e.prevText| && p == m.start ==> !Removed(e, m))
      && (m.start < p < m.end ==> Removed(e, m))
      && ((p < m.start || m.end < p) ==> !Removed(e, m))
  {
  }

  // ---------------------------------------------------------------------------
  // handleMove: the shift pass

  /** The shift of one mention: one that starts at or after the previous caret moves by the change in length. */
  function Shift(m: Mention, at: int, diff: int): Mention
  {
    if at <= m.start then m.(start := m.start + diff, end := m.end + diff) else m
  }

  /**
   * `mentions.map(...)` of the shift pass: the same mentions in the same
   * order with the same widths and data; those before the previous caret
   * stay, the others move by `|text| - |prevText|`.
   */
  function ShiftAll(ms: seq<Mention>, e: TextState): (r: seq<Mention>)
    ensures |r| == |ms|
    ensures forall i :: 0 <= i < |ms| ==>
      && r[i].end - r[i].start == ms[i].end - ms[i].start
      && r[i].(start := ms[i].start, end := ms[i].end) == ms[i]
    ensures forall i :: 0 <= i < |ms| ==>
      r[i].start == (if e.prevSelection.start <= ms[i].start then ms[i].start + |e.text| - |e.prevText| else ms[i].start)
  {
    seq(|ms|, i requires 0 <= i < |ms| => Shift(ms[i], e.prevSelection.start, |e.text| - |e.prevText|))
  }

  /** The shift pass keeps every mention's tag, so a handler map that covers the list still does. */
  lemma ShiftKeepsCovered<V>(ms: seq<Mention>, e: TextState, handlers: map<string, V>)
    requires Covered(ms, handlers)
    ensures Covered(ShiftAll(ms, e), handlers)
  {
    var r := ShiftAll(ms, e);
    forall i | 0 <= i < |r| ensures r[i].tag in handlers {
      assert r[i].tag == ms[i].tag;
    }
  }

  /** When the text did not get shorter, the shift pass keeps the list sorted and non-overlapping. */
  lemma ShiftKeepsOrder(ms: seq<Mention>, e: TextState)
    requires |e.text| >= |e.prevText|
    ensures SortedByStart(ms) ==> SortedByStart(ShiftAll(ms, e))
    ensures NonOverlapping(ms) ==> NonOverlapping(ShiftAll(ms, e))
  {
  }

  /**
   * A text that shrinks by more than one character under a caret that moved
   * by at most one can break the order: both mentions survive the removal
   * pass, and the one at the previous caret moves before the one ahead of it.
   */
  lemma ShrinkingEditCanUnsort()
    ensures var a := Mention(0, "@", "a", "a", "a", 0, 1);
      var b := Mention(1, "@", "b", "b", "b", 2, 3);
      var e := TextState("x", "abcdef", Selection(1, 1), Selection(2, 2));
      && SortedByStart([a, b]) && NonOverlapping([a, b])
      && Survivors([a, b], e) == [a, b]
      && ShiftAll(Survivors([a, b], e), e) == [a, b.(start := -3, end := -2)]
      && !SortedByStart(ShiftAll(Survivors([a, b], e), e))
  {
    var a := Mention(0, "@", "a", "a", "a", 0, 1);
    var b := Mention(1, "@", "b", "b", "b", 2, 3);
    var e := TextState("x", "abcdef", Selection(1, 1), Selection(2, 2));
    assert !Removed(e, a) && !Removed(e, b);
    assert [a, b][1..] == [b];
    assert Survivors([b], e) == [b];
    var r := ShiftAll([a, b], e);
    assert r[0] == a && r[1] == b.(start := -3, end := -2);
  }

  /**
   * A one-character deletion from a caret (a backspace or a forward delete)
   * keeps a sorted list of non-overlapping spans so through both passes: a
   * mention that starts before the caret and survives ends before it, so it
   * stays ahead of the mentions that move back by one.
   */
  lemma OneCharDeleteKeepsOrder(ms: seq<Mention>, e: TextState)
    requires |e.text| == |e.prevText| - 1
    requires e.prevSelection.start == e.prevSelection.end
    requires Abs(e.selection.start - e.prevSelection.start) <= 1
    requires SortedByStart(ms) && NonOverlapping(ms)
    ensures var r := ShiftAll(Survivors(ms, e), e);
      SortedByStart(r) && NonOverlapping(r)
  {
    var sv := Survivors(ms, e);
    SurvivorsSorted(ms, e);
    SurvivorsApart(ms, e);
    var p := e.prevSelection.start;
    var r := ShiftAll(sv, e);
    forall i, j | 0 <= i < j < |r| ensures r[i].start <= r[j].start && r[i].end <= r[j].start {
      assert sv[i].start <= sv[j].start && sv[i].end <= sv[j].start && sv[i].start <= sv[i].end;
      DeleteSurvivorEndsBeforeCaret(e, sv[i]);
      ShiftedPairInOrder(sv[i], sv[j], r[i], r[j], p);
    }
    forall i | 0 <= i < |r| ensures r[i].start <= r[i].end {
      assert sv[i].start <= sv[i].end;
    }
  }

  /** A mention that starts before the caret and survives a one-character deletion ends before the caret. */
  lemma DeleteSurvivorEndsBeforeCaret(e: TextState, m: Mention)
    requires |e.text| < |e.prevText|
    requires e.prevSelection.start == e.prevSelection.end
    requires Abs(e.selection.start - e.prevSelection.start) <= 1
    ensures !Removed(e, m) && m.start < e.prevSelection.start ==> m.end < e.prevSelection.start
  {
  }

  /** Two mentions in order stay in order when those at or after p move back by one, provided the first ends before p if it starts before it. */
  lemma ShiftedPairInOrder(x: Mention, y: Mention, x': Mention, y': Mention, p: int)
    requires x.start <= x.end && x.end <= y.start
    requires x.start < p ==> x.end < p
    requires x'.start == (if p <= x.start then x.start - 1 else x.start) && x'.end - x'.start == x.end - x.start
    requires y'.start == (if p <= y.start then y.start - 1 else y.start)
    ensures x'.start <= y'.start && x'.end <= y'.start
  {
  }

  /**
   * A forward delete of a mention's first character keeps the mention and
   * moves it back by one, so over "hi Bob " becoming "hi ob " its span
   * [3, 6) becomes [2, 5), which covers " ob" rather than its name.
   */
  lemma ForwardDeleteAtStartShifts(bob: Mention)
    requires bob.start == 3 && bob.end == 6
    ensures var e := TextState("hi ob ", "hi Bob ", Selection(3, 3), Selection(3, 3));
      && Survivors([bob], e) == [bob]
      && ShiftAll(Survivors([bob], e), e) == [bob.(start := 2, end := 5)]
      && SpanText(e.text, bob.(start := 2, end := 5)) == " ob"
  {
    var e := TextState("hi ob ", "hi Bob ", Selection(3, 3), Selection(3, 3));
    assert !Removed(e, bob);
    assert ShiftAll([bob], e)[0] == bob.(start := 2, end := 5);
    assert Slice(e.text, 2, 5) == " ob";
  }

  /** Identities survive the shift pass. */
  lemma ShiftKeepsIds(ms: seq<Mention>, e: TextState)
    ensures forall i :: 0 <= i < |ms| ==> ShiftAll(ms, e)[i].uniqueId == ms[i].uniqueId
    ensures DistinctIds(ms) ==> DistinctIds(ShiftAll(ms, e))
  {
  }

  /**
   * An edit at or before every mention moves all of them by the change in
   * length; an edit after every mention's start leaves all of them in place.
   */
  lemma ShiftBeforeAndAfter(ms: seq<Mention>, e: TextState)
    ensures (forall i :: 0 <= i < |ms| ==> e.prevSelection.start <= ms[i].start) ==>
      forall i :: 0 <= i < |ms| ==>
        var d := |e.text| - |e.prevText|;
        ShiftAll(ms, e)[i] == ms[i].(start := ms[i].start + d, end := ms[i].end + d)
    ensures (forall i :: 0 <= i < |ms| ==> ms[i].start < e.prevSelection.start) ==> ShiftAll(ms, e) == ms
  {
  }

  /**
   * An edit that does not shorten the text keeps a sorted, non-overlapping
   * list with distinct identities so through both passes of `updateMentions`.
   */
  lemma UpdateKeepsOrder(ms: seq<Mention>, e: TextState)
    requires |e.text| >= |e.prevText|
    requires SortedByStart(ms) && NonOverlapping(ms) && DistinctIds(ms)
    ensures var r := ShiftAll(Survivors(ms, e), e);
      SortedByStart(r) && NonOverlapping(r) && DistinctIds(r)
  {
    SurvivorsSorted(ms, e);
    SurvivorsApart(ms, e);
    SurvivorsDistinct(ms, e);
    ShiftKeepsOrder(Survivors(ms, e), e);
    ShiftKeepsIds(Survivors(ms, e), e);
  }

  // ---------------------------------------------------------------------------
  // rerender and extract

  /** Every mention's tag has an entry in the map. */
  predicate Covered<V>(ms: seq<Mention>, handlers: map<string, V>)
  {
    forall i :: 0 <= i < |ms| ==> ms[i].tag in handlers
  }

  lemma CoveredTail<V>(ms: seq<Mention>, handlers: map<string, V>)
    requires ms != [] && Covered(ms, handlers)
    ensures ms[0].tag in handlers && Covered(ms[1..], handlers)
  {
    assert forall i :: 0 <= i < |ms[1..]| ==> ms[1..][i] == ms[i + 1];
  }

  /**
   * The parts `rerender` collects from prevEnd on: for each mention, the
   * plain text since the previous mention's end and the mention's node;
   * then the rest of the text.
   */
  function RenderFrom<N>(text: string, ms: seq<Mention>, renderers: map<string, Mention -> N>, prevEnd: int): (r: seq<Part<N>>)
    requires Covered(ms, renderers)
    ensures |r| == 2 * |ms| + 1
  {
    if ms == [] then [Plain(Slice(text, prevEnd, |text|))]
    else
      assert Covered(ms[1..], renderers) by { assert forall i :: 0 <= i < |ms[1..]| ==> ms[1..][i] == ms[i + 1]; }
      [Plain(Slice(text, prevEnd, ms[0].start)), Node(renderers[ms[0].tag](ms[0]))]
        + RenderFrom(text, ms[1..], renderers, ms[0].end)
  }

  /** The parts `rerender(text)` publishes. */
  function Rendering<N>(text: string, ms: seq<Mention>, renderers: map<string, Mention -> N>): seq<Part<N>>
    requires Covered(ms, renderers)
  {
    RenderFrom(text, ms, renderers, 0)
  }

  /** The string `extract` builds from prevEnd on: the plain text between mentions, each mention's extractor output, the rest of the text. */
  function ExtractFrom(text: string, ms: seq<Mention>, extractors: map<string, Mention -> string>, prevEnd: int): string
    requires Covered(ms, extractors)
  {
    if ms == [] then Slice(text, prevEnd, |text|)
    else
      assert Covered(ms[1..], extractors) by { assert forall i :: 0 <= i < |ms[1..]| ==> ms[1..][i] == ms[i + 1]; }
      Slice(text, prevEnd, ms[0].start) + extractors[ms[0].tag](ms[0])
        + ExtractFrom(text, ms[1..], extractors, ms[0].end)
  }

  /** The string `extract(text)` publishes. */
  function Extraction(text: string, ms: seq<Mention>, extractors: map<string, Mention -> string>): string
    requires Covered(ms, extractors)
  {
    ExtractFrom(text, ms, extractors, 0)
  }

  /** Where the plain part before a mention begins: prevEnd for the first, the previous mention's end afterwards. */
  function GapStart(ms: seq<Mention>, prevEnd: int, i: int): int
    requires 0 <= i <= |ms|
  {
    if i == 0 then prevEnd else ms[i - 1].end
  }

  /**
   * The shape of a rendering: 2n + 1 parts for n mentions, the node of the
   * i-th mention at 2i + 1, and at 2i the plain slice between the previous
   * mention's end (or prevEnd) and the i-th mention's start, the last part
   * being the text after the last mention.
   */
  lemma {:induction false} RenderShape<N>(text: string, ms: seq<Mention>, renderers: map<string, Mention -> N>, prevEnd: int)
    requires Covered(ms, renderers)
    ensures var r := RenderFrom(text, ms, renderers, prevEnd);
      && |r| == 2 * |ms| + 1
      && (forall i :: 0 <= i < |ms| ==>
            r[2 * i] == Plain(Slice(text, GapStart(ms, prevEnd, i), ms[i].start))
            && r[2 * i + 1] == Node(renderers[ms[i].tag](ms[i])))
      && r[2 * |ms|] == Plain(Slice(text, GapStart(ms, prevEnd, |ms|), |text|))
  {
    forall i | 0 <= i < |ms|
      ensures RenderFrom(text, ms, renderers, prevEnd)[2 * i] == Plain(Slice(text, GapStart(ms, prevEnd, i), ms[i].start))
      ensures RenderFrom(text, ms, renderers, prevEnd)[2 * i + 1] == Node(renderers[ms[i].tag](ms[i]))
    {
      RenderPartAt(text, ms, renderers, prevEnd, i);
    }
    RenderLastPart(text, ms, renderers, prevEnd);
  }

  /** The parts around the i-th mention. */
  lemma {:induction false} RenderPartAt<N>(text: string, ms: seq<Mention>, renderers: map<string, Mention -> N>, prevEnd: int, i: nat)
    requires Covered(ms, renderers) && i < |ms|
    ensures var r := RenderFrom(text, ms, renderers, prevEnd);
      && r[2 * i] == Plain(Slice(text, GapStart(ms, prevEnd, i), ms[i].start))
      && r[2 * i + 1] == Node(renderers[ms[i].tag](ms[i]))
  {
    if i > 0 {
      CoveredTail(ms, renderers);
      var r := RenderFrom(text, ms, renderers, prevEnd);
      var r' := RenderFrom(text, ms[1..], renderers, ms[0].end);
      RenderPartAt(text, ms[1..], renderers, ms[0].end, i - 1);
      assert r[2..] == r';
      assert r[2 * i] == r'[2 * (i - 1)] && r[2 * i + 1] == r'[2 * (i - 1) + 1];
      assert ms[1..][i - 1] == ms[i];
      assert GapStart(ms[1..], ms[0].end, i - 1) == GapStart(ms, prevEnd, i);
    }
  }

  /** The part after the last mention. */
  lemma {:induction false} RenderLastPart<N>(text: string, ms: seq<Mention>, renderers: map<string, Mention -> N>, prevEnd: int)
    requires Covered(ms, renderers)
    ensures RenderFrom(text, ms, renderers, prevEnd)[2 * |ms|] == Plain(Slice(text, GapStart(ms, prevEnd, |ms|), |text|))
  {
    if ms != [] {
      CoveredTail(ms, renderers);
      var r := RenderFrom(text, ms, renderers, prevEnd);
      var r' := RenderFrom(text, ms[1..], renderers, ms[0].end);
      RenderLastPart(text, ms[1..], renderers, ms[0].end);
      assert r[2..] == r';
      assert r[2 * |ms|] == r'[2 * |ms[1..]|];
      assert GapStart(ms[1..], ms[0].end, |ms[1..]|) == GapStart(ms, prevEnd, |ms|);
    }
  }

  /** Without mentions the rendering is the whole text as one plain part, and the extraction is the text itself. */
  lemma NoMentions<N>(text: string, renderers: map<string, Mention -> N>, extractors: map<string, Mention -> string>)
    ensures Rendering(text, [], renderers) == [Plain(text)]
    ensures Extraction(text, [], extractors) == text
  {
  }

  /**
   * The mentions lie in order inside the text from prevEnd on: each starts
   * no earlier than the previous one ends, and none reaches past the end.
   */
  predicate Placed(ms: seq<Mention>, prevEnd: int, len: int)
  {
    && 0 <= prevEnd <= len
    && (ms != [] ==> prevEnd <= ms[0].start <= ms[0].end && Placed(ms[1..], ms[0].end, len))
  }

  /** Spans that are apart and lie between prevEnd and the end of the text are placed in order. */
  lemma {:induction false} ApartSpansArePlaced(ms: seq<Mention>, prevEnd: int, len: int)
    requires NonOverlapping(ms) && 0 <= prevEnd <= len
    requires forall i :: 0 <= i < |ms| ==> prevEnd <= ms[i].start && ms[i].end <= len
    ensures Placed(ms, prevEnd, len)
  {
    if ms != [] {
      TailApart(ms);
      var tail := ms[1..];
      forall i | 0 <= i < |tail| ensures ms[0].end <= tail[i].start && tail[i].end <= len {
        assert tail[i] == ms[i + 1];
      }
      ApartSpansArePlaced(tail, ms[0].end, len);
    }
  }

  /** The text a mention's span covers. */
  function SpanText(text: string, m: Mention): string
  {
    Slice(text, m.start, m.end)
  }

  /** The text of the rendering with the n-th node replaced by spans[n]. */
  function Reassembled<N>(parts: seq<Part<N>>, spans: seq<string>): string
    requires |parts| == 2 * |spans| + 1
  {
    var first := if parts[0].Plain? then parts[0].text else "";
    if spans == [] then first
    else first + spans[0] + Reassembled(parts[2..], spans[1..])
  }

  /** The texts of the mentions' spans, in order. */
  function Spans(text: string, ms: seq<Mention>): (r: seq<string>)
    ensures |r| == |ms|
  {
    if ms == [] then [] else [SpanText(text, ms[0])] + Spans(text, ms[1..])
  }

  /**
   * Segmentation coverage: for mentions placed in order inside the text,
   * the plain parts of the rendering and the mentions' spans, interleaved,
   * give back exactly the text.
   */
  lemma {:induction false} RenderCoversText<N>(text: string, ms: seq<Mention>, renderers: map<string, Mention -> N>, prevEnd: int)
    requires Covered(ms, renderers) && Placed(ms, prevEnd, |text|)
    ensures Reassembled(RenderFrom(text, ms, renderers, prevEnd), Spans(text, ms)) == text[prevEnd..]
  {
    if ms != [] {
      var m := ms[0];
      CoveredTail(ms, renderers);
      RenderCoversText(text, ms[1..], renderers, m.end);
      var r := RenderFrom(text, ms, renderers, prevEnd);
      var sp := Spans(text, ms);
      assert r[0] == Plain(text[prevEnd..m.start]) && r[2..] == RenderFrom(text, ms[1..], renderers, m.end);
      assert sp[0] == text[m.start..m.end] && sp[1..] == Spans(text, ms[1..]);
      calc {
        Reassembled(r, sp);
        text[prevEnd..m.start] + sp[0] + Reassembled(r[2..], sp[1..]);
        text[prevEnd..m.start] + text[m.start..m.end] + text[m.end..];
        { SplitTwice(text, prevEnd, m.start, m.end); }
        text[prevEnd..];
      }
    }
  }

  /**
   * Identity extraction: for mentions placed in order inside the text whose
   * extractors return exactly the text of their span, the extraction is the
   * text itself.
   */
  lemma {:induction false} ExtractIdentity(text: string, ms: seq<Mention>, extractors: map<string, Mention -> string>, prevEnd: int)
    requires Covered(ms, extractors) && Placed(ms, prevEnd, |text|)
    requires forall i :: 0 <= i < |ms| ==> extractors[ms[i].tag](ms[i]) == SpanText(text, ms[i])
    ensures ExtractFrom(text, ms, extractors, prevEnd) == text[prevEnd..]
  {
    if ms != [] {
      var m := ms[0];
      var rest := ms[1..];
      CoveredTail(ms, extractors);
      forall i | 0 <= i < |rest| ensures extractors[rest[i].tag](rest[i]) == SpanText(text, rest[i]) {
        assert rest[i] == ms[i + 1];
      }
      ExtractIdentity(text, rest, extractors, m.end);
      assert extractors[m.tag](m) == text[m.start..m.end];
      calc {
        ExtractFrom(text, ms, extractors, prevEnd);
        Slice(text, prevEnd, m.start) + extractors[m.tag](m) + ExtractFrom(text, rest, extractors, m.end);
        text[prevEnd..m.start] + text[m.start..m.end] + text[m.end..];
        { SplitTwice(text, prevEnd, m.start, m.end); }
        text[prevEnd..];
      }
    }
  }

  lemma SplitTwice<T>(s: seq<T>, i: int, j: int, k: int)
    requires 0 <= i <= j <= k <= |s|
    ensures s[i..j] + s[j..k] + s[k..] == s[i..]
  {
  }

  /**
   * Identity extraction for a list of mentions sorted apart inside the
   * text, as `updateMentions` keeps it: when every extractor gives back the
   * text of its span, `extract` publishes the text unchanged.
   */
  lemma IdentityExtraction(text: string, ms: seq<Mention>, extractors: map<string, Mention -> string>)
    requires Covered(ms, extractors) && NonOverlapping(ms)
    requires forall i :: 0 <= i < |ms| ==> 0 <= ms[i].start && ms[i].end <= |text|
    requires forall i :: 0 <= i < |ms| ==> extractors[ms[i].tag](ms[i]) == SpanText(text, ms[i])
    ensures Extraction(text, ms, extractors) == text
  {
    ApartSpansArePlaced(ms, 0, |text|);
    ExtractIdentity(text, ms, extractors, 0);
  }

  /** The outputs of the extractors for the mentions, in order. */
  function Outputs(ms: seq<Mention>, extractors: map<string, Mention -> string>): (r: seq<string>)
    requires Covered(ms, extractors)
    ensures |r| == |ms|
  {
    if ms == [] then []
    else
      assert Covered(ms[1..], extractors) by { assert forall i :: 0 <= i < |ms[1..]| ==> ms[1..][i] == ms[i + 1]; }
      [extractors[ms[0].tag](ms[0])] + Outputs(ms[1..], extractors)
  }

  /**
   * `rerender` and `extract` cut the text at the same places: the extraction
   * is the rendering with each node replaced by its mention's extractor
   * output, for any mentions at all.
   */
  lemma {:induction false} RenderAndExtractAgree<N>(text: string, ms: seq<Mention>, renderers: map<string, Mention -> N>,
                                                   extractors: map<string, Mention -> string>, prevEnd: int)
    requires Covered(ms, renderers) && Covered(ms, extractors)
    ensures ExtractFrom(text, ms, extractors, prevEnd) == Reassembled(RenderFrom(text, ms, renderers, prevEnd), Outputs(ms, extractors))
  {
    RenderShape(text, ms, renderers, prevEnd);
    if ms != [] {
      var rest := ms[1..];
      assert Covered(rest, renderers) && Covered(rest, extractors) by { assert forall i :: 0 <= i < |rest| ==> rest[i] == ms[i + 1]; }
      RenderAndExtractAgree(text, rest, renderers, extractors, ms[0].end);
      assert RenderFrom(text, ms, renderers, prevEnd)[2..] == RenderFrom(text, rest, renderers, ms[0].end);
    }
  }

  lemma CoveredSuffix<V>(ms: seq<Mention>, handlers: map<string, V>, i: nat)
    requires Covered(ms, handlers) && i <= |ms|
    ensures Covered(ms[i..], handlers)
  {
    forall k | 0 <= k < |ms[i..]| ensures ms[i..][k].tag in handlers {
      assert ms[i..][k] == ms[i + k];
    }
  }

  /** One step of the walk: the parts from the i-th mention on are its gap, its node and the parts after it. */
  lemma RenderStep<N>(text: string, ms: seq<Mention>, renderers: map<string, Mention -> N>, prevEnd: int, i: nat)
    requires Covered(ms, renderers) && i < |ms|
    ensures Covered(ms[i..], renderers) && Covered(ms[i + 1..], renderers)
    ensures RenderFrom(text, ms[i..], renderers, prevEnd) ==
      [Plain(Slice(text, prevEnd, ms[i].start)), Node(renderers[ms[i].tag](ms[i]))]
        + RenderFrom(text, ms[i + 1..], renderers, ms[i].end)
    ensures i == |ms| - 1 ==> RenderFrom(text, ms[i + 1..], renderers, ms[i].end) == [Plain(Slice(text, ms[i].end, |text|))]
  {
    CoveredSuffix(ms, renderers, i);
    CoveredSuffix(ms, renderers, i + 1);
    assert ms[i..][0] == ms[i];
    assert ms[i..][1..] == ms[i + 1..];
  }

  lemma ExtractStep(text: string, ms: seq<Mention>, extractors: map<string, Mention -> string>, prevEnd: int, i: nat)
    requires Covered(ms, extractors) && i < |ms|
    ensures Covered(ms[i..], extractors) && Covered(ms[i + 1..], extractors)
    ensures ExtractFrom(text, ms[i..], extractors, prevEnd) ==
      Slice(text, prevEnd, ms[i].start) + extractors[ms[i].tag](ms[i])
        + ExtractFrom(text, ms[i + 1..], extractors, ms[i].end)
    ensures i == |ms| - 1 ==> ExtractFrom(text, ms[i + 1..], extractors, ms[i].end) == Slice(text, ms[i].end, |text|)
  {
    CoveredSuffix(ms, extractors, i);
    CoveredSuffix(ms, extractors, i + 1);
    assert ms[i..][0] == ms[i];
    assert ms[i..][1..] == ms[i + 1..];
  }

  lemma Regroup<T>(a: seq<T>, b: seq<T>, c: seq<T>, d: seq<T>)
    ensures a + (b + c + d) == (a + b + c) + d
  {
  }

  /** `rerender`'s walk over the list, collecting the parts. */
  method RenderParts<N>(text: string, mentions: seq<Mention>, renderers: map<string, Mention -> N>)
    returns (parts: seq<Part<N>>)
    requires Covered(mentions, renderers)
    ensures parts == Rendering(text, mentions, renderers)
  {
    var prevEnd := 0;
    parts := [];
    if |mentions| == 0 {
      parts := parts + [Plain(text)];
    } else {
      assert mentions[0..] == mentions;
      var i := 0;
      while i < |mentions|
        invariant 0 <= i <= |mentions|
        invariant i < |mentions| ==> Covered(mentions[i..], renderers)
        invariant i < |mentions| ==>
          parts + RenderFrom(text, mentions[i..], renderers, prevEnd) == Rendering(text, mentions, renderers)
        invariant i == |mentions| ==> parts == Rendering(text, mentions, renderers)
      {
        var last := i == |mentions| - 1;
        var mention := mentions[i];
        var left := Slice(text, prevEnd, mention.start);
        RenderStep(text, mentions, renderers, prevEnd, i);
        Regroup(parts, [Plain(left)], [Node(renderers[mention.tag](mention))],
                RenderFrom(text, mentions[i + 1..], renderers, mention.end));
        prevEnd := mention.end;
        var renderer := renderers[mention.tag];
        parts := parts + [Plain(left)];
        parts := parts + [Node(renderer(mention))];
        if last {
          var right := Slice(text, mention.end, |text|);
          parts := parts + [Plain(right)];
        }
        i := i + 1;
      }
    }
  }

  /** `extract`'s walk over the list, building the string. */
  method ExtractString(text: string, mentions: seq<Mention>, extractors: map<string, Mention -> string>)
    returns (result: string)
    requires Covered(mentions, extractors)
    ensures result == Extraction(text, mentions, extractors)
  {
    var prevEnd := 0;
    result := "";
    if |mentions| == 0 {
      result := result + text;
    } else {
      assert mentions[0..] == mentions;
      var i := 0;
      while i < |mentions|
        invariant 0 <= i <= |mentions|
        invariant i < |mentions| ==> Covered(mentions[i..], extractors)
        invariant i < |mentions| ==>
          result + ExtractFrom(text, mentions[i..], extractors, prevEnd) == Extraction(text, mentions, extractors)
        invariant i == |mentions| ==> result == Extraction(text, mentions, extractors)
      {
        var last := i == |mentions| - 1;
        var mention := mentions[i];
        var left := Slice(text, prevEnd, mention.start);
        ExtractStep(text, mentions, extractors, prevEnd, i);
        Regroup(result, left, extractors[mention.tag](mention),
                ExtractFrom(text, mentions[i + 1..], extractors, mention.end));
        prevEnd := mention.end;
        var extractor := extractors[mention.tag];
        result := result + left;
        result := result + extractor(mention);
        if last {
          var right := Slice(text, mention.end, |text|);
          result := result + right;
        }
        i := i + 1;
      }
    }
  }

  // ---------------------------------------------------------------------------
  // The handler

  class MentionsHandler<N> {
    var renderers: map<string, Mention -> N>
    var extractors: map<string, Mention -> string>
    /** The identity the next mention gets. */
    var uniqueId: int
    var mentions: seq<Mention>
    /** The calls of the `render` and `extract` subscribers so far, oldest first. */
    var events: seq<MentionEvent<N>>

    /** Identities are distinct and below the counter, which never goes negative. */
    ghost predicate Valid()
      reads this
    {
      && 0 <= uniqueId
      && (forall i :: 0 <= i < |mentions| ==> 0 <= mentions[i].uniqueId < uniqueId)
      && DistinctIds(mentions)
    }

    constructor ()
      ensures Valid()
      ensures renderers == map[] && extractors == map[] && uniqueId == 0 && mentions == [] && events == []
    {
      renderers := map[];
      extractors := map[];
      uniqueId := 0;
      mentions := [];
      events := [];
    }

    method AddRenderer(tag: string, renderer: Mention -> N)
      modifies this
      ensures renderers == old(renderers)[tag := renderer]
      ensures extractors == old(extractors) && uniqueId == old(uniqueId) && mentions == old(mentions) && events == old(events)
    {
      renderers := renderers[tag := renderer];
    }

    method AddExtractor(tag: string, extractor: Mention -> string)
      modifies this
      ensures extractors == old(extractors)[tag := extractor]
      ensures renderers == old(renderers) && uniqueId == old(uniqueId) && mentions == old(mentions) && events == old(events)
    {
      extractors := extractors[tag := extractor];
    }

    /** `addMention`: the new mention gets the counter's value as its identity, the counter moves on, the list is re-sorted. */
    method AddMention(d: MentionData)
      requires Valid()
      modifies this
      ensures Valid()
      ensures mentions == SortByStart(old(mentions) + [Identify(d, old(uniqueId))])
      ensures uniqueId == old(uniqueId) + 1
      ensures renderers == old(renderers) && extractors == old(extractors) && events == old(events)
    {
      var m := Identify(d, uniqueId);
      FreshIdJoins(mentions, m);
      mentions := mentions + [m];
      uniqueId := uniqueId + 1;
      mentions := SortByStart(mentions);
    }

    /** `handleRemove`: the removal pass. */
    method HandleRemove(e: TextState)
      requires Valid()
      modifies this
      ensures Valid()
      ensures mentions == Survivors(old(mentions), e)
      ensures renderers == old(renderers) && extractors == old(extractors) && uniqueId == old(uniqueId) && events == old(events)
    {
      SurvivorsDistinct(mentions, e);
      ghost var before := mentions;
      mentions := Survivors(mentions, e);
      forall i | 0 <= i < |mentions| ensures 0 <= mentions[i].uniqueId < uniqueId {
        assert mentions[i] in before;
      }
    }

    /** `handleMove`: the shift pass. */
    method HandleMove(e: TextState)
      requires Valid()
      modifies this
      ensures Valid()
      ensures mentions == ShiftAll(old(mentions), e)
      ensures renderers == old(renderers) && extractors == old(extractors) && uniqueId == old(uniqueId) && events == old(events)
    {
      ShiftKeepsIds(mentions, e);
      mentions := ShiftAll(mentions, e);
    }

    /** `rerender`: publish the rendering of the text with the current mentions. */
    method Rerender(text: string)
      requires Covered(mentions, renderers)
      modifies this
      ensures renderers == old(renderers) && extractors == old(extractors) && uniqueId == old(uniqueId) && mentions == old(mentions)
      ensures events == old(events) + [Rendered(Rendering(text, mentions, renderers))]
    {
      var parts := RenderParts(text, mentions, renderers);
      events := events + [Rendered(parts)];
    }

    /** `extract`: publish the extraction of the text with the current mentions. */
    method Extract(text: string)
      requires Covered(mentions, extractors)
      modifies this
      ensures renderers == old(renderers) && extractors == old(extractors) && uniqueId == old(uniqueId) && mentions == old(mentions)
      ensures events == old(events) + [Extracted(Extraction(text, mentions, extractors))]
    {
      var result := ExtractString(text, mentions, extractors);
      events := events + [Extracted(result)];
    }

    /** `updateMentions`: the removal pass, the shift pass, then the rendering and the extraction of the new text, in this order. */
    method UpdateMentions(e: TextState)
      requires Valid()
      requires Covered(Survivors(mentions, e), renderers) && Covered(Survivors(mentions, e), extractors)
      modifies this
      ensures Valid()
      ensures renderers == old(renderers) && extractors == old(extractors) && uniqueId == old(uniqueId)
      ensures mentions == ShiftAll(Survivors(old(mentions), e), e)
      ensures Covered(mentions, renderers) && Covered(mentions, extractors)
      ensures events == old(events) + [
        Rendered(Rendering(e.text, mentions, renderers)),
        Extracted(Extraction(e.text, mentions, extractors))]
    {
      HandleRemove(e);
      ShiftKeepsCovered(mentions, e, renderers);
      ShiftKeepsCovered(mentions, e, extractors);
      HandleMove(e);
      Rerender(e.text);
      Extract(e.text);
    }
  }

  /** With a single mention, the rendering and the extraction are the text before it, its output and the text after it. */
  lemma OneMention<N>(text: string, m: Mention, renderers: map<string, Mention -> N>, extractors: map<string, Mention -> string>)
    requires m.tag in renderers && m.tag in extractors
    ensures Rendering(text, [m], renderers) ==
      [Plain(Slice(text, 0, m.start)), Node(renderers[m.tag](m)), Plain(Slice(text, m.end, |text|))]
    ensures Extraction(text, [m], extractors) ==
      Slice(text, 0, m.start) + extractors[m.tag](m) + Slice(text, m.end, |text|)
  {
    assert [m][1..] == [];
    assert RenderFrom(text, [], renderers, m.end) == [Plain(Slice(text, m.end, |text|))];
    assert ExtractFrom(text, [], extractors, m.end) == Slice(text, m.end, |text|);
  }

  /**
   * The edits of a mention's life over "hi Bob ": typing "!" after it keeps
   * it in place, typing "X" at the start of the text moves it by one, and
   * deleting the "o" inside it drops it.
   */
  lemma BobEdits(bob: Mention)
    requires bob.start == 3 && bob.end == 6
    ensures var e := TextState("hi Bob !", "hi Bob ", Selection(8, 8), Selection(7, 7));
      Survivors([bob], e) == [bob] && ShiftAll([bob], e) == [bob]
    ensures var e := TextState("Xhi Bob !", "hi Bob !", Selection(1, 1), Selection(0, 0));
      Survivors([bob], e) == [bob] && ShiftAll([bob], e) == [bob.(start := 4, end := 7)]
    ensures var e := TextState("Xhi Bb !", "Xhi Bob !", Selection(6, 6), Selection(7, 7));
      Survivors([bob.(start := 4, end := 7)], e) == []
  {
    var e1 := TextState("hi Bob !", "hi Bob ", Selection(8, 8), Selection(7, 7));
    assert !Removed(e1, bob);
    var e2 := TextState("Xhi Bob !", "hi Bob !", Selection(1, 1), Selection(0, 0));
    assert !Removed(e2, bob);
    var e3 := TextState("Xhi Bb !", "Xhi Bob !", Selection(6, 6), Selection(7, 7));
    assert Removed(e3, bob.(start := 4, end := 7));
  }

  /** What the subscribers see for "hi Bob !" with the mention over "Bob". */
  lemma BobOutputs(bob: Mention, renderers: map<string, Mention -> string>, extractors: map<string, Mention -> string>)
    requires bob.start == 3 && bob.end == 6 && bob.tag in renderers && bob.tag in extractors
    requires renderers[bob.tag](bob) == "Bob" && extractors[bob.tag](bob) == "<7>"
    ensures Rendering("hi Bob !", [bob], renderers) == [Plain("hi "), Node("Bob"), Plain(" !")]
    ensures Extraction("hi Bob !", [bob], extractors) == "hi <7> !"
  {
    OneMention("hi Bob !", bob, renderers, extractors);
    assert Slice("hi Bob !", 0, 3) == "hi " && Slice("hi Bob !", 6, 8) == " !";
  }

  /** Committing a mention and typing after it: the render and extract subscribers see it in place. */
  method MentionSurvivesTypingScenario()
  {
    var h := new MentionsHandler<string>();
    h.AddRenderer("@", (m: Mention) => m.name);
    h.AddExtractor("@", (m: Mention) => "<" + m.id + ">");
    var bob := Mention(0, "@", "7", "Bob", "Bob", 3, 6);
    assert SortByStart([] + [bob]) == [bob];
    h.AddMention(MentionData("@", "7", "Bob", "Bob", 3, 6));
    assert h.mentions == [bob] && h.uniqueId == 1;
    BobEdits(bob);
    h.UpdateMentions(TextState("hi Bob !", "hi Bob ", Selection(8, 8), Selection(7, 7)));
    assert h.mentions == [bob];
    assert h.renderers["@"](bob) == "Bob" && h.extractors["@"](bob) == "<7>";
    BobOutputs(bob, h.renderers, h.extractors);
    assert |h.events| == 2;
    assert h.events[0] == Rendered([Plain("hi "), Node("Bob"), Plain(" !")]);
    assert h.events[1] == Extracted("hi <7> !");
  }

  /** Typing before a mention moves it; deleting inside it drops it, and the extraction is the plain text. */
  method MentionMovesAndDiesScenario()
  {
    var h := new MentionsHandler<string>();
    h.AddExtractor("@", (m: Mention) => "<" + m.id + ">");
    h.AddRenderer("@", (m: Mention) => m.name);
    var bob := Mention(0, "@", "7", "Bob", "Bob", 3, 6);
    assert SortByStart([] + [bob]) == [bob];
    h.AddMention(MentionData("@", "7", "Bob", "Bob", 3, 6));
    BobEdits(bob);
    h.UpdateMentions(TextState("Xhi Bob !", "hi Bob !", Selection(1, 1), Selection(0, 0)));
    assert h.mentions == [bob.(start := 4, end := 7)];
    h.UpdateMentions(TextState("Xhi Bb !", "Xhi Bob !", Selection(6, 6), Selection(7, 7)));
    assert h.mentions == [];
    NoMentions("Xhi Bb !", h.renderers, h.extractors);
    assert h.events[|h.events| - 1] == Extracted("Xhi Bb !");
  }
}
