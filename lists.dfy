/**
 * `forEachByIndex`: iterate a list by index over the range fixed when the loop
 * starts, failing with a concurrent-modification error when the list's size is
 * no longer the initial one before an element is read.
 *
 * The list is a value that `action` may replace: `action(n, contents, x)` is the
 * list's contents once the action has run on element `x` as its call number `n`
 * (counting from 0). The call number lets an action's effect depend on what its
 * earlier calls did, as a closure with its own state can.
 */
module Lists {

  type Action<!T> = (nat, seq<T>, T) -> seq<T>

  datatype End = Completed | ConcurrentModification(index: nat)

  /** The elements passed to `action`, the list's final contents, and how the loop ended. */
  datatype Iteration<T> = Iteration(calls: seq<T>, contents: seq<T>, end: End)

  /** The loop from index `i`, over the range `0 .. initialSize - 1`. */
  function ByIndex<T>(initialSize: nat, i: nat, contents: seq<T>, action: Action<T>): (r: Iteration<T>)
    // Completing means one call per remaining index of the initial range.
    ensures r.end == Completed ==> |r.calls| == if i <= initialSize then initialSize - i else 0
    // A failure happens before reading an index of that range, after one call per earlier index,
    // and only when the size no longer matches.
    ensures r.end.ConcurrentModification? ==>
      i <= r.end.index < initialSize && |r.calls| == r.end.index - i && |r.contents| != initialSize
    decreases initialSize - i
  {
    if i >= initialSize then Iteration([], contents, Completed)
    else if |contents| != initialSize then Iteration([], contents, ConcurrentModification(i))
    else
      var x := contents[i];
      var rest := ByIndex(initialSize, i + 1, action(i, contents, x), action);
      Iteration([x] + rest.calls, rest.contents, rest.end)
  }

  method ForEachByIndex<T>(list: seq<T>, action: Action<T>) returns (calls: seq<T>, contents: seq<T>, end: End)
    ensures Iteration(calls, contents, end) == ByIndex(|list|, 0, list, action)
    ensures end == Completed ==> |calls| == |list|
    ensures end.ConcurrentModification? ==>
      0 < end.index < |list| && |calls| == end.index && |contents| != |list|
  {
    var initialSize := |list|;
    contents := list;
    calls := [];
    end := Completed;
    for i := 0 to initialSize
      invariant |calls| == i
      invariant ByIndex(initialSize, 0, list, action) ==
        var rest := ByIndex(initialSize, i, contents, action);
        Iteration(calls + rest.calls, rest.contents, rest.end)
      invariant i > 0 || contents == list
    {
      if |contents| != initialSize {
        end := ConcurrentModification(i);
        return;
      }
      var x := contents[i];
      ReadStep(initialSize, i, contents, action, calls);
      calls := calls + [x];
      contents := action(i, contents, x);
    }
  }

  /** One read of the loop, after the calls already made. */
  lemma ReadStep<T>(initialSize: nat, i: nat, contents: seq<T>, action: Action<T>, calls: seq<T>)
    requires i < initialSize == |contents|
    ensures var x := contents[i];
      var rest := ByIndex(initialSize, i + 1, action(i, contents, x), action);
      var r := ByIndex(initialSize, i, contents, action);
      calls + r.calls == (calls + [x]) + rest.calls && r.contents == rest.contents && r.end == rest.end
  {
  }

  /** The list's contents after the first `k` calls, while its size is unchanged. */
  function ContentsAfter<T(!new)>(list: seq<T>, action: Action<T>, k: nat): (r: seq<T>)
    ensures PreservesSize(action) ==> |r| == |list|
    decreases k
  {
    if k == 0 then list
    else
      var before := ContentsAfter(list, action, k - 1);
      if k - 1 < |before| then action(k - 1, before, before[k - 1]) else before
  }

  ghost predicate PreservesSize<T(!new)>(action: Action<T>) {
    forall n: nat, s: seq<T>, x: T :: |action(n, s, x)| == |s|
  }

  /**
   * From index `i`, when the size was intact before each read up to index `k`, the loop
   * reads element `j` of the list as modified by the first `j` calls, for every `j < k`.
   * It then fails at `k` if `k` is an index whose read finds the size changed, and
   * completes if `k` is the end of the range.
   */
  lemma {:induction false} IntactUpTo<T(!new)>(list: seq<T>, action: Action<T>, i: nat, k: nat)
    requires i <= k <= |list|
    requires forall j :: i <= j < k ==> |ContentsAfter(list, action, j)| == |list|
    requires k < |list| ==> |ContentsAfter(list, action, k)| != |list|
    ensures var r := ByIndex(|list|, i, ContentsAfter(list, action, i), action);
      r.end == (if k < |list| then ConcurrentModification(k) else Completed) &&
      r.contents == ContentsAfter(list, action, k) &&
      |r.calls| == k - i &&
      forall j :: i <= j < k ==> r.calls[j - i] == ContentsAfter(list, action, j)[j]
    decreases k - i
  {
    if i < k {
      IntactUpTo(list, action, i + 1, k);
    }
  }

  /**
   * A resize by call `k - 1` is detected before index `k` is read, whichever index of the
   * range `k` is: the loop then ends with `k` calls, on the elements as modified so far.
   */
  lemma ResizeIsDetectedAtNextIndex<T(!new)>(list: seq<T>, action: Action<T>, k: nat)
    requires 0 < k < |list|
    requires forall j :: 0 <= j < k ==> |ContentsAfter(list, action, j)| == |list|
    requires |ContentsAfter(list, action, k)| != |list|
    ensures var r := ByIndex(|list|, 0, list, action);
      r.end == ConcurrentModification(k) && r.contents == ContentsAfter(list, action, k) &&
      |r.calls| == k && forall j :: 0 <= j < k ==> r.calls[j] == ContentsAfter(list, action, j)[j]
  {
    IntactUpTo(list, action, 0, k);
  }

  /**
   * When the size is intact before every read, the loop completes with one call per index,
   * whatever the last call does to the list: a resize by the last call goes undetected,
   * because the range was fixed when the loop started.
   */
  lemma ResizeByLastCallUndetected<T(!new)>(list: seq<T>, action: Action<T>)
    requires forall j :: 0 <= j < |list| ==> |ContentsAfter(list, action, j)| == |list|
    ensures var r := ByIndex(|list|, 0, list, action);
      r.end == Completed && r.contents == ContentsAfter(list, action, |list|) &&
      |r.calls| == |list| && forall j :: 0 <= j < |list| ==> r.calls[j] == ContentsAfter(list, action, j)[j]
  {
    IntactUpTo(list, action, 0, |list|);
  }

  /**
   * When `action` never resizes the list, the loop completes, calling `action` once
   * per index in order, on whatever element the (possibly modified) list holds there:
   * same-size modifications go undetected.
   */
  lemma SameSizeCompletes<T(!new)>(list: seq<T>, action: Action<T>)
    requires PreservesSize(action)
    ensures var r := ByIndex(|list|, 0, list, action);
      r.end == Completed && |r.calls| == |list| &&
      forall k :: 0 <= k < |list| ==> r.calls[k] == ContentsAfter(list, action, k)[k]
  {
    ResizeByLastCallUndetected(list, action);
  }

  lemma {:induction false} ReadOnlyFrom<T(!new)>(list: seq<T>, action: Action<T>, i: nat)
    requires forall n, s, x :: action(n, s, x) == s
    requires i <= |list|
    ensures ByIndex(|list|, i, list, action) == Iteration(list[i..], list, Completed)
    decreases |list| - i
  {
    if i < |list| {
      ReadOnlyFrom(list, action, i + 1);
      assert list[i..] == [list[i]] + list[i + 1..];
    }
  }

  /** An action that leaves the list alone is called on each element exactly once, in index order. */
  lemma ReadOnlyVisitsEachElementInOrder<T(!new)>(list: seq<T>, action: Action<T>)
    requires forall n, s, x :: action(n, s, x) == s
    ensures ByIndex(|list|, 0, list, action) == Iteration(list, list, Completed)
  {
    ReadOnlyFrom(list, action, 0);
  }

  /**
   * An action whose effect depends on its own earlier calls: on `[1, 1, 1]`, one that
   * appends only on its second call leaves the first call's effect looking the same,
   * yet the loop fails at index 2 after two calls.
   */
  lemma SecondCallResizeFailsAtTwo()
    ensures ByIndex(3, 0, [1, 1, 1], (n: nat, s: seq<int>, x: int) => if n == 1 then s + [9] else s)
      == Iteration([1, 1], [1, 1, 1, 9], ConcurrentModification(2))
  {
  }

  /** An empty list never calls `action`. */
  lemma EmptyListNoCalls<T>(action: Action<T>)
    ensures ByIndex(0, 0, [], action) == Iteration([], [], Completed)
  {
  }
}
