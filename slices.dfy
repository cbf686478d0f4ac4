/** Sequence helpers shared by the model: the trailing window taken by
    JavaScript's `slice(-n)` and the fixed-stride windows taken by Python's
    `xs[i:i+size]` inside a loop that advances `i` by a step. */
module Slices {

  function Min(a: int, b: int): int
  {
    if a <= b then a else b
  }

  /** JavaScript `s.slice(-n)` for a positive `n`: the last `n` elements, or
      all of them when there are fewer, in their original order. */
  function TakeLast<T>(s: seq<T>, n: nat): (r: seq<T>)
    requires n > 0
    ensures |r| == Min(n, |s|)
    ensures r == s[|s| - |r|..]
  {
    s[|s| - Min(n, |s|)..]
  }

  /** Elements older than the last `n` never reach the window. */
  lemma TakeLastDropsOlder<T>(older: seq<T>, recent: seq<T>, n: nat)
    requires n > 0 && |recent| >= n
    ensures TakeLast(older + recent, n) == TakeLast(recent, n)
  {
    assert (older + recent)[|older + recent| - n..] == recent[|recent| - n..];
  }

  /** Windowing twice with the same bound is windowing once. */
  lemma TakeLastIdempotent<T>(s: seq<T>, n: nat)
    requires n > 0
    ensures TakeLast(TakeLast(s, n), n) == TakeLast(s, n)
  {
  }

  /** The windows `items[i:i+size]` for `i = from, from + step, ...` while
      `i < |items|`; Python's slice stops at the end of the list. */
  function Windows<T>(items: seq<T>, from: nat, size: nat, step: nat): seq<seq<T>>
    requires step > 0
    decreases |items| - from
  {
    if from >= |items| then []
    else [items[from..Min(from + size, |items|)]] + Windows(items, from + step, size, step)
  }

  /** Window `k` starts at `from + k * step`, inside the items, and holds the
      next `size` items or those that remain. */
  lemma {:induction false} WindowAt<T>(items: seq<T>, from: nat, size: nat, step: nat, k: nat)
    requires step > 0 && k < |Windows(items, from, size, step)|
    ensures from + k * step < |items|
    ensures Windows(items, from, size, step)[k]
         == items[from + k * step..Min(from + k * step + size, |items|)]
    decreases k
  {
    if k > 0 {
      WindowAt(items, from + step, size, step, k - 1);
      assert from + step + (k - 1) * step == from + k * step;
    }
  }

  /** The number of windows is the least count whose strides reach the end:
      ceil((|items| - from) / step). */
  lemma {:induction false} WindowsCount<T>(items: seq<T>, from: nat, size: nat, step: nat)
    requires step > 0
    ensures var n := |Windows(items, from, size, step)|;
      if from >= |items| then n == 0
      else (n - 1) * step < |items| - from <= n * step
    decreases |items| - from
  {
    if from < |items| {
      WindowsCount(items, from + step, size, step);
      var n := |Windows(items, from, size, step)|;
      assert n * step == (n - 1) * step + step;
    }
  }

  /** When the step does not exceed the size, every item from `from` on lies
      in some window. */
  lemma {:induction false} WindowsCover<T>(items: seq<T>, from: nat, size: nat, step: nat, j: nat)
    requires 0 < step <= size && from <= j < |items|
    ensures exists k :: (0 <= k < |Windows(items, from, size, step)|
      && from + k * step <= j < from + k * step + |Windows(items, from, size, step)[k]|)
    decreases j - from
  {
    var w := Windows(items, from, size, step);
    if j - from < step {
      assert from + 0 * step <= j < from + 0 * step + |w[0]|;
    } else {
      WindowsCover(items, from + step, size, step, j);
      var w' := Windows(items, from + step, size, step);
      var k' :| 0 <= k' < |w'| && from + step + k' * step <= j < from + step + k' * step + |w'[k']|;
      assert w[k' + 1] == w'[k'];
      assert from + (k' + 1) * step == from + step + k' * step;
    }
  }

  /** Every window is non-empty and holds at most `size` items. */
  lemma WindowsBounded<T>(items: seq<T>, from: nat, size: nat, step: nat, k: nat)
    requires 0 < step && 0 < size && k < |Windows(items, from, size, step)|
    ensures 0 < |Windows(items, from, size, step)[k]| <= size
  {
    WindowAt(items, from, size, step, k);
  }

  /** Consecutive windows share their `size - step` boundary items: what the
      first holds past its first `step` items is what the next starts with. */
  lemma WindowsOverlap<T>(items: seq<T>, from: nat, size: nat, step: nat, k: nat)
    requires 0 < step <= size && k + 1 < |Windows(items, from, size, step)|
    ensures var w := Windows(items, from, size, step);
      step <= |w[k]| && |w[k]| - step <= |w[k + 1]| && w[k][step..] == w[k + 1][..|w[k]| - step]
  {
    var w := Windows(items, from, size, step);
    WindowAt(items, from, size, step, k);
    WindowAt(items, from, size, step, k + 1);
    var a := from + k * step;
    assert from + (k + 1) * step == a + step;
    SlicesOverlap(items, a, size, step);
  }

  /** The slices of `size` items at `a` and at `a + step` overlap. */
  lemma SlicesOverlap<T>(items: seq<T>, a: nat, size: nat, step: nat)
    requires 0 < step <= size && a + step < |items|
    ensures var x := items[a..Min(a + size, |items|)];
      var y := items[a + step..Min(a + step + size, |items|)];
      step <= |x| && |x| - step <= |y| && x[step..] == y[..|x| - step]
  {
    var endA := Min(a + size, |items|);
    var endB := Min(a + step + size, |items|);
    assert items[a..endA][step..] == items[a + step..endA];
    assert items[a + step..endB][..endA - (a + step)] == items[a + step..endA];
  }

  /** Concatenation of a sequence of sequences, in order. */
  function Flatten<T>(parts: seq<seq<T>>): seq<T>
    decreases |parts|
  {
    if parts == [] then [] else parts[0] + Flatten(parts[1..])
  }

  /** Windows whose step equals their size partition the items in order. */
  lemma {:induction false} WindowsPartition<T>(items: seq<T>, from: nat, size: nat)
    requires size > 0
    ensures Flatten(Windows(items, from, size, size)) == items[Min(from, |items|)..]
    decreases |items| - from
  {
    if from < |items| {
      WindowsPartition(items, from + size, size);
      var w := Windows(items, from, size, size);
      assert w[1..] == Windows(items, from + size, size, size);
      assert items[from..] == items[from..Min(from + size, |items|)] + items[Min(from + size, |items|)..];
    }
  }

  /** With step equal to size, every window but the last is full. */
  lemma WindowsFullButLast<T>(items: seq<T>, from: nat, size: nat, k: nat)
    requires size > 0 && k + 1 < |Windows(items, from, size, size)|
    ensures |Windows(items, from, size, size)[k]| == size
  {
    WindowAt(items, from, size, size, k);
    WindowAt(items, from, size, size, k + 1);
    assert from + (k + 1) * size == from + k * size + size;
  }
}
