/**
 * Index arithmetic shared by the two circular buffers of the device code:
 * `PointRingBuffer<N>` and the per-series ring of `LiveGraphManager`.  Both
 * write the next point at `head`, advance `head` modulo the capacity and let
 * `count` grow up to the capacity; the points they hold, oldest first, are
 * the `count` slots that end just before `head`.
 */
module RingMath {

  /** `k % n` for the only range the buffers ever produce, `0 <= k < 2n`, written without division. */
  function Slot(k: nat, n: nat): (s: nat)
    requires 0 < n && k < 2 * n
    ensures s < n
  {
    if k < n then k else k - n
  }

  /** The C++ `%` on such an index agrees with `Slot`. */
  lemma ModIsSlot(k: nat, n: nat)
    requires 0 < n && k < 2 * n
    ensures k % n == Slot(k, n)
  {
    if k >= n {
      assert k == n * 1 + (k - n);
    }
  }

  /** The last `n` elements of `s` (all of them when there are fewer). */
  function LastN<T>(s: seq<T>, n: nat): (r: seq<T>)
    ensures |r| == if |s| <= n then |s| else n
    ensures r == s[|s| - |r|..]
  {
    if |s| <= n then s else s[|s| - n..]
  }

  /** The `count` points held by a ring whose next write goes to `head`, oldest first. */
  function Window<T>(buf: seq<T>, head: nat, count: nat): (w: seq<T>)
    requires 0 < |buf| && head < |buf| && count <= |buf|
    ensures |w| == count
  {
    seq(count, i requires 0 <= i < count => buf[Slot(head + |buf| - count + i, |buf|)])
  }

  /**
   * Writing `p` at `head`, advancing `head` and growing `count` up to the
   * capacity appends `p` to the window and, once the ring is full, drops the
   * oldest point: the window is always the last `|buf|` points pushed.
   */
  lemma WindowPush<T>(buf: seq<T>, head: nat, count: nat, p: T)
    requires 0 < |buf| && head < |buf| && count <= |buf|
    ensures Window(buf[head := p], Slot(head + 1, |buf|), if count < |buf| then count + 1 else count)
         == LastN(Window(buf, head, count) + [p], |buf|)
  {
    if count < |buf| {
      WindowPushGrows(buf, head, count, p);
    } else {
      WindowPushFull(buf, head, p);
    }
  }

  lemma WindowPushGrows<T>(buf: seq<T>, head: nat, count: nat, p: T)
    requires 0 < |buf| && head < |buf| && count < |buf|
    ensures Window(buf[head := p], Slot(head + 1, |buf|), count + 1) == Window(buf, head, count) + [p]
  {
    var n := |buf|;
    var w := Window(buf, head, count);
    var head2 := Slot(head + 1, n);
    var w2 := Window(buf[head := p], head2, count + 1);
    forall i | 0 <= i < count + 1
      ensures w2[i] == (w + [p])[i]
    {
      if i < count {
        assert Slot(head2 + n - (count + 1) + i, n) == Slot(head + n - count + i, n) != head;
      } else {
        assert Slot(head2 + n - (count + 1) + i, n) == head;
      }
    }
  }

  lemma WindowPushFull<T>(buf: seq<T>, head: nat, p: T)
    requires 0 < |buf| && head < |buf|
    ensures Window(buf[head := p], Slot(head + 1, |buf|), |buf|) == Window(buf, head, |buf|)[1..] + [p]
  {
    var n := |buf|;
    var w := Window(buf, head, n);
    var head2 := Slot(head + 1, n);
    var w2 := Window(buf[head := p], head2, n);
    forall i | 0 <= i < n
      ensures w2[i] == (w[1..] + [p])[i]
    {
      if i < n - 1 {
        assert Slot(head2 + i, n) == Slot(head + i + 1, n) != head;
      } else {
        assert Slot(head2 + i, n) == head;
      }
    }
  }

  /** `WindowPush` with the head advanced by the C++ `(head + 1) % N`. */
  lemma WindowPushMod<T>(buf: seq<T>, head: nat, count: nat, p: T)
    requires 0 < |buf| && head < |buf| && count <= |buf|
    ensures Window(buf[head := p], (head + 1) % |buf|, if count < |buf| then count + 1 else count)
         == LastN(Window(buf, head, count) + [p], |buf|)
  {
    ModIsSlot(head + 1, |buf|);
    WindowPush(buf, head, count, p);
  }

  /** Dropping the oldest point keeps `head` and shrinks the window from the front. */
  lemma WindowPop<T>(buf: seq<T>, head: nat, count: nat)
    requires 0 < |buf| && head < |buf| && 0 < count <= |buf|
    ensures Window(buf, head, count - 1) == Window(buf, head, count)[1..]
  {
  }

  /**
   * A ring filled from an empty state by writing slots 0, 1, ... in turn
   * holds its points in slot order: the window is the filled prefix.
   */
  lemma WindowOfFilledPrefix<T>(buf: seq<T>, count: nat)
    requires 0 < |buf| && count <= |buf|
    ensures Window(buf, Slot(count, |buf|), count) == buf[..count]
  {
    var n := |buf|;
    forall i | 0 <= i < count
      ensures Window(buf, Slot(count, n), count)[i] == buf[i]
    {
      assert Slot(Slot(count, n) + n - count + i, n) == i;
    }
  }
}
