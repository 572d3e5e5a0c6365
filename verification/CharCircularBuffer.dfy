/** The character ring behind the frame parser: block pushes and pops on a fixed array, in up
    to two copies, refine a bounded first-in first-out queue. */
module CharCircularBuffer {

  function Min(a: nat, b: nat): nat {
    if a <= b then a else b
  }

  function Wrap(i: nat, n: nat): nat
    requires i <= n
  {
    if i == n then 0 else i
  }

  function At(i: nat, n: nat): nat
    requires i < 2 * n
    ensures At(i, n) < n
  {
    if i < n then i else i - n
  }

  /** The n elements of a circular store that start at index t. */
  function Window<T>(store: seq<T>, t: nat, n: nat): (w: seq<T>)
    requires n <= |store| && (n > 0 ==> t < |store|)
    ensures |w| == n
    ensures forall i :: 0 <= i < n ==> w[i] == store[At(t + i, |store|)]
  {
    seq(n, i requires 0 <= i < n => store[At(t + i, |store|)])
  }

  function WindowEnd(size: nat, t: nat, n: nat): nat
    requires t <= size && n <= size
  {
    if t + n < size then t + n else t + n - size
  }

  function Overwrite<T>(store: seq<T>, offset: nat, block: seq<T>): (s: seq<T>)
    requires offset + |block| <= |store|
    ensures |s| == |store|
  {
    store[..offset] + block + store[offset + |block|..]
  }

  lemma WindowGrows<T>(store: seq<T>, t: nat, n: nat, block: seq<T>)
    requires t < |store| && n + |block| <= |store|
    requires WindowEnd(|store|, t, n) + |block| <= |store|
    ensures Window(Overwrite(store, WindowEnd(|store|, t, n), block), t, n + |block|)
         == Window(store, t, n) + block
    ensures WindowEnd(|store|, t, n + |block|) == Wrap(WindowEnd(|store|, t, n) + |block|, |store|)
  {
  }

  lemma WindowShrinks<T>(store: seq<T>, t: nat, n: nat, k: nat)
    requires t < |store| && k <= n <= |store| && t + k <= |store|
    ensures Window(store, Wrap(t + k, |store|), n - k) == Window(store, t, n)[k..]
    ensures Window(store, t, n)[..k] == store[t..t + k]
    ensures WindowEnd(|store|, Wrap(t + k, |store|), n - k) == WindowEnd(|store|, t, n)
  {
  }

  lemma OverwriteTwice<T>(store: seq<T>, a: seq<T>, b: seq<T>)
    requires |a| + |b| <= |store|
    ensures Overwrite(Overwrite(store, 0, a), |a|, b) == Overwrite(store, 0, a + b)
    ensures Overwrite(store, 0, []) == store
  {
  }

  lemma TakeMore<T>(s: seq<T>, a: nat, b: nat)
    requires a + b <= |s|
    ensures s[..a] + s[a..][..b] == s[..a + b]
    ensures s[a..][b..] == s[a + b..]
  {
  }

  lemma WrapIsMod(i: nat, n: nat)
    requires 0 < n && i <= n
    ensures i % n == Wrap(i, n)
  {
  }

  /** memcpy into an array. */
  method CopyTo(target: array<bv8>, offset: nat, block: seq<bv8>)
    requires offset + |block| <= target.Length
    modifies target
    ensures target[..] == Overwrite(old(target[..]), offset, block)
  {
    var i := 0;
    while i < |block|
      invariant 0 <= i <= |block|
      invariant forall k :: 0 <= k < i ==> target[offset + k] == block[k]
      invariant forall k :: 0 <= k < target.Length && !(offset <= k < offset + i) ==> target[k] == old(target[k])
    {
      target[offset + i] := block[i];
      i := i + 1;
    }
  }

  class CharCircBuffer {
    const buffer: array<bv8>
    const capacity: nat
    var count: nat
    var head: nat
    var tail: nat

    ghost predicate Valid()
      reads this
    {
      && buffer.Length == capacity
      && count <= capacity
      && (if capacity == 0 then tail == head == 0 else tail < capacity && head == WindowEnd(capacity, tail, count))
    }

    /** The queued octets, oldest first. */
    ghost function Contents(): (s: seq<bv8>)
      requires Valid()
      reads this, buffer
      ensures |s| == count
    {
      Window(buffer[..], tail, count)
    }

    constructor (size: nat)
      ensures Valid() && fresh(buffer) && capacity == size && Contents() == []
    {
      buffer := new bv8[size];
      capacity := size;
      count, head, tail := 0, 0, 0;
    }

    method NrElements() returns (n: nat)
      requires Valid()
      ensures n == |Contents()|
    {
      n := count;
    }

    /** Copy a block that neither runs past the end of the array nor over queued octets. */
    method CopyIn(block: seq<bv8>)
      requires Valid() && capacity > 0
      requires count + |block| <= capacity && head + |block| <= capacity
      modifies this, buffer
      ensures Valid() && Contents() == old(Contents()) + block
      ensures tail == old(tail) && head == Wrap(old(head) + |block|, capacity)
    {
      hide Window;
      WindowGrows(buffer[..], tail, count, block);
      WrapIsMod(head + |block|, capacity);
      CopyTo(buffer, head, block);
      head := (head + |block|) % capacity;
      count := count + |block|;
    }

    /** Copy a block of the oldest octets that does not run past the end of the array. */
    method CopyOut(target: array<bv8>, offset: nat, n: nat)
      requires Valid() && capacity > 0 && target != buffer
      requires n <= count && tail + n <= capacity && offset + n <= target.Length
      modifies this, target
      ensures Valid() && Contents() == old(Contents())[n..]
      ensures target[..] == Overwrite(old(target[..]), offset, old(Contents())[..n])
      ensures head == old(head) && tail == Wrap(old(tail) + n, capacity)
    {
      hide Window;
      WindowShrinks(buffer[..], tail, count, n);
      WrapIsMod(tail + n, capacity);
      assert buffer[..][tail..tail + n] == buffer[tail..tail + n];
      CopyTo(target, offset, buffer[tail..tail + n]);
      tail := (tail + n) % capacity;
      count := count - n;
    }

    /** Append as many octets of the block as there is room for. */
    method Push(source: seq<bv8>) returns (pushed: nat)
      requires Valid()
      modifies this, buffer
      ensures Valid()
      ensures pushed == Min(|source|, capacity - |old(Contents())|)
      ensures Contents() == old(Contents()) + source[..pushed]
    {
      hide Window;
      if count == capacity {
        return 0;
      }
      pushed := 0;
      var block := source;
      if tail <= head {
        var cpySize := if |block| <= capacity - head then |block| else capacity - head;
        CopyIn(block[..cpySize]);
        pushed := pushed + cpySize;
        block := block[cpySize..];
      }
      if tail > head && |block| > 0 {
        var cpySize := if |block| <= tail - head then |block| else tail - head;
        TakeMore(source, pushed, cpySize);
        CopyIn(block[..cpySize]);
        pushed := pushed + cpySize;
      }
    }

    /** Remove as many of the oldest octets as are asked for and available. */
    method Pop(target: array<bv8>, size: nat) returns (popped: nat)
      requires Valid() && target != buffer
      requires size <= target.Length
      modifies this, target
      ensures Valid()
      ensures popped == Min(size, |old(Contents())|)
      ensures Contents() == old(Contents())[popped..]
      ensures target[..] == Overwrite(old(target[..]), 0, old(Contents())[..popped])
    {
      hide Window, Overwrite;
      ghost var before, queued := target[..], Contents();
      OverwriteTwice(before, [], []);
      popped := 0;
      if count == 0 {
        return;
      }
      var left := size;
      if head <= tail {
        var cpySize := if left <= capacity - tail then left else capacity - tail;
        CopyOut(target, 0, cpySize);
        popped := popped + cpySize;
        left := left - cpySize;
      }
      if head > tail && left > 0 {
        var cpySize := if left <= count then left else count;
        ghost var next := queued[popped..][..cpySize];
        OverwriteTwice(before, queued[..popped], next);
        TakeMore(queued, popped, cpySize);
        CopyOut(target, popped, cpySize);
        popped := popped + cpySize;
      }
    }
  }
}
