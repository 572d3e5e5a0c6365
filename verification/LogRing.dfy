/** The log kept in external memory (log_mem_backend.c): a ring of twelve-octet records that
    overwrites its oldest record when it is full. */
module LogRing {
  import opened Arithmetic
  import opened CharCircularBuffer
  import opened Options
  import opened Serialization

  datatype Entry = Entry(data: Int32, id: Uint32, time: Uint32)

  // LOG_BACKEND_ITEM_SIZE is 12.

  /** The unsigned word with the bits of a signed one, and back. */
  function WordOf(x: Int32): Uint32 {
    if x < 0 then x + 0x1_0000_0000 else x
  }

  function SignedOf(w: Uint32): Int32 {
    if w < 0x8000_0000 then w else w - 0x1_0000_0000
  }

  function Record(e: Entry): (r: seq<bv8>)
    ensures |r| == 12
  {
    Bytes32(WordOf(e.data)) + Bytes32(e.id) + Bytes32(e.time)
  }

  function Decoded(r: seq<bv8>): Entry
    requires |r| == 12
  {
    Entry(SignedOf(Word32(r[..4])), Word32(r[4..8]), Word32(r[8..12]))
  }

  lemma RecordDecodes(e: Entry)
    ensures Decoded(Record(e)) == e
  {
    hide Bytes32, Word32;
    Word32OfBytes(WordOf(e.data));
    Word32OfBytes(e.id);
    Word32OfBytes(e.time);
    var r := Record(e);
    assert r[..4] == Bytes32(WordOf(e.data)) && r[4..8] == Bytes32(e.id) && r[8..12] == Bytes32(e.time);
  }

  /** What a record holds at which octets; a negative number in two's complement. */
  lemma RecordLayout(e: Entry)
    ensures var r := Record(e);
            && Word32(r[0..4]) == (if e.data < 0 then 0x1_0000_0000 + e.data else e.data)
            && Word32(r[4..8]) == e.id && Word32(r[8..12]) == e.time
  {
    hide Bytes32, Word32;
    Word32OfBytes(WordOf(e.data));
    Word32OfBytes(e.id);
    Word32OfBytes(e.time);
    var r := Record(e);
    assert r[0..4] == Bytes32(WordOf(e.data)) && r[4..8] == Bytes32(e.id) && r[8..12] == Bytes32(e.time);
  }

  /** The octets of slot i of a memory region that starts at `base`. */
  function Slot(memory: seq<bv8>, base: nat, i: nat): (r: seq<bv8>)
    requires base + 12 * i + 12 <= |memory|
    ensures |r| == 12
  {
    memory[base + 12 * i..base + 12 * i + 12]
  }

  /** The records of a region of n slots, decoded. */
  function Entries(memory: seq<bv8>, base: nat, n: nat): (s: seq<Entry>)
    requires base + 12 * n <= |memory|
    ensures |s| == n
  {
    seq(n, i requires 0 <= i < n => Decoded(Slot(memory, base, i)))
  }

  lemma SlotWritten(memory: seq<bv8>, base: nat, n: nat, k: nat, e: Entry)
    requires base + 12 * n <= |memory| && k < n
    ensures Entries(Overwrite(memory, base + 12 * k, Record(e)), base, n) == Entries(memory, base, n)[k := e]
  {
    var after := Overwrite(memory, base + 12 * k, Record(e));
    RecordDecodes(e);
    hide Decoded, Record;
    forall i | 0 <= i < n
      ensures Slot(after, base, i) == if i == k then Record(e) else Slot(memory, base, i)
    {
    }
  }

  class LogBackend {
    const memory: array<bv8>
    const base: nat
    const capacity: nat
    var head: nat
    var tail: nat
    var count: nat

    ghost predicate Valid()
      reads this
    {
      && 0 < capacity && base + 12 * capacity <= memory.Length
      && count <= capacity && tail < capacity
      && head == WindowEnd(capacity, tail, count)
    }

    /** The unread entries, oldest first. */
    ghost function Unread(): (s: seq<Entry>)
      requires Valid()
      reads this, memory
      ensures |s| == count
    {
      Window(Entries(memory[..], base, capacity), tail, count)
    }

    constructor (memory: array<bv8>, base: nat, capacity: nat)
      requires 0 < capacity && base + 12 * capacity <= memory.Length
      ensures Valid() && Unread() == [] && this.memory == memory && this.base == base && this.capacity == capacity
    {
      this.memory, this.base, this.capacity := memory, base, capacity;
      head, tail, count := 0, 0, 0;
    }

    /** Drops the oldest entry. */
    method Forget()
      requires Valid() && count > 0
      modifies this`tail, this`count
      ensures Valid() && count == old(count) - 1
      ensures Unread() == old(Unread())[1..]
    {
      hide Window, WindowEnd, Entries;
      WindowShrinks(Entries(memory[..], base, capacity), tail, count, 1);
      WrapIsMod(tail + 1, capacity);
      tail := tail + 1;
      tail := tail % capacity;
      count := count - 1;
    }

    /** LogBackend_Report; writeOk tells whether the memory takes the record. */
    method Report(entry: Entry, writeOk: bool) returns (ok: bool)
      requires Valid()
      modifies this`head, this`tail, this`count, memory
      ensures Valid()
      ensures ok == writeOk
      ensures ok ==> Unread() == After(capacity, old(Unread()), Reports(entry))
      ensures !ok ==> Unread() == if old(count) == capacity then old(Unread())[1..] else old(Unread())
      ensures forall i :: 0 <= i < memory.Length && !(base <= i < base + 12 * capacity) ==> memory[i] == old(memory[i])
    {
      hide Window, Entries, Record;
      if count >= capacity {
        Forget();
      }
      var buffer := Encode(entry);
      if !writeOk {
        return false;
      }
      Store(entry, buffer);
      ok := true;
    }

    /** One turn of the loop of LogBackend_GetLog, when the memory answers. */
    method ReadOldest() returns (e: Entry)
      requires Valid() && count > 0
      modifies this`tail, this`count
      ensures Valid() && count == old(count) - 1
      ensures e == old(Unread())[0] && Unread() == old(Unread())[1..]
    {
      hide Word32, Bytes32, SignedOf;
      var buffer := new bv8[12](_ => 0);
      var start := base + tail * 12;
      CopyTo(buffer, 0, memory[start..start + 12]);
      assert buffer[..] == Slot(memory[..], base, tail);
      var data, id, time;
      var at, left := Some(0), 12;
      at, left, data := DeserializeUint32(buffer, at, left);
      at, left, id := DeserializeUint32(buffer, at, left);
      at, left, time := DeserializeUint32(buffer, at, left);
      e := Entry(SignedOf(data), id, time);
      assert buffer[0..4] == buffer[..][..4] && buffer[4..8] == buffer[..][4..8] && buffer[8..12] == buffer[..][8..12];
      assert e == Decoded(buffer[..]);
      assert e == Unread()[0];
      Forget();
    }

    /** LogBackend_GetLog; readOk tells which of the reads the memory answers. */
    method GetLog(entries: array<Entry>, nrElements: nat, readOk: nat -> bool) returns (ok: bool, nrLogs: nat)
      requires Valid() && nrElements <= entries.Length && (entries as object) != (memory as object)
      modifies this`tail, this`count, entries
      ensures Valid()
      ensures nrLogs <= Min(nrElements, old(count))
      ensures ok <==> forall i :: 0 <= i < Min(nrElements, old(count)) ==> readOk(i)
      ensures ok ==> nrLogs == Min(nrElements, old(count))
      ensures !ok ==> !readOk(nrLogs) && forall i :: 0 <= i < nrLogs ==> readOk(i)
      ensures entries[..nrLogs] == old(Unread())[..nrLogs] && entries[nrLogs..] == old(entries[nrLogs..])
      ensures Unread() == old(Unread())[nrLogs..]
      ensures ok ==> Unread() == After(capacity, old(Unread()), Gets(nrElements))
    {
      hide Window, Entries, WindowEnd;
      ghost var all, before := Unread(), entries[..];
      nrLogs := 0;
      while count > 0 && nrLogs < nrElements
        invariant Valid() && nrLogs <= nrElements && nrLogs + count == |all|
        invariant forall i :: 0 <= i < nrLogs ==> readOk(i)
        invariant entries[..nrLogs] == all[..nrLogs] && entries[nrLogs..] == before[nrLogs..]
        invariant Unread() == all[nrLogs..]
      {
        if !readOk(nrLogs) {
          return false, nrLogs;
        }
        var e := ReadOldest();
        assert e == all[nrLogs] && Unread() == all[nrLogs..][1..] == all[nrLogs + 1..];
        ghost var stored := memory[..];
        entries[nrLogs] := e;
        assert memory[..] == stored;
        nrLogs := nrLogs + 1;
        assert entries[..nrLogs] == all[..nrLogs - 1] + [e];
        assert entries[nrLogs..] == before[nrLogs - 1..][1..];
      }
      ok := true;
    }

    /** Writes a record at the head. */
    method Store(ghost entry: Entry, buffer: array<bv8>)
      requires Valid() && count < capacity && buffer != memory && buffer[..] == Record(entry)
      modifies this`head, this`count, memory
      ensures Valid() && Unread() == old(Unread()) + [entry]
      ensures forall i :: 0 <= i < memory.Length && !(base <= i < base + 12 * capacity) ==> memory[i] == old(memory[i])
    {
      hide Window, Entries, Record;
      ghost var before := memory[..];
      SlotWritten(memory[..], base, capacity, head, entry);
      WindowGrows(Entries(memory[..], base, capacity), tail, count, [entry]);
      CopyTo(memory, base + head * 12, buffer[..]);
      assert memory[..] == Overwrite(before, base + 12 * head, Record(entry));
      assert forall i :: 0 <= i < memory.Length ==> memory[i] == memory[..][i] && before[i] == old(memory[i]);
      WrapIsMod(head + 1, capacity);
      OneSlot(Entries(before, base, capacity), head, entry);
      head := head + 1;
      head := head % capacity;
      count := count + 1;
    }
  }

  lemma OneSlot(s: seq<Entry>, k: nat, e: Entry)
    requires k < |s|
    ensures s[k := e] == Overwrite(s, k, [e])
  {
  }

  /** The octets of a record, in a new buffer. */
  method Encode(entry: Entry) returns (buffer: array<bv8>)
    ensures fresh(buffer) && buffer[..] == Record(entry)
  {
    hide Bytes32;
    buffer := new bv8[12](_ => 0);
    ghost var blank := buffer[..];
    var at, left := SerializeUint32(buffer, Some(0), 12, WordOf(entry.data));
    at, left := SerializeUint32(buffer, at, left, entry.id);
    at, left := SerializeUint32(buffer, at, left, entry.time);
    RecordBytes(blank, WordOf(entry.data), entry.id, entry.time);
  }

  lemma RecordBytes(blank: seq<bv8>, data: Uint32, id: Uint32, time: Uint32)
    requires |blank| == 12
    ensures Overwrite(Overwrite(Overwrite(blank, 0, Bytes32(data)), 4, Bytes32(id)), 8, Bytes32(time))
         == Bytes32(data) + Bytes32(id) + Bytes32(time)
  {
    hide Bytes32;
  }

  // ---------------------------------------------------------------- the sliding window

  datatype Op = Reports(entry: Entry) | Gets(n: nat)

  /** What is unread after an operation on a log of so many slots, as Report and GetLog leave
      it when the memory does not fail. */
  function After(capacity: nat, unread: seq<Entry>, op: Op): seq<Entry>
    requires |unread| <= capacity && capacity > 0
  {
    match op
    case Reports(e) => (if |unread| == capacity then unread[1..] else unread) + [e]
    case Gets(n) => unread[Min(n, |unread|)..]
  }

  function UnreadAfter(capacity: nat, ops: seq<Op>): (s: seq<Entry>)
    requires capacity > 0
    ensures |s| <= capacity
    decreases |ops|
  {
    if ops == [] then [] else After(capacity, UnreadAfter(capacity, ops[..|ops| - 1]), ops[|ops| - 1])
  }

  /** Everything ever reported. */
  function Reported(ops: seq<Op>): seq<Entry>
    decreases |ops|
  {
    if ops == [] then []
    else
      var before := Reported(ops[..|ops| - 1]);
      match ops[|ops| - 1]
      case Reports(e) => before + [e]
      case Gets(_) => before
  }

  /** The number of the first entry that is still to be had: reading moves on by what it gets,
      and an entry is lost when `capacity` younger ones have been reported. */
  function First(capacity: nat, ops: seq<Op>): nat
    decreases |ops|
  {
    if ops == [] then 0
    else
      var first, n := First(capacity, ops[..|ops| - 1]), |Reported(ops[..|ops| - 1])|;
      match ops[|ops| - 1]
      case Reports(_) => if n + 1 > first + capacity then n + 1 - capacity else first
      case Gets(k) => Min(first + k, n)
  }

  /** One more report moves the window by one if it is full. */
  lemma ReportSlides(capacity: nat, all: seq<Entry>, first: nat, e: Entry)
    requires capacity > 0 && first <= |all| <= first + capacity
    ensures var first' := if |all| + 1 > first + capacity then |all| + 1 - capacity else first;
            After(capacity, all[first..], Reports(e)) == (all + [e])[first'..]
  {
    var first' := if |all| + 1 > first + capacity then |all| + 1 - capacity else first;
    assert (all + [e])[first'..] == all[first'..] + [e];
  }

  /** A read moves its beginning. */
  lemma GetSlides(capacity: nat, all: seq<Entry>, first: nat, k: nat)
    requires capacity > 0 && first <= |all| <= first + capacity
    ensures After(capacity, all[first..], Gets(k)) == all[Min(first + k, |all|)..]
  {
  }

  /** After any run the unread entries are those reported from the first one on. */
  lemma {:induction false} SlidingWindow(capacity: nat, ops: seq<Op>)
    requires capacity > 0
    ensures First(capacity, ops) <= |Reported(ops)|
    ensures UnreadAfter(capacity, ops) == Reported(ops)[First(capacity, ops)..]
    decreases |ops|
  {
    if ops != [] {
      var before := ops[..|ops| - 1];
      SlidingWindow(capacity, before);
      var all, first := Reported(before), First(capacity, before);
      hide After;
      match ops[|ops| - 1] {
        case Reports(e) => ReportSlides(capacity, all, first, e);
        case Gets(k) => GetSlides(capacity, all, first, k);
      }
    }
  }

  /** So a read returns consecutive reported entries, oldest first: none twice, and none left out
      but those that were overwritten. */
  lemma {:induction false} ReadsInOrder(capacity: nat, ops: seq<Op>, k: nat)
    requires capacity > 0
    ensures var first, all := First(capacity, ops), Reported(ops);
            && first <= |all|
            && UnreadAfter(capacity, ops)[..Min(k, |UnreadAfter(capacity, ops)|)] == all[first..Min(first + k, |all|)]
            && First(capacity, ops + [Gets(k)]) == Min(first + k, |all|)
  {
    SlidingWindow(capacity, ops);
    assert (ops + [Gets(k)])[..|ops|] == ops;
  }
}
