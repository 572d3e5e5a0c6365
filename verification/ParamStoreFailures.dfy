/** The two ways in which a load fails although the save was complete, each by an example: an
    escape octet that lay between two frames before the save, and a parser that an earlier load
    left inside a frame. */
module ParamStoreFailures {
  import opened Arithmetic
  import opened ParamFc
  import opened Crc16
  import opened Crc16Errors
  import opened SlipFraming
  import opened ParamStore

  // ---------------------------------------------------------------- a parser left inside a frame

  function ZeroOctets(n: nat): (z: seq<bv8>)
    ensures |z| == n && forall i :: 0 <= i < n ==> z[i] == 0
  {
    if n == 0 then [] else [0] + ZeroOctets(n - 1)
  }

  lemma {:induction false} StuffZeros(n: nat)
    ensures Stuff(ZeroOctets(n)) == ZeroOctets(n)
  {
    if n > 0 {
      assert ZeroOctets(n)[1..] == ZeroOctets(n - 1);
      StuffZeros(n - 1);
    }
  }

  lemma {:induction false} BitsOfZeros(n: nat)
    ensures Bits(ZeroOctets(n)) == Zeros(8 * n)
  {
    if n > 0 {
      assert ZeroOctets(n)[1..] == ZeroOctets(n - 1);
      BitsOfZeros(n - 1);
      ZeroByteBits();
      assert Zeros(8) + Zeros(8 * (n - 1)) == Zeros(8 * n);
    }
  }

  lemma ZeroByteBits()
    ensures ByteBits(0) == Zeros(8)
  {
    hide WordBits, Zeros;
    WidenBits(0);
    ZeroWord();
  }

  lemma ZeroWord()
    ensures HighByte(0) == Widen(0)
  {
  }

  /** Zeros are no frame: their checksum is not zero. */
  lemma ZerosFail(n: nat)
    requires n >= 2
    ensures !CrcPasses(ZeroOctets(n))
  {
    hide Feed, CrcPasses;
    CrcPassesIsZero(ZeroOctets(n));
    BitsOfZeros(n);
    FeedZeros(0xFFFF, Zeros(8 * n));
  }

  /** A region that was never written but for one flag. */
  function Stray(): (s: seq<bv8>)
    ensures |s| == 261
  {
    ZeroOctets(100) + [0x7E] + ZeroOctets(160)
  }

  /** Octets that are quiet and within the limit only change the receiver. */
  lemma {:induction false} ReadQuiet(memory: seq<bv8>, r: Receiver, start: nat, address: nat, bytes: seq<bv8>)
    requires address + |bytes| <= |memory| && memory[address..address + |bytes|] == bytes
    requires start <= address && address + |bytes| - start <= 261
    requires Run(r, SLIP_PACKET_LEN, bytes).1 == Quiet(|bytes|)
    ensures ReadFrame(memory, r, start, address) == ReadFrame(memory, Run(r, SLIP_PACKET_LEN, bytes).0, start, address + |bytes|)
    decreases |bytes|
  {
    hide Step;
    if bytes != [] {
      var (r1, e) := Step(r, SLIP_PACKET_LEN, bytes[0]);
      var (r2, es) := Run(r1, SLIP_PACKET_LEN, bytes[1..]);
      assert memory[address] == bytes[0];
      assert ([e] + es)[0] == e == NOTHING && ([e] + es)[1..] == es == Quiet(|bytes| - 1);
      assert memory[address + 1..address + |bytes|] == bytes[1..];
      ReadQuiet(memory, r1, start, address + 1, bytes[1..]);
    }
  }

  lemma StrayRun()
    ensures Run(IDLE, SLIP_PACKET_LEN, Stray()) == (Receiver(ZeroOctets(160), true, false), Quiet(261))
  {
    hide Step, Stuff, ZeroOctets, Quiet, Run;
    StuffZeros(100);
    StuffZeros(160);
    UnopenedBody(ZeroOctets(100), SLIP_PACKET_LEN);
    StuffRuns(OPENED, SLIP_PACKET_LEN, ZeroOctets(160));
    assert [] + ZeroOctets(160) == ZeroOctets(160);
    RunAppend(IDLE, SLIP_PACKET_LEN, ZeroOctets(100) + [0x7E], ZeroOctets(160));
    QuietAppend(101, 160);
  }

  /** A load from such a region by a new parser fails at the limit of 261 octets and leaves the
      parser inside a frame, where it is deaf to the next one. */
  lemma LoadDeafens(memory: seq<bv8>, self: Uint32, start: nat)
    requires start + 261 <= |memory| && memory[start..start + 261] == Stray()
    ensures var res := Load(memory, self, IDLE, start, 0);
            && res == LoadResult([], false, Receiver(ZeroOctets(160), true, false))
            && Deaf(res.left, SLIP_PACKET_LEN)
  {
    hide Run, Step, Stray, ZeroOctets, CrcPasses;
    StrayRun();
    ReadQuiet(memory, IDLE, start, start, Stray());
    ZerosFail(160);
  }

  /** So the first load after a complete save, even with clean gaps, may send nothing at all. */
  lemma CleanSaveNotLoaded(memory: seq<bv8>, l: Layout, s: Saver, ms: seq<Message>, self: Uint32)
    requires l.start + 261 <= |memory| && memory[l.start..l.start + 261] == Stray()
    requires s.address == l.start && s.sequence == 0 && l.stop <= |s.memory|
    requires CompleteSave(l, s, ms) && Fits(ms)
    ensures var r := Load(memory, self, IDLE, l.start, 0).left;
            Load(SaveAll(l, s, ms).memory, self, r, l.start, 0) == LoadResult([], false, IDLE)
  {
    hide Load, CompleteSave, SaveAll, Fits, Loaded, Deaf, CrcPasses, Stray, ZeroOctets, StampedAll, CleanGaps, FromSelf;
    LoadDeafens(memory, self, l.start);
    LoadAfterSave(l, s, ms, self, Load(memory, self, IDLE, l.start, 0).left);
  }

  // ---------------------------------------------------------------- an escape octet in a gap

  lemma ShortIsStorable(l: Layout, s: Saver, m: Message)
    requires s.sequence < 256 && m.payload == [] && s.address + 48 < l.stop
    ensures Storable(l, s, m) && |StoredFrame(l, s, m)| <= 48
  {
    hide Stuff, WithCrc, Encode;
    StoredFrameIsFrame(l, s, m);
    var payload := Encode(Stamped(l, s, m));
    FrameParts(payload);
    StuffAtMostTwice(WithCrc(payload));
  }

  /** Memory that holds escape octets only. */
  function Escapes(n: nat): (e: seq<bv8>)
    ensures |e| == n
  {
    seq(n, _ => 0x7D)
  }

  /** Saving two empty messages of one handler over such memory is complete, and a load after it
      by a new parser fails. */
  lemma DirtyGap(l: Layout, s: Saver, first: Message, last: Message, self: Uint32)
    requires l == Layout(0, 100, 1) && s == Saver(Escapes(100), 0, 0, 0, false)
    requires first.payload == [] && first.lastInSequence == 0
    requires last.payload == [] && last.lastInSequence == 1
    ensures CompleteSave(l, s, [first, last]) && !CleanGaps(l, s, [first, last])
    ensures !Load(SaveAll(l, s, [first, last]).memory, self, IDLE, 0, 0).ok
  {
    hide StoredFrame, Storable, Load, SaveAll, Loaded, StampedAll, FromSelf, Deaf, Listens;
    var ms := [first, last];
    assert ms[1..] == [last] && [last][1..] == [];
    ShortIsStorable(l, s, first);
    SaveEffect(l, s, first);
    var s1 := Save(l, s, first);
    ShortIsStorable(l, s1, last);
    assert GapAfterFirst(l, s, ms) == 0x7D;
    LoadAfterSave(l, s, ms, self, IDLE);
  }
}
