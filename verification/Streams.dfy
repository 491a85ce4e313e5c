/** Users of the byte buffer: the repacketising write path (src/switch_core_io.c) and pre-buffered
    file writing (src/switch_core_file.c). */
module Streams {
  import opened Common
  import opened ByteBuffer

  const BLOCK_FRAMES: nat := 25
  const START_FRAMES: nat := 50

  /** Sends frames of any length as packets of one length. */
  class PacketWriter {
    const packetSize: nat
    /** Which of the packets, by number, are not sent because the write fails. */
    const fails: iset<nat>
    /** How many packets are out when the channel is seen to be down. */
    const downAt: iset<nat>
    var buffer: Buffer?
    /** The packets handed to perform_write, in order. */
    var packets: seq<seq<Byte>>
    ghost var given: seq<Byte>

    ghost function Residue(): seq<Byte>
      reads this, buffer
    {
      if buffer == null then [] else buffer.contents
    }

    /** Over any run: the packets followed by what is left in the buffer are all the bytes given, and
        every packet has the full length. */
    ghost predicate Valid()
      reads this, buffer, if buffer == null then {} else {buffer.data}
    {
      && packetSize > 0
      && (buffer != null ==> buffer.Valid() && buffer.data != null && buffer.dynamic && buffer.maxLen == 0)
      && given == Flatten(packets) + Residue()
      && (forall i :: 0 <= i < |packets| ==> |packets[i]| == packetSize)
    }

    constructor (packetSize: nat, fails: iset<nat>, downAt: iset<nat>)
      requires packetSize > 0
      ensures Valid() && given == [] && packets == [] && Residue() == []
      ensures this.packetSize == packetSize && this.fails == fails && this.downAt == downAt && buffer == null
    {
      this.packetSize, this.fails, this.downAt := packetSize, fails, downAt;
      buffer, packets, given := null, [], [];
    }

    method Engage()
      requires Valid()
      modifies this`buffer
      ensures Valid() && buffer != null && Residue() == old(Residue())
      ensures old(buffer) != null ==> buffer == old(buffer)
      ensures old(buffer) == null ==> fresh(buffer) && fresh(buffer.data)
    {
      if buffer == null {
        buffer := new Buffer.Dynamic(packetSize * BLOCK_FRAMES, packetSize * START_FRAMES, 0);
      }
    }

    /** Sends one packet from the buffer; false when the write fails. */
    method SendPacket() returns (ok: bool)
      requires Valid() && buffer != null && buffer.used >= packetSize
      modifies this`packets, buffer`used, buffer`head, buffer`contents, buffer`passed, buffer`output
      ensures Valid() && |packets| == |old(packets)| + 1 && packets[..|old(packets)|] == old(packets)
      ensures |Residue()| == |old(Residue())| - packetSize
      ensures ok <==> |old(packets)| !in fails
    {
      ok := |packets| !in fails;
      ghost var before := buffer.contents;
      var packet := buffer.Read(packetSize);
      MovePacket(packets, before, packetSize);
      packets := packets + [packet];
    }

    /** The loop that sends packets while the buffer holds a full one and the channel is up. */
    method DrainPackets() returns (ok: bool, down: bool)
      requires Valid() && buffer != null
      modifies this`packets, buffer`used, buffer`head, buffer`contents, buffer`passed, buffer`output
      ensures Valid() && (ok && !down ==> |Residue()| < packetSize) && (down ==> |packets| in downAt)
      ensures |old(packets)| <= |packets| && packets[..|old(packets)|] == old(packets)
      ensures ok <==> forall i :: |old(packets)| <= i < |packets| ==> i !in fails
      ensures forall i :: |old(packets)| <= i < |packets| ==> i !in downAt
    {
      ok, down := true, false;
      ghost var start := packets;
      while buffer.used >= packetSize
        invariant Valid() && ok && !down
        invariant |start| <= |packets| && packets[..|start|] == start
        invariant forall i :: |start| <= i < |packets| ==> i !in fails && i !in downAt
        decreases buffer.used
      {
        if |packets| in downAt {
          down := true;
          break;
        }
        ghost var before := packets;
        ok := SendPacket();
        assert packets[..|start|] == packets[..|before|][..|start|];
        if !ok {
          break;
        }
      }
    }

    /** Puts a frame into the buffer, which is created on first use. */
    method Accept(frame: seq<Byte>) returns (total: nat)
      requires Valid()
      modifies this`buffer, this`given, buffer, if buffer == null then {} else {buffer.data}
      ensures Valid() && buffer != null && (buffer == old(buffer) || fresh(buffer))
      ensures given == old(given) + frame && Residue() == old(Residue()) + frame && total == |Residue()|
    {
      Engage();
      ConcatAssociates(Flatten(packets), buffer.contents, frame);
      total := buffer.Write(frame);
      given := given + frame;
    }

    /** The repacketising branch of switch_core_session_write_frame. */
    method WriteFrame(frame: seq<Byte>) returns (ok: bool, down: bool)
      requires Valid()
      modifies this, buffer, if buffer == null then {} else {buffer.data}
      ensures Valid() && given == old(given) + frame
      ensures (ok && !down ==> |Residue()| < packetSize) && (down ==> |packets| in downAt)
      ensures ok <==> (frame != [] || old(Residue()) != [])
                      && forall i :: |old(packets)| <= i < |packets| ==> i !in fails
      ensures forall i :: |old(packets)| <= i < |packets| ==> i !in downAt
      ensures |old(packets)| <= |packets| && packets[..|old(packets)|] == old(packets)
    {
      var total := Accept(frame);
      ok, down := total > 0, false;
      if ok {
        ok, down := DrainPackets();
      }
    }
  }

  lemma MovePacket(packets: seq<seq<Byte>>, content: seq<Byte>, n: nat)
    requires n <= |content|
    ensures Flatten(packets) + content == Flatten(packets + [content[..n]]) + content[n..]
  {
    FlattenSnoc(packets, content[..n]);
    SplitAt(Flatten(packets), content, n);
  }

  // ----- Pre-buffered file writing

  /** The number of whole sample frames in n bytes, computed as the code does. */
  function FrameCount(n: nat, asis: bool, channels: nat): nat
    requires channels > 0
  {
    var samples := if asis then n else n / 2;
    if channels > 1 then samples / channels else samples
  }

  function FrameSize(asis: bool, channels: nat): nat {
    (if asis then 1 else 2) * channels
  }

  lemma FrameCountBounds(n: nat, asis: bool, channels: nat)
    requires channels > 0
    ensures FrameSize(asis, channels) > 0
    ensures var k := FrameCount(n, asis, channels);
            k * FrameSize(asis, channels) <= n < (k + 1) * FrameSize(asis, channels)
  {
    var samples := if asis then n else n / 2;
    var k := FrameCount(n, asis, channels);
    assert k * channels <= samples < k * channels + channels by {
      if channels > 1 {
        assert samples == channels * (samples / channels) + samples % channels;
      }
    }
    if !asis {
      assert k * (2 * channels) == 2 * (k * channels);
      assert (k + 1) * (2 * channels) == 2 * (k * channels) + 2 * channels;
    } else {
      assert (k + 1) * channels == k * channels + channels;
    }
  }

  /** The bytes of n samples per channel, as a caller of switch_core_file_write counts them. */
  function BytesOf(n: nat, asis: bool, channels: nat): nat {
    (if asis then n else n * 2) * channels
  }

  /** The number of frames counted in them is n again. */
  lemma FramesOfBytes(n: nat, asis: bool, channels: nat)
    requires channels > 0
    ensures BytesOf(n, asis, channels) == n * FrameSize(asis, channels)
    ensures FrameCount(BytesOf(n, asis, channels), asis, channels) == n
  {
    BytesAreFrames(n, asis, channels);
    var size := FrameSize(asis, channels);
    FrameCountBounds(n * size, asis, channels);
    SameMultiple(n, FrameCount(n * size, asis, channels), size);
  }

  lemma BytesAreFrames(n: nat, asis: bool, channels: nat)
    ensures BytesOf(n, asis, channels) == n * FrameSize(asis, channels)
  {
    if !asis {
      assert n * 2 * channels == n * (2 * channels);
    }
  }

  /** The bytes of a block that the file interface is told to write: the whole sample frames. */
  function Kept(block: seq<Byte>, asis: bool, channels: nat): seq<Byte>
    requires channels > 0
  {
    FrameCountBounds(|block|, asis, channels);
    block[..FrameCount(|block|, asis, channels) * FrameSize(asis, channels)]
  }

  /** n is a whole number of sample frames. */
  ghost predicate WholeFrames(n: int, size: nat) {
    exists k :: n == k * size
  }

  lemma WholeFramesAdd(a: int, b: int, size: nat)
    requires WholeFrames(a, size) && WholeFrames(b, size)
    ensures WholeFrames(a + b, size) && WholeFrames(a - b, size)
  {
    var i :| a == i * size;
    var j :| b == j * size;
    assert a + b == (i + j) * size && a - b == (i - j) * size;
  }

  /** A block is written whole exactly when it is a whole number of sample frames. */
  lemma KeptAll(block: seq<Byte>, asis: bool, channels: nat)
    requires channels > 0
    ensures Kept(block, asis, channels) == block <==> WholeFrames(|block|, FrameSize(asis, channels))
  {
    var n, k, size := |block|, FrameCount(|block|, asis, channels), FrameSize(asis, channels);
    FrameCountBounds(n, asis, channels);
    if WholeFrames(n, size) {
      var j :| n == j * size;
      SameMultiple(j, k, size);
      assert block[..n] == block;
    } else {
      assert k * size != n;
    }
  }

  lemma SameMultiple(j: int, k: int, size: nat)
    requires size > 0 && k * size <= j * size < (k + 1) * size
    ensures j == k
  {
    var d := j - k;
    assert 0 <= d * size < size;
    assert d >= 1 ==> d * size >= size;
    assert d <= -1 ==> d * size + size <= 0;
  }

  /** What a file holds after blocks were written to it: of each block the whole sample frames, and nothing
      of a block whose write failed. */
  ghost function Stored(blocks: seq<seq<Byte>>, fails: iset<nat>, asis: bool, channels: nat): seq<Byte>
    requires channels > 0
  {
    if blocks == [] then []
    else
      var n := |blocks| - 1;
      Stored(blocks[..n], fails, asis, channels) + (if n in fails then [] else Kept(blocks[n], asis, channels))
  }

  lemma StoredSnoc(blocks: seq<seq<Byte>>, block: seq<Byte>, fails: iset<nat>, asis: bool, channels: nat)
    requires channels > 0
    ensures Stored(blocks + [block], fails, asis, channels)
         == Stored(blocks, fails, asis, channels) + (if |blocks| in fails then [] else Kept(block, asis, channels))
  {
    assert (blocks + [block])[..|blocks|] == blocks;
  }

  /** Every block was written whole: no write failed, and each block is a whole number of sample frames. */
  ghost predicate AllWhole(blocks: seq<seq<Byte>>, fails: iset<nat>, size: nat) {
    forall i :: 0 <= i < |blocks| ==> i !in fails && WholeFrames(|blocks[i]|, size)
  }

  lemma KeptLength(block: seq<Byte>, asis: bool, channels: nat)
    requires channels > 0
    ensures |Kept(block, asis, channels)| <= |block|
    ensures |Kept(block, asis, channels)| == |block| <==> Kept(block, asis, channels) == block
  {
    var kept := Kept(block, asis, channels);
    FrameCountBounds(|block|, asis, channels);
    assert kept == block[..|kept|];
    if |kept| == |block| {
      assert block[..|block|] == block;
    }
  }

  /** The file has all the bytes of the blocks exactly if every block was written whole. */
  lemma {:induction false} StoredAllIff(blocks: seq<seq<Byte>>, fails: iset<nat>, asis: bool, channels: nat)
    requires channels > 0 && forall i :: 0 <= i < |blocks| ==> blocks[i] != []
    ensures |Stored(blocks, fails, asis, channels)| <= |Flatten(blocks)|
    ensures Stored(blocks, fails, asis, channels) == Flatten(blocks)
       <==> AllWhole(blocks, fails, FrameSize(asis, channels))
    ensures |Stored(blocks, fails, asis, channels)| == |Flatten(blocks)|
       <==> AllWhole(blocks, fails, FrameSize(asis, channels))
  {
    if blocks != [] {
      var n := |blocks| - 1;
      var init, last := blocks[..n], blocks[n];
      assert blocks == init + [last];
      FlattenSnoc(init, last);
      StoredAllIff(init, fails, asis, channels);
      StoredSnoc(init, last, fails, asis, channels);
      KeptLength(last, asis, channels);
      KeptAll(last, asis, channels);
      AllWholeSnoc(init, last, fails, FrameSize(asis, channels));
    }
  }

  lemma AllWholeSnoc(blocks: seq<seq<Byte>>, block: seq<Byte>, fails: iset<nat>, size: nat)
    ensures AllWhole(blocks + [block], fails, size)
       <==> AllWhole(blocks, fails, size) && |blocks| !in fails && WholeFrames(|block|, size)
  {
    var all := blocks + [block];
    assert all[|blocks|] == block;
    assert forall i :: 0 <= i < |blocks| ==> all[i] == blocks[i];
  }

  /** A file handle that writes in blocks. */
  class BlockFile {
    const blockLen: nat
    const asis: bool
    const channels: nat
    const buffer: Buffer
    /** Which of the block writes, by number, fail. */
    const fails: iset<nat>
    /** The bytes in the file, the sample count reported, and whether the file is open. */
    var file: seq<Byte>
    var samplesOut: nat
    var open: bool
    /** The blocks handed to the file interface. */
    var blocks: seq<seq<Byte>>
    ghost var given: seq<Byte>

    /** Over any run: the blocks followed by the buffer are all the data given, and the file holds what was
        written of the blocks. */
    ghost predicate Valid()
      reads this, buffer, buffer.data
    {
      && channels > 0 && blockLen > 0
      && buffer.Valid() && buffer.data != null && buffer.dynamic && buffer.maxLen == 0
      && given == Flatten(blocks) + buffer.contents && file == Stored(blocks, fails, asis, channels)
      && (forall i :: 0 <= i < |blocks| ==> blocks[i] != [])
    }

    ghost function Size(): nat {
      FrameSize(asis, channels)
    }

    /** Blocks and data have been whole sample frames so far. */
    ghost predicate Whole()
      reads this, buffer
    {
      && WholeFrames(blockLen, Size()) && WholeFrames(|buffer.contents|, Size())
      && (forall i :: 0 <= i < |blocks| ==> WholeFrames(|blocks[i]|, Size()))
    }

    constructor (blockLen: nat, asis: bool, channels: nat, fails: iset<nat>)
      requires channels > 0 && blockLen > 0 && blockLen * channels >= 2
      ensures Valid() && file == given == buffer.contents == [] && blocks == [] && open
      ensures this.blockLen == blockLen && this.asis == asis && this.channels == channels && this.fails == fails
      ensures fresh(buffer) && fresh(buffer.data)
      ensures WholeFrames(blockLen, FrameSize(asis, channels)) ==> Whole()
    {
      this.blockLen, this.asis, this.channels, this.fails := blockLen, asis, channels, fails;
      buffer := new Buffer.Dynamic(blockLen * channels, blockLen * channels / 2, 0);
      file, samplesOut, open, blocks, given := [], 0, true, [], [];
      new;
      assert 0 == 0 * FrameSize(asis, channels);
    }

    /** Reads a block from the buffer and writes its whole sample frames to the file; false when the
        write fails, and then the block is lost. */
    method WriteBlock() returns (ok: bool)
      requires Valid() && buffer.used > 0
      modifies this`file, this`blocks, buffer`used, buffer`head, buffer`contents, buffer`passed, buffer`output
      ensures Valid() && |blocks| == |old(blocks)| + 1 && blocks[..|old(blocks)|] == old(blocks)
      ensures |blocks[|old(blocks)|]| == Min(blockLen, |old(buffer.contents)|)
      ensures |buffer.contents| == |old(buffer.contents)| - Min(blockLen, |old(buffer.contents)|)
      ensures ok <==> |old(blocks)| !in fails
    {
      ok := |blocks| !in fails;
      ghost var before := buffer.contents;
      var block := buffer.Read(blockLen);
      MovePacket(blocks, before, |block|);
      StoredSnoc(blocks, block, fails, asis, channels);
      if ok {
        file := file + Kept(block, asis, channels);
      }
      blocks := blocks + [block];
    }

    /** The same, and it keeps blocks and data whole. */
    method WriteWhole() returns (ok: bool)
      requires Valid() && buffer.used > 0
      modifies this`file, this`blocks, buffer`used, buffer`head, buffer`contents, buffer`passed, buffer`output
      ensures Valid() && |blocks| == |old(blocks)| + 1 && blocks[..|old(blocks)|] == old(blocks)
      ensures |buffer.contents| == |old(buffer.contents)| - Min(blockLen, |old(buffer.contents)|)
      ensures ok <==> |old(blocks)| !in fails
      ensures old(Whole()) ==> Whole()
    {
      ghost var was, n, size := Whole(), |buffer.contents|, Min(blockLen, |buffer.contents|);
      if was {
        WholeFramesAdd(n, size, Size());
      }
      ok := WriteBlock();
      assert forall i :: 0 <= i < |old(blocks)| ==> blocks[i] == blocks[..|old(blocks)|][i];
    }

    /** The pre-buffer path of switch_core_file_write. At most one block moves. So the residue is below a
        block exactly if the buffer and the data were below two. */
    method Write(data: seq<Byte>) returns (ok: bool)
      requires Valid()
      modifies this`file, this`blocks, this`samplesOut, this`given, buffer, buffer.data
      ensures Valid() && given == old(given) + data
      ensures buffer.data == old(buffer.data) || fresh(buffer.data)
      ensures |blocks| == |old(blocks)| + (if data != [] && |old(buffer.contents)| + |data| >= blockLen then 1 else 0)
      ensures blocks[..|old(blocks)|] == old(blocks)
      ensures ok <==> |blocks| == |old(blocks)| || |old(blocks)| !in fails
      ensures |buffer.contents|
           == |old(buffer.contents)| + |data| - (if |blocks| > |old(blocks)| then blockLen else 0)
      ensures data != [] ==> (|buffer.contents| < blockLen <==> |old(buffer.contents)| + |data| < 2 * blockLen)
      ensures samplesOut == old(samplesOut) + if data == [] then 0 else FrameCount(|data|, asis, channels)
      ensures old(Whole()) && WholeFrames(|data|, Size()) ==> Whole()
    {
      ok := true;
      if data == [] {
        return;
      }
      ok := WriteThrough(data);
      samplesOut := samplesOut + FrameCount(|data|, asis, channels);
    }

    /** The data goes into the buffer, and a block from there to the file if there is one. */
    method WriteThrough(data: seq<Byte>) returns (ok: bool)
      requires Valid()
      modifies this`file, this`blocks, this`given, buffer, buffer.data
      ensures Valid() && given == old(given) + data
      ensures buffer.data == old(buffer.data) || fresh(buffer.data)
      ensures |blocks| == |old(blocks)| + (if |old(buffer.contents)| + |data| >= blockLen then 1 else 0)
      ensures blocks[..|old(blocks)|] == old(blocks)
      ensures ok <==> |blocks| == |old(blocks)| || |old(blocks)| !in fails
      ensures |buffer.contents|
           == |old(buffer.contents)| + |data| - (if |blocks| > |old(blocks)| then blockLen else 0)
      ensures old(Whole()) && WholeFrames(|data|, Size()) ==> Whole()
    {
      ok := true;
      Accept(data);
      if buffer.used >= blockLen {
        ok := WriteWhole();
      }
    }

    method Accept(data: seq<Byte>)
      requires Valid()
      modifies this`given, buffer, buffer.data
      ensures Valid() && given == old(given) + data && buffer.contents == old(buffer.contents) + data
      ensures buffer.data == old(buffer.data) || fresh(buffer.data)
      ensures old(Whole()) && WholeFrames(|data|, Size()) ==> Whole()
    {
      if Whole() && WholeFrames(|data|, Size()) {
        WholeFramesAdd(|buffer.contents|, |data|, Size());
      }
      ConcatAssociates(Flatten(blocks), buffer.contents, data);
      var total := buffer.Write(data);
      given := given + data;
    }

    /** The loop of switch_core_file_close: the rest is written block by block until one fails. */
    method WriteRest() returns (ok: bool)
      requires Valid()
      modifies this`file, this`blocks
      modifies buffer`used, buffer`head, buffer`contents, buffer`passed, buffer`output
      ensures Valid() && given == old(given)
      ensures |old(blocks)| <= |blocks| && blocks[..|old(blocks)|] == old(blocks)
      ensures ok <==> forall i :: |old(blocks)| <= i < |blocks| ==> i !in fails
      ensures ok ==> buffer.contents == []
      ensures !ok ==> |blocks| > |old(blocks)| && |blocks| - 1 in fails
      ensures old(Whole()) ==> Whole()
    {
      ok := true;
      ghost var start := blocks;
      while buffer.used > 0
        invariant Valid() && ok && |start| <= |blocks| && blocks[..|start|] == start
        invariant forall i :: |start| <= i < |blocks| ==> i !in fails
        invariant old(Whole()) ==> Whole()
        decreases buffer.used
      {
        ghost var before := blocks;
        ok := WriteWhole();
        assert blocks[..|start|] == blocks[..|before|][..|start|];
        if !ok {
          break;
        }
      }
    }

    /** The pre-buffer path of switch_core_file_close. What is left in the buffer after a failed write is
        lost with it. The file ends up with all the data given exactly if every block was written whole. */
    method Close() returns (ok: bool)
      requires Valid()
      modifies this`file, this`blocks, this`open
      modifies buffer`used, buffer`head, buffer`contents, buffer`passed, buffer`output
      ensures Valid() && !open && given == old(given)
      ensures |old(blocks)| <= |blocks| && blocks[..|old(blocks)|] == old(blocks)
      ensures ok <==> forall i :: |old(blocks)| <= i < |blocks| ==> i !in fails
      ensures ok ==> buffer.contents == [] && Flatten(blocks) == given
      ensures !ok ==> |blocks| > |old(blocks)| && |blocks| - 1 in fails
      ensures file == given <==> AllWhole(blocks, fails, Size())
      ensures old(Whole()) ==> (file == given <==> forall i :: 0 <= i < |blocks| ==> i !in fails)
    {
      ok := WriteRest();
      open := false;
      StoredAllIff(blocks, fails, asis, channels);
    }
  }
}
