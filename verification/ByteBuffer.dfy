/** The compacting, growing byte buffer of src/switch_buffer.c as a first-in first-out sequence. */
module ByteBuffer {

  import opened Common

  function Max(a: int, b: int): int {
    if a < b then b else a
  }

  function Min(a: nat, b: nat): nat {
    if a < b then a else b
  }

  lemma SplitAt(a: seq<Byte>, c: seq<Byte>, k: nat)
    requires k <= |c|
    ensures a + c == (a + c[..k]) + c[k..]
  {
  }

  function Repeat(s: seq<Byte>, n: nat): seq<Byte> {
    if n == 0 then [] else s + Repeat(s, n - 1)
  }

  class Buffer {
    var data: array?<Byte>
    var head: nat
    var used: nat
    var actuallyUsed: nat
    var datalen: nat
    var loops: int
    const dynamic: bool
    const startLen: nat
    const maxLen: nat
    const blocksize: nat

    /** The content, and the bytes still in the storage that were read before it. */
    ghost var contents: seq<Byte>
    ghost var passed: seq<Byte>
    /** All bytes ever given to be read, and all bytes ever removed, in order. Given are the bytes that a
        write accepted and, once more each time, those that a restart of the reading brings back. */
    ghost var input: seq<Byte>
    ghost var output: seq<Byte>

    /** Over any run: the content is what was accepted and not yet removed, in order; it lies at the
        end of the used part of the storage; and the storage stays within its bound. */
    ghost predicate Valid()
      reads this, data
    {
      && (if data == null then dynamic && startLen == 0 && datalen == 0 else data.Length == datalen)
      && head == |passed| && used == |contents| && head + used == actuallyUsed <= datalen
      && (data != null ==> (forall i :: 0 <= i < head ==> data[i] == passed[i])
                           && forall i :: head <= i < actuallyUsed ==> data[i] == contents[i - head])
      && (if dynamic then maxLen > 0 ==> datalen <= Bound() else datalen == startLen)
      && input == output + contents
    }

    /** The most that a dynamic buffer with a limit ever grows to. */
    function Bound(): int {
      Max(startLen, maxLen - 1 + Max(maxLen, blocksize))
    }

    constructor Fixed(size: nat)
      ensures Valid() && contents == [] && input == output == [] && fresh(data) && loops == 0
      ensures !dynamic && startLen == datalen == size && data != null
    {
      data := new Byte[size];
      head, used, actuallyUsed, datalen, loops := 0, 0, 0, size, 0;
      dynamic, startLen, maxLen, blocksize := false, size, 0, 0;
      contents, passed, input, output := [], [], [], [];
    }

    constructor Dynamic(blocksize: nat, startLen: nat, maxLen: nat)
      ensures Valid() && contents == [] && input == output == [] && loops == 0
      ensures dynamic && this.startLen == datalen == startLen && this.maxLen == maxLen && this.blocksize == blocksize
      ensures data != null <==> startLen > 0
      ensures data != null ==> fresh(data)
    {
      if startLen > 0 {
        data := new Byte[startLen];
      } else {
        data := null;
      }
      head, used, actuallyUsed, datalen, loops := 0, 0, 0, startLen, 0;
      dynamic := true;
      this.startLen, this.maxLen, this.blocksize := startLen, maxLen, blocksize;
      contents, passed, input, output := [], [], [], [];
    }

    /** switch_buffer_peek: the next bytes, without removing them. */
    method Peek(n: nat) returns (bytes: seq<Byte>)
      requires Valid()
      ensures bytes == contents[..Min(n, used)]
    {
      if used < 1 {
        return [];
      }
      var reading := if used >= n then n else used;
      bytes := data[head..head + reading];
      assert bytes == contents[..reading];
    }

    ghost method Remove(k: nat)
      requires k <= |contents| && input == output + contents
      modifies this`contents, this`passed, this`output
      ensures contents == old(contents)[k..] && passed == old(passed) + old(contents)[..k]
      ensures output == old(output) + old(contents)[..k] && input == output + contents
    {
      SplitAt(output, contents, k);
      passed := passed + contents[..k];
      output := output + contents[..k];
      contents := contents[k..];
    }

    /** switch_buffer_toss */
    method Toss(n: nat) returns (left: nat)
      requires Valid()
      modifies this`used, this`head, this`contents, this`passed, this`output
      ensures Valid() && contents == old(contents)[Min(n, old(used))..] && left == used
      ensures output == old(output) + old(contents)[..Min(n, old(used))]
    {
      if used < 1 {
        used := 0;
        return 0;
      }
      var reading := if used >= n then n else used;
      Remove(reading);
      used := used - reading;
      head := head + reading;
      return used;
    }

    /** switch_buffer_read */
    method Read(n: nat) returns (bytes: seq<Byte>)
      requires Valid()
      modifies this`used, this`head, this`contents, this`passed, this`output
      ensures Valid() && bytes == old(contents)[..Min(n, old(used))]
      ensures contents == old(contents)[Min(n, old(used))..]
      ensures output == old(output) + bytes && passed == old(passed) + bytes
    {
      if used < 1 {
        used := 0;
        return [];
      }
      var reading := if used >= n then n else used;
      bytes := data[head..head + reading];
      Remove(reading);
      used := used - reading;
      head := head + reading;
    }

    /** switch_buffer_zero */
    method Zero()
      requires Valid() && data != null
      modifies this`used, this`actuallyUsed, this`head, this`contents, this`passed, this`output
      ensures Valid() && contents == [] && passed == [] && output == input
    {
      contents, passed, output := [], [], input;
      used := 0;
      actuallyUsed := 0;
      head := 0;
    }

    /** Moves the content to the start of the storage. */
    method Compact()
      requires Valid() && data != null
      modifies this`head, this`actuallyUsed, this`passed, data
      ensures Valid() && head == 0
    {
      forall i | 0 <= i < used {
        data[i] := data[head + i];
      }
      passed := [];
      head := 0;
      actuallyUsed := used;
    }

    /** Enlarges the storage for n more bytes, by at least a block; the content is at its start. */
    method Grow(n: nat)
      requires Valid() && data != null && head == 0 && dynamic && (maxLen == 0 || datalen < used + n <= maxLen)
      modifies this`data, this`datalen
      ensures Valid() && fresh(data) && data != null
      ensures datalen == old(datalen) + Max(n, blocksize)
    {
      var newSize, newBlockSize := datalen + n, datalen + blocksize;
      if newBlockSize > newSize {
        newSize := newBlockSize;
      }
      var tmp := new Byte[newSize];
      forall i | 0 <= i < datalen {
        tmp[i] := data[i];
      }
      data := tmp;
      datalen := newSize;
    }

    /** Whether a write of n bytes behind k others is accepted: there is room, or the buffer may grow. */
    predicate AcceptsBehind(k: nat, n: nat)
      reads this
    {
      n == 0 || k + n <= datalen || (dynamic && (maxLen == 0 || k + n <= maxLen))
    }

    predicate Accepts(n: nat)
      reads this
    {
      AcceptsBehind(used, n)
    }

    /** switch_buffer_write */
    method Write(bytes: seq<Byte>) returns (total: nat)
      requires Valid() && data != null
      modifies this`data, this`head, this`used, this`actuallyUsed, this`datalen, data
      modifies this`contents, this`passed, this`input
      ensures Valid() && data != null && (data == old(data) || fresh(data))
      ensures contents == old(contents) + (if old(Accepts(|bytes|)) then bytes else [])
      ensures input == old(input) + (if old(Accepts(|bytes|)) then bytes else [])
      ensures total == if old(Accepts(|bytes|)) then used else 0
      ensures bytes != [] ==>
                (total > 0 <==> old(used) + |bytes| <= old(datalen)
                                || (dynamic && (maxLen == 0 || old(used) + |bytes| <= maxLen)))
      ensures datalen == old(datalen) + (if !old(Accepts(|bytes|)) || old(used) + |bytes| <= old(datalen) then 0
                                         else Max(|bytes|, blocksize))
      ensures passed == if |bytes| <= old(datalen - actuallyUsed) then old(passed) else []
    {
      var n := |bytes|;
      if n == 0 {
        return used;
      }
      var actualFreespace := datalen - actuallyUsed;
      if actualFreespace < n {
        Compact();
      }
      var freespace := datalen - used;
      if dynamic {
        if freespace < n && (maxLen == 0 || used + n <= maxLen) {
          Grow(n);
        }
      }
      freespace := datalen - used;
      if freespace < n {
        return 0;
      }
      Append(bytes);
      return used;
    }

    method Append(bytes: seq<Byte>)
      requires Valid() && data != null && actuallyUsed + |bytes| <= datalen
      modifies this`used, this`actuallyUsed, this`contents, this`input, data
      ensures Valid() && contents == old(contents) + bytes && input == old(input) + bytes
    {
      forall i | actuallyUsed <= i < actuallyUsed + |bytes| {
        data[i] := bytes[i - actuallyUsed];
      }
      used := used + |bytes|;
      actuallyUsed := actuallyUsed + |bytes|;
      contents := contents + bytes;
      input := input + bytes;
    }

    /** switch_buffer_zwrite: a refused write empties the buffer and is tried again. It may be refused
        again: then the old content is gone and the result is zero. */
    method Zwrite(bytes: seq<Byte>) returns (total: nat)
      requires Valid() && data != null
      modifies this`data, this`head, this`used, this`actuallyUsed, this`datalen, data
      modifies this`contents, this`passed, this`input, this`output
      ensures Valid() && data != null && (data == old(data) || fresh(data))
      ensures old(Accepts(|bytes|)) ==> contents == old(contents) + bytes && total == used
      ensures !old(Accepts(|bytes|)) ==> contents == (if old(AcceptsBehind(0, |bytes|)) then bytes else [])
      ensures !old(Accepts(|bytes|)) ==> total == used
    {
      total := Write(bytes);
      if total == 0 {
        Zero();
        total := Write(bytes);
      }
    }

    /** switch_buffer_slide_write: a refused write drops as many of the oldest bytes as it has, and
        is tried again. A fixed buffer so takes every write that is no larger than itself; a larger
        one is refused again, after the loss of the old content. */
    method SlideWrite(bytes: seq<Byte>) returns (total: nat)
      requires Valid() && data != null
      modifies this`data, this`head, this`used, this`actuallyUsed, this`datalen, data
      modifies this`contents, this`passed, this`input, this`output
      ensures Valid() && data != null && (data == old(data) || fresh(data))
      ensures old(Accepts(|bytes|)) ==>
                contents == old(contents) + bytes && output == old(output) && total == used
      ensures !old(Accepts(|bytes|)) ==>
                var k := Min(|bytes|, old(used));
                var ok := old(AcceptsBehind(used - Min(|bytes|, used), |bytes|));
                && contents == old(contents)[k..] + (if ok then bytes else [])
                && output == old(output) + old(contents)[..k] && total == if ok then used else 0
      ensures !dynamic && bytes != [] ==> (total > 0 <==> |bytes| <= datalen)
    {
      total := Write(bytes);
      if total == 0 {
        var left := Toss(|bytes|);
        total := Write(bytes);
      }
    }

    /** What a restart of the reading gives again. */
    ghost function Retained(): seq<Byte>
      reads this
    {
      passed + contents
    }

    method Restart()
      requires Valid()
      modifies this`head, this`used, this`contents, this`passed, this`input
      ensures Valid() && contents == old(Retained()) && passed == []
    {
      head := 0;
      used := actuallyUsed;
      contents, passed := passed + contents, [];
      input := output + contents;
    }

    /** A read that keeps in mind what a restart would give. */
    method ReadOn(n: nat) returns (bytes: seq<Byte>)
      requires Valid()
      modifies this`used, this`head, this`contents, this`passed, this`output
      ensures Valid() && Retained() == old(Retained())
      ensures bytes == old(contents)[..Min(n, old(used))] && contents == old(contents)[Min(n, old(used))..]
    {
      bytes := Read(n);
      SplitAt(old(passed), old(contents), Min(n, old(used)));
    }

    /** switch_buffer_read_loop: at the end of the content, reading starts over while loops are left. */
    method ReadLoop(n: nat) returns (bytes: seq<Byte>)
      requires Valid()
      modifies this`head, this`used, this`loops, this`contents, this`passed, this`input, this`output
      ensures Valid() && Retained() == old(Retained())
      ensures old(used) > 0 && n > 0 ==>
                bytes == old(contents)[..Min(n, old(used))] && contents == old(contents)[Min(n, old(used))..]
                && loops == old(loops)
      ensures !(old(used) > 0 && n > 0) && (old(loops) == 0 || old(loops) == 1) ==>
                bytes == [] && contents == old(contents) && loops == 0
      ensures !(old(used) > 0 && n > 0) && !(old(loops) == 0 || old(loops) == 1) ==>
                bytes == old(Retained())[..Min(n, old(actuallyUsed))]
                && contents == old(Retained())[Min(n, old(actuallyUsed))..]
                && loops == (if old(loops) > 0 then old(loops) - 1 else old(loops))
    {
      bytes := ReadOn(n);
      if |bytes| == 0 {
        assert contents == old(contents);
        if loops > 0 {
          loops := loops - 1;
        }
        if loops == 0 {
          return [];
        }
        bytes := ReadAgain(n);
      }
    }

    /** Starts the reading over. */
    method ReadAgain(n: nat) returns (bytes: seq<Byte>)
      requires Valid()
      modifies this`head, this`used, this`contents, this`passed, this`input, this`output
      ensures Valid() && Retained() == old(Retained())
      ensures bytes == old(Retained())[..Min(n, old(actuallyUsed))]
      ensures contents == old(Retained())[Min(n, old(actuallyUsed))..]
    {
      Restart();
      assert passed + contents == contents;
      bytes := ReadOn(n);
    }

    /** One read of a buffer that is being played `total` times. */
    method PlayNext(n: nat, ghost all: seq<Byte>, ghost whole: seq<Byte>, ghost total: int) returns (bytes: seq<Byte>)
      requires Valid() && n > 0 && Retained() == whole && whole != [] && Played(all, contents, whole, loops, total)
      modifies this`head, this`used, this`loops, this`contents, this`passed, this`input, this`output
      ensures Valid() && Retained() == whole
      ensures bytes == [] ==> all == Repeat(whole, total)
      ensures bytes != [] ==> Played(all + bytes, contents, whole, loops, total)
      ensures bytes != [] ==> loops < old(loops) || (loops == old(loops) && used < old(used))
    {
      if used > 0 {
        PlayOn(all, contents, whole, loops, total, Min(n, used));
      } else {
        PlayAgain(all, contents, whole, loops, total, Min(n, |whole|));
      }
      bytes := ReadLoop(n);
    }

    /** Reading a loaded buffer with read_loop until it gives nothing yields its bytes as many times
        as loops were set, whatever the size of the reads. */
    method DrainLoop(n: nat) returns (all: seq<Byte>)
      requires Valid() && head == 0 && used > 0 && n > 0 && loops >= 1
      modifies this`head, this`used, this`loops, this`contents, this`passed, this`input, this`output
      ensures Valid() && all == Repeat(old(contents), old(loops))
    {
      ghost var whole := contents;
      all := [];
      while true
        invariant Valid() && Retained() == whole && |whole| == actuallyUsed > 0 && loops >= 1
        invariant Played(all, contents, whole, loops, old(loops))
        decreases loops, used
      {
        var bytes := PlayNext(n, all, whole, old(loops));
        if bytes == [] {
          return;
        }
        all := all + bytes;
      }
    }
  }

  /** What was read so far, what is left of this pass, and the passes to come make all the passes. */
  ghost predicate Played(all: seq<Byte>, content: seq<Byte>, whole: seq<Byte>, loops: int, total: int) {
    loops >= 1 && total >= 0 && all + (content + Repeat(whole, loops - 1)) == Repeat(whole, total)
  }

  lemma PlayOn(all: seq<Byte>, content: seq<Byte>, whole: seq<Byte>, loops: int, total: int, k: nat)
    requires Played(all, content, whole, loops, total) && k <= |content|
    ensures Played(all + content[..k], content[k..], whole, loops, total)
  {
    Regroup(all, content, k, Repeat(whole, loops - 1));
  }

  lemma PlayAgain(all: seq<Byte>, content: seq<Byte>, whole: seq<Byte>, loops: int, total: int, k: nat)
    requires Played(all, content, whole, loops, total) && content == [] && k <= |whole|
    ensures loops == 1 ==> all == Repeat(whole, total)
    ensures loops > 1 ==> Played(all + whole[..k], whole[k..], whole, loops - 1, total)
  {
    assert content + Repeat(whole, loops - 1) == Repeat(whole, loops - 1);
    if loops > 1 {
      Regroup(all, whole, k, Repeat(whole, loops - 2));
    } else {
      assert all + Repeat(whole, 0) == all;
    }
  }

  lemma Regroup(a: seq<Byte>, c: seq<Byte>, k: nat, r: seq<Byte>)
    requires k <= |c|
    ensures a + (c + r) == (a + c[..k]) + (c[k..] + r)
  {
  }
}
