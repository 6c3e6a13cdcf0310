/** The buffers of src/net/io_buffer.cc and of RpcConnection. */
module IoBuffers {
  import opened Bytes
  import opened Sequences

  function Min(a: int, b: int): int {
    if a <= b then a else b
  }

  /** net::GrowableIOBuffer: a reallocated block, its capacity and the offset of data(). */
  class GrowableIOBuffer {
    var realData: array<byte>
    var capacity: int
    var offset: int

    ghost predicate Valid()
      reads this
    {
      0 <= offset <= capacity == realData.Length
    }

    constructor ()
      ensures Valid() && capacity == 0 && offset == 0 && fresh(realData)
    {
      realData := new byte[0];
      capacity, offset := 0, 0;
    }

    /** realloc keeps the common prefix and may move the block. */
    method SetCapacity(newCapacity: int)
      requires Valid() && 0 <= newCapacity
      modifies this
      ensures Valid() && fresh(realData)
      ensures capacity == newCapacity && offset == Min(old(offset), newCapacity)
      ensures var kept := Min(old(capacity), newCapacity);
              realData[..kept] == old(realData[..kept])
    {
      var block := new byte[newCapacity];
      var kept := Min(capacity, newCapacity);
      forall i | 0 <= i < kept {
        block[i] := realData[i];
      }
      realData, capacity := block, newCapacity;
      if offset > newCapacity {
        SetOffset(newCapacity);
      } else {
        SetOffset(offset);
      }
    }

    method SetOffset(newOffset: int)
      requires capacity == realData.Length && 0 <= newOffset <= capacity
      modifies `offset
      ensures Valid() && offset == newOffset
    {
      offset := newOffset;
    }

    function RemainingCapacity(): (r: int)
      requires Valid()
      reads this
      ensures 0 <= r <= realData.Length
    {
      capacity - offset
    }
  }

  const INITIAL_BUF_SIZE := 1024
  const MINIMUM_BUF_SIZE := 128
  const CAPACITY_INCREASE_FACTOR := 2
  const DEFAULT_MAX_BUFFER_SIZE: nat := 1024 * 1024

  function Pow2(k: nat): (p: nat)
    ensures p > 0
  {
    if k == 0 then 1 else 2 * Pow2(k - 1)
  }

  /** A power of two from the minimum to the default maximum. */
  ghost predicate IsCapacity(c: int) {
    MINIMUM_BUF_SIZE <= c <= DEFAULT_MAX_BUFFER_SIZE && exists k: nat :: c == Pow2(k)
  }

  lemma CapacitySteps(c: int)
    requires IsCapacity(c)
    ensures c < DEFAULT_MAX_BUFFER_SIZE ==> IsCapacity(2 * c)
    ensures c > MINIMUM_BUF_SIZE ==> IsCapacity(c / 2) && c / 2 * 2 == c
  {
    var k: nat :| c == Pow2(k);
    assert Pow2(k + 1) == 2 * c;
    assert Pow2(k - 1) * 2 == c;
    PowersBetween(k);
  }

  lemma PowersBetween(k: nat)
    requires MINIMUM_BUF_SIZE <= Pow2(k) <= DEFAULT_MAX_BUFFER_SIZE
    ensures Pow2(k) == MINIMUM_BUF_SIZE || 2 * MINIMUM_BUF_SIZE <= Pow2(k)
    ensures Pow2(k) == DEFAULT_MAX_BUFFER_SIZE || 2 * Pow2(k) <= DEFAULT_MAX_BUFFER_SIZE
  {
    assert Pow2(7) == 128 && Pow2(8) == 256 by {
      assert Pow2(4) == 16;
      assert Pow2(6) == 64;
    }
    assert Pow2(19) == 524288 && Pow2(20) == 1048576 by {
      assert Pow2(10) == 1024;
      assert Pow2(12) == 4096;
      assert Pow2(14) == 16384;
      assert Pow2(16) == 65536;
      assert Pow2(18) == 262144;
    }
    if k <= 7 {
      PowMonotone(k, 7);
    } else {
      PowMonotone(8, k);
    }
    if k >= 20 {
      PowMonotone(20, k);
    } else {
      PowMonotone(k, 19);
    }
  }

  lemma {:induction false} PowMonotone(a: nat, b: nat)
    requires a <= b
    ensures Pow2(a) <= Pow2(b)
  {
    if a < b {
      PowMonotone(a, b - 1);
    }
  }

  /**
   RpcConnection::ReadIOBuffer.  received is the whole byte history and
   consumed how much of it has been given away: the buffer is a byte queue.
   (dataBlock, dataPos) is the pointer data_ to which the socket writes next.
   */
  class ReadIOBuffer {
    const base: GrowableIOBuffer
    const maxBufferSize: int := DEFAULT_MAX_BUFFER_SIZE
    var dataBlock: array<byte>
    var dataPos: int

    ghost var received: seq<byte>
    ghost var consumed: nat

    ghost predicate Valid()
      reads this, base, base.realData
    {
      && base.Valid()
      && dataBlock == base.realData && dataPos == base.offset
      && IsCapacity(base.capacity)
      && consumed <= |received|
      && base.realData[..base.offset] == received[consumed..]
    }

    ghost function Repr(): set<object>
      reads this, base
    {
      {this, base, base.realData}
    }

    /** The bytes read and not yet consumed. */
    function Contents(): (b: seq<byte>)
      requires Valid()
      reads this, base, base.realData
      ensures |b| == GetSize()
      ensures b == received[consumed..]
    {
      base.realData[..base.offset]
    }

    constructor ()
      ensures Valid() && fresh(Repr())
      ensures received == [] && consumed == 0 && GetCapacity() == INITIAL_BUF_SIZE
    {
      base := new GrowableIOBuffer();
      dataBlock := new byte[0];
      dataPos := 0;
      received, consumed := [], 0;
      new;
      assert IsCapacity(INITIAL_BUF_SIZE) by {
        assert Pow2(4) == 16;
        assert Pow2(8) == 256;
        assert Pow2(10) == 1024;
      }
      SetCapacity(INITIAL_BUF_SIZE);
    }

    function GetCapacity(): int
      reads this, base
    {
      base.capacity
    }

    function GetSize(): int
      reads this, base
    {
      base.offset
    }

    function RemainingCapacity(): (r: int)
      requires base.Valid()
      reads this, base
      ensures 0 <= r
      ensures r == GetCapacity() - GetSize()
    {
      base.RemainingCapacity()
    }

    /** The n bytes that a read has left behind data_. */
    ghost function Stored(n: nat): (b: seq<byte>)
      requires base.Valid() && n <= RemainingCapacity()
      reads this, base, base.realData
      ensures |b| == n
    {
      base.realData[base.offset..base.offset + n]
    }

    method SetCapacity(newCapacity: int)
      requires base.Valid() && consumed <= |received|
      requires base.realData[..base.offset] == received[consumed..]
      requires GetSize() <= newCapacity
      modifies this`dataBlock, this`dataPos, base
      ensures base.Valid() && fresh(base.realData)
      ensures base.realData[..base.offset] == received[consumed..]
      ensures dataBlock == base.realData && dataPos == base.offset
      ensures GetCapacity() == newCapacity && GetSize() == old(GetSize())
    {
      ghost var size := base.offset;
      ghost var before := base.realData[..];
      base.SetCapacity(newCapacity);
      dataBlock, dataPos := base.realData, base.offset;
      assert base.realData[..size] == before[..size];
    }

    /** Fails exactly at the limit; the stored bytes survive the reallocation. */
    method IncreaseCapacity() returns (ok: bool)
      requires Valid()
      modifies this`dataBlock, this`dataPos, base
      ensures Valid()
      ensures base.realData == old(base.realData) || fresh(base.realData)
      ensures GetSize() == old(GetSize())
      ensures ok <==> old(GetCapacity()) < maxBufferSize
      ensures if ok then GetCapacity() == 2 * old(GetCapacity()) && RemainingCapacity() > 0
              else GetCapacity() == old(GetCapacity())
    {
      if GetCapacity() >= maxBufferSize {
        return false;
      }
      CapacitySteps(GetCapacity());
      var newCapacity := GetCapacity() * CAPACITY_INCREASE_FACTOR;
      if newCapacity > maxBufferSize {
        newCapacity := maxBufferSize;
      }
      SetCapacity(newCapacity);
      return true;
    }

    /** The kernel's part of a read: it fills the block from data_ on. */
    method Fill(chunk: seq<byte>)
      requires Valid() && |chunk| <= RemainingCapacity()
      modifies base.realData
      ensures Valid()
      ensures Stored(|chunk|) == chunk
    {
      ghost var before := base.realData[..];
      forall i | 0 <= i < |chunk| {
        dataBlock[dataPos + i] := chunk[i];
      }
      assert base.realData[..base.offset] == before[..base.offset];
    }

    method DidRead(bytes: int)
      requires Valid() && 0 <= bytes <= RemainingCapacity()
      modifies this, base`offset
      ensures Valid()
      ensures received == old(received) + old(Stored(bytes))
      ensures Contents() == old(Contents()) + old(Stored(bytes))
      ensures consumed == old(consumed) && GetCapacity() == old(GetCapacity())
    {
      received := received + Stored(bytes);
      base.SetOffset(base.offset + bytes);
      dataPos := base.offset;
    }

    /** memmove, and the capacity halves when it is more than twice what was stored. */
    method DidConsume(bytes: int)
      requires Valid() && 0 <= bytes <= GetSize()
      modifies this, base, base.realData
      ensures Valid()
      ensures base.realData == old(base.realData) || fresh(base.realData)
      ensures received == old(received) && consumed == old(consumed) + bytes
      ensures GetCapacity() ==
              if old(GetCapacity()) > MINIMUM_BUF_SIZE && old(GetCapacity()) > 2 * old(GetSize())
              then old(GetCapacity()) / 2 else old(GetCapacity())
    {
      var previousSize := GetSize();
      var unconsumed := previousSize - bytes;
      ghost var before := base.realData[..previousSize];
      if unconsumed > 0 {
        var block := base.realData;
        forall i | 0 <= i < unconsumed {
          block[i] := block[i + bytes];
        }
      }
      base.SetOffset(unconsumed);
      dataPos := base.offset;
      consumed := consumed + bytes;
      assert base.realData[..unconsumed] == before[bytes..];
      assert received[consumed..] == before[bytes..];
      if GetCapacity() > MINIMUM_BUF_SIZE && GetCapacity() > previousSize * CAPACITY_INCREASE_FACTOR {
        CapacitySteps(GetCapacity());
        var newCapacity := GetCapacity() / CAPACITY_INCREASE_FACTOR;
        if newCapacity < MINIMUM_BUF_SIZE {
          newCapacity := MINIMUM_BUF_SIZE;
        }
        if unconsumed == 0 {
          base.SetCapacity(0);
        }
        SetCapacity(newCapacity);
      }
    }
  }

  /**
   RpcConnection::QueuedWriteIOBuffer.  accepted is the concatenation of all
   data that Append took, and consumed how many of those bytes were written.
   dataPos is data_ relative to the front string.
   */
  class QueuedWriteIOBuffer {
    const maxBufferSize: int := DEFAULT_MAX_BUFFER_SIZE
    var pendingData: seq<seq<byte>>
    var dataPos: int
    var totalSize: int

    ghost var accepted: seq<byte>
    ghost var consumed: nat

    ghost predicate Valid()
      reads this
    {
      && (forall i :: 0 <= i < |pendingData| ==> pendingData[i] != [])
      && 0 <= dataPos
      && (if pendingData == [] then dataPos == 0 else dataPos < |pendingData[0]|)
      && consumed <= |accepted|
      && dataPos <= |Flatten(pendingData)|
      && Flatten(pendingData)[dataPos..] == accepted[consumed..]
      && totalSize == |accepted| - consumed
      && totalSize <= maxBufferSize
    }

    constructor ()
      ensures Valid() && accepted == [] && consumed == 0
    {
      pendingData, dataPos, totalSize := [], 0, 0;
      accepted, consumed := [], 0;
    }

    predicate IsEmpty()
      reads this
    {
      pendingData == []
    }

    /** What is left of the front string; positive exactly when bytes are pending. */
    function GetSizeToWrite(): (n: int)
      requires Valid()
      reads this
      ensures n > 0 <==> !IsEmpty()
      ensures n > 0 <==> consumed < |accepted|
      ensures 0 <= n <= totalSize
    {
      if IsEmpty() then 0 else |pendingData[0]| - dataPos
    }

    /** The bytes data() points to. */
    function Front(): (b: seq<byte>)
      requires Valid()
      reads this
      ensures |b| == GetSizeToWrite()
      ensures b == accepted[consumed..consumed + |b|]
    {
      if IsEmpty() then [] else
        assert Flatten(pendingData)[dataPos..][..|pendingData[0]| - dataPos] == pendingData[0][dataPos..];
        pendingData[0][dataPos..]
    }

    method Append(data: seq<byte>) returns (ok: bool)
      requires Valid()
      modifies this
      ensures Valid()
      ensures ok <==> data == [] || |old(accepted)| - consumed + |data| <= maxBufferSize
      ensures accepted == if ok then old(accepted) + data else old(accepted)
      ensures consumed == old(consumed)
      ensures old(GetSizeToWrite()) > 0 ==> GetSizeToWrite() == old(GetSizeToWrite())
    {
      if data == [] {
        return true;
      }
      if totalSize + |data| > maxBufferSize {
        return false;
      }
      FlattenSnoc(pendingData, data);
      pendingData := pendingData + [data];
      totalSize := totalSize + |data|;
      if |pendingData| == 1 {
        dataPos := 0;
      }
      accepted := accepted + data;
      return true;
    }

    method DidConsume(size: int)
      requires Valid() && 0 <= size <= GetSizeToWrite()
      modifies this
      ensures Valid()
      ensures accepted == old(accepted) && consumed == old(consumed) + size
    {
      if size == 0 {
        return;
      }
      ghost var before := Flatten(pendingData)[dataPos..];
      if size < GetSizeToWrite() {
        dataPos := dataPos + size;
      } else {
        pendingData := pendingData[1..];
        dataPos := 0;
      }
      totalSize := totalSize - size;
      consumed := consumed + size;
      assert Flatten(pendingData)[dataPos..] == before[size..];
    }
  }
}
