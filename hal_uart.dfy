/** The receive and transmit ring buffers of the UART hardware layer
    (`HAL_UART0` / `HAL_UART1`, identical apart from the peripheral they drive).
    The FIFO seen by a caller is the part of the array from the tail index up to,
    but not including, the head index, wrapping at the buffer size. */
module HalUart {
  import opened Common

  /** `RX_BUFFER_SIZE` and `TX_BUFFER_SIZE` are both 256. */
  const BUFFER_SIZE: nat := 256

  /** The array position `k` places after `start`, wrapping at the buffer size. */
  function Wrap(start: nat, k: nat): (i: nat)
    requires start < BUFFER_SIZE && k < BUFFER_SIZE
    ensures i < BUFFER_SIZE
    ensures i == (start + k) % BUFFER_SIZE
  {
    if start + k < BUFFER_SIZE then start + k else start + k - BUFFER_SIZE
  }

  /** The number of bytes between `tail` and `head`: (head - tail) mod size. */
  function Count(tail: nat, head: nat): (n: nat)
    requires tail < BUFFER_SIZE && head < BUFFER_SIZE
    ensures n < BUFFER_SIZE
    ensures n == (head - tail) % BUFFER_SIZE
    ensures Wrap(tail, n) == head
  {
    if head >= tail then head - tail else BUFFER_SIZE - tail + head
  }

  /** A ring: `contents` is exactly what lies in `buf` from `tail` to `head`. */
  ghost predicate RingHolds(buf: seq<byte>, tail: nat, head: nat, contents: seq<byte>)
  {
    && |buf| == BUFFER_SIZE && tail < BUFFER_SIZE && head < BUFFER_SIZE
    && |contents| == Count(tail, head)
    && forall k :: 0 <= k < |contents| ==> contents[k] == buf[Wrap(tail, k)]
  }

  /** A ring whose head is one slot behind its tail holds all but one slot;
      any other ring holds fewer. */
  lemma FullRing(tail: nat, head: nat)
    requires tail < BUFFER_SIZE && head < BUFFER_SIZE
    ensures (head + 1) % BUFFER_SIZE == tail <==> Count(tail, head) == BUFFER_SIZE - 1
  {
  }

  /** Writing a byte at the head of a ring that is not full appends it. */
  lemma RingPush(buf: seq<byte>, tail: nat, head: nat, contents: seq<byte>, b: byte)
    requires RingHolds(buf, tail, head, contents) && (head + 1) % BUFFER_SIZE != tail
    ensures RingHolds(buf[head := b], tail, (head + 1) % BUFFER_SIZE, contents + [b])
  {
    var buf' := buf[head := b];
    var c' := contents + [b];
    forall k | 0 <= k < |c'| ensures c'[k] == buf'[Wrap(tail, k)] {
      if k < |contents| {
        assert Wrap(tail, k) != head;
      }
    }
  }

  /** Taking the byte at the tail of a non-empty ring removes its oldest byte. */
  lemma RingPop(buf: seq<byte>, tail: nat, head: nat, contents: seq<byte>)
    requires RingHolds(buf, tail, head, contents) && contents != []
    ensures contents[0] == buf[tail]
    ensures RingHolds(buf, (tail + 1) % BUFFER_SIZE, head, contents[1..])
  {
    var t' := (tail + 1) % BUFFER_SIZE;
    forall k | 0 <= k < |contents| - 1 ensures contents[1..][k] == buf[Wrap(t', k)] {
      assert contents[1..][k] == contents[k + 1];
      assert Wrap(t', k) == Wrap(tail, k + 1);
    }
  }

  class Uart {
    var initialized: bool
    const rxBuffer: array<byte>
    const txBuffer: array<byte>
    var rxHead: nat
    var rxTail: nat
    var txHead: nat
    var txTail: nat
    /** The received bytes not yet read, oldest first. */
    ghost var rxContents: seq<byte>
    /** The bytes queued for transmission, oldest first. */
    ghost var txContents: seq<byte>

    ghost predicate Valid()
      reads this, rxBuffer, txBuffer
    {
      && rxBuffer != txBuffer
      && RingHolds(rxBuffer[..], rxTail, rxHead, rxContents)
      && RingHolds(txBuffer[..], txTail, txHead, txContents)
    }

    /** The constructor: not initialised, both rings empty. */
    constructor ()
      ensures Valid() && fresh(rxBuffer) && fresh(txBuffer)
      ensures !initialized && rxContents == [] && txContents == []
    {
      initialized := false;
      rxBuffer := new byte[BUFFER_SIZE];
      txBuffer := new byte[BUFFER_SIZE];
      rxHead, rxTail, txHead, txTail := 0, 0, 0, 0;
      rxContents, txContents := [], [];
    }

    /** `init` (the hardware set-up is left out): the receive ring is emptied
        and the driver becomes initialised. */
    method Init()
      requires Valid()
      modifies this
      ensures Valid() && initialized
      ensures rxContents == [] && txContents == old(txContents)
    {
      rxHead, rxTail := 0, 0;
      rxContents := [];
      initialized := true;
    }

    /** `write_to_tx_buffer`: copies bytes of `data` (None is a null pointer)
        until only one free slot would be left, and returns how many were copied. */
    method WriteToTxBuffer(data: Option<seq<byte>>) returns (written: nat)
      requires Valid()
      modifies this`txHead, this`txContents, txBuffer
      ensures Valid()
      ensures !initialized || data.None? ==> written == 0 && txContents == old(txContents)
      ensures initialized && data.Some? ==>
        && written == Min(|data.value|, BUFFER_SIZE - 1 - |old(txContents)|)
        && txContents == old(txContents) + data.value[..written]
      ensures |txContents| <= BUFFER_SIZE - 1
    {
      if !initialized || data.None? {
        return 0;
      }
      var src := data.value;
      written := 0;
      var i := 0;
      while i < |src| && written < |src|
        invariant Valid()
        invariant i == written <= |src|
        invariant txContents == old(txContents) + src[..written]
        invariant written <= BUFFER_SIZE - 1 - |old(txContents)|
        decreases |src| - i
      {
        var nextHead := (txHead + 1) % BUFFER_SIZE;
        FullRing(txTail, txHead);
        if nextHead == txTail {
          break;
        }
        PushTx(src[i]);
        assert src[..written + 1] == src[..written] + [src[i]];
        written := written + 1;
        i := i + 1;
      }
    }

    /** One byte into the transmit ring at its head, which must not be full. */
    method PushTx(b: byte)
      requires Valid() && (txHead + 1) % BUFFER_SIZE != txTail
      modifies txBuffer, this`txHead, this`txContents
      ensures Valid() && txContents == old(txContents) + [b]
    {
      RingPush(txBuffer[..], txTail, txHead, txContents, b);
      txBuffer[txHead] := b;
      txHead := (txHead + 1) % BUFFER_SIZE;
      txContents := txContents + [b];
    }

    /** `read_from_rx_buffer`: moves up to `length` received bytes, oldest
        first, into the caller's buffer (`out`); a null buffer (`hasBuffer`
        false) or an uninitialised driver reads nothing. */
    method ReadFromRxBuffer(hasBuffer: bool, length: nat) returns (out: seq<byte>)
      requires Valid()
      modifies this`rxTail, this`rxContents
      ensures Valid()
      ensures !initialized || !hasBuffer ==> out == [] && rxContents == old(rxContents)
      ensures initialized && hasBuffer ==>
        && |out| == Min(length, |old(rxContents)|)
        && out == old(rxContents)[..|out|]
        && rxContents == old(rxContents)[|out|..]
    {
      out := [];
      if !initialized || !hasBuffer {
        return;
      }
      while |out| < length && rxHead != rxTail
        invariant RingHolds(rxBuffer[..], rxTail, rxHead, rxContents)
        invariant |out| <= length
        invariant old(rxContents) == out + rxContents
        decreases |rxContents|
      {
        RingPop(rxBuffer[..], rxTail, rxHead, rxContents);
        ghost var prevOut, prev := out, rxContents;
        var b := rxBuffer[rxTail];
        out := out + [b];
        rxTail := (rxTail + 1) % BUFFER_SIZE;
        rxContents := rxContents[1..];
        assert prev == [b] + rxContents;
        assert out + rxContents == prevOut + prev;
      }
    }

    /** `available`: the number of received bytes not yet read (0 when not initialised). */
    method Available() returns (n: nat)
      requires Valid()
      ensures n == if initialized then |rxContents| else 0
      ensures n == if initialized then (rxHead - rxTail) % BUFFER_SIZE else 0
    {
      if !initialized { return 0; }
      if rxHead >= rxTail {
        n := rxHead - rxTail;
      } else {
        n := BUFFER_SIZE - rxTail + rxHead;
      }
    }

    /** `get_rx_buffer_data_count`: the same count, without the initialisation test. */
    method RxBufferDataCount() returns (n: nat)
      requires Valid()
      ensures n == |rxContents|
    {
      if rxHead >= rxTail {
        n := rxHead - rxTail;
      } else {
        n := BUFFER_SIZE - (rxTail - rxHead);
      }
    }

    /** `get_tx_buffer_free_space`: one slot always stays unused. */
    method TxBufferFreeSpace() returns (n: nat)
      requires Valid()
      ensures n == BUFFER_SIZE - |txContents| - 1
    {
      if txHead >= txTail {
        n := BUFFER_SIZE - (txHead - txTail) - 1;
      } else {
        n := txTail - txHead - 1;
      }
    }

    /** `flush_rx`: both receive indices return to 0, so nothing is pending. */
    method FlushRx()
      requires Valid()
      modifies this`rxHead, this`rxTail, this`rxContents
      ensures Valid() && rxContents == [] && rxHead == 0 && rxTail == 0
    {
      rxHead, rxTail := 0, 0;
      rxContents := [];
    }

    /** The store step of `handle_rx_irq` for one received byte `ch`: the byte is
        dropped when the ring is full, otherwise appended. */
    method StoreRxByte(ch: byte) returns (stored: bool)
      requires Valid()
      modifies this`rxHead, this`rxContents, rxBuffer
      ensures Valid()
      ensures stored <==> |old(rxContents)| < BUFFER_SIZE - 1
      ensures rxContents == if stored then old(rxContents) + [ch] else old(rxContents)
    {
      var nextHead := (rxHead + 1) % BUFFER_SIZE;
      stored := nextHead != rxTail;
      if stored {
        rxBuffer[rxHead] := ch;
        rxHead := nextHead;
        rxContents := rxContents + [ch];
      }
    }
  }
}
