/**
 Multi-pass DSI read. The host keeps only the last 16 bytes of a reply, so a long read asks for
 ever longer replies and stitches the new tail of each one behind what it already has.
 A long reply is a 4 byte header, the payload and a 2 byte checksum (section 8.4 of the MIPI DSI
 specification).
 */
module LongRead {
  import opened Machine
  import opened Arithmetic

  type Bytes = seq<u8>

  const FIFO := 16
  const BUFFER := 4096
  const EINVAL := -22
  const ECOMM := -70

  const RX_ACK_ERROR := 0x02
  const RX_GENERIC_SHORT_1 := 0x11
  const RX_GENERIC_SHORT_2 := 0x12
  const RX_GENERIC_LONG := 0x1a
  const RX_DCS_LONG := 0x1c
  const RX_DCS_SHORT_1 := 0x21
  const RX_DCS_SHORT_2 := 0x22

  /** What the link does on pass k: results of the two transmissions, and the panel's reply once
      at most s bytes of payload were asked for. */
  datatype Link = Link(setMax: nat -> int, send: nat -> int, reply: nat -> Bytes)

  /** The read-back registers, oldest byte first: cleared zeros pushed out by the reply. */
  function Fifo(reply: Bytes): (r: Bytes)
    ensures |r| == FIFO
  {
    var all := seq(16, _ => 0) + reply;
    all[|all| - 16..]
  }

  /** Read-back word i, most significant byte first; word 0 holds the newest four bytes. */
  function Word(fifo: Bytes, i: nat): (w: Bytes)
    requires |fifo| == FIFO && i < 4
    ensures |w| == 4
  {
    fifo[12 - 4 * i..16 - 4 * i]
  }

  /** Every long enough request is answered with the leading part of one payload. */
  ghost predicate IsLongReply(link: Link, kind: u8, payload: Bytes) {
    forall s: nat | 1 <= s <= |payload| ::
      var r := link.reply(s); |r| == s + 6 && r[0] == kind && r[4..4 + s] == payload[..s]
  }

  /** The panel answers nothing longer than a short packet, an error report for example. */
  ghost predicate AnswersShort(link: Link) { forall s: nat :: |link.reply(s)| <= 4 }

  /** How many passes a read of len bytes takes. */
  function Passes(len: nat): nat {
    if len <= 10 then 1 else 1 + (len - 10 + 13) / 14
  }

  /** Payload bytes requested on pass k, counting from 0. */
  function Requested(len: nat, k: nat): nat {
    Min(len, 10 + 14 * k)
  }

  ghost predicate PassFails(link: Link, txLen: nat, k: nat) {
    link.setMax(k) < 2 || link.send(k) < txLen
  }

  /** The code the first failing pass returns. */
  function FailureCode(link: Link, k: nat): int {
    if link.setMax(k) < 2 then EINVAL else if link.send(k) < 0 then link.send(k) else ECOMM
  }

  /** It is negative, so that it never passes for a number of bytes; an error of the link is passed on as it is. */
  lemma FailureIsNoLength(link: Link, txLen: nat, k: nat)
    requires PassFails(link, txLen, k)
    ensures FailureCode(link, k) < 0
    ensures link.setMax(k) >= 2 && link.send(k) < 0 ==> FailureCode(link, k) == link.send(k)
    ensures link.setMax(k) < 2 ==> FailureCode(link, k) == -22
    ensures link.setMax(k) >= 2 && link.send(k) >= 0 ==> FailureCode(link, k) == -70
  {
  }

  predicate IsReadKind(kind: u8) {
    || kind == RX_GENERIC_SHORT_1 || kind == RX_DCS_SHORT_1 || kind == RX_GENERIC_SHORT_2
    || kind == RX_DCS_SHORT_2 || kind == RX_GENERIC_LONG || kind == RX_DCS_LONG
  }

  function PassesOf(len: nat): nat { if len <= 2 then 1 else Passes(len) }

  ghost predicate LinkUp(link: Link, txLen: nat, len: nat) {
    forall k | 0 <= k < PassesOf(len) :: !PassFails(link, txLen, k)
  }

  ghost predicate FirstFailure(link: Link, txLen: nat, len: nat, k: nat) {
    k < PassesOf(len) && PassFails(link, txLen, k) && forall i | 0 <= i < k :: !PassFails(link, txLen, i)
  }

  /** A four byte reply carries one or two parameter bytes behind its type. */
  ghost predicate DeliveredShort(reply: Bytes, len: nat, ret: int, was: Bytes, now: Bytes)
    requires |reply| == 4 && len <= |was|
  {
    && (reply[0] == RX_GENERIC_SHORT_1 || reply[0] == RX_DCS_SHORT_1 ==>
          if len >= 1 then ret == 1 && now == reply[1..2] + was[1..] else ret == EINVAL && now == was)
    && (reply[0] == RX_GENERIC_SHORT_2 || reply[0] == RX_DCS_SHORT_2 ==>
          if len >= 2 then ret == 2 && now == reply[1..3] + was[2..] else ret == EINVAL && now == was)
    && (!IsReadKind(reply[0]) ==> ret == 0 && now == was)
  }

  /** A long read whose reply begins like a short one returns that many parameter bytes, and one whose reply
      is no read response at all returns nothing. */
  predicate DeliveredOther(kind: u8, wanted: bool, ret: int) {
    && (kind in {RX_GENERIC_SHORT_1, RX_DCS_SHORT_1} ==> ret == if wanted then 1 else EINVAL)
    && (kind in {RX_GENERIC_SHORT_2, RX_DCS_SHORT_2} ==> ret == if wanted then 2 else EINVAL)
    && (!IsReadKind(kind) ==> ret == 0)
  }

  class Host {
    const rx: array<u8>

    constructor ()
      ensures Valid() && fresh(rx)
    {
      rx := new u8[BUFFER];
    }

    ghost predicate Valid() { rx.Length == BUFFER }

    /** Reads the newest cnt words, highest register first, so that bytes land in stream order. */
    method LoadWords(cnt: nat, fifo: Bytes) returns (reg: array<u8>)
      requires |fifo| == FIFO && cnt <= 4
      ensures fresh(reg) && reg.Length == FIFO && reg[..4 * cnt] == fifo[16 - 4 * cnt..]
    {
      reg := new u8[FIFO];
      for j := 0 to cnt
        invariant reg[..4 * j] == fifo[16 - 4 * cnt..16 - 4 * cnt + 4 * j]
      {
        ghost var done := reg[..4 * j];
        var word := Word(fifo, cnt - 1 - j);
        reg[4 * j], reg[4 * j + 1], reg[4 * j + 2], reg[4 * j + 3] := word[0], word[1], word[2], word[3];
        assert reg[..4 * j + 4] == done + word;
      }
      assert fifo[16 - 4 * cnt..16] == fifo[16 - 4 * cnt..];
    }

    /** Copies what is new of the registers behind offset off; the rest repeats earlier bytes. */
    method DmaRx(off: nat, rxByte: nat, pktSize: nat, fifo: Bytes) returns (n: nat)
      requires Valid() && |fifo| == FIFO && (rxByte == 4 || rxByte == 16)
      requires 0 <= Skipped(rxByte, off, pktSize) <= 13 && off + FIFO - Skipped(rxByte, off, pktSize) <= BUFFER
      modifies rx
      ensures n == FIFO - Skipped(rxByte, off, pktSize) && rx[..off] == old(rx[..off])
      ensures rxByte == 16 ==> rx[off..off + n] == fifo[FIFO - n..]
      ensures rxByte == 4 ==> rx[off..off + n][..4] == fifo[12..]
    {
      var cnt := if (rxByte + 3) / 4 > 4 then 4 else (rxByte + 3) / 4;
      var repeated := Skipped(rxByte, off, pktSize);
      var reg := LoadWords(cnt, fifo);
      n := Append(off, repeated, reg);
    }

    method Append(off: nat, repeated: nat, reg: array<u8>) returns (n: nat)
      requires Valid() && reg.Length == FIFO && repeated <= FIFO && off + FIFO - repeated <= BUFFER && reg != rx
      modifies rx
      ensures n == FIFO - repeated && rx[off..off + n] == reg[repeated..] && rx[..off] == old(rx[..off])
    {
      n := 0;
      ghost var bytes := reg[..];
      for i := repeated to FIFO
        invariant n == i - repeated && reg[..] == bytes
        invariant rx[off..off + n] == bytes[repeated..i]
        invariant rx[..off] == old(rx[..off])
      {
        ghost var done := rx[off..off + n];
        rx[off + n] := reg[i];
        n := n + 1;
        assert rx[off..off + n] == done + [bytes[i]];
      }
    }

    function Skipped(rxByte: nat, off: nat, pktSize: nat): int {
      if rxByte == 4 then 0 else Repeated(off, pktSize)
    }

    /** Bytes at the head of the registers that an earlier pass already delivered. */
    function Repeated(off: nat, pktSize: nat): int {
      if pktSize + 6 > 16 then off - (pktSize + 6 - 16) else 0
    }

    /** Where a reply would begin there is nothing but zeros. */
    ghost predicate Blank()
      requires Valid()
      reads rx
    {
      forall i | 0 <= i < 12 :: rx[i] == 0
    }

    /** The reply begins at `start` and its payload is there up to upTo; said of panels that
        answer every request with the leading part of one payload of at least len bytes. From panels that
        answer short there is nothing. */
    ghost predicate Stitched(link: Link, kind: u8, payload: Bytes, len: nat, start: nat, upTo: nat)
      requires Valid()
      reads rx
    {
      && (IsLongReply(link, kind, payload) && len <= |payload| ==>
            upTo <= len && start + 4 + upTo <= BUFFER && rx[start] == kind
            && rx[start + 4..start + 4 + upTo] == payload[..upTo])
      && (AnswersShort(link) ==> Blank())
    }

    /** The first pass; a reply shorter than the registers lands at their end. */
    method FirstPass(link: Link, ghost kind: u8, ghost payload: Bytes, ghost len: nat, pktSize: nat) returns (n: nat)
      requires Valid() && 3 <= pktSize <= 10 && pktSize <= len
      modifies rx
      ensures n == FIFO && Stitched(link, kind, payload, len, 10 - pktSize, pktSize)
    {
      ghost var r := link.reply(pktSize);
      var fifo := Fifo(link.reply(pktSize));
      n := DmaRx(0, 16, pktSize, fifo);
      assert rx[..16] == rx[0..16] == fifo;
      if IsLongReply(link, kind, payload) && len <= |payload| {
        assert fifo[10 - pktSize..] == r;
        TailHeld(rx[..16], pktSize, r);
        assert rx[14 - pktSize..14] == rx[..16][14 - pktSize..14];
      }
      if AnswersShort(link) {
        BlankFrom(link.reply(pktSize));
      }
    }

    static lemma TailHeld(fifo: Bytes, n: nat, reply: Bytes)
      requires |fifo| == 16 && n <= 10 && fifo[10 - n..] == reply
      ensures fifo[10 - n] == reply[0] && fifo[14 - n..14] == reply[4..4 + n]
    {
      assert fifo[14 - n..14] == fifo[10 - n..][4..4 + n];
    }

    lemma BlankFrom(reply: Bytes)
      requires Valid() && rx[..16] == Fifo(reply) && |reply| <= 4
      ensures Blank()
    {
      assert Fifo(reply)[..12] == seq(12, _ => 0);
      forall i | 0 <= i < 12 ensures rx[i] == 0 {
        assert rx[i] == rx[..16][i] == Fifo(reply)[..12][i];
      }
    }

    /** One later pass: the new tail of a longer reply lands right behind the old payload. */
    method LaterPass(link: Link, ghost kind: u8, ghost payload: Bytes, ghost len: nat, off: nat, pktSize: nat)
      returns (n: nat)
      requires Valid() && 14 <= off && off - 3 <= pktSize <= off + 10 && pktSize + 6 <= BUFFER && pktSize <= len
      requires Stitched(link, kind, payload, len, 0, off - 4)
      modifies rx
      ensures n == pktSize + 6 - off && Stitched(link, kind, payload, len, 0, pktSize)
    {
      ghost var before, r := rx[..off], link.reply(pktSize);
      var fifo := Fifo(link.reply(pktSize));
      n := DmaRx(off, 16, pktSize, fifo);
      forall i | 0 <= i < off ensures rx[i] == old(rx[i]) {
        assert rx[i] == rx[..off][i] == before[i];
      }
      if IsLongReply(link, kind, payload) && len <= |payload| {
        assert fifo == r[pktSize - 10..];
        assert rx[off..off + n] == r[off..];
        assert rx[4..4 + pktSize] == before[4..] + rx[off..off + n][..pktSize + 4 - off];
        assert payload[..pktSize] == payload[..off - 4] + r[off..4 + pktSize] by {
          assert r[4..4 + pktSize] == payload[..pktSize];
          assert r[off..4 + pktSize] == r[4..4 + pktSize][off - 4..];
        }
        assert rx[0] == before[0];
      }
    }

    /** The counters before pass k of a read that still needs it. */
    static ghost predicate Progress(len: nat, k: nat, off: int, rlen: int, dataByte: int, pktSize: int) {
      && pktSize == Requested(len, k) && rlen > 0
      && (k == 0 ==> rlen == len && dataByte == 10 && off == 0)
      && (k > 0 ==> off == 14 * k && rlen == len + 4 - off && dataByte == 14)
    }

    /** The counters move on to the next pass, and the last pass is the one that is counted. */
    static lemma Advance(len: nat, k: nat, off: int, rlen: int, dataByte: int, pktSize: int)
      requires len >= 3 && Progress(len, k, off, rlen, dataByte, pktSize)
      ensures rlen <= dataByte <==> k + 1 == Passes(len)
      ensures k < Passes(len)
      ensures rlen <= dataByte ==> pktSize == len
      ensures rlen > dataByte ==>
        Progress(len, k + 1, off + (if k == 0 then FIFO else pktSize + 6 - off) - 2, rlen - dataByte, 14,
            pktSize + Min(rlen - dataByte, 14))
    {
    }

    /** All passes of a long read. Returns 0 and the start of the reply, or the failing pass's code. */
    method ReadPasses(len: nat, txLen: nat, link: Link, ghost kind: u8, ghost payload: Bytes)
      returns (ret: int, start: nat, ghost k: nat)
      requires Valid() && 3 <= len && len + 6 <= BUFFER
      modifies rx
      ensures forall i | 0 <= i < k :: !PassFails(link, txLen, i)
      ensures ret == 0 ==> k == Passes(len) && start == (if len < 10 then 10 - len else 0)
      ensures ret == 0 ==> Stitched(link, kind, payload, len, start, len)
      ensures ret != 0 ==> k < Passes(len) && PassFails(link, txLen, k) && ret == FailureCode(link, k)
    {
      var rlen: int := len;
      var dataByte, off: nat, pass := 10, 0, 0;
      var pktSize: nat := if rlen < dataByte then rlen else dataByte;
      var end := false;
      k := 0;
      while !end
        invariant pass == k <= Passes(len) && (end <==> k == Passes(len))
        invariant forall i | 0 <= i < k :: !PassFails(link, txLen, i)
        invariant !end ==> Progress(len, k, off, rlen, dataByte, pktSize)
        invariant !end && k > 0 ==> Stitched(link, kind, payload, len, 0, off - 4)
        invariant end ==> pktSize == len && (len < 10 ==> rlen == len)
        invariant end ==> Stitched(link, kind, payload, len, if len < 10 then 10 - len else 0, len)
        decreases Passes(len) - k
      {
        Advance(len, k, off, rlen, dataByte, pktSize);
        if link.setMax(pass) < 2 {
          return EINVAL, 0, k;
        }
        if link.send(pass) < 0 {
          return link.send(pass), 0, k;
        } else if link.send(pass) < txLen {
          return ECOMM, 0, k;
        }
        var dlen;
        if pass == 0 {
          dlen := FirstPass(link, kind, payload, len, pktSize);
        } else {
          dlen := LaterPass(link, kind, payload, len, off, pktSize);
        }
        k, pass := k + 1, pass + 1;
        if rlen <= dataByte {
          end := true;
        } else {
          rlen := rlen - dataByte;
          off := off + dlen - 2;
          dataByte := 14;
          pktSize := pktSize + if rlen < dataByte then rlen else dataByte;
        }
      }
      ret, start := 0, if pktSize < 10 then 10 - rlen else 0;
    }

    /** Hands the reply that begins at `start` to the caller, by its packet type. */
    method Deliver(start: nat, len: nat, dst: array?<u8>) returns (ret: int)
      requires Valid() && start + 4 + len <= BUFFER
      requires dst != null ==> dst != rx && len <= dst.Length
      modifies if dst == null then {} else {dst}
      ensures rx[start] == RX_GENERIC_LONG || rx[start] == RX_DCS_LONG ==> ret == len
      ensures dst != null && (rx[start] == RX_GENERIC_LONG || rx[start] == RX_DCS_LONG) ==>
        dst[..] == rx[start + 4..start + 4 + len] + old(dst[len..])
      ensures rx[start] == RX_GENERIC_SHORT_1 || rx[start] == RX_DCS_SHORT_1 ==>
        if dst != null && len >= 1 then
          ret == 1 && dst[..] == rx[start + 1..start + 2] + old(dst[1..])
        else ret == EINVAL
      ensures rx[start] == RX_GENERIC_SHORT_2 || rx[start] == RX_DCS_SHORT_2 ==>
        if dst != null && len >= 2 then
          ret == 2 && dst[..] == rx[start + 1..start + 3] + old(dst[2..])
        else ret == EINVAL
      ensures !IsReadKind(rx[start]) ==> ret == 0
      ensures dst != null && ret <= 0 ==> dst[..] == old(dst[..])
    {
      var cmd := rx[start];
      if cmd == RX_GENERIC_SHORT_1 || cmd == RX_DCS_SHORT_1 {
        if dst == null || len < 1 {
          return EINVAL;
        }
        dst[0] := rx[start + 1];
        return 1;
      }
      if cmd == RX_GENERIC_SHORT_2 || cmd == RX_DCS_SHORT_2 {
        if dst == null || len < 2 {
          return EINVAL;
        }
        dst[0], dst[1] := rx[start + 1], rx[start + 2];
        return 2;
      }
      if cmd == RX_GENERIC_LONG || cmd == RX_DCS_LONG {
        if dst != null {
          CopyOut(start + 4, len, dst);
        }
        return len;
      }
      return 0;
    }

    method CopyOut(from: nat, len: nat, dst: array<u8>)
      requires Valid() && from + len <= BUFFER && len <= dst.Length && dst != rx
      modifies dst
      ensures dst[..] == rx[from..from + len] + old(dst[len..])
    {
      for i := 0 to len
        invariant dst[..i] == rx[from..from + i] && dst[len..] == old(dst[len..])
      {
        ghost var done := dst[..i];
        dst[i] := rx[from + i];
        assert dst[..i + 1] == done + [rx[from + i]];
      }
    }

    /** A panel read of at most len bytes. */
    method CmdRx(len: nat, txLen: nat, link: Link, dst: array?<u8>, ghost kind: u8, ghost payload: Bytes)
      returns (ret: int)
      requires Valid() && len + 6 <= BUFFER && (dst != null ==> dst != rx && len <= dst.Length)
      modifies rx, if dst == null then {} else {dst}
      ensures (LinkUp(link, txLen, len) && len > 2 && IsLongReply(link, kind, payload) && len <= |payload|
               && kind in {RX_GENERIC_LONG, RX_DCS_LONG}) ==>
        ret == len && (dst != null ==> dst[..] == payload[..len] + old(dst[len..]))
      ensures (LinkUp(link, txLen, len) && len > 2 && IsLongReply(link, kind, payload) && len <= |payload|) ==>
        DeliveredOther(kind, dst != null, ret)
        && (dst != null && !IsReadKind(kind) ==> dst[..] == old(dst[..]))
      ensures LinkUp(link, txLen, len) && len > 2 && AnswersShort(link) ==>
        ret == 0 && (dst != null ==> dst[..] == old(dst[..]))
      ensures LinkUp(link, txLen, len) && len <= 2 && |link.reply(len)| == 4 && dst != null ==>
        DeliveredShort(link.reply(len), len, ret, old(dst[..]), dst[..])
      ensures !LinkUp(link, txLen, len) ==> exists k :: FirstFailure(link, txLen, len, k) && ret == FailureCode(link, k)
      ensures !LinkUp(link, txLen, len) && dst != null ==> dst[..] == old(dst[..])
    {
      var start := 0;
      if len <= 2 {
        if link.setMax(0) < 2 {
          assert FirstFailure(link, txLen, len, 0);
          return EINVAL;
        }
        if link.send(0) < 0 {
          assert FirstFailure(link, txLen, len, 0);
          return link.send(0);
        } else if link.send(0) < txLen {
          assert FirstFailure(link, txLen, len, 0);
          return ECOMM;
        }
        var n := DmaRx(0, 4, len, Fifo(link.reply(len)));
        if |link.reply(len)| == 4 {
          assert rx[0..16][..4] == link.reply(len);
          ghost var r := link.reply(len);
          forall i | 0 <= i < 4 ensures rx[i] == r[i] {
            assert rx[0..16][..4][i] == r[i];
          }
          assert rx[1..2] == r[1..2] && rx[1..3] == r[1..3];
        }
      } else {
        ghost var k;
        ret, start, k := ReadPasses(len, txLen, link, kind, payload);
        if ret != 0 {
          assert FirstFailure(link, txLen, len, k);
          return;
        }
      }
      ret := Deliver(start, len, dst);
    }
  }
}
