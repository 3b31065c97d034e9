/**
 * The 26-bit Wiegand credential (HID H10301): an even parity bit, an 8-bit facility
 * code, a 16-bit card number and an odd parity bit, sent most significant bit first.
 *
 * Decoding works on the 32-bit frame word with the driver's masks. The receiver is the
 * per-device accumulator that the D0/D1 falling-edge interrupts and the bit-period
 * timer update; the GPIO reads are abstracted to "edge pending" and "line low" inputs.
 */
module Wiegand {
  import opened Common

  const FRAME_SIZE: nat := 26
  const MAX_BIT_PERIOD_MS: nat := 20

  // ---------------------------------------------------------------------------
  // Decoding a frame word.

  /** weigand_get_facility: bits 17..24. */
  function Facility(frame: bv32): (f: bv32)
    ensures f < 256
  {
    (frame & 0x1FE_0000) >> 17
  }

  /** weigand_get_card: bits 1..16. */
  function Card(frame: bv32): (c: bv32)
    ensures c < 0x1_0000
  {
    (frame & 0x1_FFFE) >> 1
  }

  /** The exclusive or of the low n bits of x. */
  function ParityOfLow(x: bv32, n: nat): (r: bv32)
    ensures r <= 1
  {
    if n == 0 then 0 else (x & 1) ^ ParityOfLow(x >> 1, n - 1)
  }

  /** __builtin_parity: 1 when an odd number of the 32 bits are set, else 0. */
  function Parity(x: bv32): (r: bv32)
    ensures r <= 1
  {
    ParityOfLow(x, 32)
  }

  /**
   * weigand_is_parity_ok: bit 25 makes bits 13..25 even and bit 0 makes bits 0..12 odd.
   */
  predicate ParityOk(frame: bv32)
  {
    && Parity(frame & 0x1FF_E000) == (frame >> 25) & 0x1
    && Parity(frame & 0x1FFE) ^ 1 == frame & 0x1
  }

  /** The facility code and card number in their frame positions, parity bits clear. */
  function Data(facility: bv32, card: bv32): bv32
  {
    (facility << 17) | (card << 1)
  }

  /** A frame from its data bits and its two parity bits. */
  function Assemble(data: bv32, even: bv32, odd: bv32): bv32
  {
    (even << 25) | data | odd
  }

  /** The frame a reader sends for a facility code and card number. */
  function Encode(facility: bv32, card: bv32): bv32
  {
    var data := Data(facility, card);
    Assemble(data, Parity(data & 0x1FF_E000), Parity(data & 0x1FFE) ^ 1)
  }

  lemma DataBits(facility: bv32, card: bv32)
    requires facility < 256 && card < 0x1_0000
    ensures Data(facility, card) & 0xFE00_0001 == 0
  {
  }

  /** The parity bits land in bits 25 and 0 and leave the data bits as they are. */
  lemma AssembleBits(data: bv32, even: bv32, odd: bv32)
    requires even <= 1 && odd <= 1 && data & 0xFE00_0001 == 0
    ensures Assemble(data, even, odd) & 0x1FF_E000 == data & 0x1FF_E000
    ensures Assemble(data, even, odd) & 0x1FFE == data & 0x1FFE
    ensures (Assemble(data, even, odd) >> 25) & 0x1 == even
    ensures Assemble(data, even, odd) & 0x1 == odd
  {
  }

  /** A frame's parity checks exactly when its two parity bits are the ones its data calls for. */
  lemma ParityOkAssemble(data: bv32, even: bv32, odd: bv32)
    requires even <= 1 && odd <= 1 && data & 0xFE00_0001 == 0
    ensures ParityOk(Assemble(data, even, odd)) <==>
      even == Parity(data & 0x1FF_E000) && odd == Parity(data & 0x1FFE) ^ 1
  {
    AssembleBits(data, even, odd);
  }

  /** The decoders read back the facility code and card number whatever the parity bits. */
  lemma FieldsOfAssemble(facility: bv32, card: bv32, even: bv32, odd: bv32)
    requires facility < 256 && card < 0x1_0000 && even <= 1 && odd <= 1
    ensures Facility(Assemble(Data(facility, card), even, odd)) == facility
    ensures Card(Assemble(Data(facility, card), even, odd)) == card
  {
  }

  /** Decoding an encoded frame recovers both fields, and its parity checks. */
  lemma DecodeEncode(facility: bv32, card: bv32)
    requires facility < 256 && card < 0x1_0000
    ensures Facility(Encode(facility, card)) == facility
    ensures Card(Encode(facility, card)) == card
    ensures ParityOk(Encode(facility, card))
  {
    var data := Data(facility, card);
    var even, odd := Parity(data & 0x1FF_E000), Parity(data & 0x1FFE) ^ 1;
    assert Encode(facility, card) == Assemble(data, even, odd);
    assert ParityOk(Encode(facility, card)) by {
      DataBits(facility, card);
      ParityOkAssemble(data, even, odd);
    }
    FieldsOfAssemble(facility, card, even, odd);
  }

  /** A 26-bit frame splits into its fields and its two parity bits. */
  lemma SplitFrame(frame: bv32)
    requires frame < 0x400_0000
    ensures Data(Facility(frame), Card(frame)) == frame & 0x1FF_FFFE
    ensures Assemble(frame & 0x1FF_FFFE, (frame >> 25) & 1, frame & 1) == frame
    ensures (frame >> 25) & 1 <= 1 && frame & 1 <= 1 && (frame & 0x1FF_FFFE) & 0xFE00_0001 == 0
    ensures (frame & 0x1FF_FFFE) & 0x1FF_E000 == frame & 0x1FF_E000
    ensures (frame & 0x1FF_FFFE) & 0x1FFE == frame & 0x1FFE
  {
  }

  /** Every 26-bit frame whose parity checks is the encoding of its own fields. */
  lemma EncodeDecode(frame: bv32)
    requires frame < 0x400_0000 && ParityOk(frame)
    ensures Encode(Facility(frame), Card(frame)) == frame
  {
    SplitFrame(frame);
  }

  /** reader_get_request_from_buffer: the user id is (facility << 16) | card. */
  function CredentialId(frame: bv32): (id: bv32)
    ensures id < 0x100_0000
    ensures id >> 16 == Facility(frame) && id & 0xFFFF == Card(frame)
  {
    (Facility(frame) << 16) | Card(frame)
  }

  // ---------------------------------------------------------------------------
  // The bit accumulator, on the frame word read as a number.

  function Pow2(n: nat): (p: nat)
    ensures p >= 1
  {
    if n == 0 then 1 else 2 * Pow2(n - 1)
  }

  /** Bit p of v. */
  function BitOf(v: nat, p: nat): bool
  {
    (v / Pow2(p)) % 2 == 1
  }

  /** v | (1 << p). */
  function SetBit(v: nat, p: nat): nat
  {
    if BitOf(v, p) then v else v + Pow2(p)
  }

  /** v & ~(1 << p). */
  function ClearBit(v: nat, p: nat): nat
  {
    if BitOf(v, p) then v - Pow2(p) else v
  }

  /** The bits received so far read as a binary number, the first one most significant. */
  function BinaryValue(bits: seq<bool>): (v: nat)
    ensures v < Pow2(|bits|)
  {
    if bits == [] then 0
    else 2 * BinaryValue(bits[..|bits| - 1]) + (if bits[|bits| - 1] then 1 else 0)
  }

  /**
   * With bits below position p + 1 clear, setting or clearing bit p appends one bit to
   * the binary number held above p.
   */
  lemma AppendBit(v: nat, bits: seq<bool>, p: nat, b: bool)
    requires Accumulates(v, bits, p + 1)
    ensures Accumulates(if b then SetBit(v, p) else ClearBit(v, p), bits + [b], p)
  {
    var x := BinaryValue(bits);
    var P := Pow2(p);
    assert BinaryValue(bits + [b]) == 2 * x + (if b then 1 else 0) by {
      assert (bits + [b])[..|bits|] == bits;
    }
    assert v == x * (2 * P);
    Rearrange(x, P);
    ModOfMultiplePlus(0, 2 * x, P);
    assert v / P == 2 * x;
    assert !BitOf(v, p);
  }

  /** The products AppendBit moves between. */
  lemma Rearrange(x: int, P: int)
    ensures x * (2 * P) == 0 + P * (2 * x)
    ensures x * (2 * P) + P == (2 * x + 1) * P
    ensures x * (2 * P) == (2 * x + 0) * P
  {
  }

  /** The frame word holds the received bits just above position p, and zeros below. */
  ghost predicate Accumulates(value: nat, bits: seq<bool>, p: nat)
  {
    value == BinaryValue(bits) * Pow2(p)
  }

  /** One item of the stream buffer: the device id and the received frame. */
  datatype BufItem = BufItem(source: bv8, frame: nat)

  /** What an interrupt makes of the pin states: a 1 bit, a 0 bit or nothing. */
  function EdgeBit(d1Pending: bool, d0Pending: bool, d1Low: bool, d0Low: bool): (r: Option<bool>)
    ensures r == Some(true) <==> d1Pending && d1Low
    ensures r == Some(false) <==> !d1Pending && d0Pending && d0Low
  {
    if d1Pending then (if d1Low then Some(true) else None)
    else if d0Pending then (if d0Low then Some(false) else None)
    else None
  }

  /** One Wiegand interface: the device[] entry of the driver. */
  class WiegandDevice {
    var value: nat              // frame_buffer.value
    var ptr: nat                // frame_buffer_ptr: bits still to come
    var id: bv8
    var port: nat
    var pinD0: nat
    var pinD1: nat
    var timerRunning: bool      // the bit-period timer
    var queue: seq<BufItem>     // the consumer stream buffer
    const queueCap: nat
    ghost var received: seq<bool>

    /** The bits of the frame in progress sit above position ptr of the frame word. */
    ghost predicate Valid()
      reads this
    {
      && 1 <= ptr <= FRAME_SIZE
      && |received| == FRAME_SIZE - ptr
      && Accumulates(value, received, ptr)
    }

    /** weigand_init (device fields only): empty frame, 26 bits to come. */
    constructor (queueCap: nat, id: bv8, port: nat, pinD0: nat, pinD1: nat)
      requires port == 2 || port == 3
      ensures Valid() && received == [] && value == 0 && ptr == FRAME_SIZE
      ensures this.id == id && this.port == port && this.pinD0 == pinD0 && this.pinD1 == pinD1
      ensures queue == [] && this.queueCap == queueCap && !timerRunning
    {
      this.queueCap := queueCap;
      this.id := id;
      this.port := port;
      this.pinD0 := pinD0;
      this.pinD1 := pinD1;
      value := 0;
      ptr := FRAME_SIZE;
      timerRunning := false;
      queue := [];
      received := [];
      new;
      EmptyFrame(ptr);
    }

    /** weigand_frame_timeout: the bit period expired, so the partial frame is dropped. */
    method FrameTimeout()
      modifies this
      ensures Valid() && received == [] && value == 0 && ptr == FRAME_SIZE
      ensures queue == old(queue) && !timerRunning
      ensures id == old(id) && port == old(port) && pinD0 == old(pinD0) && pinD1 == old(pinD1)
    {
      value := 0;
      ptr := FRAME_SIZE;
      timerRunning := false;
      received := [];
      EmptyFrame(ptr);
    }

    /** One received bit: the pointer moves down and the bit is written at its new position. */
    method ShiftIn(b: bool)
      requires Valid()
      modifies this
      ensures ptr == old(ptr) - 1 && received == old(received) + [b]
      ensures |received| == FRAME_SIZE - ptr && Accumulates(value, received, ptr)
      ensures timerRunning
      ensures queue == old(queue) && id == old(id) && port == old(port)
      ensures pinD0 == old(pinD0) && pinD1 == old(pinD1)
    {
      timerRunning := true;
      ptr := ptr - 1;
      AppendBit(value, received, ptr, b);
      value := if b then SetBit(value, ptr) else ClearBit(value, ptr);
      received := received + [b];
    }

    /**
     * weigand_int_handler: a falling edge on D1 appends a 1 bit, on D0 a 0 bit (D1 wins
     * when both are pending; an edge whose line reads high again appends nothing). The
     * 26th bit completes the frame: it is queued unless the buffer is full, and the
     * accumulator starts over.
     */
    method IntHandler(d1Pending: bool, d0Pending: bool, d1Low: bool, d0Low: bool)
      requires Valid()
      modifies this
      ensures Valid()
      ensures id == old(id) && port == old(port) && pinD0 == old(pinD0) && pinD1 == old(pinD1)
      ensures var bit := EdgeBit(d1Pending, d0Pending, d1Low, d0Low);
        && (bit.None? ==> received == old(received) && queue == old(queue) && timerRunning == old(timerRunning))
        && (bit.Some? && |old(received)| + 1 < FRAME_SIZE ==>
              received == old(received) + [bit.value] && queue == old(queue) && timerRunning)
        && (bit.Some? && |old(received)| + 1 == FRAME_SIZE ==>
              && received == [] && !timerRunning
              && queue == old(queue) + (if |old(queue)| < queueCap
                   then [BufItem(id, FrameWord(old(received) + [bit.value]))] else []))
    {
      if d1Pending {
        if d1Low {
          ShiftIn(true);
        }
      } else if d0Pending {
        if d0Low {
          ShiftIn(false);
        }
      } else {
        return;
      }
      if ptr == 0 {
        Deliver();
      }
    }

    /** The whole frame is in: stop the timer, queue the frame if there is room, start over. */
    method Deliver()
      requires ptr == 0 && |received| == FRAME_SIZE && Accumulates(value, received, 0)
      modifies this
      ensures Valid() && received == [] && !timerRunning
      ensures queue == old(queue) + (if |old(queue)| < queueCap
        then [BufItem(id, FrameWord(old(received)))] else [])
      ensures id == old(id) && port == old(port) && pinD0 == old(pinD0) && pinD1 == old(pinD1)
    {
      FrameComplete(received, value);
      timerRunning := false;
      if |queue| < queueCap {
        queue := queue + [BufItem(id, value)];
      }
      ptr := FRAME_SIZE;
      value := 0;
      received := [];
      EmptyFrame(ptr);
    }
  }

  /** A complete frame as the word it is queued as: its 26 bits, the first one at bit 25. */
  function FrameWord(bits: seq<bool>): nat
    requires |bits| == FRAME_SIZE
  {
    BinaryValue(bits)
  }

  /** A queued frame fits the 26 bits of the frame word. */
  lemma FrameWordBound(bits: seq<bool>)
    requires |bits| == FRAME_SIZE
    ensures FrameWord(bits) < 0x400_0000
  {
    Pow2Is26();
  }

  /** Bit i of a complete frame word is the bit received 26 - i bits from the end. */
  lemma FrameWordBit(bits: seq<bool>, i: nat)
    requires |bits| == FRAME_SIZE && i < FRAME_SIZE
    ensures BitOf(FrameWord(bits), i) == bits[FRAME_SIZE - 1 - i]
  {
    BinaryValueBit(bits, i);
  }

  /** Bit i of the binary number is the i-th bit from the last one received. */
  lemma {:induction false} BinaryValueBit(bits: seq<bool>, i: nat)
    requires i < |bits|
    ensures BitOf(BinaryValue(bits), i) == bits[|bits| - 1 - i]
  {
    var pre := bits[..|bits| - 1];
    var b := if bits[|bits| - 1] then 1 else 0;
    assert BinaryValue(bits) == 2 * BinaryValue(pre) + b;
    ShiftedBit(BinaryValue(pre), b, i);
    if i > 0 {
      BinaryValueBit(pre, i - 1);
      assert pre[|pre| - 1 - (i - 1)] == bits[|bits| - 1 - i];
    }
  }

  /** Appending bit b below x: bit 0 is b and bit i + 1 is bit i of x. */
  lemma ShiftedBit(x: nat, b: nat, i: nat)
    requires b < 2
    ensures i == 0 ==> BitOf(2 * x + b, i) == (b == 1)
    ensures i > 0 ==> BitOf(2 * x + b, i) == BitOf(x, i - 1)
  {
    if i == 0 {
      ModOfMultiplePlus(b, x, 2);
    } else {
      var P := Pow2(i - 1);
      assert 2 * x + b == 2 * (x % P) + b + 2 * P * (x / P);
      ModOfMultiplePlus(2 * (x % P) + b, x / P, 2 * P);
    }
  }

  /** The accumulator holds the whole frame once the pointer reaches 0. */
  lemma FrameComplete(bits: seq<bool>, value: nat)
    requires |bits| == FRAME_SIZE && Accumulates(value, bits, 0)
    ensures value == FrameWord(bits)
  {
  }

  /** The cleared accumulator is the empty frame. */
  lemma EmptyFrame(n: nat)
    ensures Accumulates(0, [], n)
  {
  }

  lemma Pow2Is26()
    ensures Pow2(FRAME_SIZE) == 0x400_0000
  {
    assert Pow2(10) == 1024;
    assert Pow2(20) == 1024 * 1024 by { Pow2Add(10, 10); }
    assert Pow2(26) == Pow2(20) * 64 by { Pow2Add(20, 6); }
  }

  lemma {:induction false} Pow2Add(m: nat, n: nat)
    ensures Pow2(m + n) == Pow2(m) * Pow2(n)
  {
    if n > 0 {
      Pow2Add(m, n - 1);
      assert Pow2(m + n) == 2 * Pow2(m + n - 1);
    }
  }
}
