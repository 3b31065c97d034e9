/**
 * The pure parts of the terminal's CAN driver: the bit-timing search (chapter 8,
 * "Bit Timing Requirements", of the Bosch CAN Specification 2.0), the packing of
 * the bus-timing register, the data-length clamp before a transmit and the
 * extended-frame flag added to receive filters. The ROM driver calls themselves
 * (init, transmit, filter configuration) are represented by the values handed to them.
 */
module CanDriver {
  import opened Common
  import opened AcsProtocol

  // Extended-frame flag in a message object's mode_id (bit 29, from the on-chip driver's header).
  const MSGOBJ_EXT: bv32 := 0x2000_0000
  // Largest data length of a classic CAN frame.
  const DLC_MAX: nat := 8

  // Hardware limit on time segment 2.
  const TSEG2_MIN: nat := 1
  const TSEG2_MAX: nat := 8

  /** A frame handed to the ROM transmit routine. */
  datatype TxFrame = TxFrame(msgObj: nat, modeId: bv32, mask: bv32, dlc: nat, data: seq<Byte>)

  /** A receive filter handed to the ROM: a frame matches when (id & mask) == (modeId & mask). */
  datatype RxFilter = RxFilter(msgObj: nat, modeId: bv32, mask: bv32)

  // ---------------------------------------------------------------------------
  // Bus-timing register packing (the CCAN_BCR_* macros).

  function BcrQuanta(x: bv32): bv32 { x & 0x3F }
  function BcrSjw(x: bv32): bv32 { (x & 0x3) << 6 }
  function BcrTseg1(x: bv32): bv32 { (x & 0x0F) << 8 }
  function BcrTseg2(x: bv32): bv32 { (x & 0x07) << 12 }

  /** The register value written as can_api_timing_cfg[1]. */
  function Bcr(quantaMinusOne: bv32, sjw: bv32, tseg1: bv32, tseg2: bv32): (r: bv32)
    ensures r < 0x8000
  {
    BcrQuanta(quantaMinusOne) | BcrSjw(sjw) | BcrTseg1(tseg1) | BcrTseg2(tseg2)
  }

  /** The register fields occupy bits 0-5, 6-7, 8-11 and 12-14 and can be read back unchanged. */
  lemma BcrFieldsReadBack(q: bv32, sjw: bv32, tseg1: bv32, tseg2: bv32)
    requires q < 64 && sjw < 4 && tseg1 < 16 && tseg2 < 8
    ensures Bcr(q, sjw, tseg1, tseg2) & 0x3F == q
    ensures (Bcr(q, sjw, tseg1, tseg2) >> 6) & 0x3 == sjw
    ensures (Bcr(q, sjw, tseg1, tseg2) >> 8) & 0xF == tseg1
    ensures (Bcr(q, sjw, tseg1, tseg2) >> 12) & 0x7 == tseg2
  {
  }

  /** The bus-timing register for a quanta count and a (tseg1, tseg2, sjw) split. */
  function TimingRegister(quanta: nat, split: (nat, nat, nat)): (r: bv32)
    requires 1 <= quanta <= 64 && split.0 < 0x1_0000_0000 && split.1 < 16 && split.2 < 16
    ensures r & 0x3F == (quanta - 1) as bv32
    ensures (r >> 6) & 0x3 == (split.2 as bv32) & 0x3
    ensures (r >> 8) & 0xF == (split.0 as bv32) & 0xF
    ensures (r >> 12) & 0x7 == (split.1 as bv32) & 0x7
  {
    var q, t1, t2, j := (quanta - 1) as bv32, split.0 as bv32, split.1 as bv32, split.2 as bv32;
    BcrFieldsReadBack(q, j & 0x3, t1 & 0xF, t2 & 0x7);
    Bcr(q, j, t1, t2)
  }

  // ---------------------------------------------------------------------------
  // The timing search.

  /** The loop ranges: prescaler divider 0..15, quanta 1..32, segments 3..17. */
  predicate InSearchBox(div: nat, quanta: nat, segs: nat)
  {
    div <= 15 && 1 <= quanta <= 32 && 3 <= segs <= 17
  }

  /** A combination produces exactly clkPerBit main-clock cycles per bit. */
  predicate Matches(clkPerBit: nat, div: nat, quanta: nat, segs: nat)
  {
    clkPerBit == BitCycles(div, quanta, segs)
  }

  /** Main-clock cycles in one bit: segs quanta of quanta * (div + 1) cycles each. */
  function BitCycles(div: nat, quanta: nat, segs: nat): nat
  {
    segs * quanta * (div + 1)
  }

  /** (d, q, s) is visited before (div, quanta, segs) by the nested loops. */
  predicate VisitedBefore(d: nat, q: nat, s: nat, div: nat, quanta: nat, segs: nat)
  {
    d < div || (d == div && q < quanta) || (d == div && q == quanta && s < segs)
  }

  /** (div, quanta, segs) is the first match in div, quanta, segs loop order. */
  ghost predicate FirstMatch(clkPerBit: nat, div: nat, quanta: nat, segs: nat)
  {
    && InSearchBox(div, quanta, segs)
    && Matches(clkPerBit, div, quanta, segs)
    && forall d: nat, q: nat, s: nat :: InSearchBox(d, q, s) && VisitedBefore(d, q, s, div, quanta, segs) ==>
         !Matches(clkPerBit, d, q, s)
  }

  ghost predicate NoMatch(clkPerBit: nat)
  {
    forall d: nat, q: nat, s: nat :: InSearchBox(d, q, s) ==> !Matches(clkPerBit, d, q, s)
  }

  /** Splits segs - 3 time quanta into two time segments and a jump width (50% sample point). */
  function SegmentsHalf(segs: nat): (r: (nat, nat, nat))
    requires 3 <= segs <= 17
    ensures var (tseg1, tseg2, sjw) := r;
      && tseg1 + tseg2 == segs - 3
      && (tseg2 == tseg1 || tseg2 == tseg1 + 1)
      && sjw == (if tseg1 > 3 then 3 else tseg1)
  {
    var rest := segs - 3;
    var tseg1 := rest / 2;
    (tseg1, rest - tseg1, if tseg1 > 3 then 3 else tseg1)
  }

  /**
   * _timing_calculate: writes the prescaler and the packed bus-timing register of the
   * first matching combination (50% sample point); writes nothing when none matches.
   */
  method TimingCalculate(mainClockRate: nat, baudRate: nat, cfg: array<bv32>)
    requires 0 < baudRate && cfg.Length >= 2
    modifies cfg
    ensures NoMatch(mainClockRate / baudRate) ==> cfg[..] == old(cfg[..])
    ensures !NoMatch(mainClockRate / baudRate) ==>
      exists div: nat, quanta: nat, segs: nat ::
        && FirstMatch(mainClockRate / baudRate, div, quanta, segs)
        && cfg[..] == old(cfg[..])[0 := div as bv32][1 := TimingRegister(quanta, SegmentsHalf(segs))]
  {
    var clkPerBit := mainClockRate / baudRate;
    var div := 0;
    while div <= 15
      invariant div <= 16
      invariant cfg[..] == old(cfg[..])
      invariant forall d: nat, q: nat, s: nat :: InSearchBox(d, q, s) && d < div ==> !Matches(clkPerBit, d, q, s)
    {
      var quanta := 1;
      while quanta <= 32
        invariant 1 <= quanta <= 33
        invariant cfg[..] == old(cfg[..])
        invariant forall d: nat, q: nat, s: nat :: InSearchBox(d, q, s) && VisitedBefore(d, q, s, div, quanta, 3) ==>
          !Matches(clkPerBit, d, q, s)
      {
        var segs := 3;
        while segs <= 17
          invariant 3 <= segs <= 18
          invariant cfg[..] == old(cfg[..])
          invariant forall d: nat, q: nat, s: nat :: InSearchBox(d, q, s) && VisitedBefore(d, q, s, div, quanta, segs) ==>
            !Matches(clkPerBit, d, q, s)
        {
          if clkPerBit == BitCycles(div, quanta, segs) {
            cfg[0] := div as bv32;
            cfg[1] := TimingRegister(quanta, SegmentsHalf(segs));
            FirstMatchExists(clkPerBit, div, quanta, segs);
            assert FirstMatch(clkPerBit, div, quanta, segs)
              && cfg[..] == old(cfg[..])[0 := div as bv32][1 := TimingRegister(quanta, SegmentsHalf(segs))];
            return;
          }
          segs := segs + 1;
        }
        quanta := quanta + 1;
      }
      div := div + 1;
    }
  }

  /** A first match rules out NoMatch. */
  lemma FirstMatchExists(clkPerBit: nat, div: nat, quanta: nat, segs: nat)
    requires FirstMatch(clkPerBit, div, quanta, segs)
    ensures !NoMatch(clkPerBit)
  {
  }

  /** The nominal sample point in percent recommended for a bit rate. */
  function NominalSamplePoint(baudRate: nat): (spt: nat)
    ensures baudRate > 800000 ==> spt == 75
    ensures 500000 < baudRate <= 800000 ==> spt == 80
    ensures baudRate <= 500000 ==> spt == 87
  {
    if baudRate > 800000 then 75 else if baudRate > 500000 then 80 else 87
  }

  /**
   * Splits segs - 3 quanta around a nominal sample point: tseg2 is clamped to
   * [TSEG2_MIN, TSEG2_MAX] and tseg1 takes the rest in 32-bit unsigned arithmetic,
   * so that for segs == 3 it wraps around to 0xFFFF_FFFF.
   */
  function SegmentsAtSamplePoint(segs: nat, spt: nat): (r: (nat, nat, nat))
    requires 3 <= segs <= 17 && spt < 100
    ensures var (tseg1, tseg2, sjw) := r;
      && TSEG2_MIN <= tseg2 <= TSEG2_MAX
      && tseg1 < 0x1_0000_0000
      && (segs > 3 ==> tseg1 + tseg2 == segs - 3)
      && (segs == 3 ==> tseg1 == 0xFFFF_FFFF)
      && sjw == (if tseg1 > 3 then 3 else tseg1)
  {
    var rest := segs - 3;
    var raw := rest - (spt * rest) / 100;
    var tseg2 := if raw > TSEG2_MIN then (if raw < TSEG2_MAX then raw else TSEG2_MAX) else TSEG2_MIN;
    var tseg1 := if rest >= tseg2 then rest - tseg2 else rest - tseg2 + 0x1_0000_0000;
    (tseg1, tseg2, if tseg1 > 3 then 3 else tseg1)
  }

  /**
   * _timing_calculate_sp: the same search as TimingCalculate, with the time segments
   * placed around the nominal sample point for the bit rate.
   */
  method TimingCalculateSamplePoint(mainClockRate: nat, baudRate: nat, cfg: array<bv32>)
    requires 0 < baudRate && cfg.Length >= 2
    modifies cfg
    ensures NoMatch(mainClockRate / baudRate) ==> cfg[..] == old(cfg[..])
    ensures !NoMatch(mainClockRate / baudRate) ==>
      exists div: nat, quanta: nat, segs: nat ::
        && FirstMatch(mainClockRate / baudRate, div, quanta, segs)
        && cfg[..] == old(cfg[..])[0 := div as bv32][1 := TimingRegister(quanta, SegmentsAtSamplePoint(segs, NominalSamplePoint(baudRate)))]
  {
    var spt := NominalSamplePoint(baudRate);
    var clkPerBit := mainClockRate / baudRate;
    var div := 0;
    while div <= 15
      invariant div <= 16
      invariant cfg[..] == old(cfg[..])
      invariant forall d: nat, q: nat, s: nat :: InSearchBox(d, q, s) && d < div ==> !Matches(clkPerBit, d, q, s)
    {
      var quanta := 1;
      while quanta <= 32
        invariant 1 <= quanta <= 33
        invariant cfg[..] == old(cfg[..])
        invariant forall d: nat, q: nat, s: nat :: InSearchBox(d, q, s) && VisitedBefore(d, q, s, div, quanta, 3) ==>
          !Matches(clkPerBit, d, q, s)
      {
        var segs := 3;
        while segs <= 17
          invariant 3 <= segs <= 18
          invariant cfg[..] == old(cfg[..])
          invariant forall d: nat, q: nat, s: nat :: InSearchBox(d, q, s) && VisitedBefore(d, q, s, div, quanta, segs) ==>
            !Matches(clkPerBit, d, q, s)
        {
          if clkPerBit == BitCycles(div, quanta, segs) {
            cfg[0] := div as bv32;
            cfg[1] := TimingRegister(quanta, SegmentsAtSamplePoint(segs, spt));
            FirstMatchExists(clkPerBit, div, quanta, segs);
            assert FirstMatch(clkPerBit, div, quanta, segs)
              && cfg[..] == old(cfg[..])[0 := div as bv32][1 := TimingRegister(quanta, SegmentsAtSamplePoint(segs, spt))];
            return;
          }
          segs := segs + 1;
        }
        quanta := quanta + 1;
      }
      div := div + 1;
    }
  }

  /**
   * CAN_send_once: the frame handed to the ROM. At most DLC_MAX data bytes are sent;
   * `data` stands for the bytes the caller's pointer refers to, of which only the
   * clamped count is copied.
   */
  function SendOnce(msgObj: nat, id: bv32, data: seq<Byte>, size: nat): (f: TxFrame)
    requires (if size > DLC_MAX then DLC_MAX else size) <= |data|
    ensures f.dlc == (if size > DLC_MAX then DLC_MAX else size)
    ensures f.dlc <= DLC_MAX && f.dlc <= size && |f.data| == f.dlc
    ensures f.data == data[..f.dlc] && (size <= DLC_MAX ==> f.dlc == size)
    ensures f.msgObj == msgObj && f.modeId == id && f.mask == 0
  {
    var dlc := if size > DLC_MAX then DLC_MAX else size;
    TxFrame(msgObj, id, 0, dlc, data[..dlc])
  }

  /** CAN_recv_filter: the filter handed to the ROM. */
  function RecvFilter(msgObj: nat, id: bv32, mask: bv32, extended: bool): (f: RxFilter)
    ensures f.msgObj == msgObj
    ensures f.modeId & !MSGOBJ_EXT == id & !MSGOBJ_EXT && f.mask & !MSGOBJ_EXT == mask & !MSGOBJ_EXT
    ensures extended ==> f.modeId & MSGOBJ_EXT != 0 && f.mask & MSGOBJ_EXT != 0
    ensures !extended ==> f.modeId == id && f.mask == mask
  {
    if extended then RxFilter(msgObj, id | MSGOBJ_EXT, mask | MSGOBJ_EXT)
    else RxFilter(msgObj, id, mask)
  }

  /** A received mode_id passes a filter when it agrees with the filter on every mask bit. */
  predicate Accepts(f: RxFilter, modeId: bv32)
  {
    modeId & f.mask == f.modeId & f.mask
  }

  /**
   * The filter the terminal installs for an address (address << DST offset under the
   * DST mask, extended) accepts exactly the extended frames whose dst field is that address.
   */
  lemma DstFilterAcceptsExactlyDst(msgObj: nat, addr: bv32, modeId: bv32)
    requires addr < 1024
    ensures Accepts(RecvFilter(msgObj, addr << 10, DST_ADDR_MASK, true), modeId)
      <==> modeId & MSGOBJ_EXT != 0 && DstOf(modeId) == addr
  {
    LayoutConstants();
  }
}
