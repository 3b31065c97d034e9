/**
 * The ACS bus protocol as the terminal firmware defines it: message objects, the
 * address plan, the function-code and priority tables, the DOOR_CTRL / DOOR_STATUS
 * payload bytes, and the 29-bit message head carried as a CAN 2.0B extended
 * identifier (Bosch CAN Specification 2.0, Part B).
 *
 * The head layout is written as explicit shift/mask functions rather than a
 * compiler bit-field union: src in bits 0..9, dst in 10..19, fc in 20..25,
 * prio in 26..28, and three flag bits 29..31 (the union's `flags` member).
 */
module AcsProtocol {

  // Message objects (hardware send/receive slots).
  const MSGOBJ_SEND_DOOR_A: nat := 0
  const MSGOBJ_SEND_DOOR_B: nat := 1
  const MSGOBJ_RECV_DOOR_A: nat := 2
  const MSGOBJ_RECV_DOOR_B: nat := 3
  const MSGOBJ_RECV_BCAST: nat := 4

  // Partition sizes of the head (29 bits in total).
  const PRIO_BITS: nat := 3
  const FC_BITS: nat := 6
  const ADDR_BITS: nat := 10

  // Address space.
  const BROADCAST_ADDR: bv32 := (1 << ADDR_BITS) - 1
  const RESERVED_ADDR: bv32 := 0
  const MSTR_FIRST_ADDR: bv32 := 1
  const MSTR_LAST_ADDR: bv32 := 3
  const PNL_FIRST_ADDR: bv32 := 4
  const PNL_LAST_ADDR: bv32 := BROADCAST_ADDR - 1

  // Field offsets.
  const SRC_ADDR_OFFSET: nat := 0
  const DST_ADDR_OFFSET: nat := SRC_ADDR_OFFSET + ADDR_BITS
  const FC_OFFSET: nat := DST_ADDR_OFFSET + ADDR_BITS
  const PRIO_OFFSET: nat := FC_OFFSET + FC_BITS
  const FLAGS_OFFSET: nat := PRIO_OFFSET + PRIO_BITS

  // Field masks.
  const SRC_ADDR_MASK: bv32 := ((1 << ADDR_BITS) - 1) << SRC_ADDR_OFFSET
  const DST_ADDR_MASK: bv32 := ((1 << ADDR_BITS) - 1) << DST_ADDR_OFFSET
  const FC_MASK: bv32 := ((1 << FC_BITS) - 1) << FC_OFFSET
  const PRIO_MASK: bv32 := ((1 << PRIO_BITS) - 1) << PRIO_OFFSET

  // Function codes.
  const FC_RESERVED: bv32 := 0x0
  const FC_USER_AUTH_REQ: bv32 := 0x1       // terminal -> master
  const FC_USER_NOT_AUTH_RESP: bv32 := 0x2  // master -> terminal
  const FC_USER_AUTH_RESP: bv32 := 0x3      // master -> terminal
  const FC_DOOR_CTRL: bv32 := 0x4           // master -> terminal
  const FC_DOOR_STATUS: bv32 := 0x5         // terminal -> master
  const FC_ALIVE: bv32 := 0x6               // master -> terminal
  const FC_LEARN_USER: bv32 := 0x7          // terminal -> master
  const FC_LEARN_USER_OK: bv32 := 0x8       // master -> terminal
  const FC_LEARN_USER_FAIL: bv32 := 0x9     // master -> terminal

  // Priority range: a lower value wins arbitration.
  const MAX_PRIO: bv32 := 0
  const LOW_PRIO: bv32 := (1 << PRIO_BITS) - 1

  // Priority of each function code.
  const PRIO_RESERVED: bv32 := 0x0
  const PRIO_USER_AUTH_REQ: bv32 := 0x2
  const PRIO_USER_AUTH_RESP_FAIL: bv32 := 0x2
  const PRIO_USER_AUTH_RESP_OK: bv32 := 0x2
  const PRIO_DOOR_CTRL: bv32 := 0x3
  const PRIO_DOOR_STATUS: bv32 := 0x4
  const PRIO_ALIVE: bv32 := 0x1
  const PRIO_LEARN_USER: bv32 := 0x2
  const PRIO_LEARN_USER_FAIL: bv32 := 0x2
  const PRIO_LEARN_USER_OK: bv32 := 0x2

  // Payload of FC_DOOR_CTRL.
  const DATA_DOOR_CTRL_REMOTE_UNLCK: nat := 0x01
  const DATA_DOOR_CTRL_CLR_CACHE: nat := 0x02
  const DATA_DOOR_CTRL_LEARN_MODE: nat := 0x03
  const DATA_DOOR_CTRL_NORMAL_MODE: nat := 0x04

  // Payload of FC_DOOR_STATUS.
  const DATA_DOOR_STATUS_CLOSED: nat := 0x01
  const DATA_DOOR_STATUS_OPEN: nat := 0x02

  // Master liveness timing.
  const MASTER_ALIVE_PERIOD_MS: nat := 5000
  const MASTER_ALIVE_TIMEOUT_MS: nat := 10000

  /** The fields of a message head; each is meaningful in its low bits only. */
  datatype Head = Head(src: bv32, dst: bv32, fc: bv32, prio: bv32, flags: bv32)

  /** Each field fits its width. */
  predicate InRange(h: Head)
  {
    h.src < 1024 && h.dst < 1024 && h.fc < 64 && h.prio < 8 && h.flags < 8
  }

  /** The offsets and masks above, evaluated; the functions below use these values. */
  lemma LayoutConstants()
    ensures SRC_ADDR_OFFSET == 0 && DST_ADDR_OFFSET == 10 && FC_OFFSET == 20
    ensures PRIO_OFFSET == 26 && FLAGS_OFFSET == 29
    ensures SRC_ADDR_MASK == 0x3FF && DST_ADDR_MASK == 0xF_FC00
    ensures FC_MASK == 0x3F0_0000 && PRIO_MASK == 0x1C00_0000
  {
  }

  /** Writes every field under its mask (what assigning the union members does). */
  function Pack(h: Head): bv32
  {
    (h.src & 0x3FF)
    | ((h.dst << 10) & 0xF_FC00)
    | ((h.fc << 20) & 0x3F0_0000)
    | ((h.prio << 26) & 0x1C00_0000)
    | (h.flags << 29)
  }

  function SrcOf(x: bv32): bv32 { x & 0x3FF }
  function DstOf(x: bv32): bv32 { (x & 0xF_FC00) >> 10 }
  function FcOf(x: bv32): bv32 { (x & 0x3F0_0000) >> 20 }
  function PrioOf(x: bv32): bv32 { (x & 0x1C00_0000) >> 26 }
  function FlagsOf(x: bv32): bv32 { x >> 29 }

  /** Reads every field of a head scalar (what reading the union members does). */
  function Unpack(x: bv32): (h: Head)
    ensures InRange(h)
  {
    Head(SrcOf(x), DstOf(x), FcOf(x), PrioOf(x), FlagsOf(x))
  }

  /** Unpacking a packed head returns the original fields when each fits its width. */
  lemma UnpackPack(h: Head)
    requires InRange(h)
    ensures Unpack(Pack(h)) == h
  {
  }

  /** Out-of-range fields are truncated to their widths, never spilled into a neighbour. */
  lemma UnpackPackTruncates(h: Head)
    ensures Unpack(Pack(h)) == Head(h.src & 0x3FF, h.dst & 0x3FF, h.fc & 0x3F, h.prio & 0x7, h.flags & 0x7)
  {
  }

  /** Every 32-bit scalar is the packing of its own fields: decoding is total and lossless. */
  lemma PackUnpack(x: bv32)
    ensures Pack(Unpack(x)) == x
  {
  }

  /** The four field masks are pairwise disjoint and together cover exactly bits 0..28. */
  lemma MasksPartitionHead()
    ensures SRC_ADDR_MASK & DST_ADDR_MASK == 0 && SRC_ADDR_MASK & FC_MASK == 0
    ensures SRC_ADDR_MASK & PRIO_MASK == 0 && DST_ADDR_MASK & FC_MASK == 0
    ensures DST_ADDR_MASK & PRIO_MASK == 0 && FC_MASK & PRIO_MASK == 0
    ensures SRC_ADDR_MASK | DST_ADDR_MASK | FC_MASK | PRIO_MASK == 0x1FFF_FFFF
  {
    LayoutConstants();
  }

  predicate IsMasterAddr(a: bv32) { MSTR_FIRST_ADDR <= a <= MSTR_LAST_ADDR }
  predicate IsPanelAddr(a: bv32) { PNL_FIRST_ADDR <= a <= PNL_LAST_ADDR }

  /** Broadcast is 1023, reserved is 0, masters are 1..3, panels 4..1022, and no address is in two classes. */
  lemma AddressPlan(a: bv32)
    ensures BROADCAST_ADDR == 1023 && RESERVED_ADDR == 0
    ensures IsMasterAddr(a) <==> 1 <= a <= 3
    ensures IsPanelAddr(a) <==> 4 <= a <= 1022
    ensures !(IsMasterAddr(a) && IsPanelAddr(a))
    ensures !IsMasterAddr(BROADCAST_ADDR) && !IsPanelAddr(BROADCAST_ADDR)
    ensures !IsMasterAddr(RESERVED_ADDR) && !IsPanelAddr(RESERVED_ADDR)
  {
  }

  /** The function codes in the order the header lists them. */
  const FunctionCodes: seq<bv32> := [FC_RESERVED, FC_USER_AUTH_REQ, FC_USER_NOT_AUTH_RESP,
    FC_USER_AUTH_RESP, FC_DOOR_CTRL, FC_DOOR_STATUS, FC_ALIVE, FC_LEARN_USER,
    FC_LEARN_USER_OK, FC_LEARN_USER_FAIL]

  /**
   * The function codes are 0..9 in listed order, strictly increasing (so pairwise
   * distinct), and each fits the 6-bit fc field.
   */
  lemma FunctionCodesDistinct()
    ensures |FunctionCodes| == 10
    ensures forall i :: 0 <= i < |FunctionCodes| ==> FunctionCodes[i] as int == i
    ensures forall i, j :: 0 <= i < j < |FunctionCodes| ==> FunctionCodes[i] < FunctionCodes[j]
    ensures forall i :: 0 <= i < |FunctionCodes| ==> FunctionCodes[i] < 64
  {
  }

  /** The priority table: every entry lies in [MAX_PRIO, LOW_PRIO] = [0, 7]. */
  const Priorities: seq<bv32> := [PRIO_RESERVED, PRIO_USER_AUTH_REQ, PRIO_USER_AUTH_RESP_FAIL,
    PRIO_USER_AUTH_RESP_OK, PRIO_DOOR_CTRL, PRIO_DOOR_STATUS, PRIO_ALIVE, PRIO_LEARN_USER,
    PRIO_LEARN_USER_FAIL, PRIO_LEARN_USER_OK]

  /**
   * Every priority is within range; ALIVE is the most urgent and DOOR_STATUS the least
   * urgent of the priorities in use (all but the reserved 0).
   */
  lemma PriorityOrder()
    ensures MAX_PRIO == 0 && LOW_PRIO == 7
    ensures forall i :: 0 <= i < |Priorities| ==> MAX_PRIO <= Priorities[i] <= LOW_PRIO
    ensures forall i :: 0 <= i < |Priorities| && Priorities[i] != PRIO_RESERVED ==>
      PRIO_ALIVE <= Priorities[i] <= PRIO_DOOR_STATUS
    ensures PRIO_ALIVE < PRIO_USER_AUTH_REQ < PRIO_DOOR_CTRL < PRIO_DOOR_STATUS
  {
  }

  /** The master alive timeout is exactly two alive periods. */
  lemma TimeoutIsTwoPeriods()
    ensures MASTER_ALIVE_TIMEOUT_MS == 2 * MASTER_ALIVE_PERIOD_MS
  {
  }
}
