/**
 * The master's side of the ACS bus protocol: the message codec of the Python class
 * acs_can_proto. After construction its only state is the master address, read-only,
 * so the class is the value `Proto` and every method a function of it.
 *
 * Python integers are unbounded, but __msg only shifts left, masks and ORs its
 * arguments (two's-complement operations) and finally cuts the identifier to 32 bits,
 * so only the low 32 bits of each argument matter: the head arguments are `bv32`
 * values holding those bits, and the model of __msg is exact for every Python int.
 * CAN_EFF_FLAG (0x80000000) is the extended-frame flag of Linux SocketCAN
 * (linux/can.h), which the socket layer provides.
 */
module MasterProto {
  import opened Common
  import AcsProtocol

  // Function codes the master knows.
  const FC_RESERVED: bv32 := 0
  const FC_USER_AUTH_REQ: bv32 := 1
  const FC_USER_AUTH_RESP_FAIL: bv32 := 2
  const FC_USER_AUTH_RESP_OK: bv32 := 3
  const FC_DOOR_CTRL: bv32 := 4
  const FC_DOOR_STATUS: bv32 := 5
  const FC_ALIVE: bv32 := 6

  // Priorities.
  const PRIO_RESERVED: bv32 := 0
  const PRIO_USER_AUTH_REQ: bv32 := 2
  const PRIO_USER_AUTH_RESP_FAIL: bv32 := 2
  const PRIO_USER_AUTH_RESP_OK: bv32 := 2
  const PRIO_DOOR_CTRL: bv32 := 3
  const PRIO_DOOR_STATUS: bv32 := 4
  const PRIO_ALIVE: bv32 := 1

  // Liveness timing, in seconds.
  const MASTER_ALIVE_PERIOD: nat := 5
  const MASTER_ALIVE_TIMEOUT: nat := 12

  // Payloads.
  const DATA_DOOR_CTRL_REMOTE_UNLCK: seq<Byte> := [0x01]
  const DATA_DOOR_CTRL_CLR_CACHE: seq<Byte> := [0x02]
  const DATA_DOOR_STATUS_CLOSED: seq<Byte> := [0x01]
  const DATA_DOOR_STATUS_OPEN: seq<Byte> := [0x02]

  // Address space.
  const ACS_BROADCAST_ADDR: bv32 := 1023
  const ACS_MSTR_FIRST_ADDR: int := 1
  const ACS_MSTR_LAST_ADDR: int := 3
  const ACS_PNL_FIRST_ADDR: bv32 := 4
  const ACS_PNL_LAST_ADDR: bv32 := 1022

  // Head offsets 0, 10, 20, 26 and masks.
  const ACS_SRC_ADDR_MASK: bv32 := 0x3FF
  const ACS_DST_ADDR_MASK: bv32 := 0xF_FC00
  const ACS_FC_MASK: bv32 := 0x3F0_0000
  const ACS_PRIO_MASK: bv32 := 0x1C00_0000

  const CAN_EFF_FLAG: bv32 := 0x8000_0000

  /** An acs_can_proto after construction: its master address. */
  datatype Proto = Proto(addr: bv32)

  /** A constructed instance holds a master address, one of 1..3. */
  predicate ValidProto(p: Proto)
  {
    AcsProtocol.IsMasterAddr(p.addr)
  }

  /** The constructor's address check; None stands for the exception it raises. */
  function NewProto(masterAddr: int): (r: Option<Proto>)
    ensures r.Some? ==> ValidProto(r.value)
  {
    if ACS_MSTR_LAST_ADDR >= masterAddr >= ACS_MSTR_FIRST_ADDR then Some(Proto(masterAddr as bv32))
    else None
  }

  /** Construction succeeds exactly for the master addresses 1..3 and keeps the address given. */
  lemma NewProtoAccepts(masterAddr: int)
    ensures NewProto(masterAddr).Some? <==> 1 <= masterAddr <= 3
    ensures NewProto(masterAddr).Some? ==>
      && NewProto(masterAddr).value.addr as int == masterAddr
      && AcsProtocol.IsMasterAddr(NewProto(masterAddr).value.addr)
    ensures NewProto(0).None? && NewProto(4).None? && NewProto(-1).None?
  {
  }

  // ---------------------------------------------------------------------------
  // Receive filters.

  /** A SocketCAN receive filter: a frame passes when its id agrees with can_id under can_mask. */
  datatype CanFilter = CanFilter(canId: bv32, mask: bv32)

  predicate Passes(f: CanFilter, id: bv32)
  {
    id & f.mask == f.canId & f.mask
  }

  /** The two filters the constructor installs: extended frames for this master, and for broadcast. */
  function Filters(p: Proto): seq<CanFilter>
  {
    [ CanFilter(CAN_EFF_FLAG | (p.addr << 10), CAN_EFF_FLAG | ACS_DST_ADDR_MASK),
      CanFilter(CAN_EFF_FLAG | (ACS_BROADCAST_ADDR << 10), CAN_EFF_FLAG | ACS_DST_ADDR_MASK) ]
  }

  /** A frame passes one of the filters exactly when it is extended and addressed to this master or to broadcast. */
  lemma FiltersSelect(p: Proto, id: bv32)
    requires ValidProto(p)
    ensures Passes(Filters(p)[0], id) || Passes(Filters(p)[1], id) <==>
      id & CAN_EFF_FLAG != 0 && (AcsProtocol.DstOf(id) == p.addr || AcsProtocol.DstOf(id) == 1023)
  {
  }

  // ---------------------------------------------------------------------------
  // Heads.

  /** __msg: every field under its mask, this master as source, the extended flag, cut to 32 bits. */
  function Msg(p: Proto, prio: bv32, fc: bv32, dst: bv32): bv32
  {
    ((prio << 26) & ACS_PRIO_MASK)
    | ((fc << 20) & ACS_FC_MASK)
    | ((dst << 10) & ACS_DST_ADDR_MASK)
    | (p.addr & ACS_SRC_ADDR_MASK)
    | CAN_EFF_FLAG
  }

  /** The fields __parse_msg_head returns, in its order. */
  datatype ParsedHead = ParsedHead(prio: bv32, fc: bv32, dst: bv32, src: bv32)

  /** __parse_msg_head. */
  function ParseMsgHead(head: bv32): ParsedHead
  {
    ParsedHead((head & ACS_PRIO_MASK) >> 26, (head & ACS_FC_MASK) >> 20,
               (head & ACS_DST_ADDR_MASK) >> 10, head & ACS_SRC_ADDR_MASK)
  }

  /** Parsing a built head gives back each argument truncated to its field width. */
  lemma ParseMsg(p: Proto, prio: bv32, fc: bv32, dst: bv32)
    ensures ParseMsgHead(Msg(p, prio, fc, dst))
      == ParsedHead(prio & 7, fc & 63, dst & 1023, p.addr & 1023)
    ensures Msg(p, prio, fc, dst) & CAN_EFF_FLAG != 0
  {
  }

  /** Arguments within their widths come back unchanged. */
  lemma ParseMsgInRange(p: Proto, prio: bv32, fc: bv32, dst: bv32)
    requires prio < 8 && fc < 64 && dst < 1024 && p.addr < 1024
    ensures ParseMsgHead(Msg(p, prio, fc, dst)) == ParsedHead(prio, fc, dst, p.addr)
  {
    ParseMsg(p, prio, fc, dst);
  }

  /**
   * The master lays out its heads as the terminal does: the terminal's decoding of
   * the 29 identifier bits reads the same src, dst, fc and prio, and the only flag
   * bit set is the extended-frame flag (bit 31).
   */
  lemma LayoutAgrees(p: Proto, prio: bv32, fc: bv32, dst: bv32)
    ensures AcsProtocol.Unpack(Msg(p, prio, fc, dst))
      == AcsProtocol.Head(p.addr & 0x3FF, dst & 0x3FF, fc & 0x3F, prio & 7, 4)
    ensures ACS_SRC_ADDR_MASK == AcsProtocol.SRC_ADDR_MASK && ACS_DST_ADDR_MASK == AcsProtocol.DST_ADDR_MASK
    ensures ACS_FC_MASK == AcsProtocol.FC_MASK && ACS_PRIO_MASK == AcsProtocol.PRIO_MASK
  {
    AcsProtocol.LayoutConstants();
  }

  /**
   * The function codes and priorities the master shares with the terminal have the
   * same values on both sides (the master's AUTH_RESP_FAIL / AUTH_RESP_OK are the
   * terminal's USER_NOT_AUTH_RESP / USER_AUTH_RESP).
   */
  lemma TablesAgree()
    ensures FC_RESERVED == AcsProtocol.FC_RESERVED
    ensures FC_USER_AUTH_REQ == AcsProtocol.FC_USER_AUTH_REQ
    ensures FC_USER_AUTH_RESP_FAIL == AcsProtocol.FC_USER_NOT_AUTH_RESP
    ensures FC_USER_AUTH_RESP_OK == AcsProtocol.FC_USER_AUTH_RESP
    ensures FC_DOOR_CTRL == AcsProtocol.FC_DOOR_CTRL
    ensures FC_DOOR_STATUS == AcsProtocol.FC_DOOR_STATUS
    ensures FC_ALIVE == AcsProtocol.FC_ALIVE
    ensures PRIO_RESERVED == AcsProtocol.PRIO_RESERVED
    ensures PRIO_USER_AUTH_REQ == AcsProtocol.PRIO_USER_AUTH_REQ
    ensures PRIO_DOOR_STATUS == AcsProtocol.PRIO_DOOR_STATUS
    ensures PRIO_USER_AUTH_RESP_OK == AcsProtocol.PRIO_USER_AUTH_RESP_OK
    ensures PRIO_USER_AUTH_RESP_FAIL == AcsProtocol.PRIO_USER_AUTH_RESP_FAIL
    ensures PRIO_DOOR_CTRL == AcsProtocol.PRIO_DOOR_CTRL
    ensures PRIO_ALIVE == AcsProtocol.PRIO_ALIVE
    ensures DATA_DOOR_STATUS_OPEN == [AcsProtocol.DATA_DOOR_STATUS_OPEN]
    ensures DATA_DOOR_STATUS_CLOSED == [AcsProtocol.DATA_DOOR_STATUS_CLOSED]
    ensures DATA_DOOR_CTRL_REMOTE_UNLCK == [AcsProtocol.DATA_DOOR_CTRL_REMOTE_UNLCK]
    ensures DATA_DOOR_CTRL_CLR_CACHE == [AcsProtocol.DATA_DOOR_CTRL_CLR_CACHE]
  {
  }

  // ---------------------------------------------------------------------------
  // Signed little-endian user ids.

  /** int.from_bytes(bs, "little", signed=True). */
  function FromBytesSigned(bs: seq<Byte>): int
  {
    var u := LittleEndian(bs);
    if 2 * u >= Pow256(|bs|) then u - Pow256(|bs|) else u
  }

  /** v.to_bytes(n, "little", signed=True); None stands for the OverflowError of an out-of-range v. */
  function ToBytesSigned(v: int, n: nat): (r: Option<seq<Byte>>)
    ensures r.Some? ==> |r.value| == n
  {
    if -(Pow256(n) as int) <= 2 * v < Pow256(n) then
      Some(LittleEndianBytes(if v < 0 then v + Pow256(n) else v, n))
    else None
  }

  /** Encoding succeeds exactly in the n-byte two's complement range, and decoding undoes it. */
  lemma SignedRoundTrip(v: int, n: nat)
    ensures ToBytesSigned(v, n).Some? <==> -(Pow256(n) as int) <= 2 * v < Pow256(n)
    ensures ToBytesSigned(v, n).Some? ==> FromBytesSigned(ToBytesSigned(v, n).value) == v
  {
    if -(Pow256(n) as int) <= 2 * v < Pow256(n) {
      var u := if v < 0 then v + Pow256(n) else v;
      LittleEndianBytesValue(u, n);
    }
  }

  /** Decoding n bytes always lands in the n-byte range. */
  lemma SignedRange(bs: seq<Byte>)
    ensures -(Pow256(|bs|) as int) <= 2 * FromBytesSigned(bs) < Pow256(|bs|)
  {
    var u: int, p: int := LittleEndian(bs), Pow256(|bs|);
    assert u < p;
    assert FromBytesSigned(bs) == if 2 * u >= p then u - p else u;
  }

  /** Decoding n bytes always lands in the n-byte range, and encoding gives the same bytes back. */
  lemma BytesRoundTrip(bs: seq<Byte>)
    ensures -(Pow256(|bs|) as int) <= 2 * FromBytesSigned(bs) < Pow256(|bs|)
    ensures ToBytesSigned(FromBytesSigned(bs), |bs|) == Some(bs)
  {
    SignedRange(bs);
    var u: int, p: int, v := LittleEndian(bs), Pow256(|bs|), FromBytesSigned(bs);
    assert v == if 2 * u >= p then u - p else u;
    EncodeInRange(v, |bs|, LittleEndian(bs));
    LittleEndianRoundTrip(bs);
  }

  /** In range, encoding writes the n bytes of v's unsigned counterpart u. */
  lemma EncodeInRange(v: int, n: nat, u: nat)
    requires -(Pow256(n) as int) <= 2 * v < Pow256(n)
    requires u == if v < 0 then v + Pow256(n) else v
    ensures ToBytesSigned(v, n) == Some(LittleEndianBytes(u, n))
  {
  }

  lemma {:induction false} Pow256Monotone(m: nat, n: nat)
    requires m <= n
    ensures Pow256(m) <= Pow256(n)
  {
    if m < n {
      Pow256Monotone(m, n - 1);
    }
  }

  /** An id decoded from at most 4 bytes always fits 4 bytes again. */
  lemma ShortIdFits(bs: seq<Byte>)
    requires |bs| <= 4
    ensures ToBytesSigned(FromBytesSigned(bs), 4).Some?
  {
    BytesRoundTrip(bs);
    Pow256Monotone(|bs|, 4);
  }

  // ---------------------------------------------------------------------------
  // Messages the master sends: (identifier, dlc, data).

  datatype Reply = Reply(head: bv32, dlc: nat, data: seq<Byte>)

  /** NO_MESSAGE. */
  const NO_MESSAGE: Reply := Reply(0, 0, [0])

  /** msg_auth_fail; None when the id does not fit four signed bytes. */
  function MsgAuthFail(p: Proto, readerAddr: bv32, userId: int): Option<Reply>
  {
    match ToBytesSigned(userId, 4)
    case Some(bytes) => Some(Reply(Msg(p, PRIO_USER_AUTH_RESP_FAIL, FC_USER_AUTH_RESP_FAIL, readerAddr), 4, bytes))
    case None => None
  }

  /** msg_auth_ok; None when the id does not fit four signed bytes. */
  function MsgAuthOk(p: Proto, readerAddr: bv32, userId: int): Option<Reply>
  {
    match ToBytesSigned(userId, 4)
    case Some(bytes) => Some(Reply(Msg(p, PRIO_USER_AUTH_RESP_OK, FC_USER_AUTH_RESP_OK, readerAddr), 4, bytes))
    case None => None
  }

  /** The reply process_msg picks for an auth request: msg_auth_ok when approved, msg_auth_fail otherwise. */
  function AuthAnswer(p: Proto, src: bv32, userId: int, approve: bool): Option<Reply>
  {
    if approve then MsgAuthOk(p, src, userId) else MsgAuthFail(p, src, userId)
  }

  /** Answering the id four bytes decode to gives those same bytes back, under fc 3 (OK) or 2 (FAIL). */
  lemma AuthAnswerEchoes(p: Proto, src: bv32, bytes: seq<Byte>, approve: bool)
    requires |bytes| == 4
    ensures AuthAnswer(p, src, FromBytesSigned(bytes), approve)
      == Some(Reply(Msg(p, 2, if approve then 3 else 2, src), 4, bytes))
  {
    BytesRoundTrip(bytes);
  }

  /** msg_reader_unlock_once. */
  function MsgReaderUnlockOnce(p: Proto, readerAddr: bv32): Reply
  {
    Reply(Msg(p, PRIO_DOOR_CTRL, FC_DOOR_CTRL, readerAddr), 1, DATA_DOOR_CTRL_REMOTE_UNLCK)
  }

  /** msg_reader_clear_cache. */
  function MsgReaderClearCache(p: Proto, readerAddr: bv32): Reply
  {
    Reply(Msg(p, PRIO_DOOR_CTRL, FC_DOOR_CTRL, readerAddr), 1, DATA_DOOR_CTRL_CLR_CACHE)
  }

  /** msg_master_alive. */
  function MsgMasterAlive(p: Proto): Reply
  {
    Reply(Msg(p, PRIO_ALIVE, FC_ALIVE, ACS_BROADCAST_ADDR), 0, [0x00])
  }

  /**
   * The auth replies go from this master to the reader at prio 2 with fc 3 (OK) or 2
   * (FAIL) and carry the id as four signed little-endian bytes, which decode to it;
   * an id outside the signed 32-bit range is refused.
   */
  lemma AuthReplies(p: Proto, readerAddr: bv32, userId: int)
    requires ValidProto(p) && readerAddr < 1024
    ensures MsgAuthOk(p, readerAddr, userId).Some? <==> -0x8000_0000 <= userId < 0x8000_0000
    ensures MsgAuthFail(p, readerAddr, userId).Some? <==> -0x8000_0000 <= userId < 0x8000_0000
    ensures MsgAuthOk(p, readerAddr, userId).Some? ==>
      var ok, fail := MsgAuthOk(p, readerAddr, userId).value, MsgAuthFail(p, readerAddr, userId).value;
      && ParseMsgHead(ok.head) == ParsedHead(2, 3, readerAddr, p.addr)
      && ParseMsgHead(fail.head) == ParsedHead(2, 2, readerAddr, p.addr)
      && ok.dlc == 4 && fail.dlc == 4 && ok.data == fail.data
      && FromBytesSigned(ok.data) == userId
  {
    SignedRoundTrip(userId, 4);
    ParseMsgInRange(p, 2, 3, readerAddr);
    ParseMsgInRange(p, 2, 2, readerAddr);
  }

  /**
   * The door commands go to the reader at prio 3 with fc 4 and one byte, 0x01 for
   * unlock and 0x02 for clear cache; the alive message goes to broadcast 1023 at prio 1
   * with fc 6 and dlc 0.
   */
  lemma ControlMessages(p: Proto, readerAddr: bv32)
    requires ValidProto(p) && readerAddr < 1024
    ensures var u := MsgReaderUnlockOnce(p, readerAddr);
      ParseMsgHead(u.head) == ParsedHead(3, 4, readerAddr, p.addr) && u.dlc == 1 && u.data == [0x01]
    ensures var c := MsgReaderClearCache(p, readerAddr);
      ParseMsgHead(c.head) == ParsedHead(3, 4, readerAddr, p.addr) && c.dlc == 1 && c.data == [0x02]
    ensures var a := MsgMasterAlive(p);
      ParseMsgHead(a.head) == ParsedHead(1, 6, 1023, p.addr) && a.dlc == 0
  {
    ParseMsgInRange(p, 3, 4, readerAddr);
    ParseMsgInRange(p, 1, 6, ACS_BROADCAST_ADDR);
  }

  // ---------------------------------------------------------------------------
  // Processing received messages.

  /** A callback invocation: the auth query with the sender and id, or a door status update. */
  datatype Callback = AuthQuery(src: bv32, userId: int) | DoorStatusUpdate(src: bv32, open: bool)

  /** What process_msg returns, and the callback it invoked, if any. */
  datatype Outcome = Outcome(reply: Reply, call: Option<Callback>)

  /** Whether process_msg serves a head at all: extended, from a panel address, prio above reserved. */
  predicate Served(head: bv32)
  {
    var h := ParseMsgHead(head);
    head & CAN_EFF_FLAG != 0 && h.src <= ACS_PNL_LAST_ADDR && h.src >= ACS_PNL_FIRST_ADDR && h.prio > PRIO_RESERVED
  }

  /**
   * process_msg; `data` is msg_data (msg_len is not read). `authCb` is None when no
   * auth callback is registered, else the answer it gives; `doorCb` says whether a
   * door-status callback is registered.
   */
  function ProcessMsg(p: Proto, head: bv32, data: seq<Byte>, authCb: Option<bool>, doorCb: bool): Outcome
  {
    var h := ParseMsgHead(head);
    if Served(head) then
      if h.fc == FC_USER_AUTH_REQ then
        if authCb.Some? then
          var idBytes := if |data| <= 4 then data else data[..4];
          var userId := FromBytesSigned(idBytes);
          ShortIdFits(idBytes);
          Outcome(AuthAnswer(p, h.src, userId, authCb.value).value, Some(AuthQuery(h.src, userId)))
        else Outcome(NO_MESSAGE, None)
      else if h.fc == FC_DOOR_STATUS then
        if doorCb then
          var first := if |data| <= 1 then data else data[..1];
          Outcome(NO_MESSAGE, Some(DoorStatusUpdate(h.src, first == DATA_DOOR_STATUS_OPEN)))
        else Outcome(NO_MESSAGE, None)
      else Outcome(NO_MESSAGE, None)
    else Outcome(NO_MESSAGE, None)
  }

  /** Unless the head is extended, from a panel (4..1022) and above the reserved priority, nothing happens. */
  lemma UnservedIgnored(p: Proto, head: bv32, data: seq<Byte>, authCb: Option<bool>, doorCb: bool)
    ensures !Served(head) ==> ProcessMsg(p, head, data, authCb, doorCb) == Outcome(NO_MESSAGE, None)
    ensures Served(head) <==>
      var h := ParseMsgHead(head);
      && head & CAN_EFF_FLAG != 0
      && AcsProtocol.IsPanelAddr(h.src)
      && h.prio != 0
  {
  }

  /**
   * A served USER_AUTH_REQ with a callback asks the callback about (src, id) and
   * replies to src: OK when it approves, FAIL otherwise, with dlc 4. A full 4-byte
   * request is echoed byte for byte; any request's id is what the reply decodes to.
   */
  lemma AuthRequestAnswered(p: Proto, head: bv32, data: seq<Byte>, approve: bool, doorCb: bool)
    requires ValidProto(p) && Served(head) && ParseMsgHead(head).fc == 1
    ensures var o := ProcessMsg(p, head, data, Some(approve), doorCb);
      var src := ParseMsgHead(head).src;
      var idBytes := if |data| <= 4 then data else data[..4];
      && o.call == Some(AuthQuery(src, FromBytesSigned(idBytes)))
      && ParseMsgHead(o.reply.head) == ParsedHead(2, if approve then 3 else 2, src, p.addr)
      && o.reply.dlc == 4
      && FromBytesSigned(o.reply.data) == FromBytesSigned(idBytes)
      && (|data| >= 4 ==> o.reply.data == data[..4])
  {
    var src := ParseMsgHead(head).src;
    var idBytes := if |data| <= 4 then data else data[..4];
    ShortIdFits(idBytes);
    AuthReplies(p, src, FromBytesSigned(idBytes));
    if |data| >= 4 {
      BytesRoundTrip(idBytes);
    }
  }

  /** A short id is sign-extended: the one byte 0x80 (-128) comes back as 80 FF FF FF. */
  lemma ShortIdSignExtended(p: Proto)
    requires ValidProto(p)
    ensures var head := Msg(Proto(4), 2, 1, p.addr);
      ProcessMsg(p, head, [0x80], Some(true), false).reply.data == [0x80, 0xFF, 0xFF, 0xFF]
  {
    var head := Msg(Proto(4), 2, 1, p.addr);
    ParseMsgInRange(Proto(4), 2, 1, p.addr);
    assert Served(head);
    assert FromBytesSigned([0x80]) == -128;
    assert Pow256(4) == 0x1_0000_0000;
    assert LittleEndianBytes(0xFFFF_FF80, 4) == [0x80, 0xFF, 0xFF, 0xFF];
  }

  /**
   * A served DOOR_STATUS with a callback reports (src, first byte == 0x02) and returns
   * NO_MESSAGE; any other function code returns NO_MESSAGE without a callback.
   */
  lemma DoorStatusReported(p: Proto, head: bv32, data: seq<Byte>, authCb: Option<bool>)
    requires Served(head)
    ensures ParseMsgHead(head).fc == 5 ==>
      ProcessMsg(p, head, data, authCb, true)
        == Outcome(NO_MESSAGE, Some(DoorStatusUpdate(ParseMsgHead(head).src, |data| > 0 && data[0] == 0x02)))
    ensures ParseMsgHead(head).fc != 1 && ParseMsgHead(head).fc != 5 ==>
      ProcessMsg(p, head, data, authCb, true) == Outcome(NO_MESSAGE, None)
  {
    if |data| > 1 {
      assert (data[..1] == [0x02]) == (data[0] == 0x02);
    }
  }
}
