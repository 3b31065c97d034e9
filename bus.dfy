/**
 * The two ends of the bus together: frames the master builds, as the terminal's
 * message objects receive them, and frames the terminal sends, as the master's
 * socket receives them.
 *
 * On the wire a frame carries a 29-bit extended identifier. The terminal's ROM
 * driver marks an extended identifier with bit 29 of mode_id (MSGOBJ_EXT); the
 * master's SocketCAN layer marks it with bit 31 of can_id (CAN_EFF_FLAG).
 */
module Bus {
  import opened Common
  import opened AcsProtocol
  import opened CanDriver
  import StaticCache
  import opened Terminal
  import opened MasterProto
  import TerminalConfig

  /**
   * The reader addresses the terminal works with are the pair its configuration selects:
   * A even, B = A + 1, both below 1024, so every reader's filter and reply address fits
   * the 10-bit dst field.
   */
  lemma ConfiguredReaderAddrs(caching: bool, seed: bv16, idx: nat)
    ensures var cfg := Config(caching, TerminalConfig.Pair(seed).0, TerminalConfig.Pair(seed).1);
      && ReaderAddr(cfg, idx) < 1024
      && ReaderAddr(cfg, READER_A_IDX) & 1 == 0
      && ReaderAddr(cfg, READER_B_IDX) == ReaderAddr(cfg, READER_A_IDX) + 1
  {
  }

  /** The identifier bits a frame carries on the wire. */
  const ID_BITS: bv32 := 0x1FFF_FFFF

  /** The mode_id the terminal's message object reports for a frame the master sent. */
  function AtTerminal(canId: bv32): bv32
  {
    (canId & ID_BITS) | MSGOBJ_EXT
  }

  /** The can_id the master's socket reports for a frame the terminal sent. */
  function AtMaster(modeId: bv32): bv32
  {
    (modeId & ID_BITS) | CAN_EFF_FLAG
  }

  /** A terminal head reaches the master with the same fields, marked extended. */
  lemma TerminalHeadAtMaster(src: bv16, dst: bv16, fc: bv32, prio: bv32)
    requires fc < 64 && prio < 8
    ensures var head := AtMaster(RequestHead(src, dst, fc, prio));
      && ParseMsgHead(head) == ParsedHead(prio, fc, dst as bv32 & 0x3FF, src as bv32 & 0x3FF)
      && head & CAN_EFF_FLAG != 0
  {
  }

  /** A master head reaches the terminal with the same fields, marked extended. */
  lemma MasterHeadAtTerminal(p: Proto, prio: bv32, fc: bv32, dst: bv32)
    requires prio < 8 && fc < 64 && dst < 1024 && p.addr < 1024
    ensures var modeId := AtTerminal(Msg(p, prio, fc, dst));
      && Unpack(modeId) == Head(p.addr, dst, fc, prio, 1)
      && modeId & MSGOBJ_EXT != 0
  {
    LayoutAgrees(p, prio, fc, dst);
  }

  /**
   * The master's ALIVE passes the terminal's broadcast filter and, received on the
   * broadcast object, is handled as an ALIVE from that master.
   */
  lemma AliveReachesTerminal(p: Proto, cfg: Config, s: State, data: seq<Byte>, stale: seq<Byte>)
    requires ValidProto(p) && WellFormed(s) && |data| == 8 && |stale| == 4
    ensures var modeId := AtTerminal(MsgMasterAlive(p).head);
      && Accepts(RecvFilter(MSGOBJ_RECV_BCAST, BROADCAST_ADDR << 10, DST_ADDR_MASK, true), modeId)
      && OnRecv(cfg, s, RxFrame(MSGOBJ_RECV_BCAST, modeId, 0, data), stale) == OnAlive(s, p.addr)
  {
    var modeId := AtTerminal(MsgMasterAlive(p).head);
    MasterHeadAtTerminal(p, 1, 6, 1023);
    DstFilterAcceptsExactlyDst(MSGOBJ_RECV_BCAST, BROADCAST_ADDR, modeId);
  }

  /** The terminal's message object for a reader's incoming frames. */
  function RecvObj(idx: nat): nat
  {
    if idx == READER_A_IDX then MSGOBJ_RECV_DOOR_A else MSGOBJ_RECV_DOOR_B
  }

  /** A master reply at prio 2 to reader address `addr` passes that reader's filter and carries its fc. */
  lemma ReplyAccepted(p: Proto, fc: bv32, addr: bv32, obj: nat)
    requires ValidProto(p) && fc < 64 && addr < 1024
    ensures FcOf(AtTerminal(Msg(p, 2, fc, addr))) == fc
    ensures Accepts(RecvFilter(obj, addr << 10, DST_ADDR_MASK, true), AtTerminal(Msg(p, 2, fc, addr)))
  {
    var modeId := AtTerminal(Msg(p, 2, fc, addr));
    MasterHeadAtTerminal(p, 2, fc, addr);
    DstFilterAcceptsExactlyDst(obj, addr, modeId);
  }

  /**
   * What an auth reply for a user on reader idx does: unlock when approved, and with
   * caching on record the user with the reader's bit, or with none when refused.
   */
  function ReplyEffects(cfg: Config, idx: nat, userId: nat, approve: bool): seq<Effect>
    requires idx < READER_MAXCOUNT
  {
    (if approve then [Unlock(idx)] else [])
    + (if cfg.caching then [CacheInsert(StaticCache.Item(userId,
         if approve then MapReaderIdxToCache(idx) else CACHE_READER_NONE))] else [])
  }

  /** The terminal's handling of an auth reply (fc 3 or 2) with a 4-byte id on reader idx's object. */
  lemma AuthReplyHandled(cfg: Config, s: State, idx: nat, modeId: bv32, userId: nat, approve: bool,
                         rest: seq<Byte>, stale: seq<Byte>)
    requires WellFormed(s) && idx < READER_MAXCOUNT && s.readers[idx].enabled
    requires FcOf(modeId) == (if approve then FC_USER_AUTH_RESP else FC_USER_NOT_AUTH_RESP)
    requires userId < Pow256(4) && |rest| == 4 && |stale| == 4
    ensures OnRecv(cfg, s, RxFrame(RecvObj(idx), modeId, 4, LittleEndianBytes(userId, 4) + rest), stale)
      == Step(s, ReplyEffects(cfg, idx, userId, approve))
  {
    var f := RxFrame(RecvObj(idx), modeId, 4, LittleEndianBytes(userId, 4) + rest);
    assert ReceivedUserId(f.data, 4, stale) == userId by {
      ReceivedUserIdBytes(f.data, 4, stale);
      assert f.data[..4] == LittleEndianBytes(userId, 4);
      LittleEndianBytesValue(userId, 4);
    }
    assert OnRecv(cfg, s, f, stale) == OnReaderFrame(cfg, s, f, idx, stale);
  }

  /**
   * The master's answer to an auth request for `userId` read on reader idx, as that
   * reader's message object receives it; `rest` is what the object's data buffer
   * holds past the reply's four bytes.
   */
  function ReplyFrame(p: Proto, cfg: Config, idx: nat, userId: nat, approve: bool, rest: seq<Byte>): RxFrame
    requires ValidProto(p) && userId < Pow256(4)
  {
    var reply := AuthAnswer(p, ReaderAddr(cfg, idx) as bv32, FromBytesSigned(LittleEndianBytes(userId, 4)), approve).value;
    RxFrame(RecvObj(idx), AtTerminal(reply.head), reply.dlc, reply.data + rest)
  }

  /** The answer passes the filter of the reader it names. */
  lemma ReplyPassesFilter(p: Proto, cfg: Config, idx: nat, userId: nat, approve: bool, rest: seq<Byte>)
    requires ValidProto(p) && ReaderAddr(cfg, idx) < 1024 && userId < Pow256(4)
    ensures Accepts(RecvFilter(RecvObj(idx), ReaderAddr(cfg, idx) as bv32 << 10, DST_ADDR_MASK, true),
                    ReplyFrame(p, cfg, idx, userId, approve, rest).modeId)
  {
    var addr := ReaderAddr(cfg, idx) as bv32;
    var fc: bv32 := if approve then 3 else 2;
    ReplyFrameId(p, cfg, idx, userId, approve, rest);
    ReplyAccepted(p, fc, addr, RecvObj(idx));
  }

  /** The answer's identifier is the master's prio-2 head with fc 3 or 2 to the reader's address. */
  lemma ReplyFrameId(p: Proto, cfg: Config, idx: nat, userId: nat, approve: bool, rest: seq<Byte>)
    requires ValidProto(p) && ReaderAddr(cfg, idx) < 1024 && userId < Pow256(4)
    ensures ReplyFrame(p, cfg, idx, userId, approve, rest).modeId
      == AtTerminal(Msg(p, 2, if approve then 3 else 2, ReaderAddr(cfg, idx) as bv32))
  {
    AuthAnswerEchoes(p, ReaderAddr(cfg, idx) as bv32, LittleEndianBytes(userId, 4), approve);
  }

  /**
   * Received there, the answer unlocks exactly when the master approved and, with
   * caching on, records the user id the request carried, with the reader's bit or none.
   */
  lemma ReplyHandled(p: Proto, cfg: Config, s: State, idx: nat, userId: nat, approve: bool,
                     rest: seq<Byte>, stale: seq<Byte>)
    requires ValidProto(p) && WellFormed(s) && idx < READER_MAXCOUNT && s.readers[idx].enabled
    requires ReaderAddr(cfg, idx) < 1024 && userId < Pow256(4) && |rest| == 4 && |stale| == 4
    ensures OnRecv(cfg, s, ReplyFrame(p, cfg, idx, userId, approve, rest), stale)
      == Step(s, ReplyEffects(cfg, idx, userId, approve))
  {
    var addr := ReaderAddr(cfg, idx) as bv32;
    var fc: bv32 := if approve then 3 else 2;
    AuthAnswerEchoes(p, addr, LittleEndianBytes(userId, 4), approve);
    ReplyAccepted(p, fc, addr, RecvObj(idx));
    AuthReplyHandled(cfg, s, idx, AtTerminal(Msg(p, 2, fc, addr)), userId, approve, rest, stale);
  }

  /**
   * With caching off, a user identified on an enabled reader in normal mode, while a
   * master is active, produces exactly one frame on the reader's send object: the auth
   * request head from the reader's address to the master, dlc 4, carrying the id's four
   * little-endian bytes.
   */
  lemma RequestSent(cfg: Config, s: State, idx: nat, userId: nat, cached: Option<nat>)
    requires WellFormed(s) && idx < READER_MAXCOUNT
    requires s.readers[idx].enabled && !s.readers[idx].learnMode && !cfg.caching
    requires s.actMaster != NO_MASTER
    ensures Identified(cfg, s, userId, idx, cached)
      == [Send(TxFrame(SendObj(idx), RequestHead(ReaderAddr(cfg, idx), s.actMaster, 1, 2), 0, 4, LittleEndianBytes(userId, 4)))]
  {
    var bytes := LittleEndianBytes(userId, 4);
    assert Identified(cfg, s, userId, idx, cached) == AuthRequest(cfg, s.actMaster, userId, idx);
    assert bytes[..4] == bytes;
  }

  /** An auth request head from a panel address is one the master serves, from that address. */
  lemma RequestHeadServed(src: bv16, dst: bv16)
    requires IsPanelAddr(src as bv32)
    ensures var head := AtMaster(RequestHead(src, dst, 1, 2));
      && Served(head) && ParseMsgHead(head).src == src as bv32 && ParseMsgHead(head).fc == MasterProto.FC_USER_AUTH_REQ
  {
    TerminalHeadAtMaster(src, dst, 1, 2);
  }

  /**
   * An auth request from panel address `src` is served: the master asks its callback
   * about `src` and the id the four data bytes hold, and answers `src` with the same
   * four bytes.
   */
  lemma RequestServed(p: Proto, src: bv16, dst: bv16, data: seq<Byte>, approve: bool, doorCb: bool)
    requires ValidProto(p) && IsPanelAddr(src as bv32) && |data| == 4
    ensures AuthAnswer(p, src as bv32, FromBytesSigned(data), approve).Some?
    ensures ProcessMsg(p, AtMaster(RequestHead(src, dst, 1, 2)), data, Some(approve), doorCb)
      == Outcome(AuthAnswer(p, src as bv32, FromBytesSigned(data), approve).value,
                 Some(AuthQuery(src as bv32, FromBytesSigned(data))))
    ensures AuthAnswer(p, src as bv32, FromBytesSigned(data), approve).value.data == data
  {
    RequestHeadServed(src, dst);
    AuthAnswerEchoes(p, src as bv32, data, approve);
  }
}
