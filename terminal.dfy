/**
 * The terminal's authorization engine and master-liveness tracker.
 *
 * The terminal serves two card readers (A and B). It learns which master is active
 * from ALIVE broadcasts, forgets it after two silent timer periods, forwards
 * identified credentials to the master (or, with caching on and no master, decides
 * from the local cache), acts on the master's replies and door commands, and reports
 * door open/close changes.
 *
 * The collaborators it calls (reader actuation, the status LED, the CAN transmit
 * routine, the credential cache, the RTOS delay) are recorded as `Effect` values.
 * Every handler is specified by a pure transition function on `State` returning the
 * new state and the effects in call order; the class `Controller` below holds the
 * globals and its methods are proved to perform exactly those transitions.
 */
module Terminal {
  import opened Common
  import opened AcsProtocol
  import opened CanDriver
  import StaticCache

  // Reader indices and count.
  const READER_A_IDX: nat := 0
  const READER_B_IDX: nat := 1
  const READER_MAXCOUNT: nat := 2

  // Task loop timing.
  const USER_REQUEST_MIN_PERIOD_MS: nat := 1000
  const SEND_DOOR_STATUS_RATE: nat := 5

  // Cache values: the readers a cached user may open, one bit per reader.
  const CACHE_READER_NONE: nat := 0
  const CACHE_READER_A: nat := 1
  const CACHE_READER_B: nat := 2
  const CACHE_READER_ALL: nat := 3

  /** No active master: the reserved address. */
  const NO_MASTER: bv16 := 0

  /** The part of reader_conf[] the terminal reads and writes. */
  datatype ReaderConf = ReaderConf(enabled: bool, learnMode: bool)

  /** A received message object: its number, identifier, data length and 8 data bytes. */
  datatype RxFrame = RxFrame(msgObj: nat, modeId: bv32, dlc: nat, data: seq<Byte>)

  /** A call into a collaborator. */
  datatype Effect =
    | Unlock(reader: nat)                // reader_unlock(reader, beep, OK LED)
    | Signal(reader: nat)                // reader_signal_to_user(reader, beep)
    | StatusLed(on: bool)                // Board_LED_Set(BOARD_LED_STATUS, on)
    | Send(frame: TxFrame)               // CAN_send_once
    | CacheInsert(item: StaticCache.Item) // static_cache_insert
    | CacheReset                         // static_cache_reset
    | Delay(ms: nat)                     // vTaskDelay
    | ReaderInit(reader: nat)            // reader_init
    | ReaderDeinit(reader: nat)          // reader_deinit

  /**
   * Build-time and storage configuration: CACHING_ENABLED and the two reader addresses,
   * which terminal_config keeps as an even/odd pair below 1024 (TerminalConfig.Pair).
   */
  datatype Config = Config(caching: bool, readerA: bv16, readerB: bv16)

  /** The terminal's globals. */
  datatype State = State(
    actMaster: bv16,              // _act_master
    masterTimeout: bool,          // _master_timeout
    cacheClearReq: bool,          // _cache_clear_req
    lastDoorState: seq<bool>,     // _last_door_state[]
    readers: seq<ReaderConf>)     // reader_conf[]

  predicate WellFormed(s: State)
  {
    |s.lastDoorState| == READER_MAXCOUNT && |s.readers| == READER_MAXCOUNT
  }

  /** The outcome of a handler: the new globals and the calls made, in order. */
  datatype Step = Step(state: State, effects: seq<Effect>)

  // ---------------------------------------------------------------------------
  // Cache values.

  /** map_reader_idx_to_cache. */
  function MapReaderIdxToCache(idx: nat): nat
  {
    if idx == READER_A_IDX then CACHE_READER_A else CACHE_READER_B
  }

  /**
   * map_reader_idx_to_cache(idx) & value != 0. The reader's cache value is a single bit
   * (1 or 2), so the test is whether that bit of `value` is set.
   */
  predicate CacheAllows(value: nat, idx: nat)
  {
    (value / MapReaderIdxToCache(idx)) % 2 == 1
  }

  /** NONE opens no reader, ALL opens both, A and B open exactly their own reader. */
  lemma CacheValues(idx: nat)
    requires idx < READER_MAXCOUNT
    ensures !CacheAllows(CACHE_READER_NONE, idx) && CacheAllows(CACHE_READER_ALL, idx)
    ensures CacheAllows(CACHE_READER_A, idx) <==> idx == READER_A_IDX
    ensures CacheAllows(CACHE_READER_B, idx) <==> idx == READER_B_IDX
    ensures CacheAllows(MapReaderIdxToCache(idx), idx)
  {
  }

  // ---------------------------------------------------------------------------
  // Master liveness.

  /** _timer_callback: drop the master if the flag is still set from the last period, then set it. */
  function TimerTick(s: State): Step
  {
    if s.masterTimeout then Step(s.(actMaster := NO_MASTER, masterTimeout := true), [StatusLed(false)])
    else Step(s.(masterTimeout := true), [])
  }

  /**
   * An ALIVE from master `src`: adopted (with a cache-clear request) only when the
   * flag is set; the flag is cleared either way.
   */
  function OnAlive(s: State, src: bv32): Step
    requires src < 1024
  {
    if s.masterTimeout then
      Step(s.(actMaster := src as bv16, cacheClearReq := true, masterTimeout := false), [StatusLed(true)])
    else Step(s.(masterTimeout := false), [])
  }

  /** One missed period is tolerated: a tick with the flag clear keeps the master. */
  lemma OneTickTolerated(s: State)
    requires !s.masterTimeout
    ensures TimerTick(s).state == s.(masterTimeout := true)
    ensures TimerTick(s).effects == []
  {
  }

  /** A master silent across two ticks is dropped and the status LED turned off. */
  lemma TwoTicksDropMaster(s: State)
    ensures TimerTick(TimerTick(s).state).state.actMaster == NO_MASTER
    ensures TimerTick(TimerTick(s).state).state.masterTimeout
    ensures StatusLed(false) in TimerTick(s).effects + TimerTick(TimerTick(s).state).effects
  {
  }

  // ---------------------------------------------------------------------------
  // Received frames.

  /** The user id of a response: the first min(dlc, 4) data bytes, the rest of the word unwritten. */
  function ReceivedUserId(data: seq<Byte>, dlc: nat, stale: seq<Byte>): (id: nat)
    requires |data| == 8 && |stale| == 4
    ensures id < Pow256(4)
  {
    var len := if dlc > 4 then 4 else dlc;
    LittleEndian(data[..len] + stale[len..])
  }

  /**
   * The low min(dlc, 4) bytes of the id are the received ones; a full-length
   * response determines the id completely.
   */
  lemma ReceivedUserIdBytes(data: seq<Byte>, dlc: nat, stale: seq<Byte>)
    requires |data| == 8 && |stale| == 4
    ensures var len := if dlc > 4 then 4 else dlc;
      ReceivedUserId(data, dlc, stale) % Pow256(len) == LittleEndian(data[..len])
    ensures dlc >= 4 ==> ReceivedUserId(data, dlc, stale) == LittleEndian(data[..4])
  {
    var len := if dlc > 4 then 4 else dlc;
    var lo, hi := data[..len], stale[len..];
    LittleEndianAppend(lo, hi);
    ModOfMultiplePlus(LittleEndian(lo), LittleEndian(hi), Pow256(len));
    if dlc >= 4 {
      assert hi == [];
      assert lo + hi == data[..4];
    }
  }

  /** The DOOR_CTRL command byte `cmd` for enabled reader `idx`. */
  function DoorCtrl(cfg: Config, s: State, cmd: Byte, idx: nat): Step
    requires WellFormed(s) && idx < READER_MAXCOUNT
  {
    if cmd == DATA_DOOR_CTRL_REMOTE_UNLCK then Step(s, [Unlock(idx)])
    else if cmd == DATA_DOOR_CTRL_CLR_CACHE then Step(if cfg.caching then s.(cacheClearReq := true) else s, [])
    else if cmd == DATA_DOOR_CTRL_NORMAL_MODE then
      Step(s.(readers := s.readers[idx := s.readers[idx].(learnMode := false)]), [Signal(idx)])
    else if cmd == DATA_DOOR_CTRL_LEARN_MODE then
      Step(s.(readers := s.readers[idx := s.readers[idx].(learnMode := true)]), [Signal(idx)])
    else Step(s, [])
  }

  /** The part of term_can_recv after a door message object selected reader `idx`. */
  function OnReaderFrame(cfg: Config, s: State, f: RxFrame, idx: nat, stale: seq<Byte>): Step
    requires WellFormed(s) && |f.data| == 8 && |stale| == 4
  {
    if idx >= READER_MAXCOUNT || !s.readers[idx].enabled then Step(s, [])
    else
      var fc := FcOf(f.modeId);
      if fc == FC_USER_AUTH_RESP then
        Step(s, [Unlock(idx)] + (if cfg.caching
          then [CacheInsert(StaticCache.Item(ReceivedUserId(f.data, f.dlc, stale), MapReaderIdxToCache(idx)))]
          else []))
      else if fc == FC_USER_NOT_AUTH_RESP then
        Step(s, if cfg.caching
          then [CacheInsert(StaticCache.Item(ReceivedUserId(f.data, f.dlc, stale), CACHE_READER_NONE))]
          else [])
      else if fc == FC_LEARN_USER_OK then Step(s, [Signal(idx)])
      else if fc == FC_DOOR_CTRL then DoorCtrl(cfg, s, f.data[0], idx)
      else Step(s, [])
  }

  /**
   * term_can_recv. `stale` stands for the bytes of the local user id that a short
   * response leaves unwritten.
   */
  function OnRecv(cfg: Config, s: State, f: RxFrame, stale: seq<Byte>): Step
    requires WellFormed(s) && |f.data| == 8 && |stale| == 4
  {
    if f.msgObj == MSGOBJ_RECV_DOOR_A then OnReaderFrame(cfg, s, f, READER_A_IDX, stale)
    else if f.msgObj == MSGOBJ_RECV_DOOR_B then OnReaderFrame(cfg, s, f, READER_B_IDX, stale)
    else if f.msgObj == MSGOBJ_RECV_BCAST && FcOf(f.modeId) == FC_ALIVE && IsMasterAddr(SrcOf(f.modeId)) then
      OnAlive(s, SrcOf(f.modeId))
    else Step(s, [])
  }

  /**
   * An ALIVE broadcast from a master address always clears the flag; it makes its
   * source the active master, lights the LED and requests a cache clear exactly when
   * the flag was set. Nothing else changes.
   */
  lemma AliveAdoption(cfg: Config, s: State, f: RxFrame, stale: seq<Byte>)
    requires WellFormed(s) && |f.data| == 8 && |stale| == 4
    requires f.msgObj == MSGOBJ_RECV_BCAST && FcOf(f.modeId) == FC_ALIVE && IsMasterAddr(SrcOf(f.modeId))
    ensures var r := OnRecv(cfg, s, f, stale);
      && !r.state.masterTimeout
      && r.state.actMaster == (if s.masterTimeout then SrcOf(f.modeId) as bv16 else s.actMaster)
      && r.state.cacheClearReq == (s.cacheClearReq || s.masterTimeout)
      && r.state.lastDoorState == s.lastDoorState && r.state.readers == s.readers
      && r.effects == (if s.masterTimeout then [StatusLed(true)] else [])
  {
  }

  /**
   * After one silent tick, an ALIVE from any master address takes over, even when a
   * different master is active.
   */
  lemma MasterTakeover(cfg: Config, s: State, f: RxFrame, stale: seq<Byte>)
    requires WellFormed(s) && |f.data| == 8 && |stale| == 4 && !s.masterTimeout
    requires f.msgObj == MSGOBJ_RECV_BCAST && FcOf(f.modeId) == FC_ALIVE && IsMasterAddr(SrcOf(f.modeId))
    ensures OnRecv(cfg, TimerTick(s).state, f, stale).state.actMaster == SrcOf(f.modeId) as bv16
  {
  }

  /**
   * Frames on other message objects, ALIVE aside, are dropped; so are frames for a
   * disabled reader and frames with an unhandled function code (LEARN_USER_FAIL included).
   */
  lemma FramesDropped(cfg: Config, s: State, f: RxFrame, stale: seq<Byte>)
    requires WellFormed(s) && |f.data| == 8 && |stale| == 4
    ensures f.msgObj !in {MSGOBJ_RECV_DOOR_A, MSGOBJ_RECV_DOOR_B, MSGOBJ_RECV_BCAST} ==>
      OnRecv(cfg, s, f, stale) == Step(s, [])
    ensures f.msgObj == MSGOBJ_RECV_BCAST && !(FcOf(f.modeId) == FC_ALIVE && IsMasterAddr(SrcOf(f.modeId))) ==>
      OnRecv(cfg, s, f, stale) == Step(s, [])
    ensures f.msgObj == MSGOBJ_RECV_DOOR_A && !s.readers[READER_A_IDX].enabled ==>
      OnRecv(cfg, s, f, stale) == Step(s, [])
    ensures f.msgObj == MSGOBJ_RECV_DOOR_B && !s.readers[READER_B_IDX].enabled ==>
      OnRecv(cfg, s, f, stale) == Step(s, [])
    ensures && (f.msgObj == MSGOBJ_RECV_DOOR_A || f.msgObj == MSGOBJ_RECV_DOOR_B)
            && FcOf(f.modeId) !in {FC_USER_AUTH_RESP, FC_USER_NOT_AUTH_RESP, FC_LEARN_USER_OK, FC_DOOR_CTRL}
            ==> OnRecv(cfg, s, f, stale) == Step(s, [])
    ensures OnRecv(cfg, s, f, stale).state.actMaster != s.actMaster ==> f.msgObj == MSGOBJ_RECV_BCAST
  {
  }

  /**
   * USER_AUTH_RESP for an enabled reader unlocks it and, with caching on, caches the
   * user with that reader's bit; USER_NOT_AUTH_RESP never unlocks and caches the user
   * with no reader. Neither changes the globals.
   */
  lemma AuthResponses(cfg: Config, s: State, f: RxFrame, idx: nat, stale: seq<Byte>)
    requires WellFormed(s) && |f.data| == 8 && |stale| == 4
    requires idx < READER_MAXCOUNT && s.readers[idx].enabled
    ensures var r := OnReaderFrame(cfg, s, f, idx, stale);
      var id := ReceivedUserId(f.data, f.dlc, stale);
      && (FcOf(f.modeId) == FC_USER_AUTH_RESP ==>
            r == Step(s, [Unlock(idx)] + (if cfg.caching then [CacheInsert(StaticCache.Item(id, MapReaderIdxToCache(idx)))] else [])))
      && (FcOf(f.modeId) == FC_USER_NOT_AUTH_RESP ==>
            r.state == s && Unlock(idx) !in r.effects
            && r.effects == (if cfg.caching then [CacheInsert(StaticCache.Item(id, CACHE_READER_NONE))] else []))
  {
  }

  /**
   * DOOR_CTRL for an enabled reader: REMOTE_UNLCK unlocks whatever the learn mode and
   * master; LEARN_MODE / NORMAL_MODE set or clear that reader's learn mode only and
   * signal; CLR_CACHE only raises the request (with caching on); other bytes do nothing.
   */
  lemma DoorCommands(cfg: Config, s: State, cmd: Byte, idx: nat)
    requires WellFormed(s) && idx < READER_MAXCOUNT
    ensures cmd == DATA_DOOR_CTRL_REMOTE_UNLCK ==> DoorCtrl(cfg, s, cmd, idx) == Step(s, [Unlock(idx)])
    ensures cmd == DATA_DOOR_CTRL_LEARN_MODE || cmd == DATA_DOOR_CTRL_NORMAL_MODE ==>
      var r := DoorCtrl(cfg, s, cmd, idx);
      && r.effects == [Signal(idx)]
      && r.state.readers[idx].learnMode == (cmd == DATA_DOOR_CTRL_LEARN_MODE)
      && r.state.readers[idx].enabled == s.readers[idx].enabled
      && r.state.readers[1 - idx] == s.readers[1 - idx]
      && r.state == s.(readers := r.state.readers)
    ensures cmd == DATA_DOOR_CTRL_CLR_CACHE ==>
      DoorCtrl(cfg, s, cmd, idx) == Step(s.(cacheClearReq := cfg.caching || s.cacheClearReq), [])
    ensures cmd !in {DATA_DOOR_CTRL_REMOTE_UNLCK, DATA_DOOR_CTRL_CLR_CACHE,
                     DATA_DOOR_CTRL_LEARN_MODE, DATA_DOOR_CTRL_NORMAL_MODE} ==>
      DoorCtrl(cfg, s, cmd, idx) == Step(s, [])
  {
  }

  // ---------------------------------------------------------------------------
  // Messages to the master.

  /** The identifier the terminal sends: the extended flag, then prio, fc, dst and src under their masks. */
  function RequestHead(src: bv16, dst: bv16, fc: bv32, prio: bv32): bv32
  {
    Pack(Head(src as bv32, dst as bv32, fc, prio, 1))
  }

  /** The identifier carries the extended flag and reads back the ten-bit addresses, fc and prio. */
  lemma RequestHeadFields(src: bv16, dst: bv16, fc: bv32, prio: bv32)
    requires fc < 64 && prio < 8
    ensures Unpack(RequestHead(src, dst, fc, prio)) == Head(src as bv32 & 0x3FF, dst as bv32 & 0x3FF, fc, prio, 1)
    ensures RequestHead(src, dst, fc, prio) & MSGOBJ_EXT == MSGOBJ_EXT
  {
    UnpackPackTruncates(Head(src as bv32, dst as bv32, fc, prio, 1));
  }

  function ReaderAddr(cfg: Config, idx: nat): bv16
  {
    if idx == READER_A_IDX then cfg.readerA else cfg.readerB
  }

  function SendObj(idx: nat): nat
  {
    if idx == READER_A_IDX then MSGOBJ_SEND_DOOR_A else MSGOBJ_SEND_DOOR_B
  }

  /**
   * The shape shared by terminal_send_door_status, terminal_request_auth and
   * terminal_request_user_learn: nothing while no master is active, else one frame
   * from the reader's address to the master on the reader's send object.
   */
  function SendToMaster(cfg: Config, master: bv16, idx: nat, fc: bv32, prio: bv32, payload: seq<Byte>): seq<Effect>
  {
    if master == NO_MASTER then []
    else if idx == READER_A_IDX then
      [Send(SendOnce(MSGOBJ_SEND_DOOR_A, RequestHead(cfg.readerA, master, fc, prio), payload, |payload|))]
    else if idx == READER_B_IDX then
      [Send(SendOnce(MSGOBJ_SEND_DOOR_B, RequestHead(cfg.readerB, master, fc, prio), payload, |payload|))]
    else []
  }

  /** terminal_send_door_status: one status byte, OPEN or CLOSED. */
  function DoorStatusMessage(cfg: Config, master: bv16, idx: nat, isOpen: bool): seq<Effect>
  {
    SendToMaster(cfg, master, idx, FC_DOOR_STATUS, PRIO_DOOR_STATUS,
      [if isOpen then DATA_DOOR_STATUS_OPEN else DATA_DOOR_STATUS_CLOSED])
  }

  /** terminal_request_auth: the user id as four little-endian bytes. */
  function AuthRequest(cfg: Config, master: bv16, userId: nat, idx: nat): seq<Effect>
  {
    SendToMaster(cfg, master, idx, FC_USER_AUTH_REQ, PRIO_USER_AUTH_REQ, LittleEndianBytes(userId, 4))
  }

  /** terminal_request_user_learn: the user id as four little-endian bytes. */
  function LearnRequest(cfg: Config, master: bv16, userId: nat, idx: nat): seq<Effect>
  {
    SendToMaster(cfg, master, idx, FC_LEARN_USER, PRIO_LEARN_USER, LittleEndianBytes(userId, 4))
  }

  /**
   * Without a master nothing is sent. With one, exactly one frame goes out on the
   * reader's send object, addressed from the reader to the master with the given fc
   * and prio, carrying the whole payload (at most 8 bytes).
   */
  lemma SendToMasterFrame(cfg: Config, master: bv16, idx: nat, fc: bv32, prio: bv32, payload: seq<Byte>)
    requires fc < 64 && prio < 8 && |payload| <= DLC_MAX
    ensures master == NO_MASTER || idx >= READER_MAXCOUNT ==> SendToMaster(cfg, master, idx, fc, prio, payload) == []
    ensures master != NO_MASTER && idx < READER_MAXCOUNT ==>
      var e := SendToMaster(cfg, master, idx, fc, prio, payload);
      && |e| == 1 && e[0].Send?
      && e[0].frame.msgObj == SendObj(idx)
      && Unpack(e[0].frame.modeId) == Head(ReaderAddr(cfg, idx) as bv32 & 0x3FF, master as bv32 & 0x3FF, fc, prio, 1)
      && e[0].frame.dlc == |payload| && e[0].frame.data == payload
  {
    RequestHeadFields(ReaderAddr(cfg, idx), master, fc, prio);
  }

  /** The three senders use the function codes and priorities of the protocol tables. */
  lemma SendersFollowTables(cfg: Config, master: bv16, userId: nat, idx: nat, isOpen: bool)
    ensures DoorStatusMessage(cfg, master, idx, isOpen)
      == SendToMaster(cfg, master, idx, 0x5, 0x4, [if isOpen then 0x02 else 0x01])
    ensures AuthRequest(cfg, master, userId, idx)
      == SendToMaster(cfg, master, idx, 0x1, 0x2, LittleEndianBytes(userId, 4))
    ensures LearnRequest(cfg, master, userId, idx)
      == SendToMaster(cfg, master, idx, 0x7, 0x2, LittleEndianBytes(userId, 4))
  {
  }

  // ---------------------------------------------------------------------------
  // Identified credentials.

  /**
   * terminal_user_identified for `userId` on reader `idx`; `cached` is the answer
   * static_cache_get gives for that user (consulted only with caching on and no master).
   */
  function Identified(cfg: Config, s: State, userId: nat, idx: nat, cached: Option<nat>): seq<Effect>
    requires WellFormed(s)
  {
    if idx < READER_MAXCOUNT && s.readers[idx].enabled then
      if s.readers[idx].learnMode then LearnRequest(cfg, s.actMaster, userId, idx)
      else if cfg.caching then
        (if s.actMaster == NO_MASTER && cached.Some? && CacheAllows(cached.value, idx) then [Unlock(idx)] else [])
      else AuthRequest(cfg, s.actMaster, userId, idx)
    else []
  }

  /**
   * The identification policy: nothing for a disabled or unknown reader; a learn
   * request in learn mode; an auth request with caching off; with caching on, an
   * unlock exactly when no master is active and the cached value allows the reader,
   * and otherwise nothing at all — in particular no auth request while a master is active.
   */
  lemma IdentifiedPolicy(cfg: Config, s: State, userId: nat, idx: nat, cached: Option<nat>)
    requires WellFormed(s)
    ensures !(idx < READER_MAXCOUNT && s.readers[idx].enabled) ==> Identified(cfg, s, userId, idx, cached) == []
    ensures idx < READER_MAXCOUNT && s.readers[idx].enabled && s.readers[idx].learnMode ==>
      Identified(cfg, s, userId, idx, cached) == LearnRequest(cfg, s.actMaster, userId, idx)
    ensures idx < READER_MAXCOUNT && s.readers[idx].enabled && !s.readers[idx].learnMode && !cfg.caching ==>
      Identified(cfg, s, userId, idx, cached) == AuthRequest(cfg, s.actMaster, userId, idx)
    ensures idx < READER_MAXCOUNT && s.readers[idx].enabled && !s.readers[idx].learnMode && cfg.caching ==>
      && (Unlock(idx) in Identified(cfg, s, userId, idx, cached) <==>
            s.actMaster == NO_MASTER && cached.Some? && CacheAllows(cached.value, idx))
      && (s.actMaster != NO_MASTER ==> Identified(cfg, s, userId, idx, cached) == [])
  {
  }

  /** With caching on, identification never sends an auth request. */
  lemma CachingSendsNoAuthRequest(cfg: Config, s: State, userId: nat, idx: nat, cached: Option<nat>)
    requires WellFormed(s) && cfg.caching
    ensures forall e :: e in Identified(cfg, s, userId, idx, cached) ==>
      !(e.Send? && FcOf(e.frame.modeId) == FC_USER_AUTH_REQ)
  {
    if idx < READER_MAXCOUNT && s.readers[idx].enabled && s.readers[idx].learnMode && s.actMaster != NO_MASTER {
      SendToMasterFrame(cfg, s.actMaster, idx, FC_LEARN_USER, PRIO_LEARN_USER, LittleEndianBytes(userId, 4));
    }
  }

  // ---------------------------------------------------------------------------
  // The task loop.

  /**
   * What reader_get_request_from_buffer returned in one poll (a reader index, or an
   * out-of-range index when nothing arrived) with the user id, and the cache's answer
   * for that user.
   */
  datatype Request = Request(readerIdx: nat, userId: nat, cached: Option<nat>)

  /** The poll for reader slot i: skipped for a disabled reader, handled for an enabled requester. */
  function ServeOne(cfg: Config, s: State, r: Request, i: nat): seq<Effect>
    requires WellFormed(s) && i < READER_MAXCOUNT
  {
    if !s.readers[i].enabled then []
    else if r.readerIdx < READER_MAXCOUNT && s.readers[r.readerIdx].enabled then
      Identified(cfg, s, r.userId, r.readerIdx, r.cached)
    else []
  }

  /** The first n polls of the request loop. */
  function ServeRequests(cfg: Config, s: State, requests: seq<Request>, n: nat): seq<Effect>
    requires WellFormed(s) && n <= |requests| && n <= READER_MAXCOUNT
  {
    if n == 0 then [] else ServeRequests(cfg, s, requests, n - 1) + ServeOne(cfg, s, requests[n - 1], n - 1)
  }

  /** The door-status check for reader idx: a changed door flips its flag and is reported. */
  function ScanOne(cfg: Config, t: State, doorOpen: seq<bool>, idx: nat): (r: Step)
    requires WellFormed(t) && |doorOpen| == READER_MAXCOUNT && idx < READER_MAXCOUNT
    ensures WellFormed(r.state) && r.state == t.(lastDoorState := r.state.lastDoorState)
  {
    if t.readers[idx].enabled && doorOpen[idx] != t.lastDoorState[idx] then
      var t' := t.(lastDoorState := t.lastDoorState[idx := !t.lastDoorState[idx]]);
      Step(t', DoorStatusMessage(cfg, t'.actMaster, idx, t'.lastDoorState[idx]))
    else Step(t, [])
  }

  /** The first n readers of the door-status loop. */
  function ScanDoors(cfg: Config, s: State, doorOpen: seq<bool>, n: nat): (r: Step)
    requires WellFormed(s) && |doorOpen| == READER_MAXCOUNT && n <= READER_MAXCOUNT
    ensures WellFormed(r.state) && r.state == s.(lastDoorState := r.state.lastDoorState)
  {
    if n == 0 then Step(s, [])
    else
      var prev := ScanDoors(cfg, s, doorOpen, n - 1);
      var next := ScanOne(cfg, prev.state, doorOpen, n - 1);
      Step(next.state, prev.effects + next.effects)
  }

  /** One reader's check syncs its flag with the door when enabled and reports a change. */
  lemma ScanOneSyncs(cfg: Config, t: State, doorOpen: seq<bool>, idx: nat)
    requires WellFormed(t) && |doorOpen| == READER_MAXCOUNT && idx < READER_MAXCOUNT
    ensures var r := ScanOne(cfg, t, doorOpen, idx);
      && r.state.lastDoorState == t.lastDoorState[idx := if t.readers[idx].enabled then doorOpen[idx] else t.lastDoorState[idx]]
      && r.effects == (if t.readers[idx].enabled && doorOpen[idx] != t.lastDoorState[idx]
                       then DoorStatusMessage(cfg, t.actMaster, idx, doorOpen[idx]) else [])
  {
  }

  /** The delay that stretches an iteration to USER_REQUEST_MIN_PERIOD_MS. */
  function PeriodDelay(elapsed: nat): (e: seq<Effect>)
    ensures elapsed < USER_REQUEST_MIN_PERIOD_MS <==> e != []
    ensures e != [] ==> e == [Delay(USER_REQUEST_MIN_PERIOD_MS - elapsed)] && elapsed + e[0].ms == 1000
  {
    if elapsed < USER_REQUEST_MIN_PERIOD_MS then [Delay(USER_REQUEST_MIN_PERIOD_MS - elapsed)] else []
  }

  /** One loop iteration's new globals, new door-status counter (a uint8) and calls. */
  datatype Iteration = Iteration(state: State, counter: nat, effects: seq<Effect>)

  /**
   * The first part of a terminal_task iteration: poll both readers, service a pending
   * cache clear, and wait out the minimum period. `elapsed` is the processing time.
   */
  function Prelude(cfg: Config, s: State, requests: seq<Request>, elapsed: nat): (r: Step)
    requires WellFormed(s) && |requests| == READER_MAXCOUNT
    ensures WellFormed(r.state)
  {
    var clear := cfg.caching && s.cacheClearReq;
    Step(if clear then s.(cacheClearReq := false) else s,
         ServeRequests(cfg, s, requests, READER_MAXCOUNT) + (if clear then [CacheReset] else []) + PeriodDelay(elapsed))
  }

  /**
   * One iteration of terminal_task: the prelude, then every SEND_DOOR_STATUS_RATE
   * iterations a report of changed doors; `doorOpen` is what reader_is_door_open answers.
   */
  function LoopIteration(cfg: Config, s: State, counter: nat, requests: seq<Request>,
                         elapsed: nat, doorOpen: seq<bool>): Iteration
    requires WellFormed(s) && |requests| == READER_MAXCOUNT && |doorOpen| == READER_MAXCOUNT
  {
    var pre := Prelude(cfg, s, requests, elapsed);
    if counter == SEND_DOOR_STATUS_RATE then
      var scan := ScanDoors(cfg, pre.state, doorOpen, READER_MAXCOUNT);
      Iteration(scan.state, 1, pre.effects + scan.effects)
    else Iteration(pre.state, (counter + 1) % 256, pre.effects)
  }

  /**
   * After the door scan every enabled reader's flag equals its door state and every
   * disabled reader's flag is unchanged. With no master nothing is reported; with one,
   * a reader is reported (with its new state) exactly when its flag changed.
   */
  lemma ScanDoorsSyncs(cfg: Config, s: State, doorOpen: seq<bool>)
    requires WellFormed(s) && |doorOpen| == READER_MAXCOUNT
    ensures var r := ScanDoors(cfg, s, doorOpen, READER_MAXCOUNT);
      && (forall i :: 0 <= i < READER_MAXCOUNT ==>
            r.state.lastDoorState[i] == (if s.readers[i].enabled then doorOpen[i] else s.lastDoorState[i]))
      && r.effects ==
           (if s.readers[0].enabled && doorOpen[0] != s.lastDoorState[0]
            then DoorStatusMessage(cfg, s.actMaster, 0, doorOpen[0]) else [])
         + (if s.readers[1].enabled && doorOpen[1] != s.lastDoorState[1]
            then DoorStatusMessage(cfg, s.actMaster, 1, doorOpen[1]) else [])
      && (s.actMaster == NO_MASTER ==> r.effects == [])
  {
    var r1 := ScanDoors(cfg, s, doorOpen, 1);
    assert r1 == ScanOne(cfg, s, doorOpen, 0) by {
      assert ScanDoors(cfg, s, doorOpen, 0) == Step(s, []);
    }
    ScanOneSyncs(cfg, s, doorOpen, 0);
    ScanOneSyncs(cfg, r1.state, doorOpen, 1);
  }

  /** The counter the task loop starts with. */
  const INITIAL_COUNTER: nat := SEND_DOOR_STATUS_RATE

  /** The counter after k iterations from c. */
  function CounterAfter(c: nat, k: nat): nat
    decreases k
  {
    if k == 0 then c else CounterAfter(if c == SEND_DOOR_STATUS_RATE then 1 else (c + 1) % 256, k - 1)
  }

  /**
   * The door-status counter stays in 1..5 and never wraps; the doors are scanned on
   * the first iteration and then on every fifth one.
   */
  lemma {:induction false} DoorStatusCadence(c: nat, k: nat)
    requires 1 <= c <= SEND_DOOR_STATUS_RATE
    decreases k
    ensures 1 <= CounterAfter(c, k) <= SEND_DOOR_STATUS_RATE
    ensures CounterAfter(c, k) == (c - 1 + k) % SEND_DOOR_STATUS_RATE + 1
  {
    if k > 0 {
      var c' := if c == SEND_DOOR_STATUS_RATE then 1 else (c + 1) % 256;
      CadenceStep(c, k);
      DoorStatusCadence(c', k - 1);
      assert CounterAfter(c, k) == CounterAfter(c', k - 1);
    }
  }

  /** One iteration moves the counter one place round the cycle 1..5. */
  lemma CadenceStep(c: nat, k: nat)
    requires 1 <= c <= SEND_DOOR_STATUS_RATE && k >= 1
    ensures var c' := if c == SEND_DOOR_STATUS_RATE then 1 else (c + 1) % 256;
      && 1 <= c' <= SEND_DOOR_STATUS_RATE
      && (c' - 1 + (k - 1)) % SEND_DOOR_STATUS_RATE == (c - 1 + k) % SEND_DOOR_STATUS_RATE
  {
    if c == SEND_DOOR_STATUS_RATE {
      var x: int := k - 1;
      assert (x + SEND_DOOR_STATUS_RATE) % SEND_DOOR_STATUS_RATE == x % SEND_DOOR_STATUS_RATE;
    }
  }

  /** The iteration's counter is the one CounterAfter describes, and the scan runs exactly when it is 5. */
  lemma IterationCounter(cfg: Config, s: State, counter: nat, requests: seq<Request>, elapsed: nat, doorOpen: seq<bool>)
    requires WellFormed(s) && |requests| == READER_MAXCOUNT && |doorOpen| == READER_MAXCOUNT
    requires 1 <= counter <= SEND_DOOR_STATUS_RATE
    ensures var it := LoopIteration(cfg, s, counter, requests, elapsed, doorOpen);
      && it.counter == CounterAfter(counter, 1)
      && (counter != SEND_DOOR_STATUS_RATE ==> it.state.lastDoorState == s.lastDoorState)
      && it.state.actMaster == s.actMaster && it.state.masterTimeout == s.masterTimeout
      && it.state.readers == s.readers
      && it.state.cacheClearReq == (s.cacheClearReq && !cfg.caching)
      && (cfg.caching && s.cacheClearReq <==> CacheReset in it.effects)
  {
    var served := ServeRequests(cfg, s, requests, READER_MAXCOUNT);
    ServedEffects(cfg, s, requests, READER_MAXCOUNT);
    var it := LoopIteration(cfg, s, counter, requests, elapsed, doorOpen);
    var s1 := if cfg.caching && s.cacheClearReq then s.(cacheClearReq := false) else s;
    if counter == SEND_DOOR_STATUS_RATE {
      var scan := ScanDoors(cfg, s1, doorOpen, READER_MAXCOUNT);
      ScanEffects(cfg, s1, doorOpen, READER_MAXCOUNT);
      assert it.effects == served + (if cfg.caching && s.cacheClearReq then [CacheReset] else []) + PeriodDelay(elapsed) + scan.effects;
    }
  }

  /** The request loop only ever sends or unlocks. */
  predicate RequestEffect(e: Effect)
  {
    e.Send? || e.Unlock?
  }

  lemma {:induction false} ServedEffects(cfg: Config, s: State, requests: seq<Request>, n: nat)
    requires WellFormed(s) && n <= |requests| && n <= READER_MAXCOUNT
    ensures forall e :: e in ServeRequests(cfg, s, requests, n) ==> RequestEffect(e)
  {
    if n > 0 {
      ServedEffects(cfg, s, requests, n - 1);
    }
  }

  lemma {:induction false} ScanEffects(cfg: Config, s: State, doorOpen: seq<bool>, n: nat)
    requires WellFormed(s) && |doorOpen| == READER_MAXCOUNT && n <= READER_MAXCOUNT
    ensures forall e :: e in ScanDoors(cfg, s, doorOpen, n).effects ==> e.Send?
  {
    if n > 0 {
      ScanEffects(cfg, s, doorOpen, n - 1);
    }
  }

  /** terminal_reconfigure: an out-of-range index is ignored; a new configuration is stored and applied. */
  function Reconfigured(s: State, conf: Option<ReaderConf>, idx: nat): (r: Step)
    requires WellFormed(s)
    ensures WellFormed(r.state)
    ensures idx >= READER_MAXCOUNT ==> r == Step(s, [])
    ensures idx < READER_MAXCOUNT ==> r.effects == [ReaderInit(idx)] || r.effects == [ReaderDeinit(idx)]
    ensures idx < READER_MAXCOUNT && conf.Some? ==>
      && r.state == s.(readers := s.readers[idx := conf.value])
      && (r.effects[0].ReaderInit? <==> conf.value.enabled)
    ensures conf.None? ==> r.state == s
    ensures idx < READER_MAXCOUNT && conf.None? ==> r.effects == [ReaderInit(idx)]
  {
    if idx >= READER_MAXCOUNT then Step(s, [])
    else match conf
      case Some(c) => Step(s.(readers := s.readers[idx := c]), [if c.enabled then ReaderInit(idx) else ReaderDeinit(idx)])
      case None => Step(s, [ReaderInit(idx)])
  }

  // ---------------------------------------------------------------------------
  // Master liveness over time.

  /** The inputs that move the liveness state: a timer expiry, or an ALIVE from a master address. */
  datatype LivenessEvent = Tick | AliveFrom(src: bv32)

  /** The liveness state after the events in order (ALIVEs from non-master addresses are ignored). */
  function Replay(s: State, evs: seq<LivenessEvent>): State
    decreases |evs|
  {
    if evs == [] then s
    else
      var next := match evs[0]
        case Tick => TimerTick(s).state
        case AliveFrom(src) => if IsMasterAddr(src) then OnAlive(s, src).state else s;
      Replay(next, evs[1..])
  }

  /**
   * A master that announces itself at least once between any two timer expiries stays
   * the active master while no other master address sends ALIVE: after one expiry, any
   * master's ALIVE takes over (MasterTakeover). ALIVEs sent every MASTER_ALIVE_PERIOD_MS meet this against the
   * timer's period of MASTER_ALIVE_TIMEOUT_MS, which is twice as long.
   */
  lemma {:induction false} MasterKeptWhileAlive(s: State, m: bv32, evs: seq<LivenessEvent>)
    requires IsMasterAddr(m) && s.actMaster == m as bv16
    requires forall i :: 0 <= i < |evs| ==> evs[i] == Tick || evs[i] == AliveFrom(m)
    requires forall i :: 0 <= i < |evs| - 1 && evs[i] == Tick ==> evs[i + 1] != Tick
    requires s.masterTimeout && |evs| > 0 ==> evs[0] != Tick
    decreases |evs|
    ensures Replay(s, evs).actMaster == m as bv16
  {
    if evs != [] {
      var next := if evs[0] == Tick then TimerTick(s).state else OnAlive(s, m).state;
      assert Replay(s, evs) == Replay(next, evs[1..]);
      assert next.actMaster == m as bv16;
      assert next.masterTimeout ==> evs[0] == Tick;
      assert forall i :: 0 <= i < |evs[1..]| ==> evs[1..][i] == evs[i + 1];
      MasterKeptWhileAlive(next, m, evs[1..]);
    }
  }

  /** Two timer expiries in a row drop whatever master was active, whatever came before. */
  lemma SilenceDropsMaster(s: State, evs: seq<LivenessEvent>)
    ensures Replay(Replay(s, evs), [Tick, Tick]).actMaster == NO_MASTER
  {
    var t := Replay(s, evs);
    assert Replay(t, [Tick, Tick]) == Replay(TimerTick(t).state, [Tick]);
    assert Replay(TimerTick(t).state, [Tick]) == TimerTick(TimerTick(t).state).state;
    TwoTicksDropMaster(t);
  }

  // ---------------------------------------------------------------------------
  // The globals and the handlers that update them.

  /**
   * The terminal's globals with its collaborators' call log; `doorStatusCounter` is the
   * task's local send_door_status counter (a uint8_t).
   */
  class Controller {
    const cfg: Config
    var actMaster: bv16
    var masterTimeout: bool
    var cacheClearReq: bool
    const lastDoorState: array<bool>
    var readers: seq<ReaderConf>
    var doorStatusCounter: nat
    var log: seq<Effect>

    /** The globals as a State value. */
    ghost function Globals(): State
      reads this, lastDoorState
    {
      State(actMaster, masterTimeout, cacheClearReq, lastDoorState[..], readers)
    }

    ghost predicate Valid()
      reads this, lastDoorState
    {
      lastDoorState.Length == READER_MAXCOUNT && |readers| == READER_MAXCOUNT && doorStatusCounter < 256
    }

    /** The static initialisers: no master, flag set, doors closed, counter at SEND_DOOR_STATUS_RATE. */
    constructor (cfg: Config, readers: seq<ReaderConf>)
      requires |readers| == READER_MAXCOUNT
      ensures Valid() && fresh(lastDoorState)
      ensures Globals() == State(NO_MASTER, true, false, [false, false], readers)
      ensures this.cfg == cfg && doorStatusCounter == INITIAL_COUNTER && log == []
    {
      this.cfg := cfg;
      actMaster := NO_MASTER;
      masterTimeout := true;
      cacheClearReq := false;
      lastDoorState := new bool[READER_MAXCOUNT](_ => false);
      this.readers := readers;
      doorStatusCounter := INITIAL_COUNTER;
      log := [];
      new;
      assert lastDoorState[..] == [false, false];
    }

    /** _timer_callback. */
    method TimerCallback()
      requires Valid()
      modifies this
      ensures Valid() && doorStatusCounter == old(doorStatusCounter)
      ensures Globals() == TimerTick(old(Globals())).state
      ensures log == old(log) + TimerTick(old(Globals())).effects
    {
      if masterTimeout {
        actMaster := NO_MASTER;
        log := log + [StatusLed(false)];
      }
      masterTimeout := true;
    }

    /** term_can_recv for the frame `f`; `stale` is the user id's unwritten bytes. */
    method CanRecv(f: RxFrame, stale: seq<Byte>)
      requires Valid() && |f.data| == 8 && |stale| == 4
      modifies this
      ensures Valid() && doorStatusCounter == old(doorStatusCounter)
      ensures Globals() == OnRecv(cfg, old(Globals()), f, stale).state
      ensures log == old(log) + OnRecv(cfg, old(Globals()), f, stale).effects
    {
      var fc := FcOf(f.modeId);
      var src := SrcOf(f.modeId);
      var readerIdx: nat;
      if f.msgObj == MSGOBJ_RECV_DOOR_A {
        readerIdx := READER_A_IDX;
      } else if f.msgObj == MSGOBJ_RECV_DOOR_B {
        readerIdx := READER_B_IDX;
      } else if f.msgObj == MSGOBJ_RECV_BCAST {
        if fc == FC_ALIVE && src >= MSTR_FIRST_ADDR && src <= MSTR_LAST_ADDR {
          if masterTimeout {
            actMaster := src as bv16;
            log := log + [StatusLed(true)];
            cacheClearReq := true;
          }
          masterTimeout := false;
        }
        return;
      } else {
        return;
      }

      if readerIdx >= READER_MAXCOUNT || !readers[readerIdx].enabled {
        return;
      }

      if fc == FC_USER_AUTH_RESP {
        log := log + [Unlock(readerIdx)];
        if cfg.caching {
          var userId := ReceivedUserId(f.data, f.dlc, stale);
          log := log + [CacheInsert(StaticCache.Item(userId, MapReaderIdxToCache(readerIdx)))];
        }
      } else if fc == FC_USER_NOT_AUTH_RESP {
        if cfg.caching {
          var userId := ReceivedUserId(f.data, f.dlc, stale);
          log := log + [CacheInsert(StaticCache.Item(userId, CACHE_READER_NONE))];
        }
      } else if fc == FC_LEARN_USER_OK {
        log := log + [Signal(readerIdx)];
      } else if fc == FC_DOOR_CTRL {
        var cmd := f.data[0];
        if cmd == DATA_DOOR_CTRL_REMOTE_UNLCK {
          log := log + [Unlock(readerIdx)];
        } else if cmd == DATA_DOOR_CTRL_CLR_CACHE {
          if cfg.caching {
            cacheClearReq := true;
          }
        } else if cmd == DATA_DOOR_CTRL_NORMAL_MODE {
          readers := readers[readerIdx := readers[readerIdx].(learnMode := false)];
          log := log + [Signal(readerIdx)];
        } else if cmd == DATA_DOOR_CTRL_LEARN_MODE {
          readers := readers[readerIdx := readers[readerIdx].(learnMode := true)];
          log := log + [Signal(readerIdx)];
        }
      }
    }

    /**
     * The body shared by the three senders: drop the message while no master is
     * active, else send it from reader `idx`'s address on its send object.
     */
    method SendToActiveMaster(idx: nat, fc: bv32, prio: bv32, payload: seq<Byte>)
      requires Valid()
      modifies this
      ensures Valid() && Globals() == old(Globals()) && doorStatusCounter == old(doorStatusCounter)
      ensures log == old(log) + SendToMaster(cfg, actMaster, idx, fc, prio, payload)
    {
      if actMaster == NO_MASTER {
        return;
      }
      if idx == READER_A_IDX {
        var head := RequestHead(cfg.readerA, actMaster, fc, prio);
        log := log + [Send(SendOnce(MSGOBJ_SEND_DOOR_A, head, payload, |payload|))];
      } else if idx == READER_B_IDX {
        var head := RequestHead(cfg.readerB, actMaster, fc, prio);
        log := log + [Send(SendOnce(MSGOBJ_SEND_DOOR_B, head, payload, |payload|))];
      }
    }

    /** terminal_send_door_status. */
    method SendDoorStatus(idx: nat, isOpen: bool)
      requires Valid()
      modifies this
      ensures Valid() && Globals() == old(Globals()) && doorStatusCounter == old(doorStatusCounter)
      ensures log == old(log) + DoorStatusMessage(cfg, actMaster, idx, isOpen)
    {
      var status := if isOpen then DATA_DOOR_STATUS_OPEN else DATA_DOOR_STATUS_CLOSED;
      SendToActiveMaster(idx, FC_DOOR_STATUS, PRIO_DOOR_STATUS, [status]);
    }

    /** terminal_request_auth. */
    method RequestAuth(userId: nat, idx: nat)
      requires Valid()
      modifies this
      ensures Valid() && Globals() == old(Globals()) && doorStatusCounter == old(doorStatusCounter)
      ensures log == old(log) + AuthRequest(cfg, actMaster, userId, idx)
    {
      SendToActiveMaster(idx, FC_USER_AUTH_REQ, PRIO_USER_AUTH_REQ, LittleEndianBytes(userId, 4));
    }

    /** terminal_request_user_learn. */
    method RequestUserLearn(userId: nat, idx: nat)
      requires Valid()
      modifies this
      ensures Valid() && Globals() == old(Globals()) && doorStatusCounter == old(doorStatusCounter)
      ensures log == old(log) + LearnRequest(cfg, actMaster, userId, idx)
    {
      SendToActiveMaster(idx, FC_LEARN_USER, PRIO_LEARN_USER, LittleEndianBytes(userId, 4));
    }

    /** terminal_user_identified; `cached` is static_cache_get's answer for the user. */
    method UserIdentified(userId: nat, idx: nat, cached: Option<nat>)
      requires Valid()
      modifies this
      ensures Valid() && Globals() == old(Globals()) && doorStatusCounter == old(doorStatusCounter)
      ensures log == old(log) + Identified(cfg, Globals(), userId, idx, cached)
    {
      if idx < READER_MAXCOUNT && readers[idx].enabled {
        if readers[idx].learnMode {
          RequestUserLearn(userId, idx);
        } else if cfg.caching {
          if actMaster == NO_MASTER && cached.Some? {
            if CacheAllows(cached.value, idx) {
              log := log + [Unlock(idx)];
            }
          }
        } else {
          RequestAuth(userId, idx);
        }
      }
    }

    /** The request loop of terminal_task: one poll per enabled reader slot. */
    method ServePending(requests: seq<Request>)
      requires Valid() && |requests| == READER_MAXCOUNT
      modifies this
      ensures Valid() && Globals() == old(Globals()) && doorStatusCounter == old(doorStatusCounter)
      ensures log == old(log) + ServeRequests(cfg, old(Globals()), requests, READER_MAXCOUNT)
    {
      for i := 0 to READER_MAXCOUNT
        invariant Valid() && Globals() == old(Globals()) && doorStatusCounter == old(doorStatusCounter)
        invariant log == old(log) + ServeRequests(cfg, old(Globals()), requests, i)
      {
        if readers[i].enabled {
          var r := requests[i];
          if r.readerIdx < READER_MAXCOUNT && readers[r.readerIdx].enabled {
            UserIdentified(r.userId, r.readerIdx, r.cached);
          }
        }
      }
    }

    /** The door-status loop of terminal_task: flip and report every enabled reader whose door changed. */
    method ReportDoorChanges(doorOpen: seq<bool>)
      requires Valid() && |doorOpen| == READER_MAXCOUNT
      modifies this, lastDoorState
      ensures Valid() && doorStatusCounter == old(doorStatusCounter)
      ensures Globals() == ScanDoors(cfg, old(Globals()), doorOpen, READER_MAXCOUNT).state
      ensures log == old(log) + ScanDoors(cfg, old(Globals()), doorOpen, READER_MAXCOUNT).effects
    {
      for idx := 0 to READER_MAXCOUNT
        invariant Valid() && doorStatusCounter == old(doorStatusCounter)
        invariant Globals() == ScanDoors(cfg, old(Globals()), doorOpen, idx).state
        invariant log == old(log) + ScanDoors(cfg, old(Globals()), doorOpen, idx).effects
      {
        CheckDoor(doorOpen, idx);
      }
    }

    /** One pass of the door-status loop: reader `idx`'s flag follows a changed door, which is reported. */
    method CheckDoor(doorOpen: seq<bool>, idx: nat)
      requires Valid() && |doorOpen| == READER_MAXCOUNT && idx < READER_MAXCOUNT
      modifies this, lastDoorState
      ensures Valid() && doorStatusCounter == old(doorStatusCounter)
      ensures Globals() == ScanOne(cfg, old(Globals()), doorOpen, idx).state
      ensures log == old(log) + ScanOne(cfg, old(Globals()), doorOpen, idx).effects
    {
      if readers[idx].enabled && doorOpen[idx] != lastDoorState[idx] {
        lastDoorState[idx] := !lastDoorState[idx];
        SendDoorStatus(idx, lastDoorState[idx]);
      }
    }

    /** The part of a terminal_task iteration before the door check. */
    method ServeAndWait(requests: seq<Request>, elapsed: nat)
      requires Valid() && |requests| == READER_MAXCOUNT
      modifies this
      ensures Valid() && doorStatusCounter == old(doorStatusCounter)
      ensures Globals() == Prelude(cfg, old(Globals()), requests, elapsed).state
      ensures log == old(log) + Prelude(cfg, old(Globals()), requests, elapsed).effects
    {
      ServePending(requests);
      if cfg.caching && cacheClearReq {
        cacheClearReq := false;
        log := log + [CacheReset];
      }
      if elapsed < USER_REQUEST_MIN_PERIOD_MS {
        log := log + [Delay(USER_REQUEST_MIN_PERIOD_MS - elapsed)];
      }
    }

    /**
     * One iteration of the terminal_task loop: `requests[i]` is what the i-th poll of
     * reader_get_request_from_buffer returned, `elapsed` the processing time and
     * `doorOpen` what reader_is_door_open reports.
     */
    method TaskIteration(requests: seq<Request>, elapsed: nat, doorOpen: seq<bool>)
      requires Valid() && |requests| == READER_MAXCOUNT && |doorOpen| == READER_MAXCOUNT
      modifies this, lastDoorState
      ensures Valid()
      ensures var it := LoopIteration(cfg, old(Globals()), old(doorStatusCounter), requests, elapsed, doorOpen);
        && Globals() == it.state && doorStatusCounter == it.counter
        && log == old(log) + it.effects
    {
      ServeAndWait(requests, elapsed);
      if doorStatusCounter == SEND_DOOR_STATUS_RATE {
        doorStatusCounter := 0;
        ReportDoorChanges(doorOpen);
      }
      doorStatusCounter := (doorStatusCounter + 1) % 256;
    }

    /** terminal_reconfigure; `conf` is None for a NULL configuration. */
    method Reconfigure(conf: Option<ReaderConf>, idx: nat)
      requires Valid()
      modifies this
      ensures Valid() && doorStatusCounter == old(doorStatusCounter)
      ensures Globals() == Reconfigured(old(Globals()), conf, idx).state
      ensures log == old(log) + Reconfigured(old(Globals()), conf, idx).effects
    {
      if idx >= READER_MAXCOUNT {
        return;
      }
      if conf.Some? {
        readers := readers[idx := conf.value];
        if readers[idx].enabled {
          log := log + [ReaderInit(idx)];
        } else {
          log := log + [ReaderDeinit(idx)];
        }
      } else {
        log := log + [ReaderInit(idx)];
      }
    }
  }
}
