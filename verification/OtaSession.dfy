/** The firmware update session of zbhci/zbhciCmdProcess.c as a state machine: every handler
    is a step from one state to the next. OtaDevice.dfy holds the handlers themselves. */
module OtaSession {
  import opened Words
  import opened Flash

  /** The constants of the flash layout and the per-byte step of xcrc32. */
  datatype Layout = Layout(sector: nat, imageMax: nat, otaAddr: nat, flagAt: nat, size: nat,
                           crcStep: (u32, byte) -> u32)
  {
    /** Sector-aligned disjoint slots at 0 and `otaAddr`, the flag word inside the first
        requested block, and flash behind the second slot. */
    ghost predicate Valid() {
      && 40 <= sector
      && 0 < imageMax && imageMax % sector == 0 && otaAddr % sector == 0
      && imageMax <= otaAddr
      && 0 < flagAt && flagAt + 4 <= 40
      && otaAddr + imageMax + sector + 256 <= size < 0x1_0000_0000
    }
  }

  const BLOCK_MAX: nat := 40
  const RETRY_MAX: nat := 5
  const CRC_INIT: u32 := 0xFFFF_FFFF
  const NO_BOOT: nat := 0xFFFF_FFFF
  const LOCAL_BIN: byte := 1
  const REMOTE_BIN: byte := 0
  const START_FLAG: byte := 0x4B

  /** 0x544c4e4b and 0x544c4eff as they lie in memory. */
  const FLAG_WHOLE: seq<byte> := [0x4B, 0x4E, 0x4C, 0x54]
  const FLAG_CHECK: seq<byte> := [0xFF, 0x4E, 0x4C, 0x54]

  datatype Status = Success | GetBlockTimeout | InProgress | IncorrectOffset | FileOversize
                  | IncorrectData | MatchBootFlag | BootAddrError

  datatype Timer = NoTimer | RetryTimer | RebootTimer

  /** hci_ota_info_t. */
  datatype Info = Info(start: nat, total: nat, offset: nat, crc: u32, bootFlag: seq<byte>,
                       findBootFlag: bool, processStart: bool, requestCnt: nat, binType: byte)

  const ZERO_INFO: Info := Info(0, 0, 0, 0, [0, 0, 0, 0], false, false, 0, 0)

  /** What the device sends to the host. */
  datatype Msg = StartRsp(addr: nat, total: nat, offset: nat, status: Status)
               | BlockReq(offset: nat, len: nat)
               | End(total: nat, offset: nat, status: Status)

  datatype FlashOp = Erase(addr: nat) | Write(addr: nat, data: seq<byte>)

  /** The device: flash contents, RAM record, timer, messages sent and flash operations made. */
  datatype State = State(mem: seq<byte>, info: Info, timer: Timer, sent: seq<Msg>, log: seq<FlashOp>)

  /** What can happen to it. `next` is the byte that follows the block in the receive buffer. */
  datatype Event = Start(total: u32, bin: Option<byte>)
                 | Block(ok: bool, offset: u32, data: seq<byte>, next: byte)
                 | Tick

  // ----- reading and writing flash -----

  /** Reads wrap at the end of the chip. */
  function ByteAt(mem: seq<byte>, addr: int): byte
    requires |mem| > 0
  {
    if 0 <= addr < |mem| then mem[addr] else mem[addr % |mem|]
  }

  function Read4(mem: seq<byte>, addr: int): (w: seq<byte>)
    requires |mem| > 0
    ensures |w| == 4
  {
    [ByteAt(mem, addr), ByteAt(mem, addr + 1), ByteAt(mem, addr + 2), ByteAt(mem, addr + 3)]
  }

  function Four(s: seq<byte>, i: nat): (w: seq<byte>)
    requires i + 4 <= |s|
    ensures |w| == 4
  {
    [s[i], s[i + 1], s[i + 2], s[i + 3]]
  }

  /** A little-endian 32-bit word. */
  function Word(w: seq<byte>): (x: u32)
    requires |w| == 4
  {
    var b0: int, b1: int, b2: int, b3: int := w[0], w[1], w[2], w[3];
    b0 + 0x100 * b1 + 0x1_0000 * b2 + 0x100_0000 * b3
  }

  function Fold(step: (u32, byte) -> u32, data: seq<byte>, init: u32): u32 {
    if data == [] then init else step(Fold(step, data[..|data| - 1], init), data[|data| - 1])
  }

  function Applied(sector: nat, mem: seq<byte>, op: FlashOp): (r: seq<byte>)
    requires sector > 0
    requires op.Write? ==> op.addr + |op.data| <= |mem|
    ensures |r| == |mem|
  {
    match op
    case Erase(a) => Erased(mem, sector, a)
    case Write(a, d) => Programmed(mem, a, d)
  }

  function DoOp(L: Layout, st: State, op: FlashOp): (r: State)
    requires L.sector > 0
    requires op.Write? ==> op.addr + |op.data| <= |st.mem|
    ensures |r.mem| == |st.mem|
  {
    st.(mem := Applied(L.sector, st.mem, op), log := st.log + [op])
  }

  /** How many sectors are erased for `n` bytes. */
  function Sectors(L: Layout, n: nat): nat
    requires L.sector > 0
  {
    n / L.sector + 1
  }

  /** The erase loops: `n` sectors upwards from `start`. */
  function EraseRun(L: Layout, st: State, start: nat, n: nat): (r: State)
    requires L.sector > 0
    ensures |r.mem| == |st.mem|
    ensures r.info == st.info && r.timer == st.timer && r.sent == st.sent
  {
    if n == 0 then st
    else DoOp(L, EraseRun(L, st, start, n - 1), Erase(start + (n - 1) * L.sector))
  }

  /** mcuBootAddrGet: the first slot wins. */
  function BootAddr(L: Layout, mem: seq<byte>): nat
    requires |mem| > 0
  {
    if Read4(mem, L.flagAt) == FLAG_WHOLE then 0
    else if Read4(mem, L.otaAddr + L.flagAt) == FLAG_WHOLE then L.otaAddr
    else NO_BOOT
  }

  function OtherSlot(L: Layout, boot: nat): nat {
    if boot != 0 then 0 else L.otaAddr
  }

  /** ota_newImageValid: the size in the header, the three fixed bytes of the start-up word,
      and the checksum over the image with the first flag byte taken as set. */
  function ImageValid(L: Layout, mem: seq<byte>, base: nat): bool
    requires |mem| > 0
  {
    var size := Word(Read4(mem, base + 0x18));
    && size <= L.imageMax
    && Read4(mem, base + L.flagAt)[1..] == FLAG_WHOLE[1..]
    && Fold(L.crcStep, ImageBody(L, mem, base, size), CRC_INIT) == Word(Read4(mem, base + size - 4))
  }

  function ImageBody(L: Layout, mem: seq<byte>, base: nat, size: nat): (b: seq<byte>)
    requires |mem| > 0
  {
    seq(if size < 4 then 0 else size - 4, i requires 0 <= i => ImageByte(L, mem, base, i))
  }

  function ImageByte(L: Layout, mem: seq<byte>, base: nat, i: nat): byte
    requires |mem| > 0
  {
    if i == L.flagAt then START_FLAG else ByteAt(mem, base + i)
  }

  // ----- the handlers -----

  function Send(st: State, m: Msg): State {
    st.(sent := st.sent + [m])
  }

  function RequestLen(info: Info): (n: nat)
    requires info.offset <= info.total
  {
    if info.total - info.offset >= BLOCK_MAX then BLOCK_MAX else info.total - info.offset
  }

  /** uart_send_ota_end: report, erase what was written unless all went well, forget all. */
  function SendEnd(L: Layout, st: State, status: Status): (r: State)
    requires L.sector > 0
    ensures |r.mem| == |st.mem|
  {
    var told := Send(st, End(st.info.total, st.info.offset, status));
    var cleaned :=
      if status != Success then EraseRun(L, told, st.info.start, Sectors(L, st.info.offset)) else told;
    cleaned.(info := ZERO_INFO)
  }

  /** recv_ota_block_response_cb. */
  function RetryStep(L: Layout, st: State): (r: State)
    requires L.sector > 0 && st.info.offset <= st.info.total
    ensures |r.mem| == |st.mem|
  {
    var counted := st.(info := st.info.(requestCnt := st.info.requestCnt + 1));
    if st.info.requestCnt < RETRY_MAX then
      Send(counted, BlockReq(st.info.offset, RequestLen(st.info)))
    else
      SendEnd(L, counted, GetBlockTimeout).(timer := NoTimer)
  }

  /** ZBHCI_CMD_OTA_START_REQUEST. */
  function StartStep(L: Layout, st: State, total: u32, bin: Option<byte>): (r: State)
    requires L.sector > 0 && |st.mem| > 0
    ensures |r.mem| == |st.mem|
  {
    if st.info.processStart then Send(st, Answer(st.info, InProgress))
    else
      var boot := BootAddr(L, st.mem);
      if boot == NO_BOOT then Send(st, Answer(st.info, BootAddrError))
      else
        var placed := st.info.(start := OtherSlot(L, boot), total := total);
        if total >= L.imageMax then
          Send(st.(info := placed), Answer(placed, FileOversize))
        else
          var session := placed.(binType := if bin.Some? then bin.value else REMOTE_BIN,
                                offset := 0, processStart := true, findBootFlag := false,
                                requestCnt := 0, crc := CRC_INIT);
          var erased := EraseRun(L, st, placed.start, Sectors(L, total));
          Send(erased.(info := session, timer := RetryTimer), Answer(session, Success))
  }

  function Answer(info: Info, status: Status): Msg {
    StartRsp(info.start, info.total, info.offset, status)
  }

  /** Subtraction of unsigned 32-bit numbers. */
  function Sub32(a: int, b: int): u32 {
    (a - b) % 0x1_0000_0000
  }

  /** How many bytes of a block enter the running CRC. */
  function CrcLen(info: Info, len: nat): (n: int)
    requires info.offset <= info.total < 0x1_0000_0000
    ensures len < 0x1000 ==> 0 <= n <= len
  {
    var left := info.total - info.offset;
    if left < 4 then 0
    else if Sub32(left, len) >= 4 then len
    else left - 4
  }

  /** The flag byte lies in the block, or is the byte right behind it. */
  predicate TouchesFlag(L: Layout, offset: nat, len: nat) {
    offset <= L.flagAt <= offset + len
  }

  /** The block as it goes to flash: its boot flag byte erased. */
  function Patched(L: Layout, offset: nat, data: seq<byte>): (d: seq<byte>)
    ensures |d| == |data|
  {
    if offset <= L.flagAt < offset + |data| then data[L.flagAt - offset := 0xFF] else data
  }

  /** The bytes of the start-up word known after a block. */
  function FlagBytes(L: Layout, known: seq<byte>, offset: nat, data: seq<byte>): (f: seq<byte>)
    requires |known| == 4
    ensures |f| == 4
  {
    seq(4, k requires 0 <= k < 4 =>
      if offset <= L.flagAt + k < offset + |data| then data[L.flagAt + k - offset] else known[k])
  }

  /** ZBHCI_CMD_OTA_BLOCK_RESPONSE; the handler does not look whether a session is open. */
  function BlockStep(L: Layout, st: State, ok: bool, offset: u32, data: seq<byte>, next: byte): (r: State)
    requires CanTake(L, st, data)
    ensures |r.mem| == |st.mem|
  {
    var info := st.info;
    var idle := st.(timer := NoTimer);
    if !ok then SendEnd(L, idle, IncorrectData)
    else if offset != info.offset then st
    else if info.binType == LOCAL_BIN then
      var counted := info.(crc := Fold(L.crcStep, data[..CrcLen(info, |data|)], info.crc));
      if TouchesFlag(L, offset, |data|) && (data + [next])[L.flagAt - offset] != START_FLAG then
        SendEnd(L, idle.(info := counted), IncorrectData)
      else
        Accept(L, idle.(info := counted), Patched(L, offset, data))
    else if info.findBootFlag then Accept(L, idle, data)
    else
      var flag := FlagBytes(L, info.bootFlag, offset, data);
      var found := offset <= L.flagAt + 3 < offset + |data|;
      var seen := info.(bootFlag := flag, findBootFlag := found);
      if found && flag == FLAG_WHOLE then SendEnd(L, idle.(info := seen), MatchBootFlag)
      else Accept(L, idle.(info := seen), data)
  }

  /** What keeps a block inside the chip. */
  ghost predicate CanTake(L: Layout, st: State, data: seq<byte>) {
    && L.sector > 0 && |data| < 256 && |st.info.bootFlag| == 4
    && st.info.offset <= st.info.total < 0x1_0000_0000
    && st.info.start + st.info.offset + 256 <= |st.mem|
  }

  /** Store a block and decide what comes next. */
  function Accept(L: Layout, st: State, data: seq<byte>): (r: State)
    requires CanTake(L, st, data)
    ensures |r.mem| == |st.mem|
  {
    var stored := DoOp(L, st, Write(st.info.start + st.info.offset, data));
    var info := st.info.(offset := st.info.offset + |data|);
    if info.offset < info.total then
      stored.(info := info.(requestCnt := 0), timer := RetryTimer)
    else if info.offset == info.total then
      if info.binType == LOCAL_BIN && !ImageStored(L, stored.mem, info) then
        SendEnd(L, stored.(info := info), IncorrectData)
      else
        SendEnd(L, stored.(info := info, timer := if info.binType == LOCAL_BIN then RebootTimer else st.timer), Success)
    else
      SendEnd(L, stored.(info := info), IncorrectOffset)
  }

  /** The final test: the last word is the running CRC, and is_valid_fw_flag. */
  predicate ImageStored(L: Layout, mem: seq<byte>, info: Info)
    requires |mem| > 0
  {
    && Word(Read4(mem, info.start + info.total - 4)) == info.crc
    && Read4(mem, info.start + L.flagAt) == FLAG_CHECK
  }

  /** local_ota_reboot_delay; a reset clears the RAM. */
  function RebootStep(L: Layout, st: State): (r: State)
    requires L.sector > 0 && L.otaAddr + L.flagAt + 1 <= |st.mem|
    ensures |r.mem| == |st.mem|
  {
    var idle := st.(timer := NoTimer);
    var boot := BootAddr(L, st.mem);
    var other := OtherSlot(L, boot);
    if boot == NO_BOOT || !ImageValid(L, st.mem, other) then idle
    else
      var flagged := DoOp(L, idle, Write(other + L.flagAt, [START_FLAG]));
      if flagged.mem[other + L.flagAt] != START_FLAG then flagged
      else DoOp(L, flagged, Write(boot + L.flagAt, [0])).(info := ZERO_INFO)
  }

  // ----- runs -----

  /** An event that can happen. */
  predicate Enabled(st: State, e: Event) {
    match e
    case Start(_, _) => true
    case Block(_, _, data, _) => |data| < 256
    case Tick => st.timer != NoTimer
  }

  /** The record with no session open: zero, but for the start and size that a request refused
      as too large leaves behind. */
  predicate Blank(L: Layout, info: Info) {
    && info == ZERO_INFO.(start := info.start, total := info.total)
    && if info.total == 0 then info.start == 0
       else (info.start == 0 || info.start == L.otaAddr) && L.imageMax <= info.total < 0x1_0000_0000
  }

  ghost predicate InChip(L: Layout, st: State) {
    && L.Valid()
    && |st.mem| == L.size
    && |st.info.bootFlag| == 4
    && (st.info.processStart ==>
          && st.timer == RetryTimer
          && (st.info.start == 0 || st.info.start == L.otaAddr)
          && st.info.offset <= st.info.total < L.imageMax)
    && (!st.info.processStart ==> st.timer != RetryTimer && Blank(L, st.info))
  }

  function Step(L: Layout, st: State, e: Event): (r: State)
    requires InChip(L, st) && Enabled(st, e)
  {
    match e
    case Start(total, bin) => StartStep(L, st, total, bin)
    case Block(ok, offset, data, next) => BlockStep(L, st, ok, offset, data, next)
    case Tick => if st.timer == RetryTimer then RetryStep(L, st) else RebootStep(L, st)
  }
}
