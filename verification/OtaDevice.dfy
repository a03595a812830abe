/** The handlers of zbhci/zbhciCmdProcess.c as they are written: they update the session
    record in place, loop over sectors and bytes, patch the receive buffer and program the
    flash. Each is proved to take exactly the step OtaSession gives for it. */
module OtaDevice {
  import opened Words
  import opened Flash
  import opened OtaSession
  import opened OtaInvariant

  class Device {
    const L: Layout
    const flash: FlashDevice

    // hci_ota_info_t
    var flashAddrStart: nat
    var fileTotalSize: nat
    var fileOffset: nat
    var crcValue: u32
    const bootFlag: array<byte>
    var findBootFlag: bool
    var processStart: bool
    var blockRequestCnt: nat
    var binType: byte

    var timer: Timer
    var sent: seq<Msg>
    ghost var log: seq<FlashOp>

    constructor (L: Layout, flash: FlashDevice)
      ensures this.L == L && this.flash == flash && fresh(bootFlag) && bootFlag.Length == 4
      ensures State() == OtaSession.State(flash.mem, ZERO_INFO, NoTimer, [], [])
    {
      this.L, this.flash := L, flash;
      flashAddrStart, fileTotalSize, fileOffset, crcValue := 0, 0, 0, 0;
      bootFlag := new byte[4](_ => 0);
      findBootFlag, processStart, blockRequestCnt, binType := false, false, 0, 0;
      timer, sent, log := NoTimer, [], [];
      new;
      assert bootFlag[..] == [0, 0, 0, 0];
    }

    ghost function Record(): Info
      reads this, bootFlag
    {
      Info(flashAddrStart, fileTotalSize, fileOffset, crcValue, bootFlag[..], findBootFlag,
           processStart, blockRequestCnt, binType)
    }

    ghost function State(): OtaSession.State
      reads this, flash, bootFlag
    {
      OtaSession.State(flash.mem, Record(), timer, sent, log)
    }

    /** zbhciTx. */
    method Transmit(m: Msg)
      modifies this`sent
      ensures State() == Send(old(State()), m)
    {
      sent := sent + [m];
    }

    method Erase(addr: nat)
      requires L.sector > 0
      modifies flash, this`log
      ensures State() == DoOp(L, old(State()), FlashOp.Erase(addr))
    {
      flash.EraseSector(L.sector, addr);
      log := log + [FlashOp.Erase(addr)];
    }

    method EraseFor(bytes: nat)
      requires L.sector > 0
      modifies flash, this`log
      ensures State() == EraseRun(L, old(State()), old(flashAddrStart), Sectors(L, bytes))
    {
      hide Erased, Applied;
      var sectorNumUsed := bytes / L.sector + 1;
      var i := 0;
      while i < sectorNumUsed
        invariant 0 <= i <= sectorNumUsed
        invariant State() == EraseRun(L, old(State()), flashAddrStart, i)
      {
        Erase(flashAddrStart + i * L.sector);
        i := i + 1;
      }
    }

    method ClearRecord()
      requires bootFlag.Length == 4
      modifies this`flashAddrStart, this`fileTotalSize, this`fileOffset, this`crcValue, this`findBootFlag,
               this`processStart, this`blockRequestCnt, this`binType, bootFlag
      ensures State() == old(State()).(info := ZERO_INFO)
    {
      forall k | 0 <= k < 4 {
        bootFlag[k] := 0;
      }
      assert bootFlag[..] == [0, 0, 0, 0];
      flashAddrStart, fileTotalSize, fileOffset, crcValue := 0, 0, 0, 0;
      findBootFlag, processStart, blockRequestCnt, binType := false, false, 0, 0;
    }

    /** uart_send_ota_end. */
    method SendOtaEnd(status: Status)
      requires L.sector > 0 && bootFlag.Length == 4
      modifies this, flash, bootFlag
      ensures State() == SendEnd(L, old(State()), status)
    {
      Transmit(End(fileTotalSize, fileOffset, status));
      if status != Success {
        EraseFor(fileOffset);
      }
      ClearRecord();
    }

    /** uart_send_ota_block_request. */
    method SendBlockRequest()
      requires fileOffset <= fileTotalSize
      modifies this`sent
      ensures State() == Send(old(State()), BlockReq(old(fileOffset), RequestLen(old(Record()))))
    {
      var nextBlockLen: nat;
      if fileTotalSize - fileOffset >= BLOCK_MAX {
        nextBlockLen := BLOCK_MAX;
      } else {
        nextBlockLen := fileTotalSize - fileOffset;
      }
      Transmit(BlockReq(fileOffset, nextBlockLen));
    }

    /** recv_ota_block_response_cb; the timer runs on when `again`. */
    method BlockTimer() returns (again: bool)
      requires L.sector > 0 && bootFlag.Length == 4 && fileOffset <= fileTotalSize
      modifies this, flash, bootFlag
      ensures State() == RetryStep(L, old(State()))
      ensures again <==> old(blockRequestCnt) < RETRY_MAX
    {
      hide EraseRun, SendEnd;
      var count := blockRequestCnt;
      blockRequestCnt := blockRequestCnt + 1;
      if count < RETRY_MAX {
        SendBlockRequest();
        again := true;
      } else {
        SendOtaEnd(GetBlockTimeout);
        timer := NoTimer;
        again := false;
      }
    }

    /** hci_send_ota_start_rsponse. */
    method SendStartResponse(status: Status)
      modifies this`sent
      ensures State() == Send(old(State()), Answer(old(Record()), status))
    {
      Transmit(StartRsp(flashAddrStart, fileTotalSize, fileOffset, status));
    }

    /** Erase the slot and fill in the record of a new session. */
    method OpenSession(bin: Option<byte>)
      requires L.sector > 0
      modifies this, flash
      ensures var info := old(Record()).(binType := if bin.Some? then bin.value else REMOTE_BIN,
                              offset := 0, processStart := true, findBootFlag := false,
                              requestCnt := 0, crc := CRC_INIT);
              var erased := EraseRun(L, old(State()), info.start, Sectors(L, info.total));
              State() == erased.(info := info, timer := RetryTimer)
    {
      hide EraseRun, Sectors;
      BeginRecord(bin);
      ghost var info := Record();
      EraseFor(fileTotalSize);
      EraseIgnoresInfo(L, old(State()), info, flashAddrStart, Sectors(L, fileTotalSize));
      ArmSession();
    }

    method BeginRecord(bin: Option<byte>)
      modifies this`binType, this`fileOffset, this`processStart
      ensures State() == old(State()).(info := old(Record()).(
                binType := if bin.Some? then bin.value else REMOTE_BIN, offset := 0, processStart := true))
    {
      binType := REMOTE_BIN;
      if bin.Some? {
        binType := bin.value;
      }
      fileOffset := 0;
      processStart := true;
    }

    method ArmSession()
      modifies this`findBootFlag, this`blockRequestCnt, this`crcValue, this`timer
      ensures State() == old(State()).(
                info := old(Record()).(findBootFlag := false, requestCnt := 0, crc := CRC_INIT), timer := RetryTimer)
    {
      findBootFlag := false;
      blockRequestCnt := 0;
      crcValue := CRC_INIT;
      timer := RetryTimer;
    }

    /** ZBHCI_CMD_OTA_START_REQUEST. */
    method StartRequest(total: u32, bin: Option<byte>)
      requires L.sector > 0 && |flash.mem| > 0
      modifies this, flash
      ensures State() == StartStep(L, old(State()), total, bin)
    {
      hide BootAddr, Read4, EraseRun;
      var status := Success;
      if !processStart {
        var bootAddr := BootAddr(L, flash.mem);
        if bootAddr == NO_BOOT {
          status := BootAddrError;
        } else {
          flashAddrStart := if bootAddr != 0 then 0 else L.otaAddr;
          fileTotalSize := total;
          if fileTotalSize < L.imageMax {
            EraseIgnoresInfo(L, old(State()), Record(), flashAddrStart, Sectors(L, total));
            OpenSession(bin);
          } else {
            status := FileOversize;
          }
        }
      } else {
        status := InProgress;
      }
      SendStartResponse(status);
    }

    /** xcrc32 over the first `len` bytes. */
    method Crc32(buf: array<byte>, len: nat, init: u32) returns (crc: u32)
      requires len <= buf.Length
      ensures crc == Fold(L.crcStep, buf[..len], init)
    {
      crc := init;
      var i := 0;
      while i < len
        invariant 0 <= i <= len
        invariant crc == Fold(L.crcStep, buf[..i], init)
      {
        assert buf[..i + 1][..i] == buf[..i];
        crc := (L.crcStep)(crc, buf[i]);
        i := i + 1;
      }
    }

    /** is_valid_fw_flag. */
    method IsValidFwFlag(addr: nat) returns (valid: bool)
      requires |flash.mem| > 0
      ensures valid <==> Read4(flash.mem, addr + L.flagAt) == FLAG_CHECK
    {
      valid := Read4(flash.mem, addr + L.flagAt) == FLAG_CHECK;
    }

    /** The search for the start-up word in a remote block; true if it is found and matches. */
    method ScanBootFlag(offset: nat, block: array<byte>, len: nat) returns (matched: bool)
      requires bootFlag.Length == 4 && len < block.Length && bootFlag != block && !findBootFlag
      modifies this`findBootFlag, bootFlag
      ensures bootFlag[..] == FlagBytes(L, old(bootFlag[..]), offset, block[..len])
      ensures findBootFlag <==> offset <= L.flagAt + 3 < offset + len
      ensures matched <==> findBootFlag && bootFlag[..] == FLAG_WHOLE
    {
      matched := false;
      var i := 0;
      ghost var known := bootFlag[..];
      assert bootFlag[..] == FlagBytes(L, known, offset, block[..0]);
      while i < len
        invariant 0 <= i <= len && !matched && !findBootFlag
        invariant bootFlag[..] == FlagBytes(L, known, offset, block[..i])
        invariant !(offset <= L.flagAt + 3 < offset + i)
      {
        if L.flagAt <= offset + i < L.flagAt + 4 {
          bootFlag[offset + i - L.flagAt] := block[i];
          assert bootFlag[..] == FlagBytes(L, known, offset, block[..i + 1]);
          if offset + i - L.flagAt == 3 {
            findBootFlag := true;
            assert bootFlag[..] == FlagBytes(L, known, offset, block[..len]);
            matched := bootFlag[..] == FLAG_WHOLE;
            break;
          }
        } else {
          assert FlagBytes(L, known, offset, block[..i + 1]) == FlagBytes(L, known, offset, block[..i]);
        }
        i := i + 1;
      }
    }

    /** The final test of a complete file; a good local image is started after a delay. */
    method FinalTest() returns (finalStatus: Status)
      requires |flash.mem| > 0
      modifies this`timer
      ensures var good := binType == LOCAL_BIN ==> ImageStored(L, flash.mem, Record());
              && finalStatus == (if good then Success else IncorrectData)
              && timer == if good && binType == LOCAL_BIN then RebootTimer else old(timer)
    {
      hide Read4, Word;
      finalStatus := Success;
      if binType == LOCAL_BIN {
        var crcRecv := Word(Read4(flash.mem, flashAddrStart + fileTotalSize - 4));
        var flagged := IsValidFwFlag(flashAddrStart);
        if crcRecv == crcValue && flagged {
          timer := RebootTimer;
        } else {
          finalStatus := IncorrectData;
        }
      }
    }

    method Store(data: seq<byte>)
      requires CanTake(L, State(), data)
      modifies this`log, flash
      ensures State() == DoOp(L, old(State()), Write(old(flashAddrStart + fileOffset), data))
    {
      hide Programmed;
      var s := flash.Steady();
      var same, pages := flash.WriteWithCheck(flashAddrStart + fileOffset, data, true, _ => s);
      assert data[..|data|] == data;
      log := log + [Write(flashAddrStart + fileOffset, data)];
    }

    /** The end of the block handler: store the block and decide what comes next. */
    method StoreBlock(block: array<byte>, len: nat)
      requires len < block.Length && block != bootFlag && CanTake(L, State(), block[..len])
      modifies this, flash, bootFlag
      ensures State() == Accept(L, old(State()), old(block[..len]))
    {
      hide EraseRun, Programmed, ImageStored, Applied, SendEnd;
      Store(block[..len]);
      fileOffset := fileOffset + len;
      if fileOffset < fileTotalSize {
        blockRequestCnt := 0;
        timer := RetryTimer;
      } else if fileOffset == fileTotalSize {
        var finalStatus := FinalTest();
        SendOtaEnd(finalStatus);
      } else {
        SendOtaEnd(IncorrectOffset);
      }
    }

    /** ZBHCI_CMD_OTA_BLOCK_RESPONSE. `block` is the receive buffer from the block on, which
        reaches at least one byte behind it; a local block's flag byte is erased in it. */
    method BlockResponse(ok: bool, offset: u32, block: array<byte>, len: nat)
      requires len < block.Length && block != bootFlag && CanTake(L, State(), block[..len])
      modifies this, flash, bootFlag, block
      ensures State() == BlockStep(L, old(State()), ok, offset, old(block[..len]), old(block[len]))
    {
      hide EraseRun, Accept, SendEnd;
      if !ok {
        timer := NoTimer;
        SendOtaEnd(IncorrectData);
        return;
      }
      if offset == fileOffset {
        timer := NoTimer;
        if binType == LOCAL_BIN {
          LocalBlockResponse(offset, block, len);
        } else {
          if !findBootFlag {
            var matched := ScanBootFlag(offset, block, len);
            if matched {
              SendOtaEnd(MatchBootFlag);
              return;
            }
          }
          StoreBlock(block, len);
        }
      }
    }

    method LocalBlockResponse(offset: u32, block: array<byte>, len: nat)
      requires len < block.Length && block != bootFlag && CanTake(L, State(), block[..len])
      requires timer == NoTimer && offset == fileOffset && binType == LOCAL_BIN
      modifies this, flash, bootFlag, block
      ensures State() == BlockStep(L, old(State()), true, offset, old(block[..len]), old(block[len]))
    {
      hide EraseRun, Accept, SendEnd, Fold;
      var crcLen: nat := 0;
      if fileTotalSize - fileOffset < 4 {
        crcLen := 0;
      } else if Sub32(fileTotalSize - fileOffset, len) >= 4 {
        crcLen := len;
      } else {
        crcLen := fileTotalSize - fileOffset - 4;
      }
      assert crcLen == CrcLen(Record(), len) <= len;
      assert block[..len][..crcLen] == block[..crcLen];
      crcValue := Crc32(block, crcLen, crcValue);
      ghost var data := block[..len];
      if offset <= L.flagAt && offset + len >= L.flagAt {
        assert (data + [block[len]])[L.flagAt - offset] == block[L.flagAt - offset];
        if block[L.flagAt - offset] != START_FLAG {
          SendOtaEnd(IncorrectData);
          return;
        } else {
          block[L.flagAt - offset] := 0xFF;
        }
      }
      assert block[..len] == Patched(L, offset, data);
      StoreBlock(block, len);
    }

    /** One flag byte, read back. */
    method WriteFlag(addr: nat, x: byte) returns (same: bool)
      requires L.sector > 0 && addr < |flash.mem|
      modifies this`log, flash
      ensures State() == DoOp(L, old(State()), Write(addr, [x]))
      ensures same <==> flash.mem[addr] == x
    {
      hide Programmed;
      var s := flash.Steady();
      var pages: nat;
      same, pages := flash.WriteWithCheck(addr, [x], true, _ => s);
      assert [x][..1] == [x];
      log := log + [Write(addr, [x])];
      assert flash.mem[addr..addr + 1] == [flash.mem[addr]];
    }

    /** local_ota_reboot_delay; `reset` tells whether the device resets, which clears the
        record. */
    method RebootDelay() returns (reset: bool)
      requires L.sector > 0 && L.otaAddr + L.flagAt + 1 <= |flash.mem| && bootFlag.Length == 4
      modifies this, flash, bootFlag
      ensures State() == RebootStep(L, old(State()))
      ensures reset ==> Record() == ZERO_INFO
    {
      hide ImageValid, Read4, Applied;
      reset := false;
      timer := NoTimer;
      var bootAddr := BootAddr(L, flash.mem);
      if bootAddr == NO_BOOT {
        return;
      }
      var newAddr := if bootAddr != 0 then 0 else L.otaAddr;
      if !ImageValid(L, flash.mem, newAddr) {
        return;
      }
      var same := WriteFlag(newAddr + L.flagAt, START_FLAG);
      if same {
        var baseAddr := if bootAddr != 0 then L.otaAddr else 0;
        var cleared := WriteFlag(baseAddr + L.flagAt, 0);
        reset := true;
        ClearRecord();
      }
    }
  }
}
