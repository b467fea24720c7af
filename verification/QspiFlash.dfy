/** The banked QSPI flash read (LAB_2/hdf/qspi.c): QspiAccess copies a range of the flat
    space into memory, one 4 KB buffer at a time, switching banks and chips on the way. */
module QspiFlash {
  import opened Bytes
  import opened Xstatus
  import opened QspiSpace
  import opened QspiTransfers
  import opened QspiProgress
  import opened QspiHistory

  datatype FlashMake = Micron | Macronix | Spansion | Winbond | Issi

  /** One data transfer: the chip-relative address and length asked for, the chip
      selected, and the bank registers of both chips at that moment. */
  datatype Read = Read(address: nat, length: nat, upper: bool, lowerBank: nat, upperBank: nat)

  const DATA_START: nat := 5 // DATA_OFFSET + DUMMY_SIZE

  /** One call of QspiAccess, seen from its loop. */
  datatype Call = Call(
    board: Board,              // what serves the two halves, and their registers at the start
    stuck: bool,               // a failed read left the upper chip selected
    low: nat,                  // the lower chip's register at the start
    source: nat, length: nat,  // the range
    commands: nat,             // bank commands sent before
    transfers: seq<Read>,      // data transfers made before
    beyond: seq<Byte>,         // memory past the range
    all: seq<Byte>,            // what the call delivers
    end: nat)                  // data transfers made when it has delivered

  class Controller {
    const mode: Connection
    const make: FlashMake
    const linear: bool                  // LinearBootDeviceFlag
    const lower: seq<Byte>
    const upper: seq<Byte>
    const commandFails: nat -> bool     // does the k-th bank command fail on the bus?
    const dataFails: nat -> bool        // does the k-th data transfer fail on the bus?
    const readBuffer: array<Byte>

    var lowerBank: nat
    var upperBank: nat
    var upperSelected: bool             // the U_PAGE bit of the LQSPI configuration
    var commands: nat                   // bank commands sent so far
    var dataReads: nat                  // data transfers made so far
    ghost var transfers: seq<Read>          // every data transfer, in order

    ghost predicate Valid()
      reads this
    {
      && IsFlash(mode, lower, upper)
      && readBuffer.Length == DATA_SIZE + DATA_START
      && lowerBank < BankOf(|lower|)
      && (!mode.Single? ==> upperBank < BankOf(|lower|))
      && (upperSelected ==> mode.Stacked?)
      && dataReads == |transfers|
    }

    /** Makes with a bank-select command in SendBankSelect. */
    predicate HasBankSelect() {
      make.Micron? || make.Macronix? || make.Spansion?
    }

    ghost predicate CommandsWork(from: nat, to: nat) {
      forall k | from <= k < to :: !commandFails(k)
    }

    ghost predicate DataWorks(from: nat, to: nat) {
      forall k | from <= k < to :: !dataFails(k)
    }

    constructor (mode: Connection, make: FlashMake, linear: bool, lower: seq<Byte>, upper: seq<Byte>,
                 commandFails: nat -> bool, dataFails: nat -> bool)
      requires IsFlash(mode, lower, upper)
      ensures Valid() && fresh(readBuffer)
      ensures this.mode == mode && this.make == make && this.linear == linear
      ensures this.lower == lower && this.upper == upper
      ensures this.commandFails == commandFails && this.dataFails == dataFails
      ensures lowerBank == upperBank == commands == dataReads == 0 && !upperSelected
      ensures forall j | 0 <= j < readBuffer.Length :: readBuffer[j] == 0
    {
      this.mode, this.make, this.linear := mode, make, linear;
      this.lower, this.upper := lower, upper;
      this.commandFails, this.dataFails := commandFails, dataFails;
      readBuffer := new Byte[DATA_SIZE + DATA_START](_ => 0);
      lowerBank, upperBank, upperSelected, commands, dataReads := 0, 0, false, 0, 0;
      transfers := [];
    }

    /** One polled transfer that carries a bank command. */
    method Command() returns (ok: bool)
      modifies this`commands
      ensures commands == old(commands) + 1
      ensures ok == !commandFails(old(commands))
    {
      ok := !commandFails(commands);
      commands := commands + 1;
    }

    /** The chip takes a bank number: the selected one, or both in parallel mode. */
    method WriteBank(bank: nat)
      requires Valid() && bank < BankOf(|lower|)
      modifies this`lowerBank, this`upperBank
      ensures Valid()
      ensures lowerBank == if upperSelected then old(lowerBank) else bank
      ensures upperBank == if upperSelected || mode.Parallel? then bank else old(upperBank)
    {
      if !upperSelected {
        lowerBank := bank;
      }
      if upperSelected || mode.Parallel? {
        upperBank := bank;
      }
    }

    /** Selects a bank, reads it back and compares.  It reports success exactly when
        none of its transfers failed, and then the register holds the bank. */
    method SendBankSelect(bank: nat) returns (status: Status)
      requires Valid() && HasBankSelect() && bank < BankOf(|lower|)
      modifies this`lowerBank, this`upperBank, this`commands, readBuffer
      ensures Valid()
      ensures old(commands) < commands
      ensures status.Success? ==> commands == old(commands) + if make.Spansion? then 2 else 3
      ensures status.Success? <==> CommandsWork(old(commands), commands)
      ensures status.Success? ==> lowerBank == if upperSelected then old(lowerBank) else bank
      ensures status.Success? ==> upperBank == if upperSelected || mode.Parallel? then bank else old(upperBank)
      ensures forall j | DATA_START <= j < readBuffer.Length :: readBuffer[j] == old(readBuffer[j])
    {
      var ok;
      if make.Micron? || make.Macronix? {
        ok := Command(); // write enable
        if !ok {
          return Failure;
        }
        ok := Command(); // extended address register write
        if !ok {
          return Failure;
        }
        WriteBank(bank);
      }
      if make.Spansion? {
        ok := Command(); // bank register write
        if !ok {
          return Failure;
        }
        WriteBank(bank);
      }
      ok := Command(); // register read back
      if !ok {
        return Failure;
      }
      readBuffer[1] := (if upperSelected then upperBank else lowerBank) as Byte;
      if readBuffer[1] as nat != bank {
        return Failure;
      }
      return Success;
    }

    /** The data part of the buffer. */
    ghost function Data(): (d: seq<Byte>)
      requires readBuffer.Length == DATA_SIZE + DATA_START
      reads readBuffer
      ensures |d| == DATA_SIZE
    {
      readBuffer[DATA_START..]
    }

    /** The i-th data byte of a transfer that starts at chip address `address`. */
    function Fetch(address: nat, i: nat): Byte
      requires Valid()
      reads this
    {
      if mode.Parallel? then
        if i % 2 == 0 then ChipByte(lower, lowerBank, address + i / 2)
        else ChipByte(upper, upperBank, address + i / 2)
      else if upperSelected then ChipByte(upper, upperBank, address + i)
      else ChipByte(lower, lowerBank, address + i)
    }

    /** Every data transfer in [from, to) fails. */
    ghost predicate DataDies(from: nat, to: nat) {
      forall k | from <= k < to :: dataFails(k)
    }

    /** Sends only the low 24 bits of the address.  A failed transfer leaves the buffer
        as it was and is not reported. */
    method FlashRead(address: nat, count: nat)
      requires Valid() && count <= DATA_SIZE
      modifies this`dataReads, this`transfers, readBuffer
      ensures Valid()
      ensures dataReads == old(dataReads) + 1
      ensures transfers == old(transfers) + [Read(address, count, upperSelected, lowerBank, upperBank)]
      ensures !dataFails(old(dataReads)) ==>
                forall i | 0 <= i < count :: readBuffer[DATA_START + i] == Fetch(address, i)
      ensures dataFails(old(dataReads)) ==> readBuffer[..] == old(readBuffer[..])
      ensures forall i | 0 <= i < readBuffer.Length && !(DATA_START <= i < DATA_START + count) ::
                readBuffer[i] == old(readBuffer[i])
    {
      if !dataFails(dataReads) {
        forall i | 0 <= i < count {
          readBuffer[DATA_START + i] := Fetch(address, i);
        }
      }
      dataReads := dataReads + 1;
      transfers := transfers + [Read(address, count, upperSelected, lowerBank, upperBank)];
    }

    // -------------------------------------------------------------------------------
    // A call and its loop
    // -------------------------------------------------------------------------------

    /** The address its loop begins with, as a byte of the flat space. */
    function From(w: Call): (from: nat)
      ensures from <= w.source && (mode.Parallel? ==> from % 2 == 0)
    {
      Source(mode, w.source)
    }

    /** The board fits the controller.  With the upper chip left selected that chip serves both
        halves of the space, and its register carries over from the first to the second. */
    ghost predicate IsCall(w: Call) {
      && w.board.mode == mode && IsFlash(mode, w.board.lower, w.board.upper) && |w.board.lower| == |lower|
      && Registers(mode, |lower|, w.board.lb, w.board.ub)
      && From(w) + w.length <= FlashSize(mode, |lower|)
      && if w.stuck then mode.Stacked? && w.board == StuckBoard(upper, w.board.lb, From(w))
         else w.board.lower == lower && w.board.upper == upper && w.low == w.board.lb
    }

    /** Where every transfer of a read must lie: inside the 4 KB buffer, inside one
        bank, and with each register holding the bank it held or was given. */
    ghost predicate Placed(t: Read, w: Call) {
      var lb, ub := w.board.lb, w.board.ub;
      && 0 < t.length <= DATA_SIZE
      && (t.upper ==> mode.Stacked?) && (w.stuck ==> t.upper)
      && (if mode.Parallel?
          then InsideOneBank(t.address, (t.length + 1) / 2) && t.upperBank == HeldBank(ub, t.address)
          else InsideOneBank(t.address, t.length))
      && (if t.upper then t.upperBank == HeldBank(ub, t.address) || (w.stuck && t.upperBank == HeldBank(lb, t.address))
          else t.lowerBank == HeldBank(lb, t.address))
    }

    ghost predicate AllPlaced(ts: seq<Read>, w: Call) {
      forall k | 0 <= k < |ts| :: Placed(ts[k], w)
    }

    /** The register at the head of the loop, next address `a` of a run that began at
        `start`: the one that served the last byte, or the entry value before any. */
    ghost predicate Tracks(register: nat, entry: nat, start: nat, a: nat) {
      register == if a <= start then entry else HeldBank(entry, a - 1)
    }

    /** The U_PAGE step: an address in the upper half selects the upper chip and is made
        relative.  Nothing selects the lower chip again. */
    method SelectChip(address: nat) returns (a: nat)
      requires Valid()
      modifies this`upperSelected
      ensures Valid()
      ensures if mode.Stacked? && address >= |lower|
              then upperSelected && a == address - |lower|
              else upperSelected == old(upperSelected) && a == address
    {
      a := address;
      if mode.Stacked? {
        if a >= FlashSize(mode, |lower|) / 2 {
          upperSelected := true;
          a := a - FlashSize(mode, |lower|) / 2;
        }
      }
    }

    /** Chip address `a` is logical address `logical`, and the chip that serves it, both in
        parallel mode, is selected and switched to its bank. */
    ghost predicate Serves(w: Call, a: nat, logical: nat)
      reads this`lowerBank, this`upperBank, this`upperSelected
    {
      var lb, ub := w.board.lb, w.board.ub;
      match mode
      case Parallel => !upperSelected && logical == 2 * a && lowerBank == HeldBank(lb, a) && upperBank == HeldBank(ub, a)
      case Single => !upperSelected && logical == a && lowerBank == HeldBank(lb, a)
      case Stacked =>
        if logical >= |lower| then
          upperSelected && logical == |lower| + a && upperBank == HeldBank(ub, a)
        else
          upperSelected == w.stuck && logical == a && (if w.stuck then upperBank else lowerBank) == HeldBank(lb, a)
    }

    lemma FetchIsObserved(w: Call, a: nat, i: nat, chunk: nat, logical: nat)
      requires Valid() && IsCall(w) && Serves(w, a, logical)
      requires i < chunk && InsideOneBank(a, ChipSpan(mode, chunk)) && logical + chunk <= FlashSize(mode, |lower|)
      ensures Fetch(a, i) == Observed(mode, w.board.lower, w.board.upper, w.board.lb, w.board.ub, logical + i)
    {
      var k := if mode.Parallel? then i / 2 else i;
      var lb, ub := w.board.lb, w.board.ub;
      SameBank(a, k);
      assert HeldBank(lb, a + k) == HeldBank(lb, a) && HeldBank(ub, a + k) == HeldBank(ub, a);
      if mode.Parallel? {
        assert (logical + i) % 2 == i % 2 && (logical + i) / 2 == a + i / 2;
      }
    }

    /** The lower chip's register once the upper half is read. */
    ghost function Frozen(w: Call): nat {
      if w.stuck then w.low else if From(w) < |lower| then HeldBank(w.low, |lower| - 1) else w.low
    }

    /** Chip, registers and flag at the head of the loop, `done` bytes into the call. */
    ghost predicate AtHead(w: Call, done: nat, a: nat, switchBank: bool)
      reads this`lowerBank, this`upperBank, this`upperSelected
    {
      var from, lb, ub := From(w), w.board.lb, w.board.ub;
      && done <= w.length
      && (done < w.length && !switchBank ==>
            && 0x1000000 <= a && a % 0x1000000 != 0
            && (upperSelected || mode.Parallel? ==> upperBank == BankOf(a))
            && (!upperSelected ==> lowerBank == BankOf(a)))
      && match mode
         case Parallel =>
           && !upperSelected && a == (from + done) / 2
           && (done < w.length ==>
                 done % 2 == 0 && Tracks(lowerBank, lb, from / 2, a) && Tracks(upperBank, ub, from / 2, a))
         case Single =>
           && !upperSelected && a == from + done && upperBank == ub && Tracks(lowerBank, lb, from, a)
         case Stacked =>
           if upperSelected && |lower| + a == from + done then
             && a > (if from > |lower| then from - |lower| else 0)
             && Tracks(upperBank, ub, if from > |lower| then from - |lower| else 0, a)
             && lowerBank == Frozen(w)
           else
             && upperSelected == w.stuck && a == from + done && (done > 0 ==> a <= |lower|)
             && if w.stuck then lowerBank == w.low && Tracks(upperBank, lb, from, a)
                else upperBank == ub && Tracks(lowerBank, lb, from, a)
    }

    /** As AtHead, after chip and bank are selected for the next chunk. */
    ghost predicate Ready(w: Call, done: nat, a: nat, switchBank: bool)
      reads this`lowerBank, this`upperBank, this`upperSelected
    {
      var from := From(w);
      && done < w.length
      && Serves(w, a, from + done)
      && (switchBank <==> a < 0x1000000)
      && (mode.Parallel? ==> done % 2 == 0)
      && (mode.Single? ==> upperBank == w.board.ub)
      && (mode.Stacked? ==>
            if from + done < |lower| then if w.stuck then lowerBank == w.low else upperBank == w.board.ub
            else a >= (if from > |lower| then from - |lower| else 0) && lowerBank == Frozen(w))
    }

    /** Selects the chip and, when the flag asks for it, the bank of the next chunk. */
    method Position(ghost w: Call, ghost done: nat, address: nat, flag: bool)
      returns (a: nat, switchBank: bool, status: Status)
      requires Valid() && HasBankSelect() && IsCall(w)
      requires done < w.length && AtHead(w, done, address, flag)
      modifies this`lowerBank, this`upperBank, this`upperSelected, this`commands, readBuffer
      ensures Valid()
      ensures old(commands) <= commands
      ensures status.Success? <==> CommandsWork(old(commands), commands)
      ensures status.Success? ==> Ready(w, done, a, switchBank)
      ensures status.Success? ==> a < |lower| && Serves(w, a, From(w) + done)
      ensures upperSelected <==> w.stuck || (mode.Stacked? && From(w) + done >= |lower|)
      ensures readBuffer[DATA_START..] == old(readBuffer[DATA_START..])
    {
      status, switchBank := Success, flag;
      a := SelectChip(address);
      if a >= 0x1000000 && switchBank {
        status := SendBankSelect(a / 0x1000000);
        switchBank := false;
      }
    }

    /** One chunk further the loop head is reached again. */
    lemma Advance(w: Call, done: nat, a: nat, chunk: nat, switchBank: bool, crossed: bool)
      requires Valid() && IsCall(w) && Ready(w, done, a, switchBank)
      requires 0 < chunk <= w.length - done && InsideOneBank(a, ChipSpan(mode, chunk))
      requires mode.Parallel? && chunk < w.length - done ==> chunk % 2 == 0
      requires crossed <==> (a + Stride(mode, chunk)) % 0x1000000 == 0 && Stride(mode, chunk) > 0
      ensures AtHead(w, done + chunk, a + Stride(mode, chunk), switchBank || crossed)
    {
      var span := Stride(mode, chunk);
      if span > 0 {
        SameBank(a, span - 1);
      }
      if mode.Stacked? && From(w) + done < |lower| {
        assert a < |lower| && |lower| % 0x1000000 == 0;
      }
    }

    /** Reads one chunk into the buffer and copies it to its place. */
    method MoveChunk(ghost w: Call, a: nat, chunk: nat, dst: array<Byte>, at: nat, ghost logical: nat)
      requires Valid() && IsCall(w) && 0 < chunk <= DATA_SIZE && at + chunk <= dst.Length && dst != readBuffer
      requires Serves(w, a, logical) && InsideOneBank(a, ChipSpan(mode, chunk)) && w.board.Covers(logical, chunk)
      modifies this`dataReads, this`transfers, readBuffer, dst
      ensures Valid()
      ensures dataReads == old(dataReads) + 1 && |transfers| == |old(transfers)| + 1
      ensures exists t :: Placed(t, w) && transfers == old(transfers) + [t]
      ensures forall i | 0 <= i < at || at + chunk <= i < dst.Length :: dst[i] == old(dst[i])
      ensures Data() == Landed(w.board.Wanted(logical, chunk), dataFails(old(dataReads)), old(Data()))
      ensures dst[at..at + chunk] == Data()[..chunk]
    {
      FlashRead(a, chunk);
      forall i | 0 <= i < chunk {
        dst[at + i] := readBuffer[DATA_START + i];
      }
      assert dst[at..at + chunk] == Data()[..chunk];
      if dataFails(old(dataReads)) {
        assert Data() == old(Data());
      } else {
        ghost var wanted := w.board.Wanted(logical, chunk);
        forall i | 0 <= i < chunk
          ensures Data()[i] == wanted[i]
        {
          FetchIsObserved(w, a, i, chunk, logical);
          assert Data()[i] == readBuffer[DATA_START + i];
        }
        assert Data()[chunk..] == old(Data())[chunk..];
        assert Data() == wanted + Data()[chunk..];
      }
    }

    /** The chunk computed from the chip address is the next of the schedule. */
    lemma NextIsChunk(w: Call, done: nat, a: nat)
      requires Valid() && IsCall(w) && done < w.length && Serves(w, a, From(w) + done) && a < |lower|
      requires mode.Parallel? ==> done % 2 == 0
      ensures w.board.Covers(From(w) + done, w.length - done)
      ensures var n := w.length - done;
              var size := if n > DATA_SIZE then DATA_SIZE else n;
              a + size < 0x10000000 && w.board.First(From(w) + done, n) == Chunk(mode, a, size).0
    {
      assert ChipAddress(mode, |lower|, From(w) + done) == a;
      hide Chunk;
    }

    /** What a call leaves true so far: its commands worked if `ok`, its transfers lie where they
        must, and memory past the range is as it was. */
    ghost predicate Kept(w: Call, commands: nat, ts: seq<Read>, tail: seq<Byte>, ok: bool) {
      && w.commands <= commands && (ok <==> CommandsWork(w.commands, commands))
      && w.transfers <= ts && AllPlaced(ts[|w.transfers|..], w)
      && tail == w.beyond
    }

    /** Bank commands alone make no transfers. */
    lemma KeptOn(w: Call, c: nat, commands: nat, ts: seq<Read>, tail: seq<Byte>, ok: bool)
      requires Kept(w, c, ts, tail, true) && c <= commands && (ok <==> CommandsWork(c, commands))
      ensures Kept(w, commands, ts, tail, ok) && w.commands <= c
    {
      hide Placed;
    }

    lemma OneRead(w: Call, c: nat, ts: seq<Read>, more: seq<Read>, tail: seq<Byte>)
      requires Kept(w, c, ts, tail, true) && exists t :: Placed(t, w) && more == ts + [t]
      ensures Kept(w, c, more, tail, true)
    {
      hide Placed;
    }

    lemma BroughtIs(b: Board, logical: nat, n: nat, failed: bool, before: seq<Byte>, after: seq<Byte>, bytes: seq<Byte>)
      requires n > 0 && b.Covers(logical, n) && |before| == DATA_SIZE
      requires after == Landed(b.Wanted(logical, b.First(logical, n)), failed, before) && bytes == after[..b.First(logical, n)]
      ensures Brought(b, logical, n, failed, before, after, bytes)
    {
      hide Board.Wanted, Board.First, Landed;
    }

    /** The rest of a turn, once chip and bank are selected: chunk, transfer, copy. */
    method MoveOn(ghost w: Call, address: nat, flag: bool, dst: array<Byte>, done: nat, size: nat)
      returns (a: nat, switchBank: bool, chunk: nat)
      requires Valid() && IsCall(w) && dst != readBuffer && done < w.length <= dst.Length
      requires size == if w.length - done > DATA_SIZE then DATA_SIZE else w.length - done
      requires Ready(w, done, address, flag) && (mode.Parallel? ==> done % 2 == 0)
      requires address < |lower| && Serves(w, address, From(w) + done)
      modifies this`dataReads, this`transfers, readBuffer, dst
      ensures Valid()
      ensures exists t :: Placed(t, w) && transfers == old(transfers) + [t]
      ensures dst[w.length..] == old(dst[w.length..]) && dst[..done] == old(dst[..done])
      ensures 0 < chunk <= w.length - done && dataReads == old(dataReads) + 1
      ensures AtHead(w, done + chunk, a, switchBank)
      ensures Brought(w.board, From(w) + done, w.length - done,
                      dataFails(old(dataReads)), old(Data()), Data(), dst[done..done + chunk])
    {
      hide AtHead, Ready, Placed, Serves, IsCall, Chunk, InsideOneBank, ChipSpan, Brought, Landed,
        Board.Covers, Board.First, Board.Wanted, Source;
      NextIsChunk(w, done, address);
      var (n, crossed) := Chunk(mode, address, size);
      chunk := n;
      MoveChunk(w, address, chunk, dst, done, From(w) + done);
      BroughtIs(w.board, From(w) + done, w.length - done, dataFails(old(dataReads)), old(Data()), Data(), dst[done..done + chunk]);
      Advance(w, done, address, chunk, flag, crossed);
      switchBank := flag || crossed;
      a := address + Stride(mode, chunk);
    }

    /** `done` bytes into the call: the loop head, what has been left true, and that what has
        been delivered makes up all with the rest. */
    ghost predicate InLoop(w: Call, address: nat, flag: bool, dst: array<Byte>, done: nat)
      reads this, readBuffer, dst
    {
      && Valid() && IsCall(w) && done <= w.length <= dst.Length
      && AtHead(w, done, address, flag)
      && Kept(w, commands, transfers, dst[w.length..], true)
      && Progress(w.board, From(w) + done, w.length - done, w.all, w.end, dataFails, dst[..done], dataReads, Data())
    }

    /** Whether a call that was given up leaves the upper chip selected: it does if it began so
        or in the upper half, and only if it began so or reached into the upper half. */
    ghost predicate LeavesSelected(w: Call)
      reads this`upperSelected
    {
      && (upperSelected ==> w.stuck || (mode.Stacked? && w.length > 0 && w.source + w.length > |lower|))
      && (w.stuck || (mode.Stacked? && w.length > 0 && w.source >= |lower|) ==> upperSelected)
    }

    /** A call that was given up. */
    ghost predicate Failed(w: Call, dst: array<Byte>)
      reads this, dst
    {
      Valid() && w.length <= dst.Length && Kept(w, commands, transfers, dst[w.length..], false) && LeavesSelected(w)
    }

    /** One turn of the loop: chip, bank, chunk, transfer, copy. */
    method Turn(ghost w: Call, address: nat, flag: bool, dst: array<Byte>, done: nat, left: nat)
      returns (a: nat, switchBank: bool, chunk: nat, status: Status)
      requires HasBankSelect() && dst != readBuffer && 0 < left && done + left == w.length
      requires InLoop(w, address, flag, dst, done)
      modifies this`lowerBank, this`upperBank, this`upperSelected, this`commands, this`dataReads, this`transfers
      modifies readBuffer, dst
      ensures status.Failure? ==> Failed(w, dst)
      ensures status.Success? ==> 0 < chunk <= left && InLoop(w, a, switchBank, dst, done + chunk)
    {
      hide AtHead, Ready, Placed, AllPlaced, Serves, Kept, Brought, Progress, CommandsWork, IsCall;
      chunk := 0;
      ghost var c, ts, before, k, buffer := commands, transfers, dst[..done], dataReads, Data();
      a, switchBank, status := Position(w, done, address, flag);
      KeptOn(w, c, commands, ts, dst[w.length..], status.Success?);
      if status.Success? {
        a, switchBank, chunk := MoveOn(w, a, switchBank, dst, done, if left > DATA_SIZE then DATA_SIZE else left);
        OneRead(w, commands, ts, transfers, dst[w.length..]);
        ghost var bytes := dst[done..done + chunk];
        ProgressStep(w.board, From(w) + done, left, w.all, w.end, dataFails, before, k, buffer, Data(), bytes);
        assert dst[..done + chunk] == before + bytes;
      }
    }

    /** The loop of a non-linear read. */
    method CopyLoop(ghost w: Call, address: nat, dst: array<Byte>, length: nat)
      returns (ghost a: nat, ghost flag: bool, status: Status)
      requires HasBankSelect() && dst != readBuffer && length == w.length
      requires InLoop(w, address, true, dst, 0)
      modifies this`lowerBank, this`upperBank, this`upperSelected, this`commands, this`dataReads, this`transfers
      modifies readBuffer, dst
      ensures status.Failure? ==> Failed(w, dst)
      ensures status.Success? ==> InLoop(w, a, flag, dst, length)
    {
      hide *;
      var next, left: nat, done: nat, switchBank := address, length, 0, true;
      a, flag, status := next, switchBank, Success;
      while left > 0
        invariant done + left == length && a == next && flag == switchBank && status.Success?
        invariant InLoop(w, next, switchBank, dst, done)
      {
        var chunk;
        next, switchBank, chunk, status := Turn(w, next, switchBank, dst, done, left);
        if status.Failure? {
          return;
        }
        left := left - chunk;
        done := done + chunk;
        a, flag := next, switchBank;
      }
    }

    /** How a call ends: it succeeds exactly when its bank commands work, and then it has made
        the transfers up to its end, delivered all, and left chip and registers as stated; if it
        fails, the upper chip may stay selected. */
    ghost predicate Ended(w: Call, dst: array<Byte>, ok: bool)
      reads this, dst
    {
      && Valid() && w.length <= dst.Length
      && Kept(w, commands, transfers, dst[w.length..], ok)
      && (!ok ==> LeavesSelected(w))
      && (ok ==>
            && w.commands < commands && !upperSelected
            && lowerBank == (if w.stuck then w.low else LowerBankAfter(mode, |lower|, w.low, w.source, w.length))
            && upperBank == (if w.stuck then 0 else UpperBankAfter(mode, |lower|, w.board.ub, w.source, w.length))
            && dataReads == w.end && dst[..w.length] == w.all)
    }

    /** What serves a read from the present state. */
    ghost function Serving(source: nat): (b: Board)
      reads this`lowerBank, this`upperBank, this`upperSelected
    {
      BoardOf(mode, lower, upper, Chips(lowerBank, upperBank, upperSelected), source)
    }

    lemma ServesAll(source: nat, length: nat)
      requires Valid() && source + length <= FlashSize(mode, |lower|)
      ensures Serving(source).Covers(Source(mode, source), length)
    {
    }

    /** The call that begins in the present state. */
    ghost function Begin(source: nat, length: nat, beyond: seq<Byte>): (w: Call)
      requires Valid() && source + length <= FlashSize(mode, |lower|)
      reads this, readBuffer
    {
      ServesAll(source, length);
      var b, from := Serving(source), Source(mode, source);
      Call(b, upperSelected, lowerBank, source, length, commands, transfers, beyond,
           b.Arrival(from, length, dataFails, dataReads, Data()), dataReads + b.Count(from, length))
    }

    lemma LoopStarts(source: nat, address: nat, dst: array<Byte>, length: nat)
      requires Valid() && source + length <= FlashSize(mode, |lower|) && length <= dst.Length
      requires address == if mode.Parallel? then source / 2 else source
      ensures InLoop(Begin(source, length, dst[length..]), address, true, dst, 0)
      ensures Begin(source, length, dst[length..]).length == length
    {
      hide Placed, Board.Arrival, Board.Count;
      var w := Begin(source, length, dst[length..]);
      ServesAll(source, length);
      assert AtHead(w, 0, address, true);
      assert dst[..0] == [];
    }

    lemma FailedEnds(w: Call, dst: array<Byte>)
      requires Failed(w, dst)
      ensures Ended(w, dst, false)
    {
      hide Kept, Valid;
    }

    /** The end of a banked read: bank 0 on the selected chip, and the lower chip selected. */
    method Reset(ghost w: Call, ghost dst: array<Byte>, ghost a: nat, ghost flag: bool) returns (status: Status)
      requires HasBankSelect() && dst != readBuffer
      requires InLoop(w, a, flag, dst, w.length)
      modifies this`lowerBank, this`upperBank, this`upperSelected, this`commands, readBuffer
      ensures Ended(w, dst, status.Success?)
    {
      hide Kept, Progress, Placed, CommandsWork;
      ProgressEnds(w.board, From(w) + w.length, w.all, w.end, dataFails, dst[..w.length], dataReads, Data());
      ghost var c := commands;
      status := SendBankSelect(0);
      if status.Success? && mode.Stacked? {
        upperSelected := false;
      }
      KeptOn(w, c, commands, transfers, dst[w.length..], status.Success?);
    }

    /** The non-linear loop, and the reset after it. */
    method BankedRead(source: nat, dst: array<Byte>, length: nat) returns (status: Status)
      requires Valid() && HasBankSelect() && dst != readBuffer
      requires source + length <= FlashSize(mode, |lower|) && length <= dst.Length
      modifies this`lowerBank, this`upperBank, this`upperSelected, this`commands, this`dataReads, this`transfers
      modifies readBuffer, dst
      ensures Ended(old(Begin(source, length, dst[length..])), dst, status.Success?)
    {
      hide *;
      ghost var w := Begin(source, length, dst[length..]);
      var address := if mode.Parallel? then source / 2 else source;
      LoopStarts(source, address, dst, length);
      ghost var a, flag;
      a, flag, status := CopyLoop(w, address, dst, length);
      if status.Failure? {
        FailedEnds(w, dst);
        return;
      }
      status := Reset(w, dst, a, flag);
    }

    /** What all transfers working, or all failing, makes of a read. */
    lemma DeliveredMeans(b: Board, from: nat, length: nat, k: nat, buffer: seq<Byte>)
      requires b.Covers(from, length) && |buffer| == DATA_SIZE
      ensures var got, to := b.Arrival(from, length, dataFails, k, buffer), k + b.Count(from, length);
              && (DataWorks(k, to) ==> got == b.Wanted(from, length))
              && (DataDies(k, to) ==> forall i | 0 <= i < length :: got[i] in buffer)
    {
      hide Arrives, Schedule, ObservedSlice, BankOf;
      var to := k + b.Count(from, length);
      if DataWorks(k, to) {
        ArrivesWhole(b.mode, b.lower, b.upper, b.lb, b.ub, from, length, dataFails, k, buffer);
      }
      if DataDies(k, to) {
        forall i | 0 <= i < length
          ensures b.Arrival(from, length, dataFails, k, buffer)[i] in buffer
        {
          ArrivesStale(b.mode, b.lower, b.upper, b.lb, b.ub, from, length, dataFails, k, buffer, i);
        }
      }
    }

    /** The copy out of the memory-mapped window. */
    method LinearRead(source: nat, dst: array<Byte>, n: nat)
      requires Valid() && dst != readBuffer && source + n <= FlashSize(mode, |lower|) && n <= dst.Length
      modifies dst
      ensures dst[..n] == FlatSlice(mode, lower, upper, source, n)
      ensures dst[n..] == old(dst[n..])
    {
      forall i | 0 <= i < n {
        dst[i] := Window(source + i);
      }
      assert forall i | 0 <= i < n :: dst[i] == Flat(mode, lower, upper, source + i);
      assert dst[..n] == FlatSlice(mode, lower, upper, source, n);
    }

    /** The whole call, whatever chip is selected: the linear window, or the banked loop. */
    method QspiAccess(source: nat, dst: array<Byte>, length: nat) returns (status: Status)
      requires Valid() && dst != readBuffer
      requires linear || HasBankSelect()
      requires var n := if linear then RoundUp4(length) else length;
               source + n <= FlashSize(mode, |lower|) && n <= dst.Length
      modifies this`lowerBank, this`upperBank, this`upperSelected, this`commands, this`dataReads, this`transfers
      modifies readBuffer, dst
      ensures Valid()
      ensures linear ==>
                && status.Success?
                && dst[..RoundUp4(length)] == FlatSlice(mode, lower, upper, source, RoundUp4(length))
                && lowerBank == old(lowerBank) && upperBank == old(upperBank)
                && commands == old(commands) && transfers == old(transfers)
      ensures linear ==> dst[..length] == FlatSlice(mode, lower, upper, source, length)
      ensures linear ==> upperSelected == old(upperSelected) && dst[RoundUp4(length)..] == old(dst[RoundUp4(length)..])
      ensures !linear ==> Ended(old(Begin(source, length, dst[length..])), dst, status.Success?)
      ensures !linear && status.Success? && DataWorks(old(dataReads), dataReads) ==>
                && old(Serving(source)).Covers(Source(mode, source), length)
                && dst[..length] == old(Serving(source)).Wanted(Source(mode, source), length)
      ensures !linear && status.Success? && DataWorks(old(dataReads), dataReads) && !old(upperSelected) &&
              Faithful(mode, |lower|, old(lowerBank), old(upperBank), source, length) ==>
                dst[..length] == FlatSlice(mode, lower, upper, source, length)
    {
      hide Flat, FlatSlice, Kept, Board.Arrival, Board.Count, ObservedSlice, Faithful, LowerBankAfter, UpperBankAfter, Source, LeavesSelected;
      if linear {
        var n := length;
        if n % 4 != 0 {
          n := n + (4 - n % 4);
        }
        LinearRead(source, dst, n);
        FlatPrefix(mode, lower, upper, source, length, n);
        assert dst[..length] == dst[..n][..length];
        status := Success;
      } else {
        ghost var lb, ub, b := lowerBank, upperBank, Serving(source);
        ServesAll(source, length);
        DeliveredMeans(b, Source(mode, source), length, dataReads, Data());
        if !upperSelected && Faithful(mode, |lower|, lb, ub, source, length) {
          FaithfulSuffices(mode, lower, upper, lb, ub, source, length);
        }
        status := BankedRead(source, dst, length);
      }
    }

    /** The memory-mapped window of a linear flash. */
    function Window(a: nat): Byte
      requires IsFlash(mode, lower, upper) && a < FlashSize(mode, |lower|)
    {
      match mode
      case Single => lower[a]
      case Stacked => if a < |lower| then lower[a] else upper[a - |lower|]
      case Parallel => if a % 2 == 0 then lower[a / 2] else upper[a / 2]
    }
  }

  /** A banked read on a controller whose bank commands work and whose data transfers all fail
      reports success, and delivers only what its buffer held: the commands are checked, the
      transfers are not. */
  method DroppedRead(controller: Controller, source: nat, dst: array<Byte>, length: nat) returns (status: Status)
    requires controller.Valid() && !controller.linear && controller.HasBankSelect()
    requires dst != controller.readBuffer && length <= dst.Length
    requires source + length <= FlashSize(controller.mode, |controller.lower|)
    requires forall k | k >= controller.commands :: !controller.commandFails(k)
    requires forall k | k >= controller.dataReads :: controller.dataFails(k)
    modifies controller`lowerBank, controller`upperBank, controller`upperSelected
    modifies controller`commands, controller`dataReads, controller`transfers
    modifies controller.readBuffer, dst
    ensures status.Success?
    ensures controller.dataReads ==
            old(controller.dataReads) + |Schedule(controller.mode, |controller.lower|, Source(controller.mode, source), length)|
    ensures forall i | 0 <= i < length :: dst[i] in old(controller.Data())
  {
    hide Board.Arrival, ObservedSlice, FlatSlice, Faithful, Schedule, LowerBankAfter, UpperBankAfter, Source;
    controller.ServesAll(source, length);
    controller.DeliveredMeans(controller.Serving(source), Source(controller.mode, source), length, controller.dataReads, controller.Data());
    status := controller.QspiAccess(source, dst, length);
  }

  /** A controller of two stacked chips of 32 MB, the lower one all 0 and the upper all 1, whose
      first bank command fails. */
  ghost predicate Flawed(controller: Controller) {
    && controller.mode.Stacked? && controller.make.Micron? && !controller.linear
    && controller.lower == seq(0x2000000, _ => 0 as Byte) && controller.upper == seq(0x2000000, _ => 1 as Byte)
    && (forall k :: controller.commandFails(k) <==> k == 0) && forall k :: !controller.dataFails(k)
  }

  /** A read in the upper chip's second bank fails, and leaves that chip selected. */
  method FailsInUpper(controller: Controller, dst: array<Byte>) returns (status: Status)
    requires Flawed(controller) && controller.Valid() && controller.commands == 0 && !controller.upperSelected
    requires dst != controller.readBuffer && dst.Length == 1
    modifies controller`lowerBank, controller`upperBank, controller`upperSelected
    modifies controller`commands, controller`dataReads, controller`transfers
    modifies controller.readBuffer, dst
    ensures status.Failure? && controller.Valid() && controller.upperSelected && controller.commands > 0
  {
    hide Board.Arrival, Board.Count, LowerBankAfter, UpperBankAfter, Controller.AllPlaced;
    ghost var w := controller.Begin(0x3000000, 1, dst[1..]);
    status := controller.BankedRead(0x3000000, dst, 1);
    assert controller.commandFails(0) && controller.Ended(w, dst, status.Success?);
  }

  /** A read of address 0 then succeeds and returns the upper chip's byte. */
  method ReadsUpperForLower(controller: Controller, dst: array<Byte>) returns (status: Status)
    requires Flawed(controller) && controller.Valid() && controller.commands > 0 && controller.upperSelected
    requires dst != controller.readBuffer && dst.Length == 1
    modifies controller`lowerBank, controller`upperBank, controller`upperSelected
    modifies controller`commands, controller`dataReads, controller`transfers
    modifies controller.readBuffer, dst
    ensures status.Success? && dst[0] == 1
  {
    hide Board.Arrival, Board.Count, LowerBankAfter, UpperBankAfter, Controller.AllPlaced, Flat, FlatSlice, Faithful, Controller.LeavesSelected;
    status := controller.QspiAccess(0, dst, 1);
    assert dst[..1][0] == dst[0];
  }

  /** Both in turn: a failed read makes the next one return another chip's byte. */
  method ReadsTheWrongChip() returns (first: Status, second: Status, dst: array<Byte>)
    ensures first.Failure? && second.Success? && dst.Length == 1 && dst[0] == 1
  {
    var lower, upper := seq(0x2000000, _ => 0 as Byte), seq(0x2000000, _ => 1 as Byte);
    var controller := new Controller(Stacked, Micron, false, lower, upper, k => k == 0, k => false);
    dst := new Byte[1];
    first := FailsInUpper(controller, dst);
    second := ReadsUpperForLower(controller, dst);
  }
}
