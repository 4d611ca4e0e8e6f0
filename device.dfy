/**
 * The DL485D4 controller: reads and extended writes over the bus, reboot,
 * and the per-channel EEPROM block operations backup, reset and restore.
 * Each operation's effect is stated as the exact sequence of events it
 * adds to the bus log; the lemmas below say what those sequences mean.
 */
module Device {
  import opened Transport
  import Registers

  /** Number of registers in one channel's EEPROM configuration block. */
  const BlockSize: nat := 32

  /** First register of channel `ch`'s EEPROM configuration block. */
  function BlockStart(ch: int): int
  {
    1000 + 100 * ch
  }

  /** Seconds the controller pauses after each answered command. */
  const TimeDelay: real := 0.08

  /** The frame of the device's extended write: function code 6, one register, no bits, unsigned. */
  function WriteFrame(address: int, command: Value, decimalPoint: int): Frame
  {
    Frame(6, address, command, decimalPoint, 1, 0, false)
  }

  /** The events of one `read`: the call, then a pause of the controller's delay only when it answered. */
  function ReadLog(address: int, reply: Value): seq<Event>
  {
    [ReadCall(address, reply)] + (if reply.Word? then [Pause(TimeDelay)] else [])
  }

  /** The events of one `write`: the call, then a pause of the controller's delay only when it was acknowledged. */
  function WriteLog(frame: Frame, acked: bool): seq<Event>
  {
    [CommandCall(frame, acked)] + (if acked then [Pause(TimeDelay)] else [])
  }

  /** What a single event contributes to each view of a log. */
  lemma OneEvent(regs: map<int, int>, e: Event)
    ensures Replies([e]) == if e.ReadCall? then [(e.address, e.reply)] else []
    ensures Commands([e]) == if e.CommandCall? then [(e.frame.address, e.frame.value)] else []
    ensures Pauses([e]) == if e.Pause? then 1 else 0
    ensures Replay(regs, [e]) == Step(regs, e)
  {
    assert [e][..0] == [];
  }

  /** One `read` is one read call, no write call, and a pause exactly when it answered. */
  lemma ReadLogCalls(address: int, reply: Value)
    ensures Replies(ReadLog(address, reply)) == [(address, reply)]
    ensures Commands(ReadLog(address, reply)) == []
    ensures Pauses(ReadLog(address, reply)) == if reply.Word? then 1 else 0
  {
    var tail: seq<Event> := if reply.Word? then [Pause(TimeDelay)] else [];
    OneEvent(map[], ReadCall(address, reply));
    OneEvent(map[], Pause(TimeDelay));
    ViewsAppend([ReadCall(address, reply)], tail);
  }

  /** One `write` is one write call carrying its frame, no read call, and a pause exactly when acknowledged. */
  lemma WriteLogCalls(frame: Frame, acked: bool)
    ensures Commands(WriteLog(frame, acked)) == [(frame.address, frame.value)]
    ensures Replies(WriteLog(frame, acked)) == []
    ensures Pauses(WriteLog(frame, acked)) == if acked then 1 else 0
  {
    var tail: seq<Event> := if acked then [Pause(TimeDelay)] else [];
    OneEvent(map[], CommandCall(frame, acked));
    OneEvent(map[], Pause(TimeDelay));
    ViewsAppend([CommandCall(frame, acked)], tail);
  }

  /** A read leaves the registers alone; a write changes at most its own address, to its scaled word. */
  lemma ReplaySingleCalls(regs: map<int, int>, frame: Frame, acked: bool, address: int, reply: Value)
    ensures Replay(regs, ReadLog(address, reply)) == regs
    ensures Replay(regs, WriteLog(frame, acked)) ==
      if acked && frame.value.Word? && frame.decimals >= 0 then regs[frame.address := Scaled(frame)] else regs
  {
    OneEvent(regs, ReadCall(address, reply));
    OneEvent(regs, Pause(TimeDelay));
    ReplayAppend(regs, [ReadCall(address, reply)], if reply.Word? then [Pause(TimeDelay)] else []);
    var w := Step(regs, CommandCall(frame, acked));
    OneEvent(regs, CommandCall(frame, acked));
    OneEvent(w, Pause(TimeDelay));
    ReplayAppend(regs, [CommandCall(frame, acked)], if acked then [Pause(TimeDelay)] else []);
  }

  /** The events of `backup`: one read per entry, in the entries' order. */
  function BackupLog(data: seq<(int, Value)>): seq<Event>
  {
    if data == [] then []
    else
      var last := data[|data| - 1];
      BackupLog(data[..|data| - 1]) + ReadLog(last.0, last.1)
  }

  /** The events of `reset`: for each address in turn, a write of 0 and then a read. */
  function ResetLog(start: int, acks: seq<bool>, readings: seq<Value>): seq<Event>
    requires |acks| == |readings|
  {
    if acks == [] then []
    else
      var n := |acks| - 1;
      ResetLog(start, acks[..n], readings[..n])
        + WriteLog(WriteFrame(start + n, Word(0), 0), acks[n]) + ReadLog(start + n, readings[n])
  }

  /** The events of `restore`: one write per entry, in the entries' order. */
  function RestoreLog(data: seq<(int, Value)>, acks: seq<bool>): seq<Event>
    requires |data| == |acks|
  {
    if data == [] then []
    else
      var n := |data| - 1;
      RestoreLog(data[..n], acks[..n]) + WriteLog(WriteFrame(data[n].0, data[n].1, 0), acks[n])
  }

  /** A backup's log reads exactly its entries' addresses, in order, getting exactly its entries' values, and writes nothing. */
  lemma {:induction false} BackupLogCalls(data: seq<(int, Value)>)
    ensures Replies(BackupLog(data)) == data
    ensures Commands(BackupLog(data)) == []
  {
    if data != [] {
      var n := |data| - 1;
      BackupLogCalls(data[..n]);
      assert BackupLog(data) == BackupLog(data[..n]) + ReadLog(data[n].0, data[n].1);
      ViewsAppend(BackupLog(data[..n]), ReadLog(data[n].0, data[n].1));
      ReadLogCalls(data[n].0, data[n].1);
      assert data[..n] + [data[n]] == data;
    }
  }

  /** A restore's log writes exactly its entries, in order, skipping none, and reads nothing. */
  lemma {:induction false} RestoreLogCalls(data: seq<(int, Value)>, acks: seq<bool>)
    requires |data| == |acks|
    ensures Commands(RestoreLog(data, acks)) == data
    ensures Replies(RestoreLog(data, acks)) == []
  {
    if data != [] {
      var n := |data| - 1;
      var f := WriteFrame(data[n].0, data[n].1, 0);
      RestoreLogCalls(data[..n], acks[..n]);
      assert RestoreLog(data, acks) == RestoreLog(data[..n], acks[..n]) + WriteLog(f, acks[n]);
      ViewsAppend(RestoreLog(data[..n], acks[..n]), WriteLog(f, acks[n]));
      WriteLogCalls(f, acks[n]);
      assert data[..n] + [data[n]] == data;
    }
  }

  /**
   * A reset's log writes 0 to each address of the block in ascending
   * order, whatever the acknowledgements, and reads each back.
   */
  lemma ResetLogCalls(start: int, acks: seq<bool>, readings: seq<Value>)
    requires |acks| == |readings|
    ensures |Commands(ResetLog(start, acks, readings))| == |acks|
    ensures forall i :: 0 <= i < |acks| ==> Commands(ResetLog(start, acks, readings))[i] == (start + i, Word(0))
    ensures |Replies(ResetLog(start, acks, readings))| == |acks|
    ensures forall i :: 0 <= i < |acks| ==> Replies(ResetLog(start, acks, readings))[i] == (start + i, readings[i])
  {
    ResetCommands(start, acks, readings);
    ResetReplies(start, acks, readings);
  }

  /** One more reset step adds one write call of 0 and one read call at the next address. */
  lemma ResetStepViews(start: int, acks: seq<bool>, readings: seq<Value>)
    requires |acks| == |readings| > 0
    ensures var n := |acks| - 1;
      var pre := ResetLog(start, acks[..n], readings[..n]);
      Commands(ResetLog(start, acks, readings)) == Commands(pre) + [(start + n, Word(0))] &&
      Replies(ResetLog(start, acks, readings)) == Replies(pre) + [(start + n, readings[n])]
  {
    var n := |acks| - 1;
    ResetLogUnfold(start, acks, readings);
    WriteThenRead(ResetLog(start, acks[..n], readings[..n]), WriteFrame(start + n, Word(0), 0), acks[n], start + n, readings[n]);
  }

  /** The write calls of a reset: (start + i, 0) for each step i. */
  lemma {:induction false} ResetCommands(start: int, acks: seq<bool>, readings: seq<Value>)
    requires |acks| == |readings|
    ensures |Commands(ResetLog(start, acks, readings))| == |acks|
    ensures forall i :: 0 <= i < |acks| ==> Commands(ResetLog(start, acks, readings))[i] == (start + i, Word(0))
  {
    if acks != [] {
      ResetCommands(start, acks[..|acks| - 1], readings[..|acks| - 1]);
      ResetStepViews(start, acks, readings);
    }
  }

  /** The read calls of a reset: (start + i, readings[i]) for each step i. */
  lemma {:induction false} ResetReplies(start: int, acks: seq<bool>, readings: seq<Value>)
    requires |acks| == |readings|
    ensures |Replies(ResetLog(start, acks, readings))| == |acks|
    ensures forall i :: 0 <= i < |acks| ==> Replies(ResetLog(start, acks, readings))[i] == (start + i, readings[i])
  {
    if acks != [] {
      var n := |acks| - 1;
      ResetReplies(start, acks[..n], readings[..n]);
      ResetStepViews(start, acks, readings);
      forall i | 0 <= i < n ensures readings[..n][i] == readings[i] {
      }
    }
  }

  /** A non-empty reset's log is that of its first steps, then one write of 0 and one read. */
  lemma ResetLogUnfold(start: int, acks: seq<bool>, readings: seq<Value>)
    requires |acks| == |readings| > 0
    ensures var n := |acks| - 1;
      ResetLog(start, acks, readings) == ResetLog(start, acks[..n], readings[..n])
        + WriteLog(WriteFrame(start + n, Word(0), 0), acks[n]) + ReadLog(start + n, readings[n])
  {
  }

  /** A reset's log grows by one write of 0 and one read for each further address. */
  lemma ResetLogSnoc(pre: seq<Event>, start: int, acks: seq<bool>, readings: seq<Value>, ok: bool, v: Value)
    requires |acks| == |readings|
    ensures pre + ResetLog(start, acks + [ok], readings + [v]) ==
      pre + ResetLog(start, acks, readings) + WriteLog(WriteFrame(start + |acks|, Word(0), 0), ok) + ReadLog(start + |acks|, v)
  {
    assert (acks + [ok])[..|acks|] == acks;
    assert (readings + [v])[..|readings|] == readings;
    var w := WriteLog(WriteFrame(start + |acks|, Word(0), 0), ok);
    var r := ReadLog(start + |acks|, v);
    assert ResetLog(start, acks + [ok], readings + [v]) == ResetLog(start, acks, readings) + w + r;
  }

  /** Appending a write and then a read adds one pair to each view of the log. */
  lemma WriteThenRead(prefix: seq<Event>, frame: Frame, acked: bool, address: int, reply: Value)
    ensures Commands(prefix + WriteLog(frame, acked) + ReadLog(address, reply)) == Commands(prefix) + [(frame.address, frame.value)]
    ensures Replies(prefix + WriteLog(frame, acked) + ReadLog(address, reply)) == Replies(prefix) + [(address, reply)]
  {
    var w := WriteLog(frame, acked);
    var r := ReadLog(address, reply);
    ViewsAppend(prefix + w, r);
    ViewsAppend(prefix, w);
    WriteLogCalls(frame, acked);
    ReadLogCalls(address, reply);
  }

  /** Backup followed by restore re-issues exactly the pairs the backup read, in the same order. */
  lemma BackupRestoreRoundTrip(data: seq<(int, Value)>, acks: seq<bool>)
    requires |data| == |acks|
    ensures Commands(RestoreLog(data, acks)) == Replies(BackupLog(data))
  {
    BackupLogCalls(data);
    RestoreLogCalls(data, acks);
  }

  /** A backup changes no register. */
  lemma {:induction false} BackupKeepsRegisters(regs: map<int, int>, data: seq<(int, Value)>)
    ensures Replay(regs, BackupLog(data)) == regs
  {
    if data != [] {
      var n := |data| - 1;
      BackupKeepsRegisters(regs, data[..n]);
      ReplayAppend(regs, BackupLog(data[..n]), ReadLog(data[n].0, data[n].1));
      ReplaySingleCalls(regs, WriteFrame(0, Word(0), 0), false, data[n].0, data[n].1);
    }
  }

  /**
   * `after` is `before` with 0 stored at each block address whose write was
   * acknowledged, and every other register untouched.
   */
  ghost predicate Zeroed(before: map<int, int>, after: map<int, int>, start: int, acks: seq<bool>)
  {
    (forall i :: 0 <= i < |acks| && acks[i] ==> start + i in after && after[start + i] == 0) &&
    (forall a :: !(start <= a < start + |acks| && acks[a - start]) ==>
      (a in after <==> a in before) && (a in before ==> after[a] == before[a]))
  }

  /** Each acknowledged address of the block holds 0, and every other register (a failed write's included) is as before. */
  lemma {:induction false} ResetRegisters(regs: map<int, int>, start: int, acks: seq<bool>, readings: seq<Value>)
    requires |acks| == |readings|
    ensures Zeroed(regs, Replay(regs, ResetLog(start, acks, readings)), start, acks)
  {
    if acks != [] {
      var n := |acks| - 1;
      ResetRegisters(regs, start, acks[..n], readings[..n]);
      ResetRegistersLastStep(regs, start, acks, readings);
      ZeroedExtend(regs, Replay(regs, ResetLog(start, acks[..n], readings[..n])), start, acks);
    }
  }

  /** The last step of a reset stores 0 at its address if acknowledged, and otherwise nothing. */
  lemma ResetRegistersLastStep(regs: map<int, int>, start: int, acks: seq<bool>, readings: seq<Value>)
    requires |acks| == |readings| > 0
    ensures var n := |acks| - 1;
      var mid := Replay(regs, ResetLog(start, acks[..n], readings[..n]));
      Replay(regs, ResetLog(start, acks, readings)) == if acks[n] then mid[start + n := 0] else mid
  {
    var n := |acks| - 1;
    var prefix := ResetLog(start, acks[..n], readings[..n]);
    var f := WriteFrame(start + n, Word(0), 0);
    var w := WriteLog(f, acks[n]);
    var r := ReadLog(start + n, readings[n]);
    assert ResetLog(start, acks, readings) == prefix + w + r;
    var mid := Replay(regs, prefix);
    ReplayAppend(regs, prefix + w, r);
    ReplayAppend(regs, prefix, w);
    ReplaySingleCalls(mid, f, acks[n], start + n, readings[n]);
    ReplaySingleCalls(Replay(mid, w), f, acks[n], start + n, readings[n]);
  }

  /** Zeroing one more address of the block, when acknowledged, extends `Zeroed` by one step. */
  lemma ZeroedExtend(before: map<int, int>, mid: map<int, int>, start: int, acks: seq<bool>)
    requires |acks| > 0 && Zeroed(before, mid, start, acks[..|acks| - 1])
    ensures var n := |acks| - 1;
      Zeroed(before, if acks[n] then mid[start + n := 0] else mid, start, acks)
  {
    var n := |acks| - 1;
    var after := if acks[n] then mid[start + n := 0] else mid;
    forall i | 0 <= i < |acks| && acks[i]
      ensures start + i in after && after[start + i] == 0
    {
      if i < n { assert acks[..n][i]; }
    }
    forall a | !(start <= a < start + |acks| && acks[a - start])
      ensures (a in after <==> a in before) && (a in before ==> after[a] == before[a])
    {
      if start <= a < start + n { assert acks[..n][a - start] == acks[a - start]; }
    }
  }

  /** Every answered read-back of a reset equals the register it read. */
  ghost predicate ReadBacksHold(regs: map<int, int>, start: int, readings: seq<Value>)
  {
    forall i :: 0 <= i < |readings| && readings[i].Word? ==>
      start + i in regs && readings[i].w == regs[start + i]
  }

  /**
   * One more reset step (a write of 0 at the next address, then a read of
   * it) keeps every earlier read-back equal to its register.
   */
  lemma ReadBacksStep(before: map<int, int>, after: map<int, int>, start: int, readings: seq<Value>, ok: bool, v: Value)
    requires ReadBacksHold(before, start, readings)
    requires after == if ok then before[start + |readings| := 0] else before
    requires v.Word? ==> start + |readings| in after && v.w == after[start + |readings|]
    ensures ReadBacksHold(after, start, readings + [v])
  {
    var rs := readings + [v];
    forall i | 0 <= i < |rs| && rs[i].Word? ensures start + i in after && rs[i].w == after[start + i] {
      if i < |readings| {
        assert rs[i] == readings[i];
      }
    }
  }

  /** The addresses that a restore of `data` stores a word at: its acknowledged word entries. */
  function StoredAddresses(data: seq<(int, Value)>, acks: seq<bool>): set<int>
    requires |data| == |acks|
  {
    set i | 0 <= i < |data| && acks[i] && data[i].1.Word? :: data[i].0
  }

  /**
   * A restore changes only addresses where an acknowledged write stored a
   * word: an entry holding a read error or a failed write is never stored,
   * and no other register moves.
   */
  lemma {:induction false} RestoreRegisters(regs: map<int, int>, data: seq<(int, Value)>, acks: seq<bool>, a: int)
    requires |data| == |acks|
    requires a !in StoredAddresses(data, acks)
    ensures var after := Replay(regs, RestoreLog(data, acks));
      (a in after <==> a in regs) && (a in regs ==> after[a] == regs[a])
  {
    if data != [] {
      var n := |data| - 1;
      var f := WriteFrame(data[n].0, data[n].1, 0);
      assert StoredAddresses(data[..n], acks[..n]) <= StoredAddresses(data, acks) by {
        forall x | x in StoredAddresses(data[..n], acks[..n]) ensures x in StoredAddresses(data, acks) {
          var i :| 0 <= i < n && acks[..n][i] && data[..n][i].1.Word? && data[..n][i].0 == x;
          assert data[i] == data[..n][i] && acks[i] == acks[..n][i];
        }
      }
      RestoreRegisters(regs, data[..n], acks[..n], a);
      ReplayAppend(regs, RestoreLog(data[..n], acks[..n]), WriteLog(f, acks[n]));
      ReplaySingleCalls(Replay(regs, RestoreLog(data[..n], acks[..n])), f, acks[n], 0, Word(0));
      if acks[n] && data[n].1.Word? {
        assert data[n].0 in StoredAddresses(data, acks);
      }
    }
  }

  /**
   * An acknowledged word entry of a restore is in its register afterwards,
   * unless a later entry writes the same address.
   */
  lemma {:induction false} RestoreStores(regs: map<int, int>, data: seq<(int, Value)>, acks: seq<bool>, i: int)
    requires |data| == |acks| && 0 <= i < |data| && acks[i] && data[i].1.Word?
    requires forall j :: i < j < |data| ==> data[j].0 != data[i].0
    ensures var after := Replay(regs, RestoreLog(data, acks));
      data[i].0 in after && after[data[i].0] == data[i].1.w
  {
    var n := |data| - 1;
    var f := WriteFrame(data[n].0, data[n].1, 0);
    var pre := RestoreLog(data[..n], acks[..n]);
    assert RestoreLog(data, acks) == pre + WriteLog(f, acks[n]);
    ReplayAppend(regs, pre, WriteLog(f, acks[n]));
    ReplaySingleCalls(Replay(regs, pre), f, acks[n], 0, Word(0));
    if i < n {
      RestoreStores(regs, data[..n], acks[..n], i);
      assert data[..n][i] == data[i];
    }
  }

  /**
   * Restoring what a backup just read, from the registers it read them
   * from, leaves every register as it was, whichever writes succeed.
   */
  lemma BackupThenRestore(regs: map<int, int>, data: seq<(int, Value)>, acks: seq<bool>)
    requires |data| == |acks|
    requires forall i :: 0 <= i < |data| && data[i].1.Word? ==> data[i].0 in regs && data[i].1.w == regs[data[i].0]
    requires forall i, j :: 0 <= i < j < |data| ==> data[i].0 != data[j].0
    ensures Replay(regs, RestoreLog(data, acks)) == regs
  {
    var after := Replay(regs, RestoreLog(data, acks));
    forall a ensures (a in after <==> a in regs) && (a in regs ==> after[a] == regs[a]) {
      if a in StoredAddresses(data, acks) {
        var i :| 0 <= i < |data| && acks[i] && data[i].1.Word? && data[i].0 == a;
        RestoreStores(regs, data, acks, i);
      } else {
        RestoreRegisters(regs, data, acks, a);
      }
    }
  }

  /**
   * The EEPROM blocks of channels 0 and up never overlap a named register
   * (every named address is at most 99). The controller accepts any channel
   * number, though: see BlockOverlapsNamedRegisters.
   */
  lemma BlockAvoidsNamedRegisters(ch: int, name: string)
    requires ch >= 0 && Registers.Io(name).Address?
    ensures !(BlockStart(ch) <= Registers.Io(name).address < BlockStart(ch) + BlockSize)
  {
  }

  /**
   * Channel -10 is not rejected, and its block is registers 0..31, which
   * holds io1..io6, out1..out4 and out1_i..out4_i: `backup`, `reset` and
   * `restore` on it address the named registers.
   */
  lemma BlockOverlapsNamedRegisters(name: string)
    requires Registers.Lower(name) in {"io1", "io2", "io3", "io4", "io5", "io6", "general", "master",
      "out1", "out2", "out3", "out4", "out1_i", "out2_i", "out3_i", "out4_i"}
    ensures Registers.Io(name).Address?
    ensures BlockStart(-10) <= Registers.Io(name).address < BlockStart(-10) + BlockSize
  {
  }

  /** The controller of one DL485D4 unit on the bus. */
  class DL485D4 {
    const idNode: int
    const baudrate: int
    const port: string
    /** Seconds to pause after each answered command. */
    const timeDelay: real := TimeDelay
    /** The serial line and the device behind it. */
    const instrument: Bus

    constructor (instrument: Bus, idNode: int := 11, baudrate: int := 19200, port: string := "/dev/ttyUSB0")
      ensures this.instrument == instrument && this.idNode == idNode
      ensures this.baudrate == baudrate && this.port == port && timeDelay == 0.08
    {
      this.instrument := instrument;
      this.idNode := idNode;
      this.baudrate := baudrate;
      this.port := port;
    }

    /**
     * `read`: one read call; on an answer, one pause and the register's
     * word; on a failure, the error in place of the word and no pause.
     */
    method Read(io: int) returns (r: Value)
      requires instrument.Valid()
      modifies instrument
      ensures instrument.Valid() && instrument.regs == old(instrument.regs)
      ensures instrument.log == old(instrument.log) + ReadLog(io, r)
      ensures r.Word? ==> io in instrument.regs && r.w == instrument.regs[io]
      ensures r.Word? ==> 0 <= io < 65536 && 0 <= r.w < 65536
    {
      r := instrument.ReadRegister(io);
      if r.Word? {
        instrument.Sleep(timeDelay);
      }
    }

    /**
     * `write`: one extended write call with frame (6, io, command,
     * decimalPoint, 1, 0, false); true exactly when it was acknowledged,
     * and then one pause. Only a 16-bit address, 0..10 decimals and a
     * command that scales to a 16-bit word can succeed; success stores the
     * scaled word, and a failed write changes no register.
     */
    method Write(io: int, command: Value, decimalPoint: int := 0) returns (ok: bool)
      requires instrument.Valid()
      modifies instrument
      ensures instrument.Valid()
      ensures ok ==> command.Word? && 0 <= io < 65536 && 0 <= decimalPoint <= 10
      ensures ok ==> 0 <= command.w < 65536 && 0 <= command.w * Pow10(decimalPoint) < 65536
      ensures instrument.log == old(instrument.log) + WriteLog(WriteFrame(io, command, decimalPoint), ok)
      ensures instrument.regs ==
        if ok then old(instrument.regs)[io := command.w * Pow10(decimalPoint)] else old(instrument.regs)
    {
      ok := instrument.GenericCommand(WriteFrame(io, command, decimalPoint));
      if ok {
        SendableValue(WriteFrame(io, command, decimalPoint));
        instrument.Sleep(timeDelay);
      }
    }

    /** `reboot`: exactly `write(97, 1)`; 97 is the register `io("reset")` names. */
    method Reboot() returns (ghost ok: bool)
      requires instrument.Valid()
      modifies instrument
      ensures instrument.Valid()
      ensures instrument.log == old(instrument.log) + WriteLog(WriteFrame(Registers.ResetRegister, Word(1), 0), ok)
      ensures instrument.regs == if ok then old(instrument.regs)[Registers.ResetRegister := 1] else old(instrument.regs)
    {
      ok := Write(97, Word(1));
    }

    /**
     * `backup`: the 32 registers of channel `ch`'s block, each paired with
     * its address in ascending order, read one after the other; a failed
     * read leaves its error in that entry.
     */
    method Backup(ch: int) returns (data: seq<(int, Value)>)
      requires instrument.Valid()
      modifies instrument
      ensures instrument.Valid() && instrument.regs == old(instrument.regs)
      ensures |data| == BlockSize
      ensures forall i :: 0 <= i < |data| ==> data[i].0 == BlockStart(ch) + i
      ensures forall i :: 0 <= i < |data| && data[i].1.Word? ==>
        data[i].0 in instrument.regs && data[i].1.w == instrument.regs[data[i].0]
      ensures instrument.log == old(instrument.log) + BackupLog(data)
    {
      var start := BlockStart(ch);
      data := [];
      for x := start to start + 32
        invariant instrument.Valid() && instrument.regs == old(instrument.regs)
        invariant |data| == x - start
        invariant forall i :: 0 <= i < |data| ==> data[i].0 == start + i
        invariant forall i :: 0 <= i < |data| && data[i].1.Word? ==>
          data[i].0 in instrument.regs && data[i].1.w == instrument.regs[data[i].0]
        invariant instrument.log == old(instrument.log) + BackupLog(data)
      {
        var v := Read(x);
        ghost var prev := data;
        data := data + [(x, v)];
        assert data[..|data| - 1] == prev;
      }
    }

    /**
     * `reset`: for each register of channel `ch`'s block in ascending
     * order, write 0 and read it back; a failed write does not stop the
     * rest, and every answered read-back is the register's final value.
     * The outcomes are returned as ghosts (the source only prints the
     * reads).
     */
    method Reset(ch: int) returns (ghost acks: seq<bool>, ghost readings: seq<Value>)
      requires instrument.Valid()
      modifies instrument
      ensures instrument.Valid()
      ensures |acks| == |readings| == BlockSize
      ensures instrument.log == old(instrument.log) + ResetLog(BlockStart(ch), acks, readings)
      ensures Zeroed(old(instrument.regs), instrument.regs, BlockStart(ch), acks)
      ensures ReadBacksHold(instrument.regs, BlockStart(ch), readings)
    {
      var start := BlockStart(ch);
      acks, readings := [], [];
      for ind := start to start + 32
        invariant instrument.Valid()
        invariant |acks| == |readings| == ind - start
        invariant instrument.log == old(instrument.log) + ResetLog(start, acks, readings)
        invariant ReadBacksHold(instrument.regs, start, readings)
      {
        ghost var before := instrument.regs;
        var ok := Write(ind, Word(0));
        var v := Read(ind);
        ResetLogSnoc(old(instrument.log), start, acks, readings, ok, v);
        ReadBacksStep(before, instrument.regs, start, readings, ok, v);
        acks, readings := acks + [ok], readings + [v];
      }
      ReplayAppend(instrument.regs0, old(instrument.log), ResetLog(start, acks, readings));
      ResetRegisters(old(instrument.regs), start, acks, readings);
    }

    /**
     * `restore`: `write(a, d)` for each pair of `data`, in order, none
     * skipped, whatever the earlier outcomes; an entry holding a read
     * error is sent but never stored.
     */
    method Restore(data: seq<(int, Value)>) returns (ghost acks: seq<bool>)
      requires instrument.Valid()
      modifies instrument
      ensures instrument.Valid()
      ensures |acks| == |data|
      ensures instrument.log == old(instrument.log) + RestoreLog(data, acks)
      ensures instrument.regs == Replay(old(instrument.regs), RestoreLog(data, acks))
    {
      acks := [];
      for i := 0 to |data|
        invariant instrument.Valid()
        invariant |acks| == i
        invariant instrument.log == old(instrument.log) + RestoreLog(data[..i], acks)
      {
        var (a, d) := data[i];
        var ok := Write(a, d);
        ghost var prev := acks;
        acks := acks + [ok];
        assert data[..i + 1][..i] == data[..i];
        assert acks[..i] == prev;
      }
      assert data[..|data|] == data;
      ReplayAppend(instrument.regs0, old(instrument.log), RestoreLog(data, acks));
    }
  }
}
