/**
 * The Modbus RTU link as the controller sees it: the device's register
 * store and a log of every transport call and every inter-command pause,
 * in order. Whether a call succeeds is decided by the link, not by the
 * controller, so each outcome is chosen nondeterministically and recorded
 * in the log.
 */
module Transport {

  /** The exception kinds the controller's `read` catches. */
  datatype ReadError = IOError | TypeError | ValueError

  /**
   * What `read` hands back and `write` accepts: a register word, or, for a
   * failed read, the error text that takes the word's place.
   */
  datatype Value = Word(w: int) | ErrorText(error: ReadError)

  /** The arguments of one extended write call (function code and its extra fields). */
  datatype Frame = Frame(functionCode: int, address: int, value: Value,
                         decimals: int, registerCount: int, bitCount: int, signed: bool)

  /** One thing that happens on the link. */
  datatype Event =
    | ReadCall(address: int, reply: Value)  // a single-register read and its outcome
    | CommandCall(frame: Frame, acked: bool) // an extended write and whether it succeeded
    | Pause(seconds: real)                   // the inter-command delay

  /** 10 to the power `n`. */
  function Pow10(n: nat): (p: nat)
    ensures p >= 1
  {
    if n == 0 then 1 else 10 * Pow10(n - 1)
  }

  /** The register word a write frame carries: its value shifted left by `decimals` decimal places. */
  function Scaled(f: Frame): int
    requires f.value.Word? && f.decimals >= 0
  {
    f.value.w * Pow10(f.decimals)
  }

  /**
   * The frames the Modbus library puts on the line: a word value, an
   * address in 0..65535, 0..10 decimals, and a scaled word that fits in
   * one unsigned 16-bit register. It refuses any other frame before sending.
   */
  predicate Sendable(f: Frame)
  {
    f.value.Word? && 0 <= f.address < 65536 && 0 <= f.decimals <= 10 && 0 <= Scaled(f) < 65536
  }

  /** A sendable frame's value itself is a 16-bit word, no larger than the word sent. */
  lemma SendableValue(f: Frame)
    requires Sendable(f)
    ensures 0 <= f.value.w <= Scaled(f) < 65536
  {
    var p := Pow10(f.decimals);
    assert f.value.w * p == f.value.w + f.value.w * (p - 1);
  }

  /** Every address of a device store is a 16-bit register address holding a 16-bit word. */
  predicate WordStore(regs: map<int, int>)
  {
    forall a | a in regs :: 0 <= a < 65536 && 0 <= regs[a] < 65536
  }

  /** The effect of one event on the register store: only an acknowledged write changes it. */
  function Step(regs: map<int, int>, e: Event): map<int, int>
  {
    match e
    case CommandCall(f, true) => if f.value.Word? && f.decimals >= 0 then regs[f.address := Scaled(f)] else regs
    case _ => regs
  }

  /** The register store after the events of `log`, starting from `regs`. */
  function Replay(regs: map<int, int>, log: seq<Event>): map<int, int>
  {
    if log == [] then regs else Step(Replay(regs, log[..|log| - 1]), log[|log| - 1])
  }

  /** Replaying one more event applies its step to the registers so far. */
  lemma ReplaySnoc(regs: map<int, int>, log: seq<Event>, e: Event)
    ensures Replay(regs, log + [e]) == Step(Replay(regs, log), e)
  {
    assert (log + [e])[..|log|] == log;
  }

  /** Replaying two logs one after the other is replaying their concatenation. */
  lemma {:induction false} ReplayAppend(regs: map<int, int>, a: seq<Event>, b: seq<Event>)
    ensures Replay(regs, a + b) == Replay(Replay(regs, a), b)
  {
    if b != [] {
      var n := |b| - 1;
      assert (a + b)[..|a + b| - 1] == a + b[..n];
      assert (a + b)[|a + b| - 1] == b[n];
      ReplayAppend(regs, a, b[..n]);
    } else {
      assert a + b == a;
    }
  }

  /** The (address, value) pairs of the write calls in a log, in order. */
  function Commands(log: seq<Event>): seq<(int, Value)>
  {
    if log == [] then []
    else
      var e := log[|log| - 1];
      Commands(log[..|log| - 1]) + (if e.CommandCall? then [(e.frame.address, e.frame.value)] else [])
  }

  /** The (address, reply) pairs of the read calls in a log, in order. */
  function Replies(log: seq<Event>): seq<(int, Value)>
  {
    if log == [] then []
    else
      var e := log[|log| - 1];
      Replies(log[..|log| - 1]) + (if e.ReadCall? then [(e.address, e.reply)] else [])
  }

  /** The number of pauses in a log. */
  function Pauses(log: seq<Event>): nat
  {
    if log == [] then 0 else Pauses(log[..|log| - 1]) + (if log[|log| - 1].Pause? then 1 else 0)
  }

  /** Each view of a log distributes over concatenation. */
  lemma {:induction false} ViewsAppend(a: seq<Event>, b: seq<Event>)
    ensures Commands(a + b) == Commands(a) + Commands(b)
    ensures Replies(a + b) == Replies(a) + Replies(b)
    ensures Pauses(a + b) == Pauses(a) + Pauses(b)
  {
    if b != [] {
      var n := |b| - 1;
      assert (a + b)[..|a + b| - 1] == a + b[..n];
      assert (a + b)[|a + b| - 1] == b[n];
      ViewsAppend(a, b[..n]);
    } else {
      assert a + b == a;
    }
  }

  /**
   * The serial line with the device behind it (minimalmodbus's Instrument
   * together with the sleeping that the controller does between commands).
   */
  class Bus {
    /** The device's registers. */
    var regs: map<int, int>
    /** Every transport call and pause so far. */
    var log: seq<Event>
    /** The registers before the first call. */
    ghost const regs0: map<int, int>

    /**
     * The registers are exactly the initial ones changed by each
     * acknowledged write, and they are 16-bit words at 16-bit addresses.
     */
    ghost predicate Valid()
      reads this
    {
      regs == Replay(regs0, log) && WordStore(regs)
    }

    constructor (initial: map<int, int>)
      requires WordStore(initial)
      ensures Valid() && regs == initial && log == []
    {
      regs, log := initial, [];
      regs0 := initial;
    }

    /**
     * `read_register`: one read call. A reply word is the register's value;
     * an address the device does not hold always fails.
     */
    method ReadRegister(address: int) returns (reply: Value)
      requires Valid()
      modifies this
      ensures Valid() && regs == old(regs)
      ensures log == old(log) + [ReadCall(address, reply)]
      ensures reply.Word? ==> address in regs && reply.w == regs[address]
      ensures reply.Word? ==> 0 <= address < 65536 && 0 <= reply.w < 65536
    {
      var answered: bool :| true;
      if answered && address in regs {
        reply := Word(regs[address]);
      } else {
        var e: ReadError :| true;
        reply := ErrorText(e);
      }
      ReplaySnoc(regs0, log, ReadCall(address, reply));
      log := log + [ReadCall(address, reply)];
    }

    /**
     * `_generic_command`: one write call. Only a sendable frame can be
     * acknowledged; an acknowledged write stores the scaled word at its
     * address, a failed one leaves every register as it was.
     */
    method GenericCommand(frame: Frame) returns (acked: bool)
      requires Valid()
      modifies this
      ensures Valid()
      ensures acked ==> Sendable(frame)
      ensures log == old(log) + [CommandCall(frame, acked)]
      ensures regs == if acked then old(regs)[frame.address := Scaled(frame)] else old(regs)
    {
      if Sendable(frame) {
        acked :| true;
      } else {
        acked := false;
      }
      if acked {
        regs := regs[frame.address := Scaled(frame)];
      }
      ReplaySnoc(regs0, log, CommandCall(frame, acked));
      log := log + [CommandCall(frame, acked)];
    }

    /** `time.sleep(seconds)`: recorded with its duration, nothing else changes. */
    method Sleep(seconds: real)
      requires Valid()
      modifies this
      ensures Valid() && regs == old(regs)
      ensures log == old(log) + [Pause(seconds)]
    {
      ReplaySnoc(regs0, log, Pause(seconds));
      log := log + [Pause(seconds)];
    }
  }
}
