/** The one-wire bus transport that the DS18B20 driver consumes, as an abstraction.

    The transport is not modelled at the wire level. Every primitive the driver calls
    (reset, match or skip the ROM address, write a byte, read a bit, read a block of
    bytes, wait) appends one abstract event to a trace. What the bus answers is decided
    by an oracle that sees the whole history of events up to and including the current
    one. A fault reported by the oracle stands for any transport error; it is passed
    through to the caller unchanged. */
module OneWire {

  type Byte = x: int | 0 <= x < 0x100

  /** A 64-bit one-wire ROM address. */
  type Address = x: int | 0 <= x < 0x1_0000_0000_0000_0000

  type Positive = x: int | x > 0 witness 1

  /** The family code is the low byte of the address. */
  function FamilyCode(a: Address): Byte
  {
    a % 0x100
  }

  datatype Option<+T> = None | Some(value: T)

  /** The failures an operation can report. `Transport` stands for the errors that
      only the transport raises (pin errors, a bus that is not pulled up, ...). */
  datatype Error = FamilyCodeMismatch | CrcMismatch | Timeout | Transport(code: nat)

  datatype Result<+T> = Ok(value: T) | Err(error: Error)

  /** The addressing choice of every bus-facing operation: one device (a matched ROM
      address) or every device on the bus (the ROM address is skipped). */
  datatype Target = One(address: Address) | All

  datatype Event =
    | ResetPulse
    | Match(address: Address)
    | Skip
    | Write(value: Byte)
    | ReadSlot
    | ReadBlock(count: nat)
    | Delay(micros: nat)

  /** What the bus answers. Each field sees the history ending in the event it answers.
      `byte(h, i)` is the i-th byte of the block read by the last event of `h`;
      `crcValid` is the CRC-8 check over a scratchpad, a function this model leaves
      uninterpreted. */
  datatype Oracle = Oracle(
    fault: seq<Event> -> Option<Error>,
    bit: seq<Event> -> bool,
    byte: (seq<Event>, nat) -> Byte,
    crcValid: seq<Byte> -> bool)

  /** The addressing event for a target. */
  function Select(t: Target): Event
  {
    match t
    case One(a) => Match(a)
    case All => Skip
  }

  /** The answer of the bus to issuing `e` after history `h`. A delay is not a bus
      transfer and never fails. */
  function Fault(o: Oracle, h: seq<Event>, e: Event): Option<Error>
  {
    if e.Delay? then None else o.fault(h + [e])
  }

  /** Issuing one event: it is always recorded, and it fails exactly when the bus
      reports a fault for it. */
  function Step(o: Oracle, h: seq<Event>, e: Event): (Result<()>, seq<Event>)
  {
    match Fault(o, h, e)
    case Some(err) => (Err(err), h + [e])
    case None => (Ok(()), h + [e])
  }

  /** Issuing a fixed sequence of events, stopping at the first one that fails. */
  function RunScript(o: Oracle, h: seq<Event>, s: seq<Event>): (out: (Result<()>, seq<Event>))
    // what was issued is a prefix of the script, and all of it on success
    ensures |h| <= |out.1| <= |h| + |s| && out.1 == h + s[..|out.1| - |h|]
    ensures out.0.Ok? ==> out.1 == h + s
    // a failure is the fault of the last event issued, and nothing is issued after it
    ensures out.0.Err? ==> |out.1| > |h| && Fault(o, out.1[..|out.1| - 1], out.1[|out.1| - 1]) == Some(out.0.error)
    // every event issued before the last one went through: the failure is the first fault
    ensures forall k :: 0 <= k < |out.1| - |h| - 1 ==> Fault(o, h + s[..k], s[k]).None?
    decreases |s|
  {
    if s == [] then (Ok(()), h)
    else
      var first := Step(o, h, s[0]);
      if first.0.Err? then first
      else
        var rest := RunScript(o, first.1, s[1..]);
        assert h + s[..|rest.1| - |h|] == first.1 + s[1..][..|rest.1| - |first.1|];
        PrefixAfterFirst(h, s);
        assert h + s[..0] == h;
        rest
  }

  /** Issuing the first event of a script moves the history forward by that event. */
  lemma PrefixAfterFirst<T>(h: seq<T>, s: seq<T>)
    requires |s| > 0
    ensures forall k :: 0 <= k < |s| ==> h + s[..k + 1] == (h + [s[0]]) + s[1..][..k]
  {
    forall k | 0 <= k < |s| ensures h + s[..k + 1] == (h + [s[0]]) + s[1..][..k] {
      assert s[..k + 1] == [s[0]] + s[1..][..k];
    }
  }

  /** A script succeeds exactly when none of its events faults. */
  lemma {:induction false} RunScriptSucceedsIff(o: Oracle, h: seq<Event>, s: seq<Event>)
    ensures RunScript(o, h, s).0.Ok? <==> forall k :: 0 <= k < |s| ==> Fault(o, h + s[..k], s[k]).None?
    decreases |s|
  {
    if s != [] {
      assert h + s[..0] == h;
      var first := Step(o, h, s[0]);
      if first.0.Ok? {
        RunScriptSucceedsIff(o, first.1, s[1..]);
        forall k | 0 <= k < |s[1..]| ensures h + s[..k + 1] == first.1 + s[1..][..k] {
          assert s[..k + 1] == [s[0]] + s[1..][..k];
        }
      }
    }
  }

  /** An event that is not in the script is never issued by it. */
  lemma RunScriptIssuesOnlyScript(o: Oracle, h: seq<Event>, s: seq<Event>, e: Event)
    requires e !in s
    ensures e !in RunScript(o, h, s).1[|h|..]
  {
    var out := RunScript(o, h, s);
    var k := |out.1| - |h|;
    assert out.1[|h|..] == s[..k];
    assert forall i :: 0 <= i < k ==> s[..k][i] == s[i];
  }

  /** Running two scripts one after the other is running their concatenation. */
  lemma {:induction false} RunScriptAppend(o: Oracle, h: seq<Event>, a: seq<Event>, b: seq<Event>)
    ensures RunScript(o, h, a + b) ==
      (var first := RunScript(o, h, a); if first.0.Err? then first else RunScript(o, first.1, b))
    decreases |a|
  {
    if a == [] {
      assert a + b == b;
    } else {
      assert (a + b)[0] == a[0];
      assert (a + b)[1..] == a[1..] + b;
      var first := Step(o, h, a[0]);
      if first.0.Ok? {
        RunScriptAppend(o, first.1, a[1..], b);
      }
    }
  }

  /** reset, then match or skip the ROM address, then the command byte. */
  function SendCommandScript(command: Byte, target: Target): (s: seq<Event>)
  {
    [ResetPulse, Select(target), Write(command)]
  }

  /** The bus handle the driver borrows for each operation. */
  class Bus {
    const oracle: Oracle
    /** The duration of one read time slot, owned by the transport. */
    const readSlotMicros: Positive
    /** Every event issued on this bus so far, oldest first. */
    var trace: seq<Event>

    constructor (oracle: Oracle, readSlotMicros: Positive)
      ensures this.oracle == oracle && this.readSlotMicros == readSlotMicros && trace == []
    {
      this.oracle := oracle;
      this.readSlotMicros := readSlotMicros;
      trace := [];
    }

    method Issue(e: Event) returns (r: Result<()>)
      modifies this
      ensures (r, trace) == Step(oracle, old(trace), e)
    {
      r := match Fault(oracle, trace, e) case Some(err) => Err(err) case None => Ok(());
      trace := trace + [e];
    }

    method Reset() returns (r: Result<()>)
      modifies this
      ensures (r, trace) == Step(oracle, old(trace), ResetPulse)
    {
      r := Issue(ResetPulse);
    }

    method MatchAddress(address: Address) returns (r: Result<()>)
      modifies this
      ensures (r, trace) == Step(oracle, old(trace), Match(address))
    {
      r := Issue(Match(address));
    }

    method SkipAddress() returns (r: Result<()>)
      modifies this
      ensures (r, trace) == Step(oracle, old(trace), Skip)
    {
      r := Issue(Skip);
    }

    method WriteByte(value: Byte) returns (r: Result<()>)
      modifies this
      ensures (r, trace) == Step(oracle, old(trace), Write(value))
    {
      r := Issue(Write(value));
    }

    method DelayUs(micros: nat)
      modifies this
      ensures trace == old(trace) + [Delay(micros)]
    {
      trace := trace + [Delay(micros)];
    }

    /** Reads one time slot; on success the bit is the oracle's answer to it. */
    method ReadBit() returns (r: Result<bool>)
      modifies this
      ensures trace == old(trace) + [ReadSlot]
      ensures r == match Fault(oracle, old(trace), ReadSlot)
                   case Some(err) => Err(err)
                   case None => Ok(oracle.bit(trace))
    {
      r := match Fault(oracle, trace, ReadSlot) case Some(err) => Err(err) case None => Ok(oracle.bit(trace + [ReadSlot]));
      trace := trace + [ReadSlot];
    }

    /** Fills `buf` with as many bytes as it holds. On a fault the buffer is left as it was. */
    method ReadBytes(buf: array<Byte>) returns (r: Result<()>)
      modifies this, buf
      ensures (r, trace) == Step(oracle, old(trace), ReadBlock(buf.Length))
      ensures r.Ok? ==> forall i :: 0 <= i < buf.Length ==> buf[i] == oracle.byte(trace, i)
      ensures r.Err? ==> buf[..] == old(buf[..])
    {
      r := Issue(ReadBlock(buf.Length));
      if r.Ok? {
        forall i | 0 <= i < buf.Length {
          buf[i] := oracle.byte(trace, i);
        }
      }
    }

    /** one_wire_bus's send_command: reset, address the target, write the command. */
    method SendCommand(command: Byte, target: Target) returns (r: Result<()>)
      modifies this
      ensures (r, trace) == RunScript(oracle, old(trace), SendCommandScript(command, target))
    {
      ghost var s := SendCommandScript(command, target);
      ghost var h := trace;
      assert s[1..][1..][1..] == [];
      r := Reset();
      if r.Err? {
        return;
      }
      assert RunScript(oracle, h, s) == RunScript(oracle, trace, s[1..]);
      ghost var h1 := trace;
      match target {
        case One(a) => r := MatchAddress(a);
        case All => r := SkipAddress();
      }
      if r.Err? {
        return;
      }
      assert RunScript(oracle, h1, s[1..]) == RunScript(oracle, trace, s[1..][1..]);
      ghost var h2 := trace;
      r := WriteByte(command);
      assert r.Ok? ==> RunScript(oracle, h2, s[1..][1..]) == RunScript(oracle, trace, []);
    }
  }
}
