/**
 * A scripted stand-in for the Arduino `TwoWire` (I2C) driver, reduced to the
 * five calls `readRegister` makes. The real driver talks to hardware; this
 * one answers from fields set up in advance and records every call in a
 * ghost trace, so that callers' contracts can say which calls happened and
 * in which order.
 */
module Wire {

  /** An 8-bit unsigned value, `uint8_t`. */
  newtype byte = b: int | 0 <= b < 256

  /** One call made on the bus. */
  datatype Call =
    | Begin(address: int)
    | WriteByte(data: byte)
    | End(sendStop: bool)
    | Request(address: int, quantity: nat)
    | ReadByte

  /** `n` consecutive `read()` calls. */
  function Reads(n: nat): seq<Call> {
    seq(n, _ => ReadByte)
  }

  class TwoWire {
    /** The status `endTransmission` reports: 0 is success, anything else an error code. */
    var endStatus: byte
    /** The byte count `requestFrom` reports as received. */
    var received: nat
    /** The receive queue `read()` takes bytes from, front first. */
    var rx: seq<byte>
    /** Every call made on this bus so far, oldest first. */
    ghost var trace: seq<Call>

    constructor (endStatus: byte, received: nat, rx: seq<byte>)
      ensures this.endStatus == endStatus && this.received == received && this.rx == rx
      ensures trace == []
    {
      this.endStatus := endStatus;
      this.received := received;
      this.rx := rx;
      trace := [];
    }

    /** `beginTransmission(address)`: start queueing a write to `address`. */
    method BeginTransmission(address: int)
      modifies this`trace
      ensures trace == old(trace) + [Begin(address)]
    {
      trace := trace + [Begin(address)];
    }

    /** `write(data)`: queue one byte for the device. */
    method Write(data: byte)
      modifies this`trace
      ensures trace == old(trace) + [WriteByte(data)]
    {
      trace := trace + [WriteByte(data)];
    }

    /** `endTransmission(sendStop)`: send the queued bytes; a false `sendStop` keeps the bus claimed. */
    method EndTransmission(sendStop: bool) returns (status: byte)
      modifies this`trace
      ensures status == endStatus
      ensures trace == old(trace) + [End(sendStop)]
    {
      status := endStatus;
      trace := trace + [End(sendStop)];
    }

    /** `requestFrom(address, quantity)`: ask the device for bytes; returns how many arrived. */
    method RequestFrom(address: int, quantity: nat) returns (count: nat)
      modifies this`trace
      ensures count == received
      ensures trace == old(trace) + [Request(address, quantity)]
    {
      count := received;
      trace := trace + [Request(address, quantity)];
    }

    /** `read()`: the next received byte, or -1 when none is left. */
    method Read() returns (value: int)
      modifies this`rx, this`trace
      ensures old(rx) == [] ==> value == -1 && rx == []
      ensures old(rx) != [] ==> value == old(rx[0]) as int && rx == old(rx[1..])
      ensures trace == old(trace) + [ReadByte]
    {
      if rx == [] {
        value := -1;
      } else {
        value := rx[0] as int;
        rx := rx[1..];
      }
      trace := trace + [ReadByte];
    }
  }
}
