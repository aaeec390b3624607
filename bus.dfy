/** The two-wire bus the driver owns. The real transport is platform code
    outside this model; this class stands in for it: it records every
    transaction it is asked to perform, answers reads with a fixed reply
    from the device, and fails every transaction with a fixed error when one
    is configured. The error type `E` is the transport's own and opaque. */
module Bus {

  import opened Wrappers
  import opened Registers

  /** One bus transaction as the driver issued it: a write of `bytes`, or a
      write of `bytes` immediately followed by a read of `readLen` bytes. */
  datatype Transaction =
    | Write(address: u8, bytes: seq<u8>)
    | WriteRead(address: u8, bytes: seq<u8>, readLen: nat)

  /** The bytes a read of `n` bytes delivers when the device answers with
      `reply`: the reply's bytes in order, then 0xFF (an idle, pulled-up
      data line) for every byte the device does not drive. */
  function Clocked(reply: seq<u8>, n: nat): (r: seq<u8>)
    ensures |r| == n
    ensures forall i :: 0 <= i < n && i < |reply| ==> r[i] == reply[i]
    ensures forall i :: |reply| <= i < n ==> r[i] == 0xFF
  {
    seq(n, i => if 0 <= i < |reply| then reply[i] else 0xFF)
  }

  class I2c<E> {
    /** Every transaction attempted so far, oldest first. */
    var trace: seq<Transaction>
    /** What the device answers to a read. */
    var reply: seq<u8>
    /** When set, the error every transaction fails with. */
    var fault: Option<E>

    constructor (reply: seq<u8>, fault: Option<E>)
      ensures this.trace == [] && this.reply == reply && this.fault == fault
    {
      this.trace := [];
      this.reply := reply;
      this.fault := fault;
    }

    /** The outcome every transaction has in the current configuration. */
    function Outcome(): (r: Result<(), E>)
      reads this
      ensures r.Err? <==> fault.Some?
    {
      if fault.Some? then Err(fault.value) else Ok(())
    }

    method Write(address: u8, bytes: seq<u8>) returns (r: Result<(), E>)
      modifies this`trace
      ensures trace == old(trace) + [Transaction.Write(address, bytes)]
      ensures r == Outcome()
    {
      trace := trace + [Transaction.Write(address, bytes)];
      r := Outcome();
    }

    /** Writes `bytes`, then reads `buf.Length` bytes into `buf`. On failure
        `buf` is left as it was. */
    method WriteRead(address: u8, bytes: seq<u8>, buf: array<u8>) returns (r: Result<(), E>)
      modifies this`trace, buf
      ensures trace == old(trace) + [Transaction.WriteRead(address, bytes, buf.Length)]
      ensures r == Outcome()
      ensures buf[..] == if r.Ok? then Clocked(reply, buf.Length) else old(buf[..])
    {
      trace := trace + [Transaction.WriteRead(address, bytes, buf.Length)];
      r := Outcome();
      if r.Ok? {
        var data := Clocked(reply, buf.Length);
        forall i | 0 <= i < buf.Length {
          buf[i] := data[i];
        }
      }
    }
  }
}
