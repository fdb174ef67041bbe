/** The slave thread of the IPMB-like test program: scan a received frame, answer a
    register request with one write. */
module Responder {
  import opened Bits
  import opened Options

  type Frame = seq<Byte>

  const SLAVE_ADDR: Byte := 0x10
  const READ_MARK: Byte := 0x21

  /** The answer: the read mark and the register's two bytes. */
  const REPLY: Frame := [0x21, 0x55, 0xAA]

  // ---- Messages for the bus ---------------------------------------------------------

  datatype Message = Message(addr: int, read: bool, len: int, payload: Frame)

  /** The messages handed to the ioctl: `output` and `input` stand for the two buffer
      pointers, None for a null one. Both null is refused. Only the first `written`
      bytes go out; a transfer of nothing becomes a one-byte read. */
  method BuildMessages(addr: int, written: Byte, output: Option<Frame>, wanted: Byte, input: Option<Frame>)
    returns (ok: bool, messages: array<Message>, count: int)
    requires output.Some? ==> written <= |output.value|
    ensures fresh(messages) && messages.Length == 2
    ensures ok <==> output.Some? || input.Some?
    ensures ok ==> 1 <= count <= 2 && messages[..count] == Messages(addr, written, output, wanted, input.Some?)
  {
    messages := new Message[2](_ => Message(0, false, 0, []));
    if output.None? && input.None? {
      return false, messages, 0;
    }
    if (output.Some? && written != 0) && (input.Some? && wanted != 0) {
      messages[0] := Message(addr, false, written, output.value[..written]);
      messages[1] := Message(addr, true, wanted, []);
      count := 2;
    } else if output.Some? && written != 0 {
      messages[0] := Message(addr, false, written, output.value[..written]);
      count := 1;
    } else if input.Some? && wanted != 0 {
      messages[0] := Message(addr, true, wanted, []);
      count := 1;
    } else {
      messages[0] := Message(addr, true, 1, []);
      count := 1;
    }
    ok := true;
  }

  /** A write message if there is something to write, then a read message if there is
      something to read, and never nothing at all. */
  function Messages(addr: int, written: Byte, output: Option<Frame>, wanted: Byte, input: bool): seq<Message>
    requires output.Some? ==> written <= |output.value|
  {
    var w := if output.Some? && written != 0 then [Message(addr, false, written, output.value[..written])] else [];
    var r := if input && wanted != 0 then [Message(addr, true, wanted, [])] else [];
    if w + r == [] then [Message(addr, true, 1, [])] else w + r
  }

  /** Whatever is asked for: all messages go to the given address; the writes carry exactly
      the first `written` bytes, in one message of that length; the reads ask for `wanted`
      bytes if there is a buffer for them, and for one byte if nothing else is to be done;
      a write comes before a read. */
  lemma MessageLaws(addr: int, written: Byte, output: Option<Frame>, wanted: Byte, input: bool)
    requires output.Some? ==> written <= |output.value|
    ensures var m := Messages(addr, written, output, wanted, input);
            var out, back := output.Some? && written != 0, input && wanted != 0;
            && (forall k | 0 <= k < |m| :: m[k].addr == addr)
            && |m| == (if out && back then 2 else 1)
            && (m[0].read <==> !out) && (|m| == 2 ==> m[1].read)
            && (out ==> m[0].len == |m[0].payload| == written && m[0].payload <= output.value)
            && (!out || back ==> m[|m| - 1].len == (if back then wanted else 1) && m[|m| - 1].payload == [])
  {
  }

  // ---- What a frame asks for --------------------------------------------------------

  /** Position i completes a request for register reg: the mark stands there, and the
      register number there or earlier. */
  predicate Completes(frame: Frame, reg: int, i: nat)
    requires i < |frame|
  {
    frame[i] == READ_MARK && exists j | 0 <= j <= i :: frame[j] == reg
  }

  predicate Requests(frame: Frame, reg: int) {
    exists i: nat | i < |frame| :: Completes(frame, reg, i)
  }

  /** The request that the program's "r" option sends for its own register. */
  function RequestFor(reg: int): Frame {
    [reg % 256, READ_MARK]
  }

  class Node {
    /** The register number this node answers for, as the comparison in the scan loop
        sees it: 0..127 for ordinary numbers; a number above 127 is negative where
        plain char is signed, and then equals no received byte. */
    const reg: int
    /** Result of the bus ioctl, given all the messages handed to it so far. */
    const ioctl: seq<seq<Message>> -> int
    /** The messages handed to the bus ioctl, call by call. */
    var handed: seq<seq<Message>>

    constructor (reg: int, ioctl: seq<seq<Message>> -> int)
      ensures this.reg == reg && this.ioctl == ioctl && handed == []
    {
      this.reg, this.ioctl, handed := reg, ioctl, [];
    }

    /** A write without a read: one message to the common slave address. The result is 0
        if the ioctl took it, -1 otherwise. */
    method Send(frame: Frame) returns (status: int)
      requires 0 < |frame| < 0x100
      modifies this
      ensures handed == old(handed) + [[Message(0x10, false, |frame|, frame)]]
      ensures status == if ioctl(handed) == 1 then 0 else -1
    {
      var ok, messages, count := BuildMessages(SLAVE_ADDR, |frame|, Some(frame), 0, None);
      assert frame[..|frame|] == frame;
      assert messages[..count] == [Message(0x10, false, |frame|, frame)];
      handed := handed + [messages[..count]];
      status := if ioctl(handed) == count then 0 else -1;
    }

    /** The "r" option of the program. */
    method Ask() returns (status: int)
      modifies this
      ensures handed == old(handed) + [[Message(0x10, false, 2, [reg % 256, 0x21])]]
      ensures status == if ioctl(handed) == 1 then 0 else -1
    {
      status := Send(RequestFor(reg));
    }

    /** One pass of the thread's loop over a received frame of `received` bytes. The
        bound of the scan is overwritten by the status of the send, which is why there
        is at most one send; `at` is the position the scan had reached. */
    method HandleFrame(buffer: array<Byte>, received: int) returns (at: nat)
      requires buffer.Length == 256 && received <= 256
      modifies this
      ensures var frame := buffer[..if received > 0 then received else 0];
              if Requests(frame, reg)
              then handed == old(handed) + [[Message(0x10, false, 3, [0x21, 0x55, 0xAA])]]
                   && 0 < at <= |frame| && Completes(frame, reg, at - 1)
                   && forall i: nat | i < at - 1 :: !Completes(frame, reg, i)
              else handed == old(handed) && at == |frame|
    {
      at := 0;
      var sgRead := false;
      var bound := received;
      var frame := buffer[..if received > 0 then received else 0];
      if bound > 0 {
        while at < bound
          invariant at <= |frame|
          invariant bound == received ==>
                      && handed == old(handed)
                      && (sgRead <==> exists j: nat | j < at :: frame[j] == reg)
                      && forall i: nat | i < at :: !Completes(frame, reg, i)
          invariant bound != received ==>
                      && bound <= 0 < at && handed == old(handed) + [[Message(0x10, false, 3, REPLY)]]
                      && Completes(frame, reg, at - 1)
                      && forall i: nat | i < at - 1 :: !Completes(frame, reg, i)
          decreases |frame| - at
        {
          if buffer[at] == reg {
            sgRead := true;
          }
          if buffer[at] == ((SLAVE_ADDR * 2) + 1) && sgRead {
            bound := Send(REPLY);
          }
          at := at + 1;
        }
      }
    }
  }

  /** A request is answered by the nodes configured for the same number, provided the
      number is one a byte can equal; other nodes answer it only if the number is
      spelled by the mark itself. */
  lemma RequestIsAnswered(asked: int, reg: int)
    ensures Requests(RequestFor(asked), reg) <==> reg == asked % 256 || reg == 0x21
  {
    var f := RequestFor(asked);
    assert f[0] == asked % 256 && f[1] == READ_MARK;
    if reg == asked % 256 || reg == READ_MARK {
      assert Completes(f, reg, 1);
    }
  }

  /** A reply asks only for register 0x21: nothing stands before its mark. */
  lemma ReplyRequests(reg: int)
    ensures Requests([0x21, 0x55, 0xAA], reg) <==> reg == 0x21
  {
    if reg == READ_MARK {
      assert Completes([0x21, 0x55, 0xAA], reg, 0);
    }
  }
}
