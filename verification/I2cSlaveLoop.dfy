/** The slave command as a stream transducer: what it sends is determined by what it
    has received. */
module I2cSlaveLoop {
  import opened Bits
  import opened Options
  import opened I2cHardware
  import opened I2cDriver
  import opened I2cTranscript
  import opened I2cTheorems

  /** The outcome of every receive command, in order: a byte, or nothing. */
  function Outcomes(t: seq<Exchange>): seq<Option<Byte>> {
    if t == [] then []
    else Outcomes(t[..|t| - 1]) + (if IsReceive(Last(t).cmd) then [Last(t).data] else [])
  }

  /** The commands that answer a stream of outcomes: one receive per outcome, never
      marked as the last, and 0x00, 0x55 right after each 0x21. */
  function Script(outcomes: seq<Option<Byte>>): seq<Command> {
    if outcomes == [] then []
    else
      Script(outcomes[..|outcomes| - 1]) + [SlaveRx(false)]
      + if Last(outcomes) == Some(0x21) then [SlaveTx(0x00), SlaveTx(0x55)] else []
  }

  lemma OutcomesAppend(t: seq<Exchange>, x: Exchange)
    ensures Outcomes(t + [x]) == if IsReceive(x.cmd) then Outcomes(t) + [x.data] else Outcomes(t)
  {
    assert (t + [x])[..|t + [x]| - 1] == t;
  }

  lemma ScriptAppend(outcomes: seq<Option<Byte>>, x: Option<Byte>)
    ensures Script(outcomes + [x])
         == if x == Some(0x21) then Script(outcomes) + [SlaveRx(false)] + [SlaveTx(0x00)] + [SlaveTx(0x55)]
            else Script(outcomes) + [SlaveRx(false)]
  {
    assert (outcomes + [x])[..|outcomes + [x]| - 1] == outcomes;
    assert Script(outcomes + [x])
        == Script(outcomes) + [SlaveRx(false)] + if x == Some(0x21) then [SlaveTx(0x00), SlaveTx(0x55)] else [];
  }

  lemma CommandsOfAppend(t: seq<Exchange>, x: Exchange)
    ensures Commands(t + [x]) == Commands(t) + [x.cmd]
  {
  }

  lemma {:induction false} RoundsView(e: Env, d: Driver, rounds: nat) returns (t: seq<Exchange>)
    requires Running(d)
    ensures var (d1, byte) := SlaveLoop(e, d, rounds);
            && byte != 0x21 && Extends(d, d1, t)
            && |Outcomes(t)| == rounds && Commands(t) == Script(Outcomes(t))
            && forall k | 0 <= k < |t| :: Finished(t[k], t[k].cmd)
    decreases rounds
  {
    hide Watch, DisrReads, ReceiveByte, SendByte, Ok, Polls, Outcomes, Script;
    if rounds == 0 {
      t := [];
      NoRounds();
    } else {
      t := RoundsView(e, d, rounds - 1);
      var (d1, byte) := SlaveLoop(e, d, rounds - 1);
      var x := ReceiveByteView(e, d1, byte, byte == 0x21, Slavem);
      var (d2, _, stored) := ReceiveByte(e, d1, byte, byte == 0x21, Slavem);
      ExtendsTwice(d, d1, d2, t, [x]);
      OutcomesAppend(t, x);
      CommandsOfAppend(t, x);
      ScriptAppend(Outcomes(t), x.data);
      t := t + [x];
      if stored == 0x21 {
        var y := SendByteView(e, d2, 0x00, Slavem);
        var d3 := SendByte(e, d2, 0x00, Slavem).0;
        ExtendsTwice(d, d2, d3, t, [y]);
        OutcomesAppend(t, y);
        CommandsOfAppend(t, y);
        t := t + [y];
        var z := SendByteView(e, d3, 0x55, Slavem);
        ExtendsTwice(d, d3, SendByte(e, d3, 0x55, Slavem).0, t, [z]);
        OutcomesAppend(t, z);
        CommandsOfAppend(t, z);
        t := t + [z];
        assert SlaveLoop(e, d, rounds) == (SendByte(e, d3, 0x55, Slavem).0, 0);
      } else {
        assert SlaveLoop(e, d, rounds) == (d2, stored);
      }
    }
  }

  lemma NoRounds()
    ensures Outcomes([]) == [] && Script([]) == [] && Commands([]) == [] && Polls([]) == 0
  {
  }

  /** The bytes transmitted by a sequence of commands. */
  function Transmitted(c: seq<Command>): seq<Byte> {
    if c == [] then []
    else Transmitted(c[..|c| - 1]) + (if Last(c).SlaveTx? then [Last(c).byte] else [])
  }

  function Received(outcomes: seq<Option<Byte>>): seq<Byte> {
    if outcomes == [] then []
    else Received(outcomes[..|outcomes| - 1]) + (if Last(outcomes).Some? then [Last(outcomes).value] else [])
  }

  /** Each 0x21 becomes 0x00, 0x55; every other byte becomes nothing. */
  function Respond(received: seq<Byte>): seq<Byte> {
    if received == [] then []
    else Respond(received[..|received| - 1]) + (if Last(received) == 0x21 then [0x00, 0x55] else [])
  }

  lemma TransmittedAppend(c: seq<Command>, x: Command)
    ensures Transmitted(c + [x]) == if x.SlaveTx? then Transmitted(c) + [x.byte] else Transmitted(c)
  {
    assert (c + [x])[..|c + [x]| - 1] == c;
  }

  lemma RespondAppend(s: seq<Byte>, b: Byte)
    ensures Respond(s + [b]) == Respond(s) + (if b == 0x21 then [0x00, 0x55] else [])
  {
    assert (s + [b])[..|s + [b]| - 1] == s;
  }

  lemma ReceivedAppend(outcomes: seq<Option<Byte>>, x: Option<Byte>)
    ensures Received(outcomes + [x]) == if x.Some? then Received(outcomes) + [x.value] else Received(outcomes)
  {
    assert (outcomes + [x])[..|outcomes + [x]| - 1] == outcomes;
  }

  lemma {:induction false} ScriptResponds(outcomes: seq<Option<Byte>>)
    ensures Transmitted(Script(outcomes)) == Respond(Received(outcomes))
  {
    if outcomes == [] {
      NothingTransmitted();
    } else {
      hide Script, Transmitted, Respond, Received;
      var before, x := outcomes[..|outcomes| - 1], Last(outcomes);
      assert outcomes == before + [x];
      ScriptResponds(before);
      ScriptAppend(before, x);
      ReceivedAppend(before, x);
      var c := Script(before) + [SlaveRx(false)];
      TransmittedAppend(Script(before), SlaveRx(false));
      if x.Some? {
        RespondAppend(Received(before), x.value);
      }
      if x == Some(0x21) {
        TransmittedAppend(c, SlaveTx(0x00));
        TransmittedAppend(c + [SlaveTx(0x00)], SlaveTx(0x55));
      }
    }
  }

  lemma NothingTransmitted()
    ensures Transmitted(Script([])) == [] && Respond(Received([])) == []
  {
  }

  /** The slave command on any bus, from any state, stopped by ctrl-c after any number
      of rounds: it configures the bus's window, then issues one receive per round and
      answers each received 0x21; in terms of bytes, it transmits Respond of what it
      received. Whether a transmission succeeds makes no difference. */
  lemma SlaveTransduces(e: Env, d: Driver, bus: int, rounds: nat)
    requires 0 <= bus < BUSES
    ensures var (d1, byte) := SlaveLoop(e, RealInit(e, d.(busNum := bus)), rounds);
            var t := Recorded(d, d1);
            && d1.busBase == Window(bus) && byte != 0x21
            && Log(d1.history, d1.busBase) == Log(d.history, d1.busBase) + t
            && |Outcomes(t)| == rounds
            && Commands(t) == [Configure] + Script(Outcomes(t))
            && Transmitted(Commands(t)) == Respond(Received(Outcomes(t)))
  {
    hide Watch, DisrReads, RealInit, SlaveLoop, Script, Finished, Ok, Polls;
    var d0 := RealInit(e, d.(busNum := bus));
    var x := RealInitView(e, d.(busNum := bus));
    var u := RoundsView(e, d0, rounds);
    ConfigureIsSilent(x, u);
    ScriptResponds(Outcomes(u));
    assert Log(d.history, d0.busBase) + [x] + u == Log(d.history, d0.busBase) + ([x] + u);
  }

  lemma {:induction false} ConfigureIsSilent(x: Exchange, t: seq<Exchange>)
    requires Finished(x, Configure)
    ensures Outcomes([x] + t) == Outcomes(t)
    ensures Commands([x] + t) == [Configure] + Commands(t)
    ensures Transmitted(Commands([x] + t)) == Transmitted(Commands(t))
    decreases |t|
  {
    hide Outcomes, Transmitted;
    if t == [] {
      assert [x] + t == [] + [x];
      OutcomesAppend([], x);
      TransmittedAppend([], x.cmd);
      assert Commands([x] + t) == [] + [x.cmd];
    } else {
      var before := t[..|t| - 1];
      ConfigureIsSilent(x, before);
      assert [x] + t == ([x] + before) + [Last(t)] && t == before + [Last(t)];
      SilentStep([x] + before, before, Last(t));
      CommandsOfAppend([x] + before, Last(t));
      CommandsOfAppend(before, Last(t));
    }
  }

  lemma SilentStep(t: seq<Exchange>, u: seq<Exchange>, x: Exchange)
    requires Outcomes(t) == Outcomes(u) && Transmitted(Commands(t)) == Transmitted(Commands(u))
    ensures Outcomes(t + [x]) == Outcomes(u + [x])
    ensures Transmitted(Commands(t + [x])) == Transmitted(Commands(u + [x]))
  {
    hide Outcomes, Transmitted;
    OutcomesAppend(t, x);
    OutcomesAppend(u, x);
    CommandsOfAppend(t, x);
    CommandsOfAppend(u, x);
    TransmittedAppend(Commands(t), x.cmd);
    TransmittedAppend(Commands(u), x.cmd);
  }
}
