/** Writing to a memory device and reading it back. */
module I2cRoundTrip {
  import opened Bits
  import opened I2cHardware
  import opened I2cDriver
  import opened I2cTranscript
  import opened I2cTheorems
  import opened I2cSettled
  import opened I2cMemorySlave
  import opened I2cBoard

  lemma OverwriteReads(mem: seq<Byte>, addr: nat, data: seq<Byte>, len: nat)
    requires |data| <= len && addr + len <= |mem|
    ensures Overwrite(mem, addr, data)[addr..addr + len] == data + mem[addr + |data|..addr + len]
  {
  }

  /** If every answer to the receives came in time, the buffer holds the cells. */
  lemma AllFetched(b: seq<Byte>, before: seq<Byte>, mem: seq<Byte>, a: nat, len: nat,
                   dev: Device, seen: seq<Command>)
    requires a + len <= |mem| && len <= |before|
    requires Fetched(b, before, mem, a, len, dev, seen, ReceivePlan(len, Masterm))
    requires AllTimely(dev, seen, ReceivePlan(len, Masterm))
    ensures b == mem[a..a + len] + before[len..]
  {
    hide Timely;
    var plan := ReceivePlan(len, Masterm);
    forall k | 0 <= k < |b|
      ensures b[k] == (mem[a..a + len] + before[len..])[k]
    {
      if k < len {
        assert plan[k] == RxCommand(k == len - 1, Masterm);
        assert Timely(dev, seen + plan[..k + 1]);
      }
    }
  }

  /** A read that succeeds has delivered every cell. */
  lemma ReadDelivers(e: Env, devs: map<int, Device>, d: Driver, chip: Byte, addr: nat, alen: nat, buffer: seq<Byte>,
                     len: nat)
    requires OnBoard(e, devs) && Valid(d) && Settled(d.history) && len <= |buffer|
    requires Hits(devs, d, chip) ==> Fits(devs[d.busNum], addr, alen, len)
    ensures var (d1, ret, b) := I2cRead(e, d, chip, addr, alen, buffer, len, Masterm);
            && (ret == 0 <==> Hits(devs, d, chip)
                              && InTime(devs[d.busNum], d, ReadPlan(chip, addr, alen, len, Masterm)))
            && (ret == 0 ==> b == Memories(devs, d.history)[d.busNum][addr..addr + len] + buffer[len..])
            && (!Hits(devs, d, chip) ==> b == buffer)
            && Memories(devs, d1.history) == Memories(devs, d.history)
            && Valid(d1) && Settled(d1.history)
  {
    hide Memories, I2cRead, Settled, Attached, AllTimely, Fetched, Seen, ReceivePlan, AddressPlan;
    BoardRead(e, devs, d, chip, addr, alen, buffer, len);
    var (_, ret, b) := I2cRead(e, d, chip, addr, alen, buffer, len, Masterm);
    if ret == 0 {
      var dev, seen := devs[d.busNum], Seen(devs[d.busNum], d.history) + InitPlan(d);
      var head := Header(chip, addr, alen) + [StartCommand(chip, 1)];
      TimelyWithStop(dev, seen, head, ReceivePlan(len, Masterm));
      AllFetched(b, buffer, Memories(devs, d.history)[d.busNum], addr, len, dev, seen + head);
    }
  }

  /** A write followed by a read of the same cells, on a board with any memory devices and
      from any state of driver and devices. Each returns 0 exactly when it hits a device -
      the window in use belongs to the chosen bus, and the device there has this address -
      and every answer comes within 100000 polls. A hit whose address bytes are answered
      in time stores the data up to the first locked cell, and a successful read then
      delivers it; in every other case, and for every other device, all memories stay as
      they were. */
  lemma RoundTrip(e: Env, devs: map<int, Device>, d: Driver, chip: Byte, addr: nat, alen: nat, data: seq<Byte>,
                  buffer: seq<Byte>)
    requires OnBoard(e, devs) && Valid(d) && Settled(d.history) && |data| <= |buffer|
    requires Hits(devs, d, chip) ==> Fits(devs[d.busNum], addr, alen, |data|)
    ensures var (d1, written) := I2cWrite(e, d, chip, addr, alen, data, Masterm);
            var (d2, read, b) := I2cRead(e, d1, chip, addr, alen, buffer, |data|, Masterm);
            var before, after := Memories(devs, d.history), Memories(devs, d2.history);
            var stored := Hits(devs, d, chip) && InTime(devs[d.busNum], d, Header(chip, addr, alen));
            && (written == 0 <==> Hits(devs, d, chip)
                                  && InTime(devs[d.busNum], d, WritePlan(chip, addr, alen, data, Masterm)))
            && (read == 0 <==> Hits(devs, d, chip)
                               && InTime(devs[d.busNum], d1, ReadPlan(chip, addr, alen, |data|, Masterm)))
            && (stored && read == 0 ==>
                  var taken := Taken(devs[d.busNum], addr, data);
                  b == taken + before[d.busNum][addr + |taken|..addr + |data|] + buffer[|data|..])
            && (stored && read == 0 && Unlocked(devs[d.busNum], addr, |data|) ==> b == data + buffer[|data|..])
            && (!Hits(devs, d, chip) ==> b == buffer)
            && after.Keys == before.Keys
            && (forall n | n in after && n != d.busNum :: after[n] == before[n])
            && (!stored ==> after == before)
            && (stored ==> forall k | 0 <= k < |before[d.busNum]| ::
                 after[d.busNum][k] == if addr <= k < addr + |Taken(devs[d.busNum], addr, data)| then data[k - addr]
                                       else before[d.busNum][k])
            && Valid(d2) && Settled(d2.history)
  {
    hide Memories, I2cRead, I2cWrite, Settled, Attached, InTime, Addresses, ReceivePlan, AddressPlan;
    BoardWrite(e, devs, d, chip, addr, alen, data);
    var d1 := I2cWrite(e, d, chip, addr, alen, data, Masterm).0;
    HitsAgain(e, devs, d, chip, addr, alen, data);
    ReadDelivers(e, devs, d1, chip, addr, alen, buffer, |data|);
    if Hits(devs, d, chip) {
      OverwriteReads(Memories(devs, d.history)[d.busNum], addr, Taken(devs[d.busNum], addr, data), |data|);
      AcceptedIffUnlocked(devs[d.busNum], addr, |data|);
    }
  }

  /** The next transfer hits the same device. */
  lemma HitsAgain(e: Env, devs: map<int, Device>, d: Driver, chip: Byte, addr: nat, alen: nat, data: seq<Byte>)
    requires d.OnBus()
    ensures var d1 := I2cWrite(e, d, chip, addr, alen, data, Masterm).0;
            d1.busNum == d.busNum && (Hits(devs, d1, chip) <==> Hits(devs, d, chip))
  {
    hide RealInit, WriteTransfer;
  }
}
