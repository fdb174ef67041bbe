/** Nodes running the responder on one bus. Frames are in flight in any order; each is
    delivered to one node other than its sender, or lost. */
module ResponderNetwork {
  import opened Responder

  datatype Packet = Packet(sender: nat, frame: Frame)

  /** Frames in flight, and how many were injected from outside and sent as replies. */
  datatype Net = Net(flying: seq<Packet>, injected: nat, replies: nat)

  datatype Event =
    | Inject(packet: Packet)
    | Deliver(index: nat, to: nat, sendFails: bool)
    | Lose(index: nat)

  predicate Enabled(regs: seq<int>, s: Net, e: Event) {
    match e
    case Inject(p) => p.sender < |regs|
    case Deliver(i, to, _) => i < |s.flying| && to < |regs| && to != s.flying[i].sender
    case Lose(i) => i < |s.flying|
  }

  function Without(s: seq<Packet>, i: nat): seq<Packet>
    requires i < |s|
  {
    s[..i] + s[i + 1..]
  }

  /** A reply is counted when it is sent, and flies unless the send fails. */
  function Next(regs: seq<int>, s: Net, e: Event): Net
    requires Enabled(regs, s, e)
  {
    match e
    case Inject(p) => s.(flying := s.flying + [p], injected := s.injected + 1)
    case Deliver(i, to, fails) =>
      var rest := Without(s.flying, i);
      if Requests(s.flying[i].frame, regs[to]) then
        s.(flying := if fails then rest else rest + [Packet(to, REPLY)], replies := s.replies + 1)
      else s.(flying := rest)
    case Lose(i) => s.(flying := Without(s.flying, i))
  }

  const QUIET := Net([], 0, 0)

  // ---- Runs -------------------------------------------------------------------------

  predicate Possible(regs: seq<int>, s: Net, events: seq<Event>)
    decreases |events|
  {
    events == [] || (Enabled(regs, s, events[0]) && Possible(regs, Next(regs, s, events[0]), events[1..]))
  }

  function Final(regs: seq<int>, s: Net, events: seq<Event>): Net
    requires Possible(regs, s, events)
    decreases |events|
  {
    if events == [] then s else Final(regs, Next(regs, s, events[0]), events[1..])
  }

  /** A run that goes on for ever without any injection. */
  ghost predicate Unending(regs: seq<int>, run: nat -> Net, events: nat -> Event) {
    forall n: nat ::
      && !events(n).Inject?
      && Enabled(regs, run(n), events(n))
      && run(n + 1) == Next(regs, run(n), events(n))
  }

  // ---- The measure ------------------------------------------------------------------

  predicate Hot(regs: seq<int>, node: nat) {
    node < |regs| && regs[node] == READ_MARK
  }

  /** Two different nodes answer for register 0x21. */
  predicate HotPair(regs: seq<int>) {
    exists a: nat, b: nat | a < b < |regs| :: Hot(regs, a) && Hot(regs, b)
  }

  /** Enough to pay for a packet and every reply it can still cause, if there is at most
      one hot node: that node's replies cause none, other replies at most one, any
      other frame at most two. Without hot nodes one unit less suffices. */
  function Weight(regs: seq<int>, p: Packet): nat {
    var noneHot := forall n: nat | n < |regs| :: !Hot(regs, n);
    if p.frame != REPLY then (if noneHot then 2 else 3)
    else if Hot(regs, p.sender) || noneHot then 1
    else 2
  }

  function Weights(regs: seq<int>, s: seq<Packet>): nat {
    if s == [] then 0 else Weights(regs, s[..|s| - 1]) + Weight(regs, s[|s| - 1])
  }

  lemma {:induction false} WeightsAppend(regs: seq<int>, s: seq<Packet>, t: seq<Packet>)
    ensures Weights(regs, s + t) == Weights(regs, s) + Weights(regs, t)
    decreases |t|
  {
    if t == [] {
      assert s + t == s;
    } else {
      assert (s + t)[..|s + t| - 1] == s + t[..|t| - 1];
      WeightsAppend(regs, s, t[..|t| - 1]);
    }
  }

  lemma WeightsWithout(regs: seq<int>, s: seq<Packet>, i: nat)
    requires i < |s|
    ensures Weights(regs, s) == Weights(regs, Without(s, i)) + Weight(regs, s[i])
  {
    assert s == s[..i] + [s[i]] + s[i + 1..];
    assert [s[i]][..0] == [];
    WeightsAppend(regs, s[..i] + [s[i]], s[i + 1..]);
    WeightsAppend(regs, s[..i], [s[i]]);
    WeightsAppend(regs, s[..i], s[i + 1..]);
  }

  /** What one injection may cost at most. */
  function Cost(regs: seq<int>): nat {
    if forall n: nat | n < |regs| :: !Hot(regs, n) then 2 else 3
  }

  /** Replies that the frames in flight can still cause. */
  function Credit(regs: seq<int>, s: Net): int {
    Weights(regs, s.flying) - |s.flying|
  }

  lemma {:induction false} CreditIsPositive(regs: seq<int>, s: seq<Packet>)
    ensures Weights(regs, s) >= |s|
  {
    if s != [] {
      CreditIsPositive(regs, s[..|s| - 1]);
    }
  }

  lemma WeightIsPositive(regs: seq<int>)
    ensures forall p: Packet :: 1 <= Weight(regs, p) <= Cost(regs)
  {
  }

  /** A reply weighs less than the frame it answers. */
  lemma ReplyWeighsLess(regs: seq<int>, p: Packet, to: nat)
    requires !HotPair(regs) && to < |regs| && to != p.sender && Requests(p.frame, regs[to])
    ensures Weight(regs, Packet(to, REPLY)) < Weight(regs, p)
  {
    hide Requests;
    if p.frame == REPLY {
      ReplyRequests(regs[to]);
      assert Hot(regs, to) && !Hot(regs, p.sender);
    }
  }

  /** Every event other than an injection uses up some weight, and every reply sent is
      paid for by credit. */
  lemma StepPays(regs: seq<int>, s: Net, e: Event)
    requires !HotPair(regs) && Enabled(regs, s, e)
    ensures var t := Next(regs, s, e);
            if e.Inject? then
              && Weights(regs, t.flying) <= Weights(regs, s.flying) + Cost(regs)
              && t.replies + Credit(regs, t) <= s.replies + Credit(regs, s) + Cost(regs) - 1
              && t.injected == s.injected + 1
            else
              && Weights(regs, t.flying) < Weights(regs, s.flying)
              && t.replies + Credit(regs, t) <= s.replies + Credit(regs, s)
              && t.injected == s.injected
  {
    hide Requests, Weight, HotPair;
    WeightIsPositive(regs);
    match e
    case Inject(p) =>
      WeightsAppend(regs, s.flying, [p]);
      assert [p][..0] == [];
    case Lose(i) =>
      WeightsWithout(regs, s.flying, i);
    case Deliver(i, to, fails) =>
      WeightsWithout(regs, s.flying, i);
      if Requests(s.flying[i].frame, regs[to]) {
        ReplyWeighsLess(regs, s.flying[i], to);
      }
      var rest, reply := Without(s.flying, i), Packet(to, REPLY);
      WeightsAppend(regs, rest, [reply]);
      assert [reply][..0] == [];
  }

  // ---- Main results -----------------------------------------------------------------

  lemma {:induction false} RunPays(regs: seq<int>, s: Net, events: seq<Event>)
    requires !HotPair(regs) && Possible(regs, s, events)
    ensures var t := Final(regs, s, events);
            && s.injected <= t.injected
            && Weights(regs, t.flying) + |events|
               <= Weights(regs, s.flying) + (Cost(regs) + 1) * (t.injected - s.injected)
            && t.replies + Credit(regs, t)
               <= s.replies + Credit(regs, s) + (Cost(regs) - 1) * (t.injected - s.injected)
    decreases |events|
  {
    if events != [] {
      StepPays(regs, s, events[0]);
      RunPays(regs, Next(regs, s, events[0]), events[1..]);
    }
  }

  /** No reply storm: unless two nodes answer for register 0x21, a run that begins with
      a quiet bus is at most 4 events long per frame injected, and sends at most 2
      replies per frame; without any such node it is 3 events and 1 reply. */
  lemma NoReplyStorm(regs: seq<int>, events: seq<Event>)
    requires !HotPair(regs) && Possible(regs, QUIET, events)
    ensures var t := Final(regs, QUIET, events);
            && |events| <= (Cost(regs) + 1) * t.injected
            && t.replies <= (Cost(regs) - 1) * t.injected
  {
    RunPays(regs, QUIET, events);
    CreditIsPositive(regs, Final(regs, QUIET, events).flying);
  }

  /** Deliveries only, each followed by a successful send if a reply is due. */
  predicate Delivers(events: seq<Event>) {
    forall k | 0 <= k < |events| :: events[k].Deliver? && !events[k].sendFails
  }

  lemma OneFirst(regs: seq<int>, s: Net, e: Event, rest: seq<Event>)
    requires Enabled(regs, s, e) && Possible(regs, Next(regs, s, e), rest)
    ensures Possible(regs, s, [e] + rest) && Final(regs, s, [e] + rest) == Final(regs, Next(regs, s, e), rest)
  {
    hide Enabled, Next;
    assert ([e] + rest)[1..] == rest;
  }

  lemma {:induction false} Drain(regs: seq<int>, s: Net) returns (events: seq<Event>)
    requires !HotPair(regs) && |regs| >= 2
    ensures Possible(regs, s, events) && Delivers(events)
    ensures Final(regs, s, events).flying == [] && |events| <= Weights(regs, s.flying)
    decreases Weights(regs, s.flying)
  {
    hide HotPair, Next, Weights;
    if s.flying == [] {
      events := [];
    } else {
      var e := Deliver(0, if s.flying[0].sender == 0 then 1 else 0, false);
      StepPays(regs, s, e);
      var rest := Drain(regs, Next(regs, s, e));
      OneFirst(regs, s, e, rest);
      events := [e] + rest;
    }
  }

  lemma {:induction false} PossibleThen(regs: seq<int>, s: Net, events: seq<Event>, more: seq<Event>)
    requires Possible(regs, s, events) && Possible(regs, Final(regs, s, events), more)
    ensures Possible(regs, s, events + more)
    ensures Final(regs, s, events + more) == Final(regs, Final(regs, s, events), more)
    decreases |events|
  {
    hide Enabled, Next;
    if events == [] {
      assert events + more == more;
    } else {
      assert (events + more)[1..] == events[1..] + more;
      PossibleThen(regs, Next(regs, s, events[0]), events[1..], more);
    }
  }

  /** Without injections and without two such nodes, the bus drains: whatever happens
      first, deliveries alone can then empty the bus, and the whole takes no more events
      than the frames in flight weigh. */
  lemma RunDrains(regs: seq<int>, s: Net, events: seq<Event>)
    requires !HotPair(regs) && |regs| >= 2 && Possible(regs, s, events)
    requires forall k | 0 <= k < |events| :: !events[k].Inject?
    ensures exists more: seq<Event> ::
              && Delivers(more) && Possible(regs, s, events + more)
              && Final(regs, s, events + more).flying == []
              && |events + more| <= Weights(regs, s.flying) <= Cost(regs) * |s.flying|
  {
    hide HotPair, Delivers, Possible, Final, Weights, Cost;
    QuietRunPays(regs, s, events);
    var more := Drain(regs, Final(regs, s, events));
    PossibleThen(regs, s, events, more);
    WeightsAtMost(regs, s.flying);
  }

  lemma {:induction false} QuietRunPays(regs: seq<int>, s: Net, events: seq<Event>)
    requires !HotPair(regs) && Possible(regs, s, events) && forall k | 0 <= k < |events| :: !events[k].Inject?
    ensures Weights(regs, Final(regs, s, events).flying) + |events| <= Weights(regs, s.flying)
    decreases |events|
  {
    hide HotPair, Next, Weights;
    if events != [] {
      StepPays(regs, s, events[0]);
      QuietRunPays(regs, Next(regs, s, events[0]), events[1..]);
    }
  }

  lemma {:induction false} WeightsAtMost(regs: seq<int>, s: seq<Packet>)
    ensures Weights(regs, s) <= Cost(regs) * |s|
  {
    hide Weight, Cost;
    if s != [] {
      WeightsAtMost(regs, s[..|s| - 1]);
      WeightIsPositive(regs);
    }
  }

  lemma {:induction false} UnendingRunsPay(regs: seq<int>, run: nat -> Net, events: nat -> Event, n: nat)
    requires !HotPair(regs) && Unending(regs, run, events)
    ensures Weights(regs, run(n).flying) + n <= Weights(regs, run(0).flying)
  {
    if n > 0 {
      UnendingRunsPay(regs, run, events, n - 1);
      assert run(n - 1 + 1) == Next(regs, run(n - 1), events(n - 1));
      StepPays(regs, run(n - 1), events(n - 1));
    }
  }

  /** The storm: two nodes that answer for register 0x21 answer each other's replies. */
  function StormState(a: nat, b: nat, n: nat): Net {
    if n == 0 then Net([Packet(b, RequestFor(READ_MARK))], 1, 0)
    else Net([Packet(if n % 2 == 1 then a else b, REPLY)], 1, n)
  }

  function StormEvent(a: nat, b: nat, n: nat): Event {
    Deliver(0, if n % 2 == 0 then a else b, false)
  }

  lemma StormGoesOn(regs: seq<int>, a: nat, b: nat, n: nat)
    requires a != b && Hot(regs, a) && Hot(regs, b)
    ensures Enabled(regs, StormState(a, b, n), StormEvent(a, b, n))
    ensures StormState(a, b, n + 1) == Next(regs, StormState(a, b, n), StormEvent(a, b, n))
  {
    ReplyRequests(READ_MARK);
    RequestIsAnswered(READ_MARK, READ_MARK);
  }

  /** Exactly when two nodes answer for register 0x21 can the bus be kept busy for ever
      without another injection, and then a single request is enough to start it. */
  lemma UnendingIffHotPair(regs: seq<int>)
    ensures HotPair(regs) <==> exists run: nat -> Net, events: nat -> Event :: Unending(regs, run, events)
    ensures HotPair(regs) ==>
              exists p: Packet, run: nat -> Net, events: nat -> Event ::
                && Unending(regs, run, events)
                && Enabled(regs, QUIET, Inject(p)) && run(0) == Next(regs, QUIET, Inject(p))
  {
    if HotPair(regs) {
      var a: nat, b: nat :| a < b < |regs| && Hot(regs, a) && Hot(regs, b);
      var run: nat -> Net := (n: nat) => StormState(a, b, n);
      var events: nat -> Event := (n: nat) => StormEvent(a, b, n);
      forall n: nat
        ensures Enabled(regs, run(n), events(n)) && run(n + 1) == Next(regs, run(n), events(n))
      {
        StormGoesOn(regs, a, b, n);
      }
      assert Unending(regs, run, events);
      var p := Packet(b, RequestFor(READ_MARK));
      assert Enabled(regs, QUIET, Inject(p)) && run(0) == Next(regs, QUIET, Inject(p));
    } else {
      forall run: nat -> Net, events: nat -> Event
        ensures !Unending(regs, run, events)
      {
        if Unending(regs, run, events) {
          UnendingRunsPay(regs, run, events, Weights(regs, run(0).flying) + 1);
        }
      }
    }
  }
}
