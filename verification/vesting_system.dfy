/**
 * The vesting contract, one receiver per lane, and the messages under way, run against an environment of any calls,
 * deliveries and answers in any order. The host is assumed to credit value before a call runs, to answer every payout
 * with exactly one native callback, to give a failed delivery's exact principal back with an empty body, never to let
 * logical time run backwards, and not to repeat a message hash. Each receiver was deployed for its own stream and
 * kind, and its owner binds it to this contract only.
 */
module VestingSystem {
  import opened Bytes
  import opened Sdk
  import opened VestingCore
  import opened VestingState
  import V = VestingSpec
  import R = VestingReceiver
  import Runs = VestingRuns

  const LANES := 2 * MAX_STREAMS

  datatype Packet =
    | Nothing
    | Outgoing(hash: Id32, out: Outbound)
    | Returning(msg: Message, acked: nat)

  /** A lane's receiver with its balance, and what is under way to it or back from it. */
  datatype Site = Site(receiver: R.Receiver, balance: nat, packet: Packet)

  datatype System = System(here: Address, vesting: State, balance: nat, sites: seq<Site>, blockLt: u64, lastLt: u64,
                           used: set<Id32>)

  datatype Action =
    | CallVesting(in_: Input, hash: Id32)
    | CallReceiver(j: nat, call: Input)
    | Deliver(j: nat, atLt: u64, lt: u64, hostStatus: u32, refund: u128)
    | Answer(j: nat, answer: Input)

  /** Lanes are numbered stream by stream, claims before refunds. */
  function StreamOf(j: nat): nat { j / 2 }
  function KindOf(j: nat): nat { j % 2 }
  function LaneNo(i: nat, kind: nat): nat { 2 * i + kind }

  function Dest(c: Config, j: nat): Address
    requires j < LANES
  {
    V.Destination(c.streams[StreamOf(j)], KindOf(j))
  }

  /** The principal a packet carries. */
  function Carried(p: Packet): nat {
    match p
    case Nothing => 0
    case Outgoing(_, out) => out.principal
    case Returning(msg, _) => Principal(msg.extra)
  }

  /** What a packet acknowledges as received. */
  function Acked(p: Packet): nat { if p.Returning? then p.acked else 0 }

  function CarriedColumn(sites: seq<Site>): (c: seq<nat>)
    ensures |c| == |sites|
  {
    seq(|sites|, j requires 0 <= j < |sites| => Carried(sites[j].packet))
  }

  function BalanceColumn(sites: seq<Site>): (c: seq<nat>)
    ensures |c| == |sites|
  {
    seq(|sites|, j requires 0 <= j < |sites| => sites[j].balance)
  }

  /** The message a receiver sees when a payout reaches it. */
  function Arrival(here: Address, out: Outbound, blockLt: u64, lt: u64): Input {
    Input(blockLt, 0, out.destination, [],
          Internal(here, out.methodId, out.body, [Currency(PRINCIPAL, out.principal)], out.destination, lt,
                   None, false, out.callbackMethod.Some?, false))
  }

  function Change(shell: u128): seq<Currency> { if shell == 0 then [] else [Currency(SHELL, shell)] }

  /** The native callback: the receiver's result on success, the exact principal and no body on failure. */
  function Reaction(here: Address, hash: Id32, out: Outbound, status: u32, result: seq<byte>, lt: u64,
                    refund: u128): Packet
    requires out.callbackMethod.Some?
  {
    Returning(Internal(out.destination, out.callbackMethod.value, if status == 0 then result else [],
                       (if status == 0 then [] else [Currency(PRINCIPAL, out.principal)]) + Change(refund),
                       here, lt, Some(CallbackHeader(hash, here, status)), false, false, false),
              if status == 0 then out.principal else 0)
  }

  function FailureStatus(code: int): (s: u32)
    ensures s != 0
  {
    if 0 < code < U32_END then code else 1
  }

  ghost predicate Enabled(s: System, a: Action) {
    match a
    case CallVesting(in_, hash) =>
      && in_.here == s.here && s.blockLt <= in_.blockLt
      && (in_.message.Internal? ==> in_.message.callback.None?)
      && Principal(in_.balance) == s.balance + Principal(in_.message.extra)
      && hash !in s.used && hash != ZERO32
    case CallReceiver(j, call) =>
      && j < |s.sites| && j < LANES && s.sites[j].receiver.index < MAX_STREAMS && call.here == Dest(s.vesting.config, j)
      && (call.message.Internal? ==> call.message.source != s.here && NonzeroAddress(call.message.source))
      && (call.message.methodId == BIND ==> call.message.body == AddressBytes(s.here))
    case Deliver(j, atLt, lt, _, _) =>
      && j < |s.sites| && s.sites[j].receiver.index < MAX_STREAMS
      && s.sites[j].packet.Outgoing? && s.sites[j].packet.out.callbackMethod.Some?
      && s.blockLt <= atLt < lt && s.lastLt < lt
    case Answer(j, in_) =>
      && j < |s.sites| && s.sites[j].packet.Returning?
      && in_.here == s.here && in_.message == s.sites[j].packet.msg && s.blockLt <= in_.blockLt
      && Principal(in_.balance) == s.balance + Carried(s.sites[j].packet)
  }

  /** A payout goes to the lane whose address it names, whatever that lane is doing. */
  function Launched(s: System, out: Outbound, hash: Id32): System
    requires s.vesting.config.count <= MAX_STREAMS && |s.sites| == 2 * s.vesting.config.count
  {
    match V.LaneAt(s.vesting.config, out.destination, 0)
    case None => s
    case Some((i, kind)) =>
      var j := LaneNo(i, kind);
      s.(sites := s.sites[j := s.sites[j].(packet := Outgoing(hash, out))])
  }

  ghost function AfterCall(s: System, in_: Input, hash: Id32): System
    requires Valid(s.vesting) && |s.sites| == 2 * s.vesting.config.count
  {
    match V.Process(s.vesting, in_)
    case Err(_) => s.(blockLt := in_.blockLt)
    case Ok(o) =>
      var funds := s.balance + Principal(in_.message.extra);
      if o.reply.sends == [] then s.(vesting := o.state, balance := funds, blockLt := in_.blockLt)
      else if funds < o.reply.sends[0].principal then s
      else
        Launched(s, o.reply.sends[0], hash)
          .(vesting := o.state, balance := funds - o.reply.sends[0].principal, blockLt := in_.blockLt,
            used := s.used + {hash})
  }

  function CalledReceiver(r: R.Receiver, in_: Input): R.Receiver
    requires r.index < MAX_STREAMS
  {
    match R.Process(r, in_)
    case Ok(o) => o.state
    case Err(_) => r
  }

  /** A delivery either moves the principal into the receiver or sends it back, as the receiver and the host decide. */
  function Delivered(here: Address, x: Site, atLt: u64, lt: u64, hostStatus: u32, refund: u128): Site
    requires x.receiver.index < MAX_STREAMS && x.packet.Outgoing? && x.packet.out.callbackMethod.Some?
  {
    var out, hash := x.packet.out, x.packet.hash;
    if hostStatus != 0 then x.(packet := Reaction(here, hash, out, hostStatus, [], lt, refund)) else
      match R.Process(x.receiver, Arrival(here, out, atLt, lt))
      case Err(code) => x.(packet := Reaction(here, hash, out, FailureStatus(code), [], lt, refund))
      case Ok(o) => Site(o.state, x.balance + out.principal, Reaction(here, hash, out, 0, o.result, lt, refund))
  }

  function WithSite(s: System, j: nat, x: Site): System
    requires j < |s.sites|
  {
    s.(sites := s.sites[j := x])
  }

  ghost function AfterAnswer(s: System, j: nat, in_: Input): System
    requires Valid(s.vesting) && j < |s.sites|
  {
    match V.Process(s.vesting, in_)
    case Err(_) => s
    case Ok(o) =>
      WithSite(s, j, s.sites[j].(packet := Nothing))
        .(vesting := o.state, balance := s.balance + Carried(s.sites[j].packet), blockLt := in_.blockLt)
  }

  /** One step; one that cannot happen here changes nothing. */
  ghost function Apply(s: System, a: Action): System {
    if !Valid(s.vesting) || |s.sites| != 2 * s.vesting.config.count || !Enabled(s, a) then s else
      match a
      case CallVesting(in_, hash) => AfterCall(s, in_, hash)
      case CallReceiver(j, call) => WithSite(s, j, s.sites[j].(receiver := CalledReceiver(s.sites[j].receiver, call)))
      case Deliver(j, atLt, lt, hostStatus, refund) =>
        WithSite(s, j, Delivered(s.here, s.sites[j], atLt, lt, hostStatus, refund)).(blockLt := atLt, lastLt := lt)
      case Answer(j, in_) => AfterAnswer(s, j, in_)
  }

  ghost function Exec(s: System, actions: seq<Action>): System
    decreases |actions|
  {
    if actions == [] then s else Exec(Apply(s, actions[0]), actions[1..])
  }

  predicate FreshSite(x: Site, j: nat) {
    && x.balance == 0 && x.packet == Nothing
    && x.receiver.index == StreamOf(j) && x.receiver.kind == KindOf(j) && x.receiver.bound == ZERO_ADDRESS
    && forall k | 0 <= k < MAX_STREAMS :: x.receiver.slots[k] == R.Slot(0, 0, 0)
  }

  /** A fresh contract with fresh receivers, one for each lane. */
  ghost predicate Init(s: System) {
    && NonzeroAddress(s.here)
    && ValidConfig(s.vesting.config) && (exists now :: s.vesting == Initial(s.vesting.config, now))
    && s.balance == 0 && |s.sites| == 2 * s.vesting.config.count
    && forall j | 0 <= j < |s.sites| :: FreshSite(s.sites[j], j)
  }

  ghost predicate ClockSound(l: Lane, blockLt: u64, lastLt: u64, used: set<Id32>) {
    && l.lastLt <= lastLt
    && (l.lastHash == ZERO32 || l.lastHash in used)
    && (l.pending != 0 ==> l.afterLt <= V.Max(blockLt, lastLt))
  }

  ghost predicate OutgoingSound(p: Packet, l: Lane, payout: Outbound, lastNonce: u64, used: set<Id32>)
    requires p.Outgoing?
  {
    && l.pending != 0 && p.out == payout && lastNonce < l.nonce
    && p.hash in used && p.hash != ZERO32 && p.hash != l.lastHash
  }

  ghost predicate ReturningSound(p: Packet, l: Lane, payout: Outbound, here: Address, lastLt: u64, used: set<Id32>)
    requires p.Returning?
  {
    && l.pending != 0 && p.msg.Internal? && p.msg.callback.Some?
    && Runs.Answers(p.msg, payout, here, p.msg.callback.value.status)
    && p.msg.callback.value.causeHash in used && p.msg.callback.value.causeHash != l.lastHash
    && l.afterLt < p.msg.createdLt <= lastLt
    && p.acked == (if p.msg.callback.value.status == 0 then l.pending else 0)
    && Principal(p.msg.extra) == (if p.msg.callback.value.status == 0 then 0 else l.pending)
  }

  ghost predicate PacketSound(p: Packet, l: Lane, payout: Outbound, lastNonce: u64, here: Address, lastLt: u64,
                              used: set<Id32>)
  {
    match p
    case Nothing => l.pending == 0
    case Outgoing(_, _) => OutgoingSound(p, l, payout, lastNonce, used)
    case Returning(_, _) => ReturningSound(p, l, payout, here, lastLt, used)
  }

  /** A receiver agrees with its lane: it holds what was settled plus what is acknowledged. */
  ghost predicate ReceiverSound(x: Site, j: nat, paid: nat, here: Address, nonce: u64) {
    var r := x.receiver;
    && r.index == StreamOf(j) < MAX_STREAMS && r.kind == KindOf(j)
    && (r.bound == ZERO_ADDRESS || r.bound == here)
    && r.slots[r.index].count <= r.slots[r.index].lastNonce <= nonce
    && r.slots[r.index].total == x.balance == paid + Acked(x.packet)
  }

  function LaneOf(v: State, j: nat): Lane
    requires j < LANES
  {
    V.LaneOf(v.progress[StreamOf(j)], KindOf(j))
  }

  function PaidOf(v: State, j: nat): u128
    requires j < LANES
  {
    V.PaidOf(v.progress[StreamOf(j)], KindOf(j))
  }

  /** The payout a lane has under way. */
  function PayoutOf(v: State, j: nat): Outbound
    requires j < LANES
  {
    V.Payout(v.config, StreamOf(j), KindOf(j), LaneOf(v, j).nonce, LaneOf(v, j).pending)
  }

  ghost predicate SiteSound(s: System, j: nat)
    requires j < |s.sites| <= LANES
  {
    && ReceiverSound(s.sites[j], j, PaidOf(s.vesting, j), s.here, s.vesting.nonce)
    && PacketSound(s.sites[j].packet, LaneOf(s.vesting, j), PayoutOf(s.vesting, j),
                   s.sites[j].receiver.slots[StreamOf(j)].lastNonce, s.here, s.lastLt, s.used)
    && ClockSound(LaneOf(s.vesting, j), s.blockLt, s.lastLt, s.used)
  }

  ghost predicate Inv(s: System) {
    && Valid(s.vesting) && NonzeroAddress(s.here)
    && |s.sites| == 2 * s.vesting.config.count <= LANES
    && s.balance == Held(s.vesting)
    && (forall j | 0 <= j < |s.sites| :: SiteSound(s, j))
  }
}
