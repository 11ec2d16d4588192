/**
 * The vault, its receivers and the messages under way, run against an environment that calls, delivers and
 * returns in any order. The host is assumed to credit value before a call runs, to answer every transfer with
 * exactly one native callback, to give a failed delivery's exact principal back with an empty body, never to
 * let logical time run backwards, and not to repeat a message hash.
 * The receivers were deployed one for each member, receiver `i` with index `i`, and are bound to nothing at first;
 * their owners bind them to this vault only.
 */
module HubSystem {
  import opened Bytes
  import opened Sdk
  import opened Sums
  import opened RevenueCore
  import opened VaultState
  import VaultSpec
  import R = RevenueReceiver

  /** A message under way. `member` and `acked` are bookkeeping: whose payout it is, and what it acknowledges. */
  datatype Packet =
    | Transfer(member: nat, hash: Id32, out: Outbound)
    | Return(member: nat, msg: Message, acked: nat)

  datatype Hub = Hub(here: Address, vault: State, vaultBalance: nat, receivers: seq<R.Receiver>,
                     receiverBalances: seq<nat>, bag: seq<Packet>, blockLt: u64, lastLt: u64, used: set<Id32>)

  datatype Action =
    | CallVault(in_: Input, hash: Id32)
    | CallReceiver(i: nat, call: Input)
    | Deliver(k: nat, atLt: u64, lt: u64, hostStatus: u32, refund: u128)
    | Answer(k: nat, answerLt: u64, answerTime: u32, balance: seq<Currency>)

  function Dest(h: Hub, i: nat): Address
    requires i < MAX_MEMBERS
  {
    h.vault.config.members[i].destination
  }

  /** The principal a packet carries. */
  function Carried(p: Packet): nat {
    match p
    case Transfer(_, _, out) => out.principal
    case Return(_, msg, _) => Principal(msg.extra)
  }

  function CarriedColumn(bag: seq<Packet>): (c: seq<nat>)
    ensures |c| == |bag|
  {
    seq(|bag|, k requires 0 <= k < |bag| => Carried(bag[k]))
  }

  /** What packet `p` acknowledges as received by member `i`. */
  function Acked(p: Packet, i: nat): nat {
    if p.Return? && p.member == i then p.acked else 0
  }

  function AckedColumn(bag: seq<Packet>, i: nat): (c: seq<nat>)
    ensures |c| == |bag|
  {
    seq(|bag|, k requires 0 <= k < |bag| => Acked(bag[k], i))
  }

  /** The message a receiver sees when a transfer reaches it. */
  function Arrival(h: Hub, out: Outbound, blockLt: u64, lt: u64): Input {
    Input(blockLt, 0, out.destination, [],
          Internal(h.here, out.methodId, out.body, [Currency(PRINCIPAL, out.principal)], out.destination, lt,
                   None, false, out.callbackMethod.Some?, false))
  }

  function Refund(shell: u128): seq<Currency> {
    if shell == 0 then [] else [Currency(SHELL, shell)]
  }

  /** The native callback for a transfer: on success the receiver's result, on failure the principal and no body. */
  function Reaction(h: Hub, p: Packet, status: u32, result: seq<byte>, lt: u64, refund: u128): Packet
    requires p.Transfer? && p.out.callbackMethod.Some?
  {
    var ok := status == 0;
    Return(p.member,
           Internal(p.out.destination, p.out.callbackMethod.value, if ok then result else [],
                    (if ok then [] else [Currency(PRINCIPAL, p.out.principal)]) + Refund(refund),
                    h.here, lt, Some(CallbackHeader(p.hash, h.here, status)), false, false, false),
           if ok then p.out.principal else 0)
  }

  function FailureStatus(code: nat): (s: u32)
    ensures s != 0
  {
    if 0 < code < U32_END then code else 1
  }

  function Max(a: u64, b: u64): u64 { if a < b then b else a }

  ghost predicate Enabled(h: Hub, a: Action) {
    match a
    case CallVault(in_, hash) =>
      && in_.here == h.here && h.blockLt <= in_.blockLt
      && (in_.message.Internal? ==> in_.message.callback.None?)
      && Principal(in_.balance) == h.vaultBalance + Principal(in_.message.extra)
      && hash !in h.used && hash != ZERO32
    case CallReceiver(i, call) =>
      && i < |h.receivers|
      && i < MAX_MEMBERS && call.here == Dest(h, i)
      && (call.message.Internal? ==> call.message.source != h.here && NonzeroAddress(call.message.source))
      && (call.message.methodId == BIND ==> call.message.body == AddressBytes(h.here))
    case Deliver(k, blockLt, lt, _, _) =>
      && k < |h.bag| && h.bag[k].Transfer? && h.bag[k].out.callbackMethod.Some?
      && h.bag[k].member < |h.receivers| == |h.receiverBalances|
      && h.blockLt <= blockLt < lt && h.lastLt < lt
    case Answer(k, blockLt, _, balance) =>
      && k < |h.bag| && h.bag[k].Return?
      && h.blockLt <= blockLt
      && Principal(balance) == h.vaultBalance + Carried(h.bag[k])
  }

  function Sent(sends: seq<Outbound>): nat {
    if sends == [] then 0 else sends[0].principal
  }

  function Launch(sends: seq<Outbound>, hash: Id32): seq<Packet> {
    if sends == [] || sends[0].body == [] then [] else [Transfer(sends[0].body[0], hash, sends[0])]
  }

  ghost function AfterCall(h: Hub, in_: Input, hash: Id32): Hub
    requires Valid(h.vault)
  {
    match VaultSpec.Process(h.vault, in_)
    case Err(_) => h.(blockLt := in_.blockLt)
    case Ok(o) =>
      var funds := h.vaultBalance + Principal(in_.message.extra);
      if funds < Sent(o.reply.sends) then h else
        h.(vault := o.state, vaultBalance := funds - Sent(o.reply.sends),
           bag := h.bag + Launch(o.reply.sends, hash), used := h.used + {hash}, blockLt := in_.blockLt)
  }

  function AfterDelivery(h: Hub, k: nat, blockLt: u64, lt: u64, hostStatus: u32, refund: u128): Hub
    requires Enabled(h, Deliver(k, blockLt, lt, hostStatus, refund))
  {
    var p := h.bag[k];
    var t := h.(blockLt := blockLt, lastLt := lt);
    if hostStatus != 0 then t.(bag := h.bag[k := Reaction(h, p, hostStatus, [], lt, refund)]) else
      match R.Process(h.receivers[p.member], Arrival(h, p.out, blockLt, lt))
      case Err(code) => t.(bag := h.bag[k := Reaction(h, p, FailureStatus(code), [], lt, refund)])
      case Ok(o) =>
        t.(receivers := h.receivers[p.member := o.state],
           receiverBalances := h.receiverBalances[p.member := h.receiverBalances[p.member] + p.out.principal],
           bag := h.bag[k := Reaction(h, p, 0, o.result, lt, refund)])
  }

  function AnswerInput(h: Hub, k: nat, blockLt: u64, time: u32, balance: seq<Currency>): Input
    requires k < |h.bag| && h.bag[k].Return?
  {
    Input(blockLt, time, h.here, balance, h.bag[k].msg)
  }

  ghost function AfterAnswer(h: Hub, k: nat, blockLt: u64, time: u32, balance: seq<Currency>): Hub
    requires Valid(h.vault) && k < |h.bag| && h.bag[k].Return?
  {
    match VaultSpec.Process(h.vault, AnswerInput(h, k, blockLt, time, balance))
    case Err(_) => h
    case Ok(o) =>
      h.(vault := o.state, vaultBalance := h.vaultBalance + Carried(h.bag[k]),
         bag := h.bag[..k] + h.bag[k + 1..], blockLt := blockLt)
  }

  function AfterReceiverCall(h: Hub, i: nat, call: Input): Hub
    requires i < |h.receivers|
  {
    match R.Process(h.receivers[i], call)
    case Err(_) => h
    case Ok(o) => h.(receivers := h.receivers[i := o.state])
  }

  /** One step of the run; an action the host does not allow changes nothing. */
  ghost function Apply(h: Hub, a: Action): Hub {
    if !Enabled(h, a) || !Valid(h.vault) then h else
      match a
      case CallVault(in_, hash) => AfterCall(h, in_, hash)
      case CallReceiver(i, call) => AfterReceiverCall(h, i, call)
      case Deliver(k, blockLt, lt, hostStatus, refund) => AfterDelivery(h, k, blockLt, lt, hostStatus, refund)
      case Answer(k, blockLt, time, balance) => AfterAnswer(h, k, blockLt, time, balance)
  }

  ghost function Exec(h: Hub, actions: seq<Action>): Hub
    decreases |actions|
  {
    if actions == [] then h else Exec(Apply(h, actions[0]), actions[1..])
  }

  /** A freshly deployed hub: every member's receiver is new, carries its own index, and is not bound yet. */
  ghost predicate Init(h: Hub) {
    && ValidConfig(h.vault.config) && h.vault == Initial(h.vault.config)
    && NonzeroAddress(h.here)
    && h.vaultBalance == 0 && h.bag == []
    && |h.receivers| == |h.receiverBalances| == h.vault.config.count
    && (forall i | 0 <= i < |h.receivers| ::
          var r := h.receivers[i];
          r.index == i && r.vault == ZERO_ADDRESS && r.lastNonce == r.total == r.count == h.receiverBalances[i] == 0)
  }

  /** The lock of a member, without its settled amounts. */
  function Lock(m: MemberState): MemberState {
    m.(claimable := 0, paid := 0)
  }

  ghost predicate TransferSound(p: Packet, m: MemberState, dest: Address, lastNonce: u64, used: set<Id32>)
    requires p.Transfer?
  {
    && p.member < MAX_MEMBERS
    && m.pending != 0 && p.hash in used && p.hash != ZERO32 && p.hash != m.lastHash
    && p.out.destination == dest && p.out.principal == m.pending && p.out.methodId == RECEIVE
    && p.out.callbackMethod == Some(CALLBACK)
    && p.out.body == PaymentBody(p.member, m.nonce, m.pending)
    && lastNonce < m.nonce
  }

  ghost predicate ReturnSound(p: Packet, m: MemberState, dest: Address, here: Address, used: set<Id32>, lastLt: u64)
    requires p.Return?
  {
    && p.member < MAX_MEMBERS
    && p.msg.Internal? && p.msg.callback.Some? && p.msg.source == dest
    && VaultSpec.CallbackAdmissible(m, here, p.msg)
    && VaultSpec.CallbackPayload(m, p.member, p.msg)
    && p.msg.callback.value.causeHash in used
    && p.msg.createdLt <= lastLt
    && p.acked == (if p.msg.callback.value.status == 0 then m.pending else 0)
    && (p.msg.callback.value.status == 0 ==> Principal(p.msg.extra) == 0)
  }

  ghost predicate PacketSound(p: Packet, m: MemberState, r: R.Receiver, dest: Address, here: Address,
                              used: set<Id32>, lastLt: u64)
  {
    match p
    case Transfer(_, _, _) => TransferSound(p, m, dest, r.lastNonce, used)
    case Return(_, _, _) => ReturnSound(p, m, dest, here, used, lastLt)
  }

  ghost predicate SlotSound(h: Hub, k: nat)
    requires k < |h.bag| && |h.receivers| <= MAX_MEMBERS
  {
    var i := h.bag[k].member;
    i < |h.receivers| &&
    PacketSound(h.bag[k], Lock(h.vault.members[i]), h.receivers[i], Dest(h, i), h.here, h.used, h.lastLt)
  }

  /** Member `i`'s receiver agrees with the vault: its total is what was settled plus what is acknowledged. */
  ghost predicate ReceiverSound(r: R.Receiver, balance: nat, i: nat, here: Address, paid: nat, acked: nat,
                                claimNonce: u64)
  {
    && r.index == i
    && (r.vault == ZERO_ADDRESS || r.vault == here)
    && r.count <= r.lastNonce <= claimNonce
    && r.total == balance == paid + acked
  }

  ghost predicate ClockSound(m: MemberState, blockLt: u64, lastLt: u64, used: set<Id32>) {
    && m.lastLt <= lastLt
    && (m.lastHash == ZERO32 || m.lastHash in used)
    && (m.pending != 0 ==> m.afterLt <= Max(blockLt, lastLt))
  }

  ghost predicate MemberSound(h: Hub, i: nat)
    requires i < |h.receivers| == |h.receiverBalances| && i < MAX_MEMBERS
  {
    && ReceiverSound(h.receivers[i], h.receiverBalances[i], i, h.here, h.vault.members[i].paid,
                     Sum(AckedColumn(h.bag, i)), h.vault.claimNonce)
    && ClockSound(Lock(h.vault.members[i]), h.blockLt, h.lastLt, h.used)
  }

  /** Every lock has its packet, and no member has two. */
  ghost predicate OnePacketEach(h: Hub) {
    && (forall j, k | 0 <= j < k < |h.bag| :: h.bag[j].member != h.bag[k].member)
    && (forall i | 0 <= i < MAX_MEMBERS && h.vault.members[i].pending != 0 :: HasPacket(h.bag, i))
  }

  ghost predicate HasPacket(bag: seq<Packet>, i: nat) {
    exists k | 0 <= k < |bag| :: bag[k].member == i
  }

  /** Everything received is in the vault, under way in some packet, or with a receiver. */
  ghost predicate Conserved(h: Hub) {
    h.vault.received == h.vaultBalance + Sum(CarriedColumn(h.bag)) + Sum(h.receiverBalances)
  }

  ghost predicate Inv(h: Hub) {
    && Valid(h.vault)
    && NonzeroAddress(h.here)
    && |h.receivers| == |h.receiverBalances| == h.vault.config.count
    && h.vaultBalance == Held(h.vault)
    && Conserved(h)
    && OnePacketEach(h)
    && (forall k | 0 <= k < |h.bag| :: SlotSound(h, k))
    && (forall i | 0 <= i < |h.receivers| :: MemberSound(h, i))
  }

  lemma InitInv(h: Hub)
    requires Init(h)
    ensures Inv(h)
  {
    InitialIsValid(h.vault.config);
    SumZero(h.receiverBalances);
    assert CarriedColumn(h.bag) == [];
    forall i | 0 <= i < |h.receivers| ensures MemberSound(h, i) {
      assert AckedColumn(h.bag, i) == [];
    }
  }
}
