/**
 * The escrow, its payee and its refundee, and the one transfer or callback that may be under way, run against an
 * environment of any calls. The host is assumed to credit value before a call runs, to answer a transfer with exactly
 * one native callback, to give a failed delivery's exact principal back with an empty body, and not to repeat a
 * message hash. Both receivers' owners bind them to this escrow only.
 */
module EscrowSystem {
  import opened Bytes
  import opened Sdk
  import opened EscrowState
  import E = EscrowSpec
  import R = EscrowReceiver

  datatype Packet =
    | Nothing
    | Outgoing(hash: Id32, out: Outbound)
    | Returning(msg: Message, acked: nat)

  datatype System = System(here: Address, escrow: State, balance: nat, payee: R.Receiver, refundee: R.Receiver,
                           payeeBalance: nat, refundeeBalance: nat, packet: Packet, used: set<Id32>)

  datatype Action =
    | CallEscrow(in_: Input, hash: Id32)
    | CallPayee(toPayee: Input)
    | CallRefundee(toRefundee: Input)
    | Deliver(blockLt: u64, lt: u64, hostStatus: u32, refund: u128)
    | Answer(answerIn: Input)

  function Carried(p: Packet): nat {
    match p
    case Nothing => 0
    case Outgoing(_, out) => out.principal
    case Returning(msg, _) => Principal(msg.extra)
  }

  function Acked(p: Packet): nat { if p.Returning? then p.acked else 0 }

  /** The message a receiver sees when the transfer reaches it. */
  function Arrival(s: System, out: Outbound, blockLt: u64, lt: u64): Input {
    Input(blockLt, 0, out.destination, [],
          Internal(s.here, out.methodId, out.body, [Currency(PRINCIPAL, out.principal)], out.destination, lt,
                   None, false, out.callbackMethod.Some?, false))
  }

  function Change(shell: u128): seq<Currency> { if shell == 0 then [] else [Currency(SHELL, shell)] }

  /** The native callback: the receiver's result on success, the exact principal and no body on failure. */
  function Reaction(s: System, hash: Id32, out: Outbound, status: u32, result: seq<byte>, lt: u64, refund: u128): Packet
    requires out.callbackMethod.Some?
  {
    Returning(Internal(out.destination, out.callbackMethod.value, if status == 0 then result else [],
                       (if status == 0 then [] else [Currency(PRINCIPAL, out.principal)]) + Change(refund),
                       s.here, lt, Some(CallbackHeader(hash, s.here, status)), false, false, false),
              if status == 0 then out.principal else 0)
  }

  function FailureStatus(code: int): (s: u32)
    ensures s != 0
  {
    if 0 < code < U32_END then code else 1
  }

  /** A call a receiver's owner, or any account but the escrow, may make. */
  predicate OwnerCall(s: System, in_: Input, destination: Address) {
    && in_.here == destination
    && (in_.message.Internal? ==> in_.message.source != s.here && NonzeroAddress(in_.message.source))
    && (in_.message.methodId == E.BIND ==> in_.message.body == AddressBytes(s.here))
  }

  ghost predicate Enabled(s: System, a: Action) {
    match a
    case CallEscrow(in_, hash) =>
      && in_.here == s.here && (in_.message.Internal? ==> in_.message.callback.None?)
      && Principal(in_.balance) == s.balance + Principal(in_.message.extra)
      && hash !in s.used && hash != ZERO32
    case CallPayee(in_) => OwnerCall(s, in_, s.escrow.config.payTo)
    case CallRefundee(in_) => OwnerCall(s, in_, s.escrow.config.refundTo)
    case Deliver(_, _, _, _) => s.packet.Outgoing? && s.packet.out.callbackMethod.Some?
    case Answer(in_) => s.packet.Returning? && in_.here == s.here && in_.message == s.packet.msg
  }

  ghost function AfterCall(s: System, in_: Input, hash: Id32): System
    requires Valid(s.escrow)
  {
    match E.Process(s.escrow, in_)
    case Err(_) => s
    case Ok(o) =>
      var funds := s.balance + Principal(in_.message.extra);
      if o.reply.sends == [] then s.(escrow := o.state, balance := funds)
      else if funds < o.reply.sends[0].principal then s
      else s.(escrow := o.state, balance := funds - o.reply.sends[0].principal,
              packet := Outgoing(hash, o.reply.sends[0]), used := s.used + {hash})
  }

  function CalledReceiver(r: R.Receiver, in_: Input): R.Receiver {
    match R.Process(r, in_)
    case Ok(o) => o.state
    case Err(_) => r
  }

  /** A delivery either moves the principal into the receiver or sends it back, as the receiver and the host decide. */
  function Delivered(s: System, a: Action): System
    requires a.Deliver? && s.packet.Outgoing? && s.packet.out.callbackMethod.Some?
  {
    var out, hash := s.packet.out, s.packet.hash;
    var toPayee := out.destination == s.escrow.config.payTo;
    var r := if toPayee then s.payee else s.refundee;
    var reply := R.Process(r, Arrival(s, out, a.blockLt, a.lt));
    if a.hostStatus != 0 then s.(packet := Reaction(s, hash, out, a.hostStatus, [], a.lt, a.refund))
    else
      match reply
      case Err(code) => s.(packet := Reaction(s, hash, out, FailureStatus(code), [], a.lt, a.refund))
      case Ok(o) =>
        var t := s.(packet := Reaction(s, hash, out, 0, o.result, a.lt, a.refund));
        if toPayee then t.(payee := o.state, payeeBalance := s.payeeBalance + out.principal)
        else t.(refundee := o.state, refundeeBalance := s.refundeeBalance + out.principal)
  }

  ghost function Answered(s: System, in_: Input): System
    requires Valid(s.escrow) && s.packet.Returning?
  {
    match E.Process(s.escrow, in_)
    case Ok(o) => s.(escrow := o.state, balance := s.balance + Carried(s.packet), packet := Nothing)
    case Err(_) => s
  }

  /** One step; one that cannot happen here changes nothing. */
  ghost function Apply(s: System, a: Action): System {
    if !Valid(s.escrow) || !Enabled(s, a) then s else
      match a
      case CallEscrow(in_, hash) => AfterCall(s, in_, hash)
      case CallPayee(in_) => s.(payee := CalledReceiver(s.payee, in_))
      case CallRefundee(in_) => s.(refundee := CalledReceiver(s.refundee, in_))
      case Deliver(_, _, _, _) => Delivered(s, a)
      case Answer(in_) => Answered(s, in_)
  }

  ghost function Exec(s: System, actions: seq<Action>): System
    decreases |actions|
  {
    if actions == [] then s else Exec(Apply(s, actions[0]), actions[1..])
  }

  /** A receiver agrees with the escrow's books: what it received is what was settled plus what is acknowledged. */
  ghost predicate ReceiverSound(r: R.Receiver, balance: nat, settled: nat, acked: nat, here: Address, attempts: u64) {
    && (r.bound == ZERO_ADDRESS || r.bound == here)
    && r.count <= r.lastAttempt <= attempts
    && r.received == balance == settled + acked
  }

  ghost predicate OutgoingSound(s: System)
    requires s.packet.Outgoing?
  {
    && s.escrow.pending.kind != 0 && s.packet.out == E.Transfer(s.escrow)
    && s.packet.hash in s.used && s.packet.hash != ZERO32 && s.packet.hash !in s.escrow.receipts
    && (if s.escrow.pending.kind == 1 then s.payee else s.refundee).lastAttempt < s.escrow.pending.attempt
  }

  ghost predicate ReturningSound(s: System)
    requires s.packet.Returning?
  {
    && s.packet.msg.Internal? && s.packet.msg.callback.Some?
    && E.Admissible(s.escrow, s.here, s.packet.msg) && E.Payload(s.escrow.pending, s.packet.msg)
    && s.packet.msg.callback.value.causeHash in s.used
    && s.packet.acked == (if s.packet.msg.callback.value.status == 0 then s.escrow.pending.amount else 0)
    && Principal(s.packet.msg.extra) == (if s.packet.msg.callback.value.status == 0 then 0 else s.escrow.pending.amount)
  }

  ghost predicate PacketSound(s: System) {
    match s.packet
    case Nothing => s.escrow.pending.kind == 0
    case Outgoing(_, _) => OutgoingSound(s)
    case Returning(_, _) => ReturningSound(s)
  }

  function AckedTo(s: System, kind: byte): nat { if s.escrow.pending.kind == kind then Acked(s.packet) else 0 }

  ghost predicate BooksBalance(s: System) {
    && ReceiverSound(s.payee, s.payeeBalance, s.escrow.paid, AckedTo(s, 1), s.here, s.escrow.attempts)
    && ReceiverSound(s.refundee, s.refundeeBalance, s.escrow.refunded, AckedTo(s, 2), s.here, s.escrow.attempts)
    && s.balance + Carried(s.packet) + Acked(s.packet) + s.escrow.paid + s.escrow.refunded == s.escrow.funded
  }

  ghost predicate Inv(s: System) {
    && NonzeroAddress(s.here)
    && Valid(s.escrow)
    && (forall k | 0 <= k < |s.escrow.receipts| :: s.escrow.receipts[k] in s.used)
    && PacketSound(s)
    && BooksBalance(s)
  }

  /** A fresh escrow with fresh receivers. */
  ghost predicate Init(s: System) {
    && NonzeroAddress(s.here)
    && ValidConfig(s.escrow.config) && s.escrow == Initial(s.escrow.config)
    && s.balance == s.payeeBalance == s.refundeeBalance == 0 && s.packet == Nothing
    && s.payee == R.Receiver(s.payee.owner, ZERO_ADDRESS, 0, 0, 0, s.payee.reject)
    && s.refundee == R.Receiver(s.refundee.owner, ZERO_ADDRESS, 0, 0, 0, s.refundee.reject)
  }
}
