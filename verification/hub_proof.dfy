/** Every step of the hub keeps its invariant; what the invariant means for money and for locks. */
module HubProof {
  import opened Bytes
  import opened Sdk
  import opened Sums
  import opened RevenueCore
  import opened VaultState
  import opened HubSystem
  import V = VaultSpec
  import R = RevenueReceiver

  /** A packet stays sound when only its surroundings move on. */
  lemma SlotKept(h: Hub, t: Hub, k: nat, kk: nat)
    requires k < |h.bag| && kk < |t.bag| && t.bag[kk] == h.bag[k]
    requires |h.receivers| == |t.receivers| <= MAX_MEMBERS
    requires SlotSound(h, k)
    requires t.here == h.here && t.vault.config == h.vault.config && h.used <= t.used && h.lastLt <= t.lastLt
    requires Lock(t.vault.members[h.bag[k].member]) == Lock(h.vault.members[h.bag[k].member])
    requires t.receivers[h.bag[k].member].lastNonce == h.receivers[h.bag[k].member].lastNonce
    ensures SlotSound(t, kk)
  {
    var p := h.bag[k];
    assert PacketSound(p, Lock(h.vault.members[p.member]), h.receivers[p.member], Dest(h, p.member), h.here, h.used,
                       h.lastLt);
  }

  lemma ClockKept(m: MemberState, n: MemberState, blockLt: u64, lastLt: u64, used: set<Id32>, blockLt': u64,
                  lastLt': u64, used': set<Id32>)
    requires ClockSound(Lock(m), blockLt, lastLt, used) && Lock(n) == Lock(m)
    requires blockLt <= blockLt' && lastLt <= lastLt' && used <= used'
    ensures ClockSound(Lock(n), blockLt', lastLt', used')
  {
  }

  /** Steps that leave all locks, receivers and packets in place. */
  lemma FrameInv(h: Hub, t: Hub)
    requires Inv(h) && Valid(t.vault) && t.here == h.here && t.vault.config == h.vault.config
    requires t.bag == h.bag && t.receivers == h.receivers && t.receiverBalances == h.receiverBalances
    requires h.used <= t.used && h.lastLt <= t.lastLt && h.blockLt <= t.blockLt
    requires t.vault.claimNonce == h.vault.claimNonce
    requires forall i | 0 <= i < MAX_MEMBERS ::
        Lock(t.vault.members[i]) == Lock(h.vault.members[i]) && t.vault.members[i].paid == h.vault.members[i].paid
    requires t.vaultBalance == Held(t.vault)
    requires t.vault.received - h.vault.received == t.vaultBalance - h.vaultBalance
    ensures Inv(t)
  {
    forall k | 0 <= k < |t.bag| ensures SlotSound(t, k) {
      assert SlotSound(h, k);
      SlotKept(h, t, k, k);
    }
    forall i | 0 <= i < |t.receivers| ensures MemberSound(t, i) {
      assert MemberSound(h, i);
      ClockKept(h.vault.members[i], t.vault.members[i], h.blockLt, h.lastLt, h.used, t.blockLt, t.lastLt, t.used);
    }
    assert OnePacketEach(t) by {
      forall i | 0 <= i < MAX_MEMBERS && t.vault.members[i].pending != 0 ensures HasPacket(t.bag, i) {
        assert Lock(t.vault.members[i]).pending == Lock(h.vault.members[i]).pending;
      }
    }
  }

  lemma CreditsKeepInv(h: Hub, in_: Input, hash: Id32)
    requires Inv(h) && Enabled(h, CallVault(in_, hash)) && V.Process(h.vault, in_).Ok? && in_.message.methodId != CLAIM
    ensures Inv(AfterCall(h, in_, hash))
  {
    V.CallEffect(h.vault, in_);
    V.ProcessKeepsValid(h.vault, in_);
    var o := V.Process(h.vault, in_).value;
    var t := AfterCall(h, in_, hash);
    assert t.bag == h.bag;
    forall i | 0 <= i < MAX_MEMBERS
      ensures Lock(t.vault.members[i]) == Lock(h.vault.members[i]) && t.vault.members[i].paid == h.vault.members[i].paid
    {
      assert o.state.members[i] == h.vault.members[i].(claimable := o.state.members[i].claimable);
    }
    FrameInv(h, t);
  }

  lemma ClaimIsStep(h: Hub, in_: Input, hash: Id32)
    requires Inv(h) && Enabled(h, CallVault(in_, hash)) && V.Process(h.vault, in_).Ok? && in_.message.methodId == CLAIM
    ensures |in_.message.body| == 1 && in_.message.body[0] < MAX_MEMBERS
    ensures var i: nat := in_.message.body[0];
      var t := AfterCall(h, in_, hash);
      && t.vaultBalance == Held(t.vault) == h.vaultBalance - h.vault.members[i].claimable
      && ClaimStep(h, t, Transfer(i, hash, V.Payout(t.vault, i)), i, in_.blockLt)
  {
    V.CallEffect(h.vault, in_);
    V.ProcessKeepsValid(h.vault, in_);
    var o := V.Process(h.vault, in_).value;
    var i: nat := in_.message.body[0];
    V.LockedIsValid(h.vault, i, in_.blockLt);
    Solvent(o.state);
  }

  /** A claim: the new packet matches the new lock, and the locked amount leaves the vault with it. */
  lemma ClaimKeepsInv(h: Hub, in_: Input, hash: Id32)
    requires Inv(h) && Enabled(h, CallVault(in_, hash)) && V.Process(h.vault, in_).Ok? && in_.message.methodId == CLAIM
    ensures Inv(AfterCall(h, in_, hash))
  {
    ClaimIsStep(h, in_, hash);
    var i: nat := in_.message.body[0];
    var t := AfterCall(h, in_, hash);
    var p := Transfer(i, hash, V.Payout(t.vault, i));
    ClaimMoney(h, t, p, i, in_.blockLt);
    ClaimSlots(h, t, p, i, in_.blockLt);
    ClaimMembers(h, t, p, i, in_.blockLt);
  }

  ghost predicate ClaimStep(h: Hub, t: Hub, p: Packet, i: nat, blockLt: u64) {
    && Inv(h) && i < h.vault.config.count
    && h.vault.members[i].pending == 0 && h.vault.members[i].claimable != 0
    && h.vault.claimNonce + 1 < U64_END
    && h.blockLt <= blockLt
    && t.vault == V.Locked(h.vault, i, blockLt) && Valid(t.vault)
    && p.Transfer? && p.member == i && p.out == V.Payout(t.vault, i) && p.hash !in h.used && p.hash != ZERO32
    && t == h.(vault := t.vault, vaultBalance := t.vaultBalance, bag := h.bag + [p],
               used := h.used + {p.hash}, blockLt := blockLt)
  }

  lemma ClaimMoney(h: Hub, t: Hub, p: Packet, i: nat, blockLt: u64)
    requires ClaimStep(h, t, p, i, blockLt)
    requires t.vaultBalance == h.vaultBalance - h.vault.members[i].claimable
    ensures Conserved(t)
  {
    assert CarriedColumn(t.bag) == CarriedColumn(h.bag) + [Carried(p)];
    SumSnoc(CarriedColumn(h.bag), Carried(p));
  }

  lemma NoPacketYet(h: Hub, i: nat, k: nat)
    requires Inv(h) && i < MAX_MEMBERS && h.vault.members[i].pending == 0 && k < |h.bag|
    ensures h.bag[k].member != i
  {
    assert SlotSound(h, k);
  }

  lemma ClaimSlots(h: Hub, t: Hub, p: Packet, i: nat, blockLt: u64)
    requires ClaimStep(h, t, p, i, blockLt)
    ensures forall k | 0 <= k < |t.bag| :: SlotSound(t, k)
    ensures OnePacketEach(t)
  {
    assert MemberSound(h, i);
    forall k | 0 <= k < |t.bag| ensures SlotSound(t, k) {
      if k < |h.bag| {
        assert SlotSound(h, k);
        NoPacketYet(h, i, k);
        SlotKept(h, t, k, k);
      }
    }
    forall k | 0 <= k < |h.bag| ensures h.bag[k].member != i {
      NoPacketYet(h, i, k);
    }
    forall j | 0 <= j < MAX_MEMBERS && t.vault.members[j].pending != 0 ensures HasPacket(t.bag, j) {
      if j == i {
        assert t.bag[|h.bag|].member == i;
      } else {
        assert HasPacket(h.bag, j);
        var k :| 0 <= k < |h.bag| && h.bag[k].member == j;
        assert t.bag[k].member == j;
      }
    }
  }

  lemma ClaimMembers(h: Hub, t: Hub, p: Packet, i: nat, blockLt: u64)
    requires ClaimStep(h, t, p, i, blockLt)
    ensures forall j | 0 <= j < |t.receivers| :: MemberSound(t, j)
  {
    hide Conserved, OnePacketEach, PacketSound, SoundBooks, LegalMembers;
    forall j | 0 <= j < |t.receivers| ensures MemberSound(t, j) {
      assert MemberSound(h, j);
      assert AckedColumn(t.bag, j) == AckedColumn(h.bag, j) + [0];
      SumSnoc(AckedColumn(h.bag, j), 0);
      if j != i {
        ClockKept(h.vault.members[j], t.vault.members[j], h.blockLt, h.lastLt, h.used, t.blockLt, t.lastLt, t.used);
      }
    }
  }

  lemma CallKeepsInv(h: Hub, in_: Input, hash: Id32)
    requires Inv(h) && Enabled(h, CallVault(in_, hash))
    ensures Inv(AfterCall(h, in_, hash))
  {
    if V.Process(h.vault, in_).Err? {
      FrameInv(h, AfterCall(h, in_, hash));
    } else if in_.message.methodId == CLAIM {
      ClaimKeepsInv(h, in_, hash);
    } else {
      CreditsKeepInv(h, in_, hash);
    }
  }

  /** Anyone but the vault can change a receiver's switches at most; no value and no nonce moves. */
  lemma ReceiverCallKeepsInv(h: Hub, i: nat, call: Input)
    requires Inv(h) && Enabled(h, CallReceiver(i, call))
    ensures Inv(AfterReceiverCall(h, i, call))
  {
    hide PacketSound, SoundBooks, LegalMembers;
    assert MemberSound(h, i);
    if R.Process(h.receivers[i], call).Ok? {
      var t := AfterReceiverCall(h, i, call);
      R.OnlyPaymentsMoveValue(h.receivers[i], call);
      AddressInverse(h.here);
      assert call.message.External?;
      assert t.receivers[i].total == h.receivers[i].total;
      forall k | 0 <= k < |t.bag| ensures SlotSound(t, k) {
        assert SlotSound(h, k);
        SlotKept(h, t, k, k);
      }
      forall j | 0 <= j < |t.receivers| ensures MemberSound(t, j) {
        assert MemberSound(h, j);
      }
    }
  }

  /** The receiver a packet is for. */
  ghost function Target(h: Hub, k: nat): R.Receiver
    requires Inv(h) && k < |h.bag|
  {
    assert SlotSound(h, k);
    h.receivers[h.bag[k].member]
  }

  ghost function Pending(h: Hub, k: nat): MemberState
    requires Inv(h) && k < |h.bag|
  {
    assert SlotSound(h, k);
    h.vault.members[h.bag[k].member]
  }

  /** A bound receiver turns a fresh payment down only when it is told to: nonce, total and count always fit. */
  lemma RefusesOnlyWhenTold(h: Hub, k: nat, blockLt: u64, lt: u64)
    requires Inv(h) && k < |h.bag| && h.bag[k].Transfer?
    ensures Target(h, k).total + Pending(h, k).pending < U128_END && Target(h, k).count + 1 < U64_END
    ensures var p, r, m := h.bag[k], Target(h, k), Pending(h, k);
      R.Process(r, Arrival(h, p.out, blockLt, lt)) ==
        if r.vault != h.here then Err(R.E_RECEIVER_AUTH)
        else if r.reject then Err(R.E_REJECT)
        else Ok(R.Receipt(R.Paid(r, m.nonce, m.pending), p.out.body, R.Reports(r, p.out.body)))
  {
    hide Sums.Sum, SoundBooks, LegalMembers, OnePacketEach, PaymentBody, ReadPayment;
    var p := h.bag[k];
    var i := p.member;
    assert SlotSound(h, k);
    assert MemberSound(h, i);
    var r, m := h.receivers[i], h.vault.members[i];
    PaymentRoundTrip(p.out.body, i, m.nonce, m.pending);
    TotalFits(h, i);
    SumZeroAcked(h, k);
    var arrival := Arrival(h, p.out, blockLt, lt);
    assert Principal(arrival.message.extra) == m.pending;
  }

  /** What a receiver holds plus what its member still has pending stays within what the vault received. */
  lemma TotalFits(h: Hub, i: nat)
    requires Inv(h) && i < h.vault.config.count
    ensures h.vault.members[i].paid + h.vault.members[i].pending < U128_END
  {
    assert Sound(h.vault, i);
    ValidIsWeighted(h.vault.config);
    ShareFits(h.vault, h.vault.received, i);
  }

  /** While a member's transfer is under way, nothing of that member's is acknowledged. */
  lemma SumZeroAcked(h: Hub, k: nat)
    requires Inv(h) && k < |h.bag| && h.bag[k].Transfer?
    ensures Sum(AckedColumn(h.bag, h.bag[k].member)) == 0
  {
    SumZero(AckedColumn(h.bag, h.bag[k].member));
  }

  /** The packet a delivery turns a transfer into still matches its lock. */
  ghost predicate DeliverStep(h: Hub, t: Hub, k: nat, status: u32, result: seq<byte>, blockLt: u64, lt: u64,
                              refund: u128)
  {
    && Inv(h) && Enabled(h, Deliver(k, blockLt, lt, status, refund))
    && h.bag[k].member < |t.receivers| == |h.receivers|
    && (status == 0 ==> result == h.bag[k].out.body)
    && t == h.(blockLt := blockLt, lastLt := lt, bag := h.bag[k := Reaction(h, h.bag[k], status, result, lt, refund)],
               receivers := t.receivers, receiverBalances := t.receiverBalances)
    && t.receivers == h.receivers[h.bag[k].member := t.receivers[h.bag[k].member]]
  }

  lemma RefundIsShell(refund: u128)
    ensures V.OnlyShell(Refund(refund)) && Principal(Refund(refund)) == 0
  {
    V.NoPrincipal(Refund(refund));
  }

  /** The host's answer to a sound transfer is a callback the vault's lock will take. */
  lemma ReactionFits(h: Hub, p: Packet, m: MemberState, lastNonce: u64, status: u32, result: seq<byte>, lt: u64,
                     refund: u128)
    requires p.Transfer? && TransferSound(p, m, p.out.destination, lastNonce, h.used)
    requires m.afterLt < lt && m.lastLt < lt && (status == 0 ==> result == p.out.body)
    ensures ReturnSound(Reaction(h, p, status, result, lt, refund), m, p.out.destination, h.here, h.used, lt)
  {
    RefundIsShell(refund);
    var q := Reaction(h, p, status, result, lt, refund);
    if status != 0 {
      assert q.msg.extra[0] == Currency(PRINCIPAL, m.pending);
    }
  }

  lemma ReactionSound(h: Hub, t: Hub, k: nat, status: u32, result: seq<byte>, blockLt: u64, lt: u64, refund: u128)
    requires DeliverStep(h, t, k, status, result, blockLt, lt, refund)
    ensures SlotSound(t, k)
    ensures Carried(t.bag[k]) == if status == 0 then 0 else Carried(h.bag[k])
  {
    assert SlotSound(h, k);
    var i := h.bag[k].member;
    assert MemberSound(h, i);
    ReactionFits(h, h.bag[k], Lock(h.vault.members[i]), h.receivers[i].lastNonce, status, result, lt, refund);
  }

  lemma DeliverSlots(h: Hub, t: Hub, k: nat, status: u32, result: seq<byte>, blockLt: u64, lt: u64, refund: u128)
    requires DeliverStep(h, t, k, status, result, blockLt, lt, refund)
    ensures forall j | 0 <= j < |t.bag| :: SlotSound(t, j)
  {
    ReactionSound(h, t, k, status, result, blockLt, lt, refund);
    forall j | 0 <= j < |t.bag| ensures SlotSound(t, j) {
      if j != k {
        assert SlotSound(h, j);
        assert h.bag[j].member != h.bag[k].member;
        SlotKept(h, t, j, j);
      }
    }
  }

  /** Exchanging a packet for one of the same member keeps one packet for each lock. */
  lemma ExchangeKeepsOne(h: Hub, t: Hub, k: nat, q: Packet)
    requires OnePacketEach(h) && k < |h.bag| && q.member == h.bag[k].member
    requires t.vault == h.vault && t.bag == h.bag[k := q]
    ensures OnePacketEach(t)
  {
    forall i | 0 <= i < MAX_MEMBERS && t.vault.members[i].pending != 0 ensures HasPacket(t.bag, i) {
      assert HasPacket(h.bag, i);
      var j :| 0 <= j < |h.bag| && h.bag[j].member == i;
      assert t.bag[j].member == i;
    }
  }

  /** Principal passes between a packet and a receiver without loss. */
  lemma ExchangeConserves(h: Hub, t: Hub, k: nat, q: Packet, i: nat, gain: nat)
    requires Conserved(h) && k < |h.bag| && i < |h.receiverBalances|
    requires t.vault == h.vault && t.vaultBalance == h.vaultBalance && t.bag == h.bag[k := q]
    requires t.receiverBalances == h.receiverBalances[i := h.receiverBalances[i] + gain]
    requires Carried(q) + gain == Carried(h.bag[k])
    ensures Conserved(t)
  {
    assert CarriedColumn(t.bag) == CarriedColumn(h.bag)[k := Carried(q)];
    SumUpdate(CarriedColumn(h.bag), k, Carried(q));
    SumUpdate(h.receiverBalances, i, h.receiverBalances[i] + gain);
  }

  lemma DeliverMembers(h: Hub, t: Hub, k: nat, status: u32, result: seq<byte>, blockLt: u64, lt: u64, refund: u128)
    requires DeliverStep(h, t, k, status, result, blockLt, lt, refund)
    requires |t.receiverBalances| == |t.receivers|
    requires var i := h.bag[k].member;
      if status != 0 then t.receivers == h.receivers && t.receiverBalances == h.receiverBalances
      else
        && t.receiverBalances == h.receiverBalances[i := h.receiverBalances[i] + h.bag[k].out.principal]
        && (var r, m := Target(h, k), Pending(h, k);
            r.total + m.pending < U128_END && r.count + 1 < U64_END && t.receivers[i] == R.Paid(r, m.nonce, m.pending))
    ensures forall j | 0 <= j < |t.receivers| :: MemberSound(t, j)
  {
    assert SlotSound(h, k);
    forall j | 0 <= j < |t.receivers| ensures MemberSound(t, j) {
      assert MemberSound(h, j);
      assert AckedColumn(t.bag, j) == AckedColumn(h.bag, j)[k := Acked(t.bag[k], j)];
      SumUpdate(AckedColumn(h.bag, j), k, Acked(t.bag[k], j));
      ClockKept(h.vault.members[j], t.vault.members[j], h.blockLt, h.lastLt, h.used, t.blockLt, t.lastLt, t.used);
      if j == h.bag[k].member {
        assert Sound(h.vault, j);
      }
    }
  }

  /** The status a delivery ends with: the host's own failure, or the receiver's answer. */
  ghost function DeliveryStatus(h: Hub, k: nat, blockLt: u64, lt: u64, hostStatus: u32): u32
    requires Inv(h) && k < |h.bag| && h.bag[k].Transfer?
  {
    if hostStatus != 0 then hostStatus else
      match R.Process(Target(h, k), Arrival(h, h.bag[k].out, blockLt, lt))
      case Ok(_) => 0
      case Err(code) => FailureStatus(code)
  }

  lemma DeliverIsStep(h: Hub, k: nat, blockLt: u64, lt: u64, hostStatus: u32, refund: u128)
    requires Inv(h) && Enabled(h, Deliver(k, blockLt, lt, hostStatus, refund))
    ensures var p, t := h.bag[k], AfterDelivery(h, k, blockLt, lt, hostStatus, refund);
      var status := DeliveryStatus(h, k, blockLt, lt, hostStatus);
      && DeliverStep(h, t, k, status, if status == 0 then p.out.body else [], blockLt, lt, refund)
      && (var gain := if status == 0 then p.out.principal else 0;
          t.receiverBalances == h.receiverBalances[p.member := h.receiverBalances[p.member] + gain])
      && (status != 0 ==> t.receivers == h.receivers)
      && (status == 0 ==>
            var r, m := Target(h, k), Pending(h, k);
            r.total + m.pending < U128_END && r.count + 1 < U64_END
              && t.receivers[p.member] == R.Paid(r, m.nonce, m.pending))
  {
    hide R.Process, PacketSound, Sums.Sum;
    assert SlotSound(h, k);
    RefusesOnlyWhenTold(h, k, blockLt, lt);
  }

  lemma DeliverKeepsInv(h: Hub, k: nat, blockLt: u64, lt: u64, hostStatus: u32, refund: u128)
    requires Inv(h) && Enabled(h, Deliver(k, blockLt, lt, hostStatus, refund))
    ensures Inv(AfterDelivery(h, k, blockLt, lt, hostStatus, refund))
  {
    hide R.Process, PacketSound, MemberSound, Valid, Conserved, OnePacketEach;
    var p, t := h.bag[k], AfterDelivery(h, k, blockLt, lt, hostStatus, refund);
    var status := DeliveryStatus(h, k, blockLt, lt, hostStatus);
    var result := if status == 0 then p.out.body else [];
    DeliverIsStep(h, k, blockLt, lt, hostStatus, refund);
    DeliverSlots(h, t, k, status, result, blockLt, lt, refund);
    ReactionSound(h, t, k, status, result, blockLt, lt, refund);
    ExchangeKeepsOne(h, t, k, t.bag[k]);
    ExchangeConserves(h, t, k, t.bag[k], p.member, if status == 0 then p.out.principal else 0);
    DeliverMembers(h, t, k, status, result, blockLt, lt, refund);
  }

  /** The callback for a pending payout is always accepted, and opens its lock. */
  lemma AnswerAccepted(h: Hub, k: nat, blockLt: u64, time: u32, balance: seq<Currency>)
    requires Inv(h) && k < |h.bag| && h.bag[k].Return?
    ensures h.bag[k].member < h.vault.config.count
    ensures var p := h.bag[k];
      var r := V.Process(h.vault, AnswerInput(h, k, blockLt, time, balance));
      && p.msg.Internal? && p.msg.callback.Some?
      && r.Ok? && r.value.reply.sends == []
      && r.value.state == V.Unlocked(h.vault, p.member, p.msg.callback.value.status == 0, p.msg.createdLt,
                                     p.msg.callback.value.causeHash)
      && p.msg.callback.value.causeHash in h.used && 0 < p.msg.createdLt <= h.lastLt
      && p.msg.callback.value.causeHash != ZERO32
  {
    assert SlotSound(h, k);
    var p := h.bag[k];
    var m := h.vault.members[p.member];
    assert V.CallbackAdmissible(m, h.here, p.msg) by {
      assert V.CallbackAdmissible(Lock(m), h.here, p.msg);
    }
    assert V.CallbackPayload(m, p.member, p.msg) by {
      assert V.CallbackPayload(Lock(m), p.member, p.msg);
    }
    V.CallbackEffect(h.vault, AnswerInput(h, k, blockLt, time, balance), p.member);
  }

  ghost predicate AnswerStep(h: Hub, t: Hub, k: nat, i: nat, success: bool, lt: u64, hash: Id32, blockLt: u64) {
    && Inv(h) && k < |h.bag| && h.bag[k].Return? && h.bag[k].member == i < h.vault.config.count
    && lt != 0 && hash != ZERO32 && lt <= h.lastLt && hash in h.used && h.blockLt <= blockLt
    && t.vault == V.Unlocked(h.vault, i, success, lt, hash)
    && h.bag[k].acked == (if success then h.vault.members[i].pending else 0)
    && Carried(h.bag[k]) == (if success then 0 else h.vault.members[i].pending)
    && t == h.(vault := t.vault, vaultBalance := h.vaultBalance + Carried(h.bag[k]),
               bag := h.bag[..k] + h.bag[k + 1..], blockLt := blockLt)
  }

  lemma AnswerIsStep(h: Hub, k: nat, blockLt: u64, time: u32, balance: seq<Currency>)
    requires Inv(h) && Enabled(h, Answer(k, blockLt, time, balance))
    ensures h.bag[k].msg.Internal? && h.bag[k].msg.callback.Some?
    ensures var p := h.bag[k];
      AnswerStep(h, AfterAnswer(h, k, blockLt, time, balance), k, p.member, p.msg.callback.value.status == 0,
                 p.msg.createdLt, p.msg.callback.value.causeHash, blockLt)
  {
    hide Sums.Sum;
    AnswerAccepted(h, k, blockLt, time, balance);
    assert SlotSound(h, k);
    var p := h.bag[k];
    assert V.CallbackPayload(Lock(h.vault.members[p.member]), p.member, p.msg);
  }

  /** Where entry `j` of the shorter bag came from. */
  function Origin(k: nat, j: nat): nat { if j < k then j else j + 1 }

  lemma AnswerSlots(h: Hub, t: Hub, k: nat, i: nat, success: bool, lt: u64, hash: Id32, blockLt: u64)
    requires AnswerStep(h, t, k, i, success, lt, hash, blockLt)
    ensures forall j | 0 <= j < |t.bag| :: SlotSound(t, j)
  {
    forall j | 0 <= j < |t.bag| ensures SlotSound(t, j) {
      var from := Origin(k, j);
      assert t.bag[j] == h.bag[from];
      assert SlotSound(h, from);
      assert h.bag[from].member != i;
      SlotKept(h, t, from, j);
    }
  }

  lemma AnswerKeepsOne(h: Hub, t: Hub, k: nat, i: nat, success: bool, lt: u64, hash: Id32, blockLt: u64)
    requires AnswerStep(h, t, k, i, success, lt, hash, blockLt)
    ensures OnePacketEach(t)
  {
    forall a, b | 0 <= a < b < |t.bag| ensures t.bag[a].member != t.bag[b].member {
      assert t.bag[a] == h.bag[Origin(k, a)] && t.bag[b] == h.bag[Origin(k, b)];
    }
    forall j | 0 <= j < MAX_MEMBERS && t.vault.members[j].pending != 0 ensures HasPacket(t.bag, j) {
      assert HasPacket(h.bag, j);
      var from :| 0 <= from < |h.bag| && h.bag[from].member == j;
      assert t.bag[if from < k then from else from - 1] == h.bag[from];
    }
  }

  lemma AnswerMembers(h: Hub, t: Hub, k: nat, i: nat, success: bool, lt: u64, hash: Id32, blockLt: u64)
    requires AnswerStep(h, t, k, i, success, lt, hash, blockLt)
    ensures forall j | 0 <= j < |t.receivers| :: MemberSound(t, j)
  {
    hide Conserved, OnePacketEach, PacketSound, SoundBooks, LegalMembers;
    forall j | 0 <= j < |t.receivers| ensures MemberSound(t, j) {
      assert MemberSound(h, j);
      var column := AckedColumn(h.bag, j);
      assert AckedColumn(t.bag, j) == column[..k] + column[k + 1..];
      SumRemove(column, k);
      if j != i {
        ClockKept(h.vault.members[j], t.vault.members[j], h.blockLt, h.lastLt, h.used, t.blockLt, t.lastLt, t.used);
      }
    }
  }

  lemma AnswerMoney(h: Hub, t: Hub, k: nat, i: nat, success: bool, lt: u64, hash: Id32, blockLt: u64)
    requires AnswerStep(h, t, k, i, success, lt, hash, blockLt)
    ensures Valid(t.vault) && t.vaultBalance == Held(t.vault) && Conserved(t)
  {
    V.UnlockedIsValid(h.vault, i, success, lt, hash);
    var column := CarriedColumn(h.bag);
    assert CarriedColumn(t.bag) == column[..k] + column[k + 1..];
    SumRemove(column, k);
  }

  lemma AnswerKeepsInv(h: Hub, k: nat, blockLt: u64, time: u32, balance: seq<Currency>)
    requires Inv(h) && Enabled(h, Answer(k, blockLt, time, balance))
    ensures Inv(AfterAnswer(h, k, blockLt, time, balance))
  {
    AnswerIsStep(h, k, blockLt, time, balance);
    var p := h.bag[k];
    var t := AfterAnswer(h, k, blockLt, time, balance);
    var success := p.msg.callback.value.status == 0;
    var lt, hash := p.msg.createdLt, p.msg.callback.value.causeHash;
    AnswerMoney(h, t, k, p.member, success, lt, hash, blockLt);
    AnswerSlots(h, t, k, p.member, success, lt, hash, blockLt);
    AnswerKeepsOne(h, t, k, p.member, success, lt, hash, blockLt);
    AnswerMembers(h, t, k, p.member, success, lt, hash, blockLt);
  }

  lemma StepKeepsInv(h: Hub, a: Action)
    requires Inv(h)
    ensures Inv(Apply(h, a))
  {
    if Enabled(h, a) {
      match a
      case CallVault(in_, hash) => CallKeepsInv(h, in_, hash);
      case CallReceiver(i, call) => ReceiverCallKeepsInv(h, i, call);
      case Deliver(k, blockLt, lt, hostStatus, refund) => DeliverKeepsInv(h, k, blockLt, lt, hostStatus, refund);
      case Answer(k, blockLt, time, balance) => AnswerKeepsInv(h, k, blockLt, time, balance);
    }
  }

  /** Every state of every run, in whatever order calls, deliveries and answers come. */
  lemma {:induction false} RunKeepsInv(h: Hub, actions: seq<Action>)
    requires Inv(h)
    ensures Inv(Exec(h, actions))
    decreases |actions|
  {
    if actions != [] {
      StepKeepsInv(h, actions[0]);
      RunKeepsInv(Apply(h, actions[0]), actions[1..]);
    }
  }

  /**
   * Conservation over whole runs: what came in is with the vault, under way, or with the receivers; the vault
   * really holds what its books call held; and each receiver has what was settled plus what is acknowledged.
   */
  lemma Conservation(h0: Hub, actions: seq<Action>)
    requires Init(h0)
    ensures var h := Exec(h0, actions);
      && h.vault.received == h.vaultBalance + Sum(CarriedColumn(h.bag)) + Sum(h.receiverBalances)
      && h.vaultBalance == Held(h.vault)
      && |h.receivers| == |h.receiverBalances| <= MAX_MEMBERS
      && (forall i | 0 <= i < |h.receivers| ::
            h.receiverBalances[i] == h.receivers[i].total == h.vault.members[i].paid + Sum(AckedColumn(h.bag, i)))
  {
    InitInv(h0);
    RunKeepsInv(h0, actions);
    var h := Exec(h0, actions);
    forall i | 0 <= i < |h.receivers|
      ensures h.receiverBalances[i] == h.receivers[i].total == h.vault.members[i].paid + Sum(AckedColumn(h.bag, i))
    {
      assert MemberSound(h, i);
    }
  }

  /** In every run the members with a lock are exactly the members with a packet under way, one each. */
  lemma LockIffPacket(h0: Hub, actions: seq<Action>, i: nat)
    requires Init(h0) && i < MAX_MEMBERS
    ensures var h := Exec(h0, actions);
      && (h.vault.members[i].pending != 0 <==> HasPacket(h.bag, i))
      && (forall j, k | 0 <= j < |h.bag| && 0 <= k < |h.bag| && h.bag[j].member == h.bag[k].member :: j == k)
  {
    InitInv(h0);
    RunKeepsInv(h0, actions);
    var h := Exec(h0, actions);
    if HasPacket(h.bag, i) {
      var k :| 0 <= k < |h.bag| && h.bag[k].member == i;
      assert SlotSound(h, k);
    }
  }

  /** Whenever the host hands a native callback back, the vault takes it and the lock is open. */
  lemma AnswerOpens(h: Hub, k: nat, blockLt: u64, time: u32, balance: seq<Currency>)
    requires Inv(h) && Enabled(h, Answer(k, blockLt, time, balance)) && h.bag[k].member < MAX_MEMBERS
    ensures Apply(h, Answer(k, blockLt, time, balance)).vault.members[h.bag[k].member].pending == 0
  {
    AnswerAccepted(h, k, blockLt, time, balance);
  }

  /** The balance list of an account that holds `amount` of principal. */
  function Funds(amount: u128): seq<Currency> { [Currency(PRINCIPAL, amount)] }

  lemma BalanceFits(h: Hub, k: nat)
    requires Inv(h) && k < |h.bag|
    ensures h.vaultBalance + Carried(h.bag[k]) < U128_END
  {
    SumElementLe(CarriedColumn(h.bag), k);
  }

  lemma AnswerEnabled(h: Hub, k: nat)
    requires Inv(h) && k < |h.bag| && h.bag[k].Return? && h.bag[k].member < MAX_MEMBERS
    ensures exists a :: Apply(h, a).vault.members[h.bag[k].member].pending == 0
  {
    BalanceFits(h, k);
    var balance := Funds(h.vaultBalance + Carried(h.bag[k]));
    AnswerOpens(h, k, h.blockLt, 0, balance);
    var a := Answer(k, h.blockLt, 0, balance);
    assert Apply(h, a).vault.members[h.bag[k].member].pending == 0;
  }

  /** A transfer can always be delivered, and the callback that follows opens the lock. */
  lemma TransferOpens(h: Hub, k: nat)
    requires Inv(h) && k < |h.bag| && h.bag[k].Transfer? && h.bag[k].member < MAX_MEMBERS
    requires Max(h.blockLt, h.lastLt) + 1 < U64_END
    ensures exists d, a :: Apply(Apply(h, d), a).vault.members[h.bag[k].member].pending == 0
  {
    hide Sums.Sum, OnePacketEach, Conserved, MemberSound;
    assert SlotSound(h, k);
    var d := Deliver(k, h.blockLt, Max(h.blockLt, h.lastLt) + 1, 0, 0);
    StepKeepsInv(h, d);
    var t := Apply(h, d);
    assert t.bag[k].Return? && t.bag[k].member == h.bag[k].member;
    AnswerEnabled(t, k);
  }

  /** No lock sticks: from every reachable state, two host steps at most open any given lock. */
  lemma LockCanOpen(h0: Hub, actions: seq<Action>, i: nat)
    requires Init(h0) && i < MAX_MEMBERS
    requires Max(Exec(h0, actions).blockLt, Exec(h0, actions).lastLt) + 1 < U64_END
    ensures exists more :: |more| <= 2 && Exec(Exec(h0, actions), more).vault.members[i].pending == 0
  {
    hide Inv, Enabled, V.Process, R.Process;
    InitInv(h0);
    RunKeepsInv(h0, actions);
    LockIffPacket(h0, actions, i);
    var h := Exec(h0, actions);
    if h.vault.members[i].pending == 0 {
      var none: seq<Action> := [];
      assert |none| <= 2 && Exec(h, none) == h;
    } else {
      var k :| 0 <= k < |h.bag| && h.bag[k].member == i;
      if h.bag[k].Return? {
        AnswerEnabled(h, k);
        var a :| Apply(h, a).vault.members[i].pending == 0;
        ExecOne(h, a);
        assert |[a]| <= 2;
      } else {
        TransferOpens(h, k);
        var d, a :| Apply(Apply(h, d), a).vault.members[i].pending == 0;
        ExecTwo(h, d, a);
        assert |[d, a]| <= 2;
      }
    }
  }

  lemma ExecTwo(h: Hub, d: Action, a: Action)
    ensures Exec(h, [d, a]) == Apply(Apply(h, d), a)
  {
    ExecOne(Apply(h, d), a);
    assert [d, a][1..] == [a];
  }

  lemma ExecOne(h: Hub, a: Action)
    ensures Exec(h, [a]) == Apply(h, a)
  {
    assert Exec(h, [a]) == Exec(Apply(h, a), [a][1..]);
  }
}
