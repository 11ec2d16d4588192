/** What a contract returns to the host: its parts, when they are acceptable, their bytes, and their predicted size. */
module SdkOutput {
  import opened Bytes
  import opened Sdk
  import opened Sums
  import opened SdkUpdates
  import opened SdkCurrencies

  const U16_END := 0x1_0000
  const CODE_UPGRADE: u64 := 0xc2c6c51bc610249d

  datatype OutboundIntent = OutboundIntent(inputIndex: u32, destination: Address, fuel: u128, extra: seq<Currency>,
                                           methodId: u64, body: seq<byte>)

  datatype CallbackIntent = CallbackIntent(outboundIndex: u32, handler: u64)

  datatype EventKind = ExternalEvent | InternalEvent

  datatype EventIntent = EventIntent(inputIndex: u32, kind: EventKind, eventClass: u64, name: seq<byte>,
                                     topics: seq<seq<byte>>, fields: seq<byte>)

  datatype UpgradeIntent = UpgradeIntent(target: Id32, codeHash: Id32)

  datatype MessageOutput = MessageOutput(status: u32, update: Option<StateUpdate>, result: seq<byte>,
                                         outbound: seq<OutboundIntent>, callbacks: seq<CallbackIntent>,
                                         events: seq<EventIntent>, upgrade: Option<UpgradeIntent>)

  datatype BatchOutput = BatchOutput(update: StateUpdate, statuses: seq<u32>, outbound: seq<OutboundIntent>,
                                     events: seq<EventIntent>)

  // Lengths that have to fit their length fields.

  predicate SizedPatch(p: StatePatch) { |p.newBytes| < U32_END }

  predicate SizedUpdate(u: StateUpdate) {
    match u
    case Full(state) => |state| < U32_END
    case Patches(ps) => |ps| < U16_END && forall i | 0 <= i < |ps| :: SizedPatch(ps[i])
  }

  predicate SizedIntent(o: OutboundIntent) { |o.extra| < U16_END && |o.body| < U32_END }

  predicate SizedOutbound(os: seq<OutboundIntent>) {
    |os| < U32_END && forall i | 0 <= i < |os| :: SizedIntent(os[i])
  }

  predicate SizedTopics(ts: seq<seq<byte>>) { |ts| < U16_END && forall i | 0 <= i < |ts| :: |ts[i]| < U16_END }

  predicate SizedEvent(e: EventIntent) { |e.name| < U16_END && SizedTopics(e.topics) && |e.fields| < U32_END }

  predicate SizedEvents(es: seq<EventIntent>) {
    |es| < U32_END && forall i | 0 <= i < |es| :: SizedEvent(es[i])
  }

  predicate SizedMessage(m: MessageOutput) {
    && (m.update.Some? ==> SizedUpdate(m.update.value))
    && |m.result| < U32_END && SizedEffects(m)
  }

  predicate SizedBatch(b: BatchOutput) {
    SizedUpdate(b.update) && |b.statuses| < U32_END && SizedOutbound(b.outbound) && SizedEvents(b.events)
  }

  // The bytes of each part, lists from the right so that a loop extends them one element at a time.

  function ModeByte(m: Mode): byte { if m == FullReplace then 0 else 1 }

  function PatchBytes(p: StatePatch): (b: seq<byte>)
    requires SizedPatch(p)
    ensures |b| == 12 + |p.newBytes|
  {
    Le32(p.offset) + Le32(p.oldLen) + Le32(|p.newBytes|) + p.newBytes
  }

  function PatchesBytes(ps: seq<StatePatch>): (b: seq<byte>)
    requires forall i | 0 <= i < |ps| :: SizedPatch(ps[i])
    ensures |b| == Sum(PatchSizes(ps))
  {
    if ps == [] then [] else
      var n := |ps| - 1;
      assert PatchSizes(ps)[..n] == PatchSizes(ps[..n]);
      PatchesBytes(ps[..n]) + PatchBytes(ps[n])
  }

  function UpdateBytes(u: StateUpdate): (b: seq<byte>)
    requires SizedUpdate(u)
    ensures |b| == UpdateSize(u)
  {
    [ModeByte(u.UpdateMode())] + [0, 0, 0] +
    match u
    case Full(state) => Le32(|state|) + state
    case Patches(ps) => Le16(|ps|) + Le16(0) + PatchesBytes(ps)
  }

  function IntentBytes(o: OutboundIntent): (b: seq<byte>)
    requires SizedIntent(o)
    ensures |b| == IntentSize(o)
  {
    Le32(o.inputIndex) + AddressBytes(o.destination) + Le128(o.fuel) + Le16(|o.extra|) + ExtraBytes(o.extra)
    + Le64(o.methodId) + Le32(|o.body|) + o.body
  }

  function IntentsBytes(os: seq<OutboundIntent>): (b: seq<byte>)
    requires forall i | 0 <= i < |os| :: SizedIntent(os[i])
    ensures |b| == Sum(IntentSizes(os))
  {
    if os == [] then [] else
      var n := |os| - 1;
      assert IntentSizes(os)[..n] == IntentSizes(os[..n]);
      IntentsBytes(os[..n]) + IntentBytes(os[n])
  }

  function OutboundBytes(os: seq<OutboundIntent>): (b: seq<byte>)
    requires SizedOutbound(os)
    ensures |b| == OutboundSize(os)
  {
    Le32(|os|) + IntentsBytes(os)
  }

  function CallbackBytes(c: CallbackIntent): (b: seq<byte>)
    ensures |b| == 12
  {
    Le32(c.outboundIndex) + Le64(c.handler)
  }

  function CallbacksBytes(cs: seq<CallbackIntent>): (b: seq<byte>)
    ensures |b| == 12 * |cs|
  {
    if cs == [] then [] else CallbacksBytes(cs[..|cs| - 1]) + CallbackBytes(cs[|cs| - 1])
  }

  function TopicsBytes(ts: seq<seq<byte>>): (b: seq<byte>)
    requires forall i | 0 <= i < |ts| :: |ts[i]| < U16_END
    ensures |b| == Sum(TopicSizes(ts))
  {
    if ts == [] then [] else
      var n := |ts| - 1;
      assert TopicSizes(ts)[..n] == TopicSizes(ts[..n]);
      TopicsBytes(ts[..n]) + (Le16(|ts[n]|) + ts[n])
  }

  function EventBytes(e: EventIntent): (b: seq<byte>)
    requires SizedEvent(e)
    ensures |b| == EventSize(e)
  {
    Le32(e.inputIndex) + [if e.kind == ExternalEvent then 0 else 1] + Le64(e.eventClass) + Le16(|e.name|) + e.name
    + Le16(|e.topics|) + TopicsBytes(e.topics) + Le32(|e.fields|) + e.fields
  }

  function EventListBytes(es: seq<EventIntent>): (b: seq<byte>)
    requires forall i | 0 <= i < |es| :: SizedEvent(es[i])
    ensures |b| == Sum(EventSizes(es))
  {
    if es == [] then [] else
      var n := |es| - 1;
      assert EventSizes(es)[..n] == EventSizes(es[..n]);
      EventListBytes(es[..n]) + EventBytes(es[n])
  }

  function EventsBytes(es: seq<EventIntent>): (b: seq<byte>)
    requires SizedEvents(es)
    ensures |b| == EventsSize(es)
  {
    Le32(|es|) + EventListBytes(es)
  }

  const ACMO: seq<byte> := [0x41, 0x43, 0x4d, 0x4f]
  const ACBO: seq<byte> := [0x41, 0x43, 0x42, 0x4f]

  function Flags(m: MessageOutput): byte {
    (if m.update.Some? then 1 else 0) + (if m.upgrade.Some? then 2 else 0)
  }

  function OptionalUpdateBytes(u: Option<StateUpdate>): (b: seq<byte>)
    requires u.Some? ==> SizedUpdate(u.value)
    ensures |b| == if u.Some? then UpdateSize(u.value) else 0
  {
    if u.Some? then UpdateBytes(u.value) else []
  }

  function UpgradeBytes(u: Option<UpgradeIntent>): (b: seq<byte>)
    ensures |b| == if u.Some? then 64 else 0
  {
    if u.Some? then var target: seq<byte> := u.value.target; target + u.value.codeHash else []
  }

  /** Magic, status, flags and the state update, if there is one. */
  function HeadBytes(m: MessageOutput): (b: seq<byte>)
    requires m.update.Some? ==> SizedUpdate(m.update.value)
    ensures |b| == 9 + if m.update.Some? then UpdateSize(m.update.value) else 0
  {
    ACMO + Le32(m.status) + [Flags(m)] + OptionalUpdateBytes(m.update)
  }

  predicate SizedEffects(m: MessageOutput) {
    SizedOutbound(m.outbound) && |m.callbacks| < U32_END && SizedEvents(m.events)
  }

  /** Everything after the callback result. */
  function EffectBytes(m: MessageOutput): (b: seq<byte>)
    requires SizedEffects(m)
    ensures |b| == OutboundSize(m.outbound) + (4 + 12 * |m.callbacks|) + EventsSize(m.events)
            + (if m.upgrade.Some? then 64 else 0)
  {
    OutboundBytes(m.outbound) + (Le32(|m.callbacks|) + CallbacksBytes(m.callbacks)) + EventsBytes(m.events)
    + UpgradeBytes(m.upgrade)
  }

  /** The whole message output, in the order the host reads it. */
  function MessageBytes(m: MessageOutput): (b: seq<byte>)
    requires SizedMessage(m)
    ensures |b| == MessageSize(m)
  {
    HeadBytes(m) + (Le32(|m.result|) + m.result) + EffectBytes(m)
  }

  function StatusesBytes(ss: seq<u32>): (b: seq<byte>)
    ensures |b| == 4 * |ss|
  {
    if ss == [] then [] else StatusesBytes(ss[..|ss| - 1]) + Le32(ss[|ss| - 1])
  }

  function BatchBytes(b: BatchOutput): (r: seq<byte>)
    requires SizedBatch(b)
    ensures |r| == BatchSize(b)
  {
    ACBO + UpdateBytes(b.update) + (Le32(|b.statuses|) + StatusesBytes(b.statuses)) + OutboundBytes(b.outbound)
    + EventsBytes(b.events)
  }

  // Predicted sizes, computed without looking at any payload byte.

  function PatchSizes(ps: seq<StatePatch>): (xs: seq<nat>)
    ensures |xs| == |ps|
  {
    seq(|ps|, i requires 0 <= i < |ps| => 12 + |ps[i].newBytes|)
  }

  function UpdateSize(u: StateUpdate): nat {
    match u
    case Full(state) => 8 + |state|
    case Patches(ps) => 8 + Sum(PatchSizes(ps))
  }

  function IntentSize(o: OutboundIntent): nat { 98 + 20 * |o.extra| + |o.body| }

  function IntentSizes(os: seq<OutboundIntent>): (xs: seq<nat>)
    ensures |xs| == |os|
  {
    seq(|os|, i requires 0 <= i < |os| => IntentSize(os[i]))
  }

  function OutboundSize(os: seq<OutboundIntent>): nat { 4 + Sum(IntentSizes(os)) }

  function TopicSizes(ts: seq<seq<byte>>): (xs: seq<nat>)
    ensures |xs| == |ts|
  {
    seq(|ts|, i requires 0 <= i < |ts| => 2 + |ts[i]|)
  }

  function EventSize(e: EventIntent): nat { 21 + |e.name| + Sum(TopicSizes(e.topics)) + |e.fields| }

  function EventSizes(es: seq<EventIntent>): (xs: seq<nat>)
    ensures |xs| == |es|
  {
    seq(|es|, i requires 0 <= i < |es| => EventSize(es[i]))
  }

  function EventsSize(es: seq<EventIntent>): nat { 4 + Sum(EventSizes(es)) }

  function MessageSize(m: MessageOutput): nat {
    9 + (if m.update.Some? then UpdateSize(m.update.value) else 0) + (4 + |m.result|) + OutboundSize(m.outbound)
    + (4 + 12 * |m.callbacks|) + EventsSize(m.events) + (if m.upgrade.Some? then 64 else 0)
  }

  function BatchSize(b: BatchOutput): nat {
    4 + UpdateSize(b.update) + (4 + 4 * |b.statuses|) + OutboundSize(b.outbound) + EventsSize(b.events)
  }
}
