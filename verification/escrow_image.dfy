/** The escrow as the host sees it: stored bytes in, stored bytes and a reply out. */
module EscrowImage {
  import opened Bytes
  import opened Sdk
  import opened Blocks
  import opened EscrowState
  import opened EscrowSpec
  import opened EscrowContract
  import opened EscrowCodec

  ghost function DecodeConfig(b: seq<byte>): Result<Config> {
    if ShapedConfig(b) && ValidConfig(ViewConfig(b)) then Ok(ViewConfig(b)) else Err(ERR_ARGS)
  }

  method LoadAmounts(b: seq<byte>) returns (amounts: Amounts)
    requires |b| == CONFIG_BYTES
    ensures amounts == AmountsFrom(Table(b, 216, 16, MAX_MILESTONES))
  {
    ghost var rows := Table(b, 216, 16, MAX_MILESTONES);
    amounts := seq(MAX_MILESTONES, _ => 0);
    for i := 0 to MAX_MILESTONES
      invariant forall k | 0 <= k < i :: amounts[k] == Nat128(rows[k])
    {
      TableRow(b, 216, 16, MAX_MILESTONES, i);
      amounts := amounts[i := Nat128(b[216 + 16 * i..216 + 16 * i + 16])];
    }
  }

  /** `Config::decode`. */
  method LoadConfig(b: seq<byte>) returns (r: Result<Config>)
    ensures r == DecodeConfig(b)
  {
    if |b| != CONFIG_BYTES || b[213..216] != Zeros(3) {
      return Err(ERR_ARGS);
    }
    var amounts := LoadAmounts(b);
    var c := Config(b[..32], b[32..64], AddressAt(b[64..128]), AddressAt(b[128..192]), Nat128(b[192..208]),
                    Nat32(b[208..212]), b[212], amounts, Nat128(b[344..360]));
    var _ :- CheckConfig(c);
    return Ok(c);
  }

  method LoadHashes(b: seq<byte>) returns (hashes: Hashes)
    requires |b| == STATE_BYTES
    ensures hashes == HashesFrom(Table(b, 456, 32, MAX_MILESTONES))
  {
    ghost var rows := Table(b, 456, 32, MAX_MILESTONES);
    hashes := seq<Id32>(MAX_MILESTONES, _ => ZERO32);
    for i := 0 to MAX_MILESTONES
      invariant forall k | 0 <= k < i :: hashes[k] == rows[k]
    {
      TableRow(b, 456, 32, MAX_MILESTONES, i);
      hashes := hashes[i := b[456 + 32 * i..456 + 32 * i + 32]];
    }
  }

  /** The receipt loop: the first `count` rows are receipts, the rest must be zero. */
  method LoadReceipts(b: seq<byte>, count: nat) returns (r: Option<seq<Id32>>)
    requires |b| == STATE_BYTES && count <= MAX_ATTEMPTS
    ensures var rows := Table(b, 720, 32, MAX_ATTEMPTS);
            r == if ZeroRows(rows, count) then Some(HashesFrom(rows)[..count]) else None
  {
    ghost var rows := Table(b, 720, 32, MAX_ATTEMPTS);
    var receipts: seq<Id32> := [];
    for i := 0 to MAX_ATTEMPTS
      invariant |receipts| == if i < count then i else count
      invariant forall k | 0 <= k < |receipts| :: receipts[k] == rows[k]
      invariant forall k | count <= k < i :: rows[k] == ZERO32
    {
      TableRow(b, 720, 32, MAX_ATTEMPTS, i);
      var hash: Id32 := b[720 + 32 * i..720 + 32 * i + 32];
      if i < count {
        receipts := receipts + [hash];
      } else if hash != ZERO32 {
        return None;
      }
    }
    assert receipts == HashesFrom(rows)[..count];
    return Some(receipts);
  }

  /** `State::decode`. */
  method Load(b: seq<byte>) returns (r: Result<State>)
    ensures r == Decode(b)
  {
    if |b| != STATE_BYTES || b[418..424] != Zeros(6) {
      return Err(ERR_STATE);
    }
    var count := Nat64(b[712..720]);
    if count > MAX_ATTEMPTS {
      return Err(ERR_STATE);
    }
    var hashes := LoadHashes(b);
    var receipts := LoadReceipts(b, count);
    if receipts.None? {
      return Err(ERR_STATE);
    }
    var config := LoadConfig(b[..CONFIG_BYTES]);
    if config.Err? {
      return Err(ERR_STATE);
    }
    var s := State(config.value, Nat128(b[360..376]), Nat128(b[376..392]), Nat128(b[392..408]), Nat64(b[408..416]),
                   Pending(b[416], b[417], Nat128(b[424..440]), Nat64(b[440..448])), b[448..456], hashes,
                   receipts.value);
    var escrow := new Escrow(s);
    assert escrow.config == s.config by { assert escrow.Value() == s; }
    var _ :- escrow.Validate();
    return Ok(s);
  }

  /** What a message does to a stored image. */
  ghost function ProcessBytes(b: seq<byte>, in_: Input): Result<(seq<byte>, Reply)> {
    var s :- Decode(b);
    var o :- Process(s, in_);
    Ok((Image(o.state), o.reply))
  }

  /** `process_message` from image to image. */
  method ProcessImage(b: seq<byte>, in_: Input) returns (r: Result<(seq<byte>, Reply)>)
    ensures r == ProcessBytes(b, in_)
  {
    var s :- Load(b);
    var escrow := new Escrow(s);
    var reply :- escrow.ProcessMessage(in_);
    var next := Encode(State(escrow.config, escrow.funded, escrow.paid, escrow.refunded, escrow.attempts,
                             escrow.pending, escrow.phases, escrow.hashes, escrow.receipts));
    return Ok((next, reply));
  }

  /** Every image a run writes is read back as exactly the state the run reached. */
  lemma WrittenImagesDecode(b: seq<byte>, in_: Input)
    requires ProcessBytes(b, in_).Ok?
    ensures Decode(b).Ok? && Process(Decode(b).value, in_).Ok?
    ensures Decode(ProcessBytes(b, in_).value.0) == Ok(Process(Decode(b).value, in_).value.state)
  {
    var t := Process(Decode(b).value, in_).value.state;
    ImagesAreCanonical(Image(t), t);
  }

  /** What deployment stores: only the owner deploys, before the deadline, paying to other accounts. */
  ghost function Initialized(stored: seq<byte>, in_: Input, data: seq<byte>): Result<(State, Reply)> {
    var c :- DecodeConfig(data);
    if !in_.message.External? || in_.message.actor != c.owner then Err(ERR_AUTH)
    else if stored != [] || c.deadline <= in_.blockTime || c.payTo == in_.here || c.refundTo == in_.here
            then Err(ERR_ARGS)
    else if in_.message.extra != [] then Err(ERR_VALUE)
    else Ok((Initial(c), Reply(EventOf(Initial(c), 255, 0), [])))
  }

  /** `initialize`. */
  method InitializeImage(stored: seq<byte>, in_: Input, data: seq<byte>) returns (r: Result<(seq<byte>, Reply)>)
    ensures r == match Initialized(stored, in_, data)
                 case Ok(o) => Ok((Image(o.0), o.1))
                 case Err(code) => Err(code)
  {
    var c :- LoadConfig(data);
    if !in_.message.External? || in_.message.actor != c.owner {
      return Err(ERR_AUTH);
    }
    if stored != [] || c.deadline <= in_.blockTime {
      return Err(ERR_ARGS);
    }
    if c.payTo == in_.here || c.refundTo == in_.here {
      return Err(ERR_ARGS);
    }
    if in_.message.extra != [] {
      return Err(ERR_VALUE);
    }
    InitialIsValid(c);
    var s := Initial(c);
    var escrow := new Escrow(s);
    var reply :- escrow.Finish(255, 0);
    var next := Encode(s);
    return Ok((next, reply));
  }
}
