/** The vesting contract as the host sees it: stored bytes in, stored bytes and a reply out. */
module VestingImage {
  import opened Bytes
  import opened Sdk
  import opened Blocks
  import opened VestingCore
  import opened VestingState
  import opened VestingSpec
  import opened VestingContract
  import opened VestingCodec

  ghost function DecodeConfig(b: seq<byte>): Result<Config> {
    if !ShapedConfig(b) || !LegalConfig(ViewConfig(b)) then Err(E_ARGS)
    else if Total(ViewConfig(b)) >= U128_END then Err(E_OVERFLOW)
    else Ok(ViewConfig(b))
  }

  method LoadStreams(b: seq<byte>) returns (r: Result<Streams>)
    requires |b| == CONFIG_BYTES && b[49..56] == Zeros(7)
    ensures r == if ShapedConfig(b) then Ok(ViewConfig(b).streams) else Err(E_ARGS)
  {
    ghost var rows := Table(b, 56, ROW, MAX_STREAMS);
    var streams: seq<Stream> := [];
    for i := 0 to MAX_STREAMS
      invariant |streams| == i
      invariant forall k | 0 <= k < i :: ShapedStream(rows[k]) && streams[k] == StreamOf(rows[k])
    {
      TableRow(b, 56, ROW, MAX_STREAMS, i);
      var row := b[56 + ROW * i..56 + ROW * i + ROW];
      if row[192] > 1 || row[193..200] != Zeros(7) {
        assert !ShapedStream(rows[i]);
        return Err(E_ARGS);
      }
      streams := streams + [StreamOf(row)];
    }
    assert streams == ViewConfig(b).streams;
    return Ok(streams);
  }

  /** `Config::decode`. */
  method LoadConfig(b: seq<byte>) returns (r: Result<Config>)
    ensures r == DecodeConfig(b)
  {
    if |b| != CONFIG_BYTES || b[49..56] != Zeros(7) {
      return Err(E_ARGS);
    }
    var streams :- LoadStreams(b);
    var c := Config(b[..32], Nat128(b[32..48]), b[48], streams);
    var _ :- ValidateConfig(c);
    return Ok(c);
  }

  method LoadProgress(b: seq<byte>) returns (r: Result<ProgressRow>)
    requires |b| == STATE_BYTES
    ensures var rows := Table(b, 1672, ROW, MAX_STREAMS);
            r == if AllShaped(rows) then Ok(ProgressFrom(rows)) else Err(E_STATE)
  {
    ghost var rows := Table(b, 1672, ROW, MAX_STREAMS);
    var progress: seq<Progress> := [];
    for i := 0 to MAX_STREAMS
      invariant AllShaped(rows[..i]) && progress == ProgressFrom(rows[..i])
    {
      TableRow(b, 1672, ROW, MAX_STREAMS, i);
      var row := b[1672 + ROW * i..1672 + ROW * i + ROW];
      if row[0] > 1 || row[1..4] != Zeros(3) {
        assert !ShapedProgress(rows[i]);
        return Err(E_STATE);
      }
      progress := progress + [ProgressOf(row)];
      assert rows[..i + 1] == rows[..i] + [row];
    }
    assert rows[..MAX_STREAMS] == rows;
    return Ok(progress);
  }

  /** `State::decode`. */
  method Load(b: seq<byte>) returns (r: Result<State>)
    ensures r == Decode(b)
  {
    hide LegalConfig, StreamOf, ProgressOf;
    if |b| != STATE_BYTES || b[1656] > 1 || b[1657..1660] != Zeros(3) {
      return Err(E_STATE);
    }
    var config := LoadConfig(b[..CONFIG_BYTES]);
    if config.Err? {
      return Err(E_STATE);
    }
    var progress :- LoadProgress(b);
    var s := State(config.value, b[1656] == 1, Nat32(b[1660..1664]), Nat64(b[1664..1672]), progress);
    var vesting := new Vesting(s);
    var _ :- vesting.Validate();
    return Ok(s);
  }

  /** What a message does to a stored image. */
  ghost function ProcessBytes(b: seq<byte>, in_: Input): Result<(seq<byte>, Reply)> {
    var s :- Decode(b);
    var o :- Process(s, in_);
    Ok((Image(o.state), o.reply))
  }

  /** `process_message` from image to image. */
  method ProcessImage(b: seq<byte>, in_: Input) returns (r: Result<(seq<byte>, Reply)>)
    ensures r == ProcessBytes(b, in_)
  {
    var s :- Load(b);
    var vesting := new Vesting(s);
    var reply :- vesting.ProcessMessage(in_);
    var next := Encode(State(vesting.config, vesting.funded, vesting.lastTime, vesting.nonce, vesting.progress));
    return Ok((next, reply));
  }

  /** Every image a run writes is read back as exactly the state the run reached. */
  lemma WrittenImagesDecode(b: seq<byte>, in_: Input)
    requires ProcessBytes(b, in_).Ok?
    ensures Decode(b).Ok? && Process(Decode(b).value, in_).Ok?
    ensures Decode(ProcessBytes(b, in_).value.0) == Ok(Process(Decode(b).value, in_).value.state)
  {
    var s := Decode(b).value;
    ProcessKeepsValid(s, in_);
    var t := Process(s, in_).value.state;
    ImagesAreCanonical(Image(t), t);
  }

  predicate LocalStreams(c: Config, here: Address)
    requires c.count <= MAX_STREAMS
  {
    forall i | 0 <= i < c.count ::
      && c.streams[i].payout != here && c.streams[i].payout.dapp == here.dapp
      && c.streams[i].refund != here && c.streams[i].refund.dapp == here.dapp
  }

  /** What deployment stores: only the owner deploys, before the first stream starts, with local destinations. */
  ghost function Initialized(stored: seq<byte>, in_: Input, data: seq<byte>): (r: Result<(State, Reply)>)
    ensures r.Ok? ==>
              && ShapedConfig(data) && ValidConfig(ViewConfig(data))
              && r.value.0 == Initial(ViewConfig(data), in_.blockTime)
  {
    var c :- DecodeConfig(data);
    if !in_.message.External? || in_.message.actor != c.owner then Err(E_AUTH)
    else if in_.message.extra != [] then Err(E_VALUE)
    else if stored != [] || Started(c, in_.blockTime) || !LocalStreams(c, in_.here) then Err(E_ARGS)
    else
      InitialIsValid(c, in_.blockTime);
      Ok((Initial(c, in_.blockTime), Reply(EventOf(Initial(c, in_.blockTime), 255, 255, 0), [])))
  }

  /** `initialize`. */
  method InitializeImage(stored: seq<byte>, in_: Input, data: seq<byte>) returns (r: Result<(seq<byte>, Reply)>)
    ensures r == match Initialized(stored, in_, data)
                 case Ok(o) => Ok((Image(o.0), o.1))
                 case Err(code) => Err(code)
  {
    var c :- LoadConfig(data);
    if !in_.message.External? || in_.message.actor != c.owner {
      return Err(E_AUTH);
    }
    if in_.message.extra != [] {
      return Err(E_VALUE);
    }
    var first := FirstStart(c);
    assert Started(c, in_.blockTime) <==> first <= in_.blockTime;
    if stored != [] || in_.blockTime >= first || !LocalStreams(c, in_.here) {
      return Err(E_ARGS);
    }
    InitialIsValid(c, in_.blockTime);
    var s := Initial(c, in_.blockTime);
    var vesting := new Vesting(s);
    var reply :- vesting.Finish(255, 255, 0);
    var next := Encode(s);
    return Ok((next, reply));
  }
}
