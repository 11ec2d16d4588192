/** The vault as the host sees it: stored bytes in, stored bytes and a reply out. */
module VaultImage {
  import opened Bytes
  import opened Sdk
  import opened Blocks
  import opened RevenueCore
  import opened VaultState
  import opened VaultSpec
  import opened VaultContract
  import opened VaultCodec

  ghost function DecodeConfig(b: seq<byte>): Result<Config> {
    if ShapedConfig(b) && ValidConfig(ViewConfig(b)) then Ok(ViewConfig(b)) else Err(E_ARGS)
  }

  method LoadMembers(b: seq<byte>) returns (r: Result<Members>)
    requires |b| == CONFIG_BYTES && b[121..128] == Zeros(7)
    ensures r == if ShapedConfig(b) then Ok(ViewConfig(b).members) else Err(E_ARGS)
  {
    ghost var rows := Table(b, 128, ROW, MAX_MEMBERS);
    var members: seq<Member> := [];
    for i := 0 to MAX_MEMBERS
      invariant |members| == i
      invariant forall k | 0 <= k < i :: PaddedRow(rows[k]) && members[k] == MemberOf(rows[k])
    {
      TableRow(b, 128, ROW, MAX_MEMBERS, i);
      var row := b[128 + ROW * i..128 + ROW * i + ROW];
      if row[98..104] != Zeros(6) {
        assert !PaddedRow(rows[i]);
        return Err(E_ARGS);
      }
      members := members + [MemberOf(row)];
    }
    assert members == ViewConfig(b).members;
    return Ok(members);
  }

  /** `Config::decode`. */
  method LoadConfig(b: seq<byte>) returns (r: Result<Config>)
    ensures r == DecodeConfig(b)
  {
    if |b| != CONFIG_BYTES || b[121..128] != Zeros(7) {
      return Err(E_ARGS);
    }
    var members :- LoadMembers(b);
    var c := Config([b[..32], b[32..64], b[64..96]], Nat32(b[96..100]), Nat32(b[100..104]), Nat128(b[104..120]),
             b[120], members);
    var _ :- ValidateConfig(c);
    return Ok(c);
  }

  method LoadStates(b: seq<byte>) returns (members: MemberStates)
    requires Shaped(b)
    ensures members == View(b).members
  {
    ghost var rows := Table(b, 1896, ROW, MAX_MEMBERS);
    members := seq(MAX_MEMBERS, _ => IDLE);
    for i := 0 to MAX_MEMBERS
      invariant forall k | 0 <= k < i :: members[k] == StateOf(rows[k])
    {
      TableRow(b, 1896, ROW, MAX_MEMBERS, i);
      members := members[i := StateOf(b[1896 + ROW * i..1896 + ROW * i + ROW])];
    }
  }

  /** `State::decode`: shape checks, the configuration, the rows, and the full validation, in that order. */
  method Load(b: seq<byte>) returns (r: Result<State>)
    ensures r == Decode(b)
  {
    if |b| != STATE_BYTES || b[1841..1848] != Zeros(7) || b[1840] > 1 {
      return Err(E_STATE);
    }
    var p := b[1848..1896];
    if p[10..16] != Zeros(6) || p[44..48] != Zeros(4) {
      return Err(E_STATE);
    }
    var config := LoadConfig(b[..CONFIG_BYTES]);
    if config.Err? {
      return Err(E_STATE);
    }
    var members := LoadStates(b);
    var s := State(config.value, Nat128(b[1792..1808]), Nat128(b[1808..1824]), Nat64(b[1824..1832]),
                   Nat64(b[1832..1840]), b[1840] == 1, ViewProposal(p), members, config.value.initialFuel);
    var vault := new Vault(s);
    var _ :- vault.Validate();
    return Ok(s);
  }

  predicate LocalMembers(c: Config, here: Address)
    requires c.count <= MAX_MEMBERS
  {
    forall i | 0 <= i < c.count :: c.members[i].destination != here && c.members[i].destination.dapp == here.dapp
  }

  /** What deployment stores: the state of a freshly configured vault, if one of its signers deploys it. */
  ghost function Initialized(stored: seq<byte>, in_: Input, data: seq<byte>): (r: Result<(State, Reply)>)
    ensures r.Ok? ==> ShapedConfig(data) && ValidConfig(ViewConfig(data)) && r.value.0 == Initial(ViewConfig(data))
  {
    var c :- DecodeConfig(data);
    if !in_.message.External? || SignerIndex(c, in_.message.actor).Err? then Err(E_AUTH)
    else if stored != [] || !LocalMembers(c, in_.here) then Err(E_ARGS)
    else if in_.message.extra != [] then Err(E_VALUE)
    else
      InitialIsValid(c);
      Ok((Initial(c), Reply(EventOf(Initial(c), 255, 0), [])))
  }

  /** `initialize`. */
  method InitializeImage(stored: seq<byte>, in_: Input, data: seq<byte>) returns (r: Result<(seq<byte>, Reply)>)
    ensures r == match Initialized(stored, in_, data)
                 case Ok(o) => Ok((Image(o.0), o.1))
                 case Err(code) => Err(code)
  {
    var c :- LoadConfig(data);
    if !in_.message.External? {
      return Err(E_AUTH);
    }
    var signer := SignerIndex(c, in_.message.actor);
    if signer.Err? {
      return Err(E_AUTH);
    }
    if stored != [] || !LocalMembers(c, in_.here) {
      return Err(E_ARGS);
    }
    if in_.message.extra != [] {
      return Err(E_VALUE);
    }
    InitialIsValid(c);
    var s := Initial(c);
    var vault := new Vault(s);
    var reply := vault.Finish(255, 0);
    var next := Encode(s);
    return Ok((next, reply.value));
  }

  /** What deployment stores reads back as the initial state, and that state is valid and holds nothing. */
  lemma InitialImage(c: Config)
    requires ValidConfig(c)
    ensures Valid(Initial(c)) && Held(Initial(c)) == 0
    ensures Decode(Image(Initial(c))) == Ok(Initial(c))
  {
    InitialIsValid(c);
    DecodeAfterEncode(Initial(c));
    assert c.(initialFuel := c.initialFuel) == c;
  }

  /** What a message does to a stored image. */
  ghost function ProcessBytes(b: seq<byte>, in_: Input): Result<(seq<byte>, Reply)> {
    var s :- Decode(b);
    var o :- Process(s, in_);
    Ok((Image(o.state), o.reply))
  }

  /** `process_message` from image to image. */
  method ProcessImage(b: seq<byte>, in_: Input) returns (r: Result<(seq<byte>, Reply)>)
    ensures r == ProcessBytes(b, in_)
  {
    var s :- Load(b);
    var vault := new Vault(s);
    var reply :- vault.ProcessMessage(in_);
    var next := Encode(State(vault.config, vault.received, vault.paid, vault.claimNonce, vault.proposalNonce,
                             vault.paused, vault.proposal, vault.members, vault.fuelLimit));
    return Ok((next, reply));
  }

  /** Every image a run writes is read back: no successful message leaves a vault that cannot be decoded. */
  lemma WrittenImagesDecode(b: seq<byte>, in_: Input)
    requires ProcessBytes(b, in_).Ok?
    ensures Decode(ProcessBytes(b, in_).value.0).Ok?
    ensures var s, t := Decode(b).value, Decode(ProcessBytes(b, in_).value.0).value;
            && t == Process(s, in_).value.state.(config := StoredConfig(Process(s, in_).value.state))
            && t.config.(initialFuel := s.config.initialFuel) == s.config
  {
    var s := Decode(b).value;
    ProcessKeepsValid(s, in_);
    DecodeAfterEncode(Process(s, in_).value.state);
  }
}
