/** The parts of the guest SDK's input and output types that the contracts look at. */
module Sdk {
  import opened Bytes

  datatype Address = Address(dapp: Id32, account: Id32)

  const ZERO_ADDRESS := Address(ZERO32, ZERO32)

  predicate NonzeroAddress(a: Address) {
    a.dapp != ZERO32 && a.account != ZERO32
  }

  function AddressBytes(a: Address): (b: seq<byte>)
    ensures |b| == 64
  {
    a.dapp + a.account
  }

  function AddressAt(b: seq<byte>): (a: Address)
    requires |b| == 64
    ensures AddressBytes(a) == b
  {
    Address(b[..32], b[32..])
  }

  lemma AddressInverse(a: Address)
    ensures AddressAt(AddressBytes(a)) == a
  {
    assert AddressBytes(a)[..32] == a.dapp;
    assert AddressBytes(a)[32..] == a.account;
  }

  datatype Currency = Currency(id: u32, amount: u128)

  const PRINCIPAL := 0
  const SHELL := 2

  /** The decoder only lets through lists in strictly ascending currency order. */
  ghost predicate Canonical(extra: seq<Currency>) {
    forall i, j :: 0 <= i < j < |extra| ==> extra[i].id < extra[j].id
  }

  /** The amount of the first principal entry, or zero. */
  function Principal(extra: seq<Currency>): u128 {
    if extra == [] then 0
    else if extra[0].id == PRINCIPAL then extra[0].amount
    else Principal(extra[1..])
  }

  predicate HasShell(extra: seq<Currency>, least: u128) {
    exists k | 0 <= k < |extra| :: extra[k].id == SHELL && extra[k].amount >= least
  }

  datatype CallbackHeader = CallbackHeader(causeHash: Id32, causeAddress: Address, status: u32)

  /** A decoded message. `callback` is present exactly when the callback flag is set. */
  datatype Message =
    | External(actor: Id32, methodId: u64, body: seq<byte>, extra: seq<Currency>)
    | Internal(source: Address, methodId: u64, body: seq<byte>, extra: seq<Currency>,
               destination: Address, createdLt: u64, callback: Option<CallbackHeader>,
               deploy: bool, callbackRequest: bool, eventReads: bool)

  /** What an entrypoint sees of one message: `here` is its own address, `balance` its funds after crediting. */
  datatype Input = Input(blockLt: u64, blockTime: u32, here: Address, balance: seq<Currency>, message: Message)

  /** One outbound transfer, with or without a callback request. */
  datatype Outbound = Outbound(destination: Address, fuel: u128, principal: u128, methodId: u64,
                               body: seq<byte>, callbackMethod: Option<u64>)
}
