/** What several contracts ask of a message or of their funds, in plain terms. */
module Admission {
  import opened Bytes
  import opened Sdk

  /** An external message to this method. */
  predicate Calls(in_: Input, methodId: u64) {
    in_.message.External? && in_.message.methodId == methodId
  }

  /** Some entry of the funds is at least `least` SHELL. */
  predicate FuelAtHand(balance: seq<Currency>, least: u128) {
    exists k | 0 <= k < |balance| :: balance[k].id == 2 && balance[k].amount >= least
  }

  predicate AllShell(extra: seq<Currency>) {
    forall k | 0 <= k < |extra| :: extra[k].id == 2
  }

  predicate AllNonzero(extra: seq<Currency>) {
    forall k | 0 <= k < |extra| :: extra[k].amount > 0
  }

  predicate Proper(a: Address) { a.dapp != ZERO32 && a.account != ZERO32 }

  /** A body of 64 bytes names exactly one address. */
  lemma AddressBody(body: seq<byte>, a: Address)
    ensures body == a.dapp + a.account <==> |body| == 64 && AddressAt(body) == a
  {
    AddressInverse(a);
  }
}
