/** The bytes of currency lists. */
module SdkCurrencies {
  import opened Bytes
  import opened Sdk
  import opened Blocks

  function CurrencyBytes(c: Currency): (b: seq<byte>)
    ensures |b| == 20
  {
    Le32(c.id) + Le128(c.amount)
  }

  function CurrencyAt(b: seq<byte>): (c: Currency)
    requires |b| == 20
    ensures CurrencyBytes(c) == b
  {
    assert b == b[..4] + b[4..20];
    Currency(Nat32(b[..4]), Nat128(b[4..20]))
  }

  lemma CurrencyInverse(c: Currency)
    ensures CurrencyAt(CurrencyBytes(c)) == c
  {
    var b := CurrencyBytes(c);
    assert b[..4] == Le32(c.id) && b[4..20] == Le128(c.amount);
    Le32Inverse(c.id);
    Le128Inverse(c.amount);
  }

  function CurrencyRows(cs: seq<Currency>): (rows: seq<seq<byte>>)
    ensures |rows| == |cs| && Rows(rows, 20)
  {
    seq(|cs|, i requires 0 <= i < |cs| => CurrencyBytes(cs[i]))
  }

  function CurrenciesFrom(rows: seq<seq<byte>>): (cs: seq<Currency>)
    requires Rows(rows, 20)
    ensures |cs| == |rows| && CurrencyRows(cs) == rows
  {
    seq(|rows|, i requires 0 <= i < |rows| => CurrencyAt(rows[i]))
  }

  lemma CurrenciesInverse(cs: seq<Currency>)
    ensures CurrenciesFrom(CurrencyRows(cs)) == cs
  {
    forall i | 0 <= i < |cs| ensures CurrenciesFrom(CurrencyRows(cs))[i] == cs[i] {
      CurrencyInverse(cs[i]);
    }
  }

  function ExtraBytes(cs: seq<Currency>): (b: seq<byte>)
    ensures |b| == 20 * |cs|
  {
    Flat(CurrencyRows(cs), 20)
  }
}
