/** Transaction ids: 32 bytes, read as one big-endian number. */
module Txids {

  /** Comparing ids as numbers is comparing their bytes from the first one on. */
  type Txid = nat

  /** Ids below this bound have 32 bytes; dividing by it once per 28 bytes leaves the first four. */
  const TWO_TO_224: nat := 0x1_0000_0000_0000_0000_0000_0000_0000_0000_0000_0000_0000_0000_0000_0000

  /** The first four bytes of an id, as a big-endian number. */
  function LeadingBytes(txid: Txid): nat {
    txid / TWO_TO_224
  }

  function Power(base: nat, exponent: nat): nat {
    if exponent == 0 then 1 else base * Power(base, exponent - 1)
  }

  lemma {:induction false} PowerSum(base: nat, m: nat, n: nat)
    ensures Power(base, m + n) == Power(base, m) * Power(base, n)
  {
    if m > 0 {
      PowerSum(base, m - 1, n);
      assert base * (Power(base, m - 1) * Power(base, n)) == base * Power(base, m - 1) * Power(base, n);
    }
  }

  lemma OneByte()
    ensures Power(256, 1) == 256
  {
    assert Power(256, 0) == 1;
  }

  lemma TwentyEightBytes()
    ensures Power(256, 28) == TWO_TO_224
  {
    hide Power;
    OneByte();
    PowerSum(256, 1, 1);
    PowerSum(256, 2, 2);
    PowerSum(256, 4, 4);
    PowerSum(256, 8, 8);
    PowerSum(256, 8, 4);
    PowerSum(256, 16, 12);
  }

  /** An id whose first four bytes read as `first` and whose other 28 as `rest` has `first` as its
      leading bytes. */
  lemma LeadingBytesAreFirst(first: nat, rest: nat)
    requires rest < Power(256, 28)
    ensures LeadingBytes(first * Power(256, 28) + rest) == first
  {
    hide Power;
    TwentyEightBytes();
  }
}
