/** The register address on the wire: big-endian, and nothing is lost. */
module I2cAddress {
  import opened Bits
  import opened Division
  import opened I2cDriver

  function AddressBytes(addr: nat, alen: nat): (s: seq<Byte>)
    ensures |s| == alen
  {
    seq(alen, i requires 0 <= i < alen => AddressByte(addr, alen, i))
  }

  /** A device that shifts the address in, most significant byte first. */
  function Fold(s: seq<Byte>): nat {
    if s == [] then 0 else Fold(s[..|s| - 1]) * 256 + s[|s| - 1]
  }

  lemma SplitLowByte(a: nat, p: nat)
    requires p > 0
    ensures a / (256 * p) == (a / 256) / p
    ensures a % (256 * p) == ((a / 256) % p) * 256 + a % 256
  {
    var q, r := (a / 256) / p, (a / 256) % p;
    assert a / 256 == q * p + r;
    assert a == (q * p + r) * 256 + a % 256 == q * (256 * p) + (r * 256 + a % 256);
    QuotientUnique(a, 256 * p, q, r * 256 + a % 256);
  }

  lemma BytesEndWithLowByte(addr: nat, alen: nat)
    requires alen > 0
    ensures AddressBytes(addr, alen) == AddressBytes(addr / 256, alen - 1) + [addr % 256]
  {
    forall i | 0 <= i < alen - 1
      ensures AddressByte(addr, alen, i) == AddressByte(addr / 256, alen - 1, i)
    {
      SplitLowByte(addr, Pow256(alen - 2 - i));
    }
  }

  /** Shifting the bytes in again gives the address, reduced to alen bytes. */
  lemma {:induction false} FoldOfAddressBytes(addr: nat, alen: nat)
    ensures Fold(AddressBytes(addr, alen)) == addr % Pow256(alen)
    decreases alen
  {
    if alen > 0 {
      FoldOfAddressBytes(addr / 256, alen - 1);
      BytesEndWithLowByte(addr, alen);
      SplitLowByte(addr, Pow256(alen - 1));
    }
  }

  /** Addresses that fit are told apart by their bytes, and reach the device intact. */
  lemma AddressesLossless(addr: nat, other: nat, alen: nat)
    requires addr < Pow256(alen) && other < Pow256(alen)
    ensures Fold(AddressBytes(addr, alen)) == addr
    ensures AddressBytes(addr, alen) == AddressBytes(other, alen) ==> addr == other
  {
    FoldOfAddressBytes(addr, alen);
    FoldOfAddressBytes(other, alen);
    QuotientUnique(addr, Pow256(alen), 0, addr);
    QuotientUnique(other, Pow256(alen), 0, other);
  }

  lemma {:induction false} FoldBelow(s: seq<Byte>)
    ensures Fold(s) < Pow256(|s|)
  {
    if s != [] {
      FoldBelow(s[..|s| - 1]);
    }
  }

  lemma {:induction false} Pow256Grows(a: nat, b: nat)
    requires a <= b
    ensures Pow256(a) <= Pow256(b)
    decreases b
  {
    if a < b {
      Pow256Grows(a, b - 1);
    }
  }
}
