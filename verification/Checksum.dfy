/**
  The order in which isEpoch sorts validators: by `Address.Hex()`, whose letters are upper or lower case depending on
  a hash of the address (manager/utils.go:329-333). Whatever the hash says, the order is strict and total.
 */
module Checksum {
  import opened Prelude
  import opened Order
  import opened MappingKey

  /** Which letters of an address are written in upper case. */
  type Casing = (Address, nat) -> bool

  function CaseDigit(c: byte, upper: bool): byte {
    if 97 <= c <= 102 && upper then c - 32 else c
  }

  /** `Address.Hex`: "0x" and forty digits in mixed case. */
  function Hex(casing: Casing, a: Address): (s: bytes)
    ensures |s| == 2 + |HexEncode(a)|
    ensures forall i :: 0 <= i < |HexEncode(a)| ==> s[2 + i] == CaseDigit(HexEncode(a)[i], casing(a, i))
  {
    var digits := HexEncode(a);
    [48, 120] + seq<byte>(|digits|, i requires 0 <= i < |digits| => CaseDigit(digits[i], casing(a, i)))
  }

  lemma HexDigits(b: bytes, i: nat)
    requires i < |HexEncode(b)|
    ensures
      var c := HexEncode(b)[i];
      48 <= c <= 57 || 97 <= c <= 102
  {
    if i >= 2 {
      HexDigits(b[1..], i - 2);
    }
  }

  lemma HexInjective(casing: Casing, a: Address, b: Address)
    requires Hex(casing, a) == Hex(casing, b)
    ensures a == b
  {
    hide HexEncode, Hex;
    var p, q := HexEncode(a), HexEncode(b);
    assert |p| == |q|;
    forall i | 0 <= i < |p| ensures p[i] == q[i] {
      HexDigits(a, i);
      HexDigits(b, i);
      assert Hex(casing, a)[2 + i] == Hex(casing, b)[2 + i];
    }
    assert p == q;
    MappingKey.HexInjective(a, b);
  }

  function Before(casing: Casing): (Address, Address) -> bool {
    (a: Address, b: Address) => Less(Hex(casing, a), Hex(casing, b))
  }

  lemma BeforeIsStrictTotal(casing: Casing)
    ensures StrictTotal(Before(casing))
  {
    hide Hex, Less;
    var lt := Before(casing);
    forall a: Address ensures !lt(a, a) {
      LessIrreflexive(Hex(casing, a));
    }
    forall a: Address, b: Address, c: Address | lt(a, b) && lt(b, c) ensures lt(a, c) {
      LessTransitive(Hex(casing, a), Hex(casing, b), Hex(casing, c));
    }
    forall a: Address, b: Address ensures a == b || lt(a, b) || lt(b, a) {
      LessConnected(Hex(casing, a), Hex(casing, b));
      if Hex(casing, a) == Hex(casing, b) {
        HexInjective(casing, a, b);
      }
    }
  }
}
