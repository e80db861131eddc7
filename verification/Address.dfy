/** Account addresses: "Kto" and the Base58 text of the public key, in a 47-byte array
    (types/address.go, until/privkey.go). */
module Address {
  import opened Bytes
  import opened Radix
  import opened Base58

  const KTO: bytes := [75, 116, 111]

  function PubToAddr(pub: bytes): bytes {
    KTO + Encoded(pub)
  }

  /** Go's copy into a zeroed array: a longer text is cut off, a shorter one padded. */
  function BytesToAddress(from: bytes): (a: bytes)
    ensures |a| == ADDRESS_LENGTH
  {
    if |from| >= ADDRESS_LENGTH then from[..ADDRESS_LENGTH] else from + Repeat(0, ADDRESS_LENGTH - |from|)
  }

  function AddrToPub(a: bytes): bytes
    requires |a| == ADDRESS_LENGTH
  {
    Decoded(a[3..])
  }

  lemma {:induction false} PowerAdd(b: nat, m: nat, n: nat)
    ensures Power(b, m + n) == Power(b, m) * Power(b, n)
  {
    if m > 0 {
      PowerAdd(b, m - 1, n);
      MulAssociates(b, Power(b, m - 1), Power(b, n));
    }
  }

  lemma MulAssociates(a: nat, b: nat, c: nat)
    ensures a * (b * c) == (a * b) * c
  {
  }

  /** 58^43 <= 255 * 256^31 and 256^32 <= 58^44: where the length bound comes from. */
  lemma PowerFacts()
    ensures Power(256, 32) <= Power(58, 44)
    ensures Power(58, 43) <= 255 * Power(256, 31)
  {
    assert Power(58, 4) == 11316496;
    PowerAdd(58, 4, 4);
    PowerAdd(58, 8, 3);
    PowerAdd(58, 11, 11);
    PowerAdd(58, 22, 22);
    PowerAdd(58, 22, 21);
    PowerAdd(58, 11, 10);
    PowerAdd(58, 8, 2);
    Power256Values();
    PowerAdd(256, 8, 8);
    PowerAdd(256, 16, 16);
    PowerAdd(256, 16, 15);
    PowerAdd(256, 8, 7);
    PowerAdd(256, 4, 3);
  }

  lemma {:induction false} ShorterKeysShorterText(z: nat)
    requires z <= 32
    ensures Power(256, 32 - z) <= Power(58, 44 - z)
  {
    if z == 0 {
      PowerFacts();
    } else {
      ShorterKeysShorterText(z - 1);
      var p, q := Power(256, 32 - z), Power(58, 44 - z);
      assert 256 * p <= 58 * q;
    }
  }

  lemma EncodedLength(b: bytes)
    ensures |Encoded(b)| == LeadingZeros(b) + |ToDigits(58, FromDigits(256, b))|
  {
  }

  /** A 32-byte key takes at most 44 characters, so its address is never cut off. */
  lemma KeyTextLength(k: bytes)
    requires |k| == 32
    ensures |Encoded(k)| <= 44
    ensures |PubToAddr(k)| <= ADDRESS_LENGTH
  {
    var z := LeadingZeros(k);
    BoundAfterZeros(256, k, z);
    ShorterKeysShorterText(z);
    ToDigitsBound(58, FromDigits(256, k), 44 - z);
    EncodedLength(k);
  }

  lemma {:induction false} DigitsNeeded(base: nat, x: nat, n: nat)
    requires 2 <= base && Power(base, n) <= x
    ensures |ToDigits(base, x)| > n
  {
    PowerPositive(base, n);
    if n > 0 {
      DivMod(x, base);
      if x / base < Power(base, n - 1) {
        MulMonotone(x / base + 1, Power(base, n - 1), base);
        assert false;
      }
      DigitsNeeded(base, x / base, n - 1);
    }
  }

  /** The bound of 44 is reached, by the key FF 00 .. 00. */
  lemma LongestText()
    ensures var k: bytes := [255] + Repeat(0, 31);
            |k| == 32 && |Encoded(k)| == 44
  {
    var k: bytes := [255] + Repeat(0, 31);
    FromDigitsHead(256, k);
    assert k[1..] == Repeat<nat>(0, 31) + [];
    SkipZeros(256, 31, []);
    PowerFacts();
    DigitsNeeded(58, FromDigits(256, k), 43);
    EncodedLength(k);
    KeyTextLength(k);
  }

  /** A key is recovered from its stored address exactly when its text fills the array: a
      shorter text is followed by a zero byte, which is not a letter, and decodes to nothing. */
  lemma AddressRoundTrip(k: bytes)
    requires |k| == 32
    ensures AddrToPub(BytesToAddress(PubToAddr(k))) == k <==> |PubToAddr(k)| == ADDRESS_LENGTH
    ensures |PubToAddr(k)| != ADDRESS_LENGTH ==> AddrToPub(BytesToAddress(PubToAddr(k))) == []
  {
    KeyTextLength(k);
    DecodeEncode(k);
    var a := BytesToAddress(PubToAddr(k));
    if |PubToAddr(k)| == ADDRESS_LENGTH {
      assert a[3..] == Encoded(k);
    } else {
      assert a[3..][43] == 0;
      assert Value(0) == INVALID;
    }
  }

  /** There are keys on either side of that condition: the all-zero key is lost. */
  lemma AddressCanFail()
    ensures |PubToAddr(Repeat(0, 32))| == 35
    ensures AddrToPub(BytesToAddress(PubToAddr(Repeat(0, 32)))) == []
  {
    var k: bytes := Repeat(0, 32);
    assert k == Repeat<nat>(0, 32) + [];
    SkipZeros(256, 32, []);
    assert FromDigits(256, k) == 0;
    LeadingZerosUnique(k, 32);
    EncodedLength(k);
    assert |Encoded(k)| == 32;
    AddressRoundTrip(k);
  }

  /** The address of a key begins with "Kto" and goes on with the key's Base58 text, cut off or padded with
      zeros to 47 bytes. */
  lemma AddressBegins(k: bytes)
    requires |k| == 32
    ensures var a := BytesToAddress(PubToAddr(k));
            && |a| == 47 && (forall i :: 0 <= i < 3 ==> a[i] == "Kto"[i] as int)
            && forall i :: 0 <= i < 44 ==> a[3 + i] == if i < |Encoded(k)| then Encoded(k)[i] else 0
  {
    KeyTextLength(k);
  }

  /** Two keys with full-length addresses share an address only if they are the same key. */
  lemma FullAddressesAreUnique(j: bytes, k: bytes)
    requires |j| == 32 && |k| == 32
    requires |PubToAddr(j)| == ADDRESS_LENGTH && |PubToAddr(k)| == ADDRESS_LENGTH
    requires BytesToAddress(PubToAddr(j)) == BytesToAddress(PubToAddr(k))
    ensures j == k
  {
    AddressRoundTrip(j);
    AddressRoundTrip(k);
  }
}
