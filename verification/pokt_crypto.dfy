/** The address helpers the provider and the middleman share: recognising
    a POKT bech32 address and a hex public key, normalising a stored
    identity to an address, and the input checks of signature
    verification. The hash, bech32 and secp256k1 primitives are parameters. */
module PoktCrypto {
  import opened Common

  type Byte = bv8

  const Bech32Prefix := "pokt1"

  predicate IsLowerAlnum(c: char)
  {
    ('a' <= c <= 'z') || ('0' <= c <= '9')
  }

  predicate IsHexDigit(c: char)
  {
    ('a' <= c <= 'f') || ('A' <= c <= 'F') || ('0' <= c <= '9')
  }

  /** `/^pokt1[a-z0-9]{38,43}$/`. */
  predicate IsPoktBech32Address(value: string)
  {
    && 5 + 38 <= |value| <= 5 + 43
    && value[..5] == Bech32Prefix
    && forall i :: 5 <= i < |value| ==> IsLowerAlnum(value[i])
  }

  /** `/^[a-fA-F0-9]{64}$/`. */
  predicate IsHexPublicKey(value: string)
  {
    |value| == 64 && forall i :: 0 <= i < |value| ==> IsHexDigit(value[i])
  }

  /** An address is exactly the `pokt1` prefix followed by 38 to 43
      lower-case letters and digits. */
  lemma AddressShape(body: string)
    ensures IsPoktBech32Address(Bech32Prefix + body) <==>
              38 <= |body| <= 43 && forall i :: 0 <= i < |body| ==> IsLowerAlnum(body[i])
  {
    var v := Bech32Prefix + body;
    assert v[..5] == Bech32Prefix;
    assert forall i :: 0 <= i < |body| ==> v[5 + i] == body[i];
  }

  /** Every address starts with the prefix. */
  lemma AddressHasPrefix(value: string)
    requires IsPoktBech32Address(value)
    ensures value == Bech32Prefix + value[5..]
  {
    assert value == value[..5] + value[5..];
  }

  /** A hex key is 64 hex digits in either case: all-lower, all-upper and
      mixed keys pass, 63 or 65 digits or a non-hex letter do not. */
  lemma HexKeyExamples()
    ensures IsHexPublicKey(seq(64, i => 'a'))
    ensures IsHexPublicKey(seq(64, i => 'F'))
    ensures IsHexPublicKey(seq(64, i => if i % 2 == 0 then '0' else 'B'))
    ensures !IsHexPublicKey(seq(63, i => 'a')) && !IsHexPublicKey(seq(65, i => 'a'))
    ensures !IsHexPublicKey(seq(64, i => if i == 10 then 'g' else 'a'))
  {
    var bad := seq(64, i => if i == 10 then 'g' else 'a');
    assert !IsHexDigit(bad[10]);
  }

  /** No string is both: an address starts with `p`, which is no hex digit,
      and the lengths differ anyway. */
  lemma AddressIsNotHexKey(value: string)
    ensures !(IsPoktBech32Address(value) && IsHexPublicKey(value))
  {
  }

  /** `normalizeIdentityToAddress`. `pubkeyToAddress` stands for the hash
      and bech32 encoding of a hex public key; `None` is a conversion that
      throws. */
  function NormalizeIdentityToAddress(identity: string, pubkeyToAddress: string -> Option<string>): (r: string)
    // an address is kept, whatever the conversion would do
    ensures IsPoktBech32Address(identity) ==> r == identity
    // a hex key becomes the address of the key with the 02 prefix, or stays when that throws
    ensures !IsPoktBech32Address(identity) && IsHexPublicKey(identity) ==>
              r == (match pubkeyToAddress("02" + identity) case Some(a) => a case None => identity)
    // anything else is returned as is
    ensures !IsPoktBech32Address(identity) && !IsHexPublicKey(identity) ==> r == identity
  {
    if IsPoktBech32Address(identity) then identity
    else if IsHexPublicKey(identity) then
      match pubkeyToAddress("02" + identity)
      case Some(address) => address
      case None => identity
    else identity
  }

  /** Normalising is idempotent when the conversion yields POKT addresses,
      as the bech32 encoding with the `pokt` prefix does. */
  lemma NormalizeIdempotent(identity: string, pubkeyToAddress: string -> Option<string>)
    requires forall k :: pubkeyToAddress(k).Some? ==> IsPoktBech32Address(pubkeyToAddress(k).value)
    ensures var once := NormalizeIdentityToAddress(identity, pubkeyToAddress);
            NormalizeIdentityToAddress(once, pubkeyToAddress) == once
  {
  }

  /** A normalised identity is an address, or the input itself. */
  lemma NormalizedIsAddressOrInput(identity: string, pubkeyToAddress: string -> Option<string>)
    requires forall k :: pubkeyToAddress(k).Some? ==> IsPoktBech32Address(pubkeyToAddress(k).value)
    ensures var r := NormalizeIdentityToAddress(identity, pubkeyToAddress);
            IsPoktBech32Address(r) || r == identity
  {
  }

  /** A compressed secp256k1 public key: 33 bytes, led by 0x02 or 0x03. */
  predicate IsCompressedKey(key: seq<Byte>)
  {
    |key| == 33 && (key[0] == 0x02 || key[0] == 0x03)
  }

  /** `verifySignature`. `decode` is the buffer decoding in the chosen
      encoding; `verify` checks a 64-byte signature of the payload against
      a key and is `None` when it throws (a signature shorter than 64 bytes,
      a key off the curve). The result is always a boolean: every failure
      reads as false. */
  function VerifySignature(payload: string, publicKey: string, signature: string,
                           decode: string -> seq<Byte>,
                           verify: (seq<Byte>, string, seq<Byte>) -> Option<bool>): (ok: bool)
    ensures ok <==> IsCompressedKey(decode(publicKey))
                    && verify(Take(decode(signature), 64), payload, decode(publicKey)) == Some(true)
  {
    var key := decode(publicKey);
    if !IsCompressedKey(key) then false
    else
      match verify(Take(decode(signature), 64), payload, key)
      case Some(valid) => valid
      case None => false
  }

  /** `subarray(0, n)`: the first `n` bytes, or all of them when there are fewer. */
  function Take(bytes: seq<Byte>, n: nat): (r: seq<Byte>)
    ensures |r| == if |bytes| < n then |bytes| else n
    ensures forall i :: 0 <= i < |r| ==> r[i] == bytes[i]
  {
    if |bytes| <= n then bytes else bytes[..n]
  }

  /** Only the first 64 signature bytes matter. */
  lemma SignatureTailIgnored(payload: string, publicKey: string, s1: string, s2: string,
                             decode: string -> seq<Byte>,
                             verify: (seq<Byte>, string, seq<Byte>) -> Option<bool>)
    requires |decode(s1)| >= 64 && |decode(s2)| >= 64 && decode(s1)[..64] == decode(s2)[..64]
    ensures VerifySignature(payload, publicKey, s1, decode, verify) == VerifySignature(payload, publicKey, s2, decode, verify)
  {
    assert Take(decode(s1), 64) == decode(s1)[..64];
    assert Take(decode(s2), 64) == decode(s2)[..64];
  }
}
