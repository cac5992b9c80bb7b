/**
 * The digest engines: one object per algorithm that turns a password into the
 * upper-case hex text of its digest and knows that text's length (`Size`).
 */
module HashAlgorithmItems {
  import opened HashAlgorithms
  import opened Hex
  import opened Wrappers

  /**
   * Digest length in bytes: 128 bits for MD5 (section 3.5 of RFC 1321),
   * 160/256/384/512 bits for SHA-1/256/384/512 (FIPS 180-4), and the
   * 64-byte default output of BLAKE2b (section 2.1 of RFC 7693).
   */
  function DigestByteLength(a: Algorithm): (n: nat)
    ensures 2 * n == DocumentedLength(a)
  {
    match a
    case MD5 => 16
    case SHA1 => 20
    case SHA256 => 32
    case SHA384 => 48
    case SHA512 => 64
    case Blake2b => 64
  }

  /**
   * The library calls the items make: the shared UTF-16 text encoder and each
   * algorithm's digest. Both are deterministic functions; their internals are
   * not part of this model.
   */
  datatype Crypto = Crypto(
    encode: string -> seq<byte>,
    digest: (Algorithm, seq<byte>) -> seq<byte>)
  {
    /** Every digest of an algorithm has that algorithm's fixed byte length. */
    ghost predicate WellFormed() {
      forall a, bytes :: |digest(a, bytes)| == DigestByteLength(a)
    }
  }

  /**
   * One registry entry. The six C# subclasses differ only in which digest
   * they call, so one class with the algorithm as a field stands for all of them.
   * Every field is fixed by the constructor, as `Size`'s protected setter is.
   */
  class HashAlgorithmItem {
    const Algorithm: Algorithm
    const crypto: Crypto
    const Size: nat

    ghost predicate Valid() {
      crypto.WellFormed() && Size == 2 * DigestByteLength(Algorithm)
    }

    /** `Size` is twice the length of the digest of the one-byte sample `{ 1 }`. */
    constructor (algorithm: Algorithm, crypto: Crypto)
      requires crypto.WellFormed()
      ensures this.Algorithm == algorithm && this.crypto == crypto
      ensures Valid()
      ensures Size == DocumentedLength(algorithm)
    {
      this.Algorithm := algorithm;
      this.crypto := crypto;
      this.Size := |crypto.digest(algorithm, [1])| * 2;
    }

    /** What `GetHashString` returns: the rendering of the digest of the encoded text. */
    function HashString(password: string): (s: string)
      ensures IsUpperHex(s)
      ensures Valid() ==> |s| == Size
    {
      Base16(crypto.digest(Algorithm, crypto.encode(password)))
    }

    /** Encodes, digests, then appends two hex digits per digest byte. */
    method GetHashString(password: string) returns (s: string)
      ensures s == HashString(password)
      ensures Valid() ==> |s| == Size
      ensures FromBase16(s) == Some(crypto.digest(Algorithm, crypto.encode(password)))
    {
      var bytes := crypto.encode(password);
      var hashBytes := crypto.digest(Algorithm, bytes);
      var sb := "";
      for i := 0 to |hashBytes|
        invariant sb == Base16(hashBytes[..i])
      {
        assert hashBytes[..i + 1][..i] == hashBytes[..i];
        sb := sb + X2(hashBytes[i]);
      }
      assert hashBytes[..|hashBytes|] == hashBytes;
      s := sb;
      DecodeBase16(hashBytes);
    }
  }

  /** An item's text length is the one its algorithm's documentation states, for every password. */
  lemma HashStringHasDocumentedLength(item: HashAlgorithmItem, password: string)
    requires item.Valid()
    ensures |item.HashString(password)| == DocumentedLength(item.Algorithm)
  {
  }

  /** Items for the same algorithm over the same library agree on every input and on their size. */
  lemma HashStringDeterministic(a: HashAlgorithmItem, b: HashAlgorithmItem, x: string)
    requires a.Valid() && b.Valid()
    requires a.Algorithm == b.Algorithm && a.crypto == b.crypto
    ensures a.HashString(x) == b.HashString(x)
    ensures a.Size == b.Size
  {
  }
}
