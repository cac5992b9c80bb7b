/** The public algorithm selector and the digest lengths its documentation promises. */
module HashAlgorithms {
  import opened Wrappers

  /** The six members of the selector enum. */
  datatype Algorithm = MD5 | SHA1 | SHA256 | SHA384 | SHA512 | Blake2b

  /** The enum's underlying value. */
  function Value(a: Algorithm): (v: int)
    ensures 0 <= v < 6
  {
    match a
    case MD5 => 0
    case SHA1 => 1
    case SHA256 => 2
    case SHA384 => 3
    case SHA512 => 4
    case Blake2b => 5
  }

  /** The member a raw enum value names, if any: a C# enum variable can hold any integer. */
  function FromValue(v: int): (r: Option<Algorithm>)
    ensures r.Some? <==> 0 <= v < 6
    ensures r.Some? ==> Value(r.value) == v
  {
    if v == 0 then Some(MD5)
    else if v == 1 then Some(SHA1)
    else if v == 2 then Some(SHA256)
    else if v == 3 then Some(SHA384)
    else if v == 4 then Some(SHA512)
    else if v == 5 then Some(Blake2b)
    else None
  }

  /** Every member round-trips through its underlying value, so the six values are distinct. */
  lemma ValueRoundTrip(a: Algorithm)
    ensures FromValue(Value(a)) == Some(a)
  {
    match a
    case MD5 =>
    case SHA1 =>
    case SHA256 =>
    case SHA384 =>
    case SHA512 =>
    case Blake2b =>
  }

  /** Distinct members have distinct underlying values. */
  lemma ValuesDistinct(a: Algorithm, b: Algorithm)
    ensures Value(a) == Value(b) ==> a == b
  {
    ValueRoundTrip(a);
    ValueRoundTrip(b);
  }

  /** The number of hex characters the documentation of each member promises, salt excluded. */
  function DocumentedLength(a: Algorithm): (n: nat)
    ensures n % 8 == 0 && 32 <= n <= 128
  {
    match a
    case MD5 => 32
    case SHA1 => 40
    case SHA256 => 64
    case SHA384 => 96
    case SHA512 => 128
    case Blake2b => 128
  }
}
