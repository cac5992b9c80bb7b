/**
 * The stored-string format and the process-wide hasher.
 *
 * A stored password is the digest text of `password + salt` followed by the salt.
 * Validation cuts the salt at the digest size, recomputes, and compares.
 * The static state of the C# class (the lazily filled registry of items,
 * the current item and the current salt size) is an object of class
 * `PasswordHasher`; its static constructor is this class's constructor.
 */
module Hasher {
  import opened Wrappers
  import opened HashAlgorithms
  import opened Hex
  import opened HashAlgorithmItems
  import opened Salt

  const MinSaltSize: int := 1
  const MaxSaltSize: int := 100

  /** The internal `Hash(pwd, salt, item)`: the digest text of `pwd + salt`, then the salt. */
  function HashWithSalt(pwd: string, salt: string, item: HashAlgorithmItem): (hashed: string)
    ensures item.Valid() ==> |hashed| == item.Size + |salt|
    ensures item.Valid() ==> hashed[item.Size..] == salt && IsUpperHex(hashed[..item.Size])
  {
    var pwdAndSalt := pwd + salt;
    var hashedPwd := item.HashString(pwdAndSalt);
    hashedPwd + salt
  }

  /**
   * The internal `Validate(clearPassword, hashedPassword, item)`. The salt is
   * everything after the first `item.Size` characters, whatever its length;
   * `Substring` throws when the stored text is shorter than `item.Size`.
   */
  function ValidateWithItem(clearPassword: string, hashedPassword: string, item: HashAlgorithmItem): (r: Result<bool, Error>)
    ensures r.Failure? <==> |hashedPassword| < item.Size
    ensures r.Failure? ==> r.error == StartIndexOutOfRange(item.Size, |hashedPassword|)
  {
    if item.Size > |hashedPassword| then
      Failure(StartIndexOutOfRange(item.Size, |hashedPassword|))
    else
      var salt := hashedPassword[item.Size..];
      var hashedPassword2 := HashWithSalt(clearPassword, salt, item);
      Success(hashedPassword2 == hashedPassword)
  }

  /** Round trip: what `HashWithSalt` stores validates for the same password, whatever the salt. */
  lemma ValidateHashed(pwd: string, salt: string, item: HashAlgorithmItem)
    requires item.Valid()
    ensures ValidateWithItem(pwd, HashWithSalt(pwd, salt, item), item) == Success(true)
  {
  }

  /** Validation accepts exactly the texts that hashing the password with some salt produces. */
  lemma ValidateAcceptsExactlyHashes(pwd: string, stored: string, item: HashAlgorithmItem)
    requires item.Valid()
    ensures ValidateWithItem(pwd, stored, item) == Success(true)
        <==> exists salt :: stored == HashWithSalt(pwd, salt, item)
  {
    if ValidateWithItem(pwd, stored, item) == Success(true) {
      assert stored == HashWithSalt(pwd, stored[item.Size..], item);
    }
    if exists salt :: stored == HashWithSalt(pwd, salt, item) {
      var salt :| stored == HashWithSalt(pwd, salt, item);
      ValidateHashed(pwd, salt, item);
    }
  }

  /**
   * The salt length is read off the stored text, not taken from any configuration:
   * a text hashed by one item validates under every item of the same algorithm.
   */
  lemma ValidateAcrossItems(pwd: string, salt: string, hashing: HashAlgorithmItem, validating: HashAlgorithmItem)
    requires hashing.Valid() && validating.Valid()
    requires hashing.Algorithm == validating.Algorithm && hashing.crypto == validating.crypto
    ensures ValidateWithItem(pwd, HashWithSalt(pwd, salt, hashing), validating) == Success(true)
  {
    HashStringDeterministic(hashing, validating, pwd + salt);
    assert HashWithSalt(pwd, salt, hashing) == HashWithSalt(pwd, salt, validating);
    ValidateHashed(pwd, salt, validating);
  }

  class PasswordHasher {
    /** The library calls every item uses. */
    const crypto: Crypto
    /** `_algorithmItems`, keyed by the selector's underlying value. */
    var items: map<int, HashAlgorithmItem>
    /** `_saltSize`. */
    var saltSize: int
    /** `_curAlgorithmItem`; null only while the static constructor runs. */
    var curItem: HashAlgorithmItem?

    /** Only defined selectors are cached, each with an item for its own algorithm. */
    ghost predicate RegistryValid()
      reads this
    {
      && crypto.WellFormed()
      && forall k :: k in items ==>
           FromValue(k).Some? && items[k].Algorithm == FromValue(k).value
           && items[k].crypto == crypto && items[k].Valid()
    }

    /** The current item is the cached one for its algorithm, and the salt size is in range. */
    ghost predicate Valid()
      reads this
    {
      && RegistryValid()
      && curItem != null
      && Value(curItem.Algorithm) in items
      && items[Value(curItem.Algorithm)] == curItem
      && MinSaltSize <= saltSize <= MaxSaltSize
    }

    /** The static constructor: an empty registry, then `SetDefaultSettings(SHA256, 16)`. */
    constructor (crypto: Crypto)
      requires crypto.WellFormed()
      ensures Valid()
      ensures this.crypto == crypto
      ensures curItem != null && curItem.Algorithm == SHA256 && saltSize == 16
      ensures items.Keys == {Value(SHA256)}
      ensures HashedPasswordSize() == 64 + 16
    {
      this.crypto := crypto;
      items := map[];
      saltSize := 0;
      curItem := null;
      new;
      var outcome := SetDefaultSettings(Some(Value(SHA256)), Some(16));
    }

    /**
     * `GetHashAlgorithmItem`: the cached item for the selector, created and added on
     * first request; an undefined selector throws and leaves the registry alone.
     */
    method GetHashAlgorithmItem(hashAlgorithm: int) returns (r: Result<HashAlgorithmItem, Error>)
      requires RegistryValid()
      modifies this`items
      ensures RegistryValid()
      ensures r.Success? <==> FromValue(hashAlgorithm).Some?
      ensures r.Failure? ==> r.error == UndefinedAlgorithm(hashAlgorithm) && items == old(items)
      ensures hashAlgorithm in old(items) ==> r == Success(old(items)[hashAlgorithm]) && items == old(items)
      ensures r.Success? && hashAlgorithm !in old(items) ==>
                fresh(r.value) && items == old(items)[hashAlgorithm := r.value]
      ensures r.Success? ==>
                hashAlgorithm in items && items[hashAlgorithm] == r.value
                && r.value.Algorithm == FromValue(hashAlgorithm).value
    {
      if hashAlgorithm !in items {
        match FromValue(hashAlgorithm)
        case Some(algorithm) =>
          var item := new HashAlgorithmItem(algorithm, crypto);
          items := items[hashAlgorithm := item];
        case None =>
          return Failure(UndefinedAlgorithm(hashAlgorithm));
      }
      r := Success(items[hashAlgorithm]);
    }

    /**
     * `SetDefaultSettings`: the range check runs before anything changes; an absent
     * argument leaves its field alone; an absent salt size never fails the check.
     */
    method SetDefaultSettings(hashAlgorithm: Option<int>, saltSize: Option<int>) returns (outcome: Outcome<Error>)
      requires RegistryValid()
      modifies this
      ensures RegistryValid()
      ensures old(Valid()) ==> Valid()
      ensures saltSize.Some? && !(MinSaltSize <= saltSize.value <= MaxSaltSize) ==>
                outcome == Fail(SaltSizeOutOfRange(saltSize.value)) && unchanged(this)
      ensures (saltSize.None? || MinSaltSize <= saltSize.value <= MaxSaltSize)
              && hashAlgorithm.Some? && FromValue(hashAlgorithm.value).None? ==>
                outcome == Fail(UndefinedAlgorithm(hashAlgorithm.value)) && unchanged(this)
      ensures outcome.Pass? <==>
                (saltSize.None? || MinSaltSize <= saltSize.value <= MaxSaltSize)
                && (hashAlgorithm.None? || FromValue(hashAlgorithm.value).Some?)
      ensures outcome.Pass? ==>
                && this.saltSize == (if saltSize.Some? then saltSize.value else old(this.saltSize))
                && (hashAlgorithm.None? ==> curItem == old(curItem) && items == old(items))
                && (hashAlgorithm.Some? ==>
                      && hashAlgorithm.value in items
                      && curItem == items[hashAlgorithm.value]
                      && items.Keys == old(items).Keys + {hashAlgorithm.value}
                      && forall k :: k in old(items) ==> items[k] == old(items)[k])
    {
      if saltSize.Some? && (saltSize.value < MinSaltSize || saltSize.value > MaxSaltSize) {
        return Fail(SaltSizeOutOfRange(saltSize.value));
      }
      if hashAlgorithm.Some? {
        var r := GetHashAlgorithmItem(hashAlgorithm.value);
        if r.Failure? {
          return Fail(r.error);
        }
        curItem := r.value;
      }
      if saltSize.Some? {
        this.saltSize := saltSize.value;
      }
      outcome := Pass;
    }

    /** `HashedPasswordSize`: the digest length of the current algorithm plus the current salt size. */
    function HashedPasswordSize(): (n: int)
      reads this
      requires Valid()
      ensures n == DocumentedLength(curItem.Algorithm) + saltSize
      ensures DocumentedLength(curItem.Algorithm) + MinSaltSize <= n <= DocumentedLength(curItem.Algorithm) + MaxSaltSize
    {
      curItem.Size + saltSize
    }

    /** The public `Hash(password)`: a fresh salt of the current size, hashed with the current item. */
    method Hash(password: string, guids: seq<string>) returns (hashed: string)
      requires Valid()
      requires AllGuidsN(guids) && |guids| == GuidsDrawn(saltSize)
      ensures hashed == HashWithSalt(password, SaltOf(saltSize, guids), curItem)
      ensures |hashed| == HashedPasswordSize()
      ensures hashed[curItem.Size..] == SaltOf(saltSize, guids)
      ensures Validate(password, hashed) == Success(true)
    {
      var r := CreateSalt(saltSize, guids);
      var salt := r.value;
      var hashedPwd := curItem.GetHashString(password + salt);
      hashed := hashedPwd + salt;
      ValidateHashed(password, salt, curItem);
    }

    /** The public `Validate(clearPassword, hashedPassword)` with the current item. */
    function Validate(clearPassword: string, hashedPassword: string): (r: Result<bool, Error>)
      reads this
      requires Valid()
      ensures r.Failure? <==> |hashedPassword| < DocumentedLength(curItem.Algorithm)
      ensures r == Success(true) <==> exists salt :: hashedPassword == HashWithSalt(clearPassword, salt, curItem)
    {
      ValidateAcceptsExactlyHashes(clearPassword, hashedPassword, curItem);
      ValidateWithItem(clearPassword, hashedPassword, curItem)
    }
  }

  /**
   * Asking the registry twice for the same selector gives the same item and leaves
   * the registry as the first call left it.
   */
  method GetHashAlgorithmItemTwice(hasher: PasswordHasher, hashAlgorithm: int)
      returns (first: Result<HashAlgorithmItem, Error>, second: Result<HashAlgorithmItem, Error>)
    requires hasher.RegistryValid()
    modifies hasher`items
    ensures first == second
    ensures first.Success? ==> hasher.items == old(hasher.items)[hashAlgorithm := first.value]
  {
    first := hasher.GetHashAlgorithmItem(hashAlgorithm);
    ghost var between := hasher.items;
    second := hasher.GetHashAlgorithmItem(hashAlgorithm);
    assert hasher.items == between;
  }
}
