/**
 * A hasher with its own fixed algorithm item and salt size. `Create` resolves the
 * item through the shared registry and does not check the salt size.
 */
module Instances {
  import opened Wrappers
  import opened HashAlgorithms
  import opened HashAlgorithmItems
  import opened Salt
  import opened Hasher

  const MaxInt32: int := 0x7FFF_FFFF

  /** C#'s `int`. */
  type Int32 = x: int | -0x8000_0000 <= x <= 0x7FFF_FFFF

  /** Unchecked 32-bit two's-complement arithmetic: `x` reduced into `int`'s range. */
  function WrapInt32(x: int): (r: Int32)
    ensures (x - r) % 0x1_0000_0000 == 0
    ensures -0x8000_0000 <= x <= MaxInt32 ==> r == x
  {
    (x + 0x8000_0000) % 0x1_0000_0000 - 0x8000_0000
  }

  datatype PasswordHasherInstance = PasswordHasherInstance(hashAlgorithmItem: HashAlgorithmItem, saltSize: Int32)
  {
    ghost predicate Valid() {
      hashAlgorithmItem.Valid()
    }

    /**
     * `HashedPasswordSize`: fixed for the instance's lifetime, as both fields are.
     * The `int` sum wraps to a negative number past `int.MaxValue`.
     */
    function HashedPasswordSize(): (n: Int32)
      requires Valid()
      ensures DocumentedLength(hashAlgorithmItem.Algorithm) + saltSize <= MaxInt32 ==>
                n == DocumentedLength(hashAlgorithmItem.Algorithm) + saltSize
      ensures DocumentedLength(hashAlgorithmItem.Algorithm) + saltSize > MaxInt32 ==>
                n == DocumentedLength(hashAlgorithmItem.Algorithm) + saltSize - 0x1_0000_0000 && n < 0
    {
      WrapInt32(hashAlgorithmItem.Size + saltSize)
    }

    /**
     * `Hash(password)`: a fresh salt of the instance's size, hashed with its item.
     * A negative size makes `CreateSalt` throw, so the call fails.
     */
    method Hash(password: string, guids: seq<string>) returns (r: Result<string, Error>)
      requires Valid()
      requires AllGuidsN(guids) && |guids| == GuidsDrawn(saltSize)
      ensures r.Failure? <==> saltSize < 0
      ensures r.Failure? ==> r.error == CapacityOutOfRange(saltSize)
      ensures r.Success? ==> r.value == HashWithSalt(password, SaltOf(saltSize, guids), hashAlgorithmItem)
      ensures r.Success? ==> |r.value| == hashAlgorithmItem.Size + saltSize
      ensures r.Success? && hashAlgorithmItem.Size + saltSize <= MaxInt32 ==> |r.value| == HashedPasswordSize()
      ensures r.Success? ==> r.value[hashAlgorithmItem.Size..] == SaltOf(saltSize, guids)
      ensures r.Success? ==> Validate(password, r.value) == Success(true)
    {
      var salt := CreateSalt(saltSize, guids);
      if salt.Failure? {
        return Failure(salt.error);
      }
      var hashedPwd := hashAlgorithmItem.GetHashString(password + salt.value);
      r := Success(hashedPwd + salt.value);
      ValidateHashed(password, salt.value, hashAlgorithmItem);
    }

    /** `Validate(clearPassword, hashedPassword)` with the instance's item. */
    function Validate(clearPassword: string, hashedPassword: string): (r: Result<bool, Error>)
      requires Valid()
      ensures r.Failure? <==> |hashedPassword| < DocumentedLength(hashAlgorithmItem.Algorithm)
      ensures r == Success(true) <==> exists salt :: hashedPassword == HashWithSalt(clearPassword, salt, hashAlgorithmItem)
    {
      ValidateAcceptsExactlyHashes(clearPassword, hashedPassword, hashAlgorithmItem);
      ValidateWithItem(clearPassword, hashedPassword, hashAlgorithmItem)
    }
  }

  /**
   * `Create`: the registry's item for the selector, paired with the salt size as
   * given; throws only for an undefined selector.
   */
  method Create(hasher: PasswordHasher, hashAlgorithm: int, saltSize: Int32) returns (r: Result<PasswordHasherInstance, Error>)
    requires hasher.RegistryValid()
    modifies hasher`items
    ensures hasher.RegistryValid()
    ensures r.Success? <==> FromValue(hashAlgorithm).Some?
    ensures r.Failure? ==> r.error == UndefinedAlgorithm(hashAlgorithm) && hasher.items == old(hasher.items)
    ensures r.Success? ==>
              && r.value.Valid()
              && r.value.saltSize == saltSize
              && r.value.hashAlgorithmItem.Algorithm == FromValue(hashAlgorithm).value
              && hashAlgorithm in hasher.items
              && r.value.hashAlgorithmItem == hasher.items[hashAlgorithm]
    ensures hashAlgorithm in old(hasher.items) ==>
              hasher.items == old(hasher.items) && r.value.hashAlgorithmItem == old(hasher.items)[hashAlgorithm]
    ensures r.Success? && hashAlgorithm !in old(hasher.items) ==>
              fresh(r.value.hashAlgorithmItem)
              && hasher.items == old(hasher.items)[hashAlgorithm := r.value.hashAlgorithmItem]
  {
    var item := hasher.GetHashAlgorithmItem(hashAlgorithm);
    if item.Failure? {
      return Failure(item.error);
    }
    r := Success(PasswordHasherInstance(item.value, saltSize));
  }

  /** Two instances created for the same selector share the registry's one item. */
  method CreateTwice(hasher: PasswordHasher, hashAlgorithm: int, saltSize1: Int32, saltSize2: Int32)
      returns (first: Result<PasswordHasherInstance, Error>, second: Result<PasswordHasherInstance, Error>)
    requires hasher.RegistryValid()
    modifies hasher`items
    ensures first.Success? <==> second.Success?
    ensures first.Success? ==> second.Success? && first.value.hashAlgorithmItem == second.value.hashAlgorithmItem
  {
    first := Create(hasher, hashAlgorithm, saltSize1);
    second := Create(hasher, hashAlgorithm, saltSize2);
  }

  /**
   * `Create` accepts a negative salt size; `Hash` on that instance then always
   * throws, while its `Validate` still accepts what other hashers of the same
   * algorithm produce.
   */
  method CreateWithNegativeSaltSize(hasher: PasswordHasher, hashAlgorithm: int, saltSize: Int32,
                                    password: string, guids: seq<string>)
      returns (created: Result<PasswordHasherInstance, Error>, hashed: Result<string, Error>)
    requires hasher.RegistryValid()
    requires FromValue(hashAlgorithm).Some? && saltSize < 0
    requires AllGuidsN(guids) && |guids| == GuidsDrawn(saltSize)
    modifies hasher`items
    ensures created.Success? && created.value.saltSize == saltSize && created.value.Valid()
    ensures hashed == Failure(CapacityOutOfRange(saltSize))
    ensures forall salt :: created.value.Validate(password, HashWithSalt(password, salt, created.value.hashAlgorithmItem))
              == Success(true)
  {
    created := Create(hasher, hashAlgorithm, saltSize);
    hashed := created.value.Hash(password, guids);
    forall salt
      ensures created.value.Validate(password, HashWithSalt(password, salt, created.value.hashAlgorithmItem)) == Success(true)
    {
      ValidateHashed(password, salt, created.value.hashAlgorithmItem);
    }
  }

  /** Whatever their salt sizes, instances of the same algorithm accept each other's output. */
  lemma InstancesInteroperate(hashing: PasswordHasherInstance, validating: PasswordHasherInstance,
                              password: string, salt: string)
    requires hashing.Valid() && validating.Valid()
    requires hashing.hashAlgorithmItem.Algorithm == validating.hashAlgorithmItem.Algorithm
    requires hashing.hashAlgorithmItem.crypto == validating.hashAlgorithmItem.crypto
    ensures validating.Validate(password, HashWithSalt(password, salt, hashing.hashAlgorithmItem)) == Success(true)
  {
    ValidateAcrossItems(password, salt, hashing.hashAlgorithmItem, validating.hashAlgorithmItem);
  }

  /**
   * An instance and the process-wide hasher on the same algorithm accept each
   * other's output, whatever the two salts are.
   */
  lemma InstanceAndGlobalInteroperate(hasher: PasswordHasher, instance: PasswordHasherInstance,
                                      password: string, instanceSalt: string, globalSalt: string)
    requires hasher.Valid() && instance.Valid()
    requires instance.hashAlgorithmItem.Algorithm == hasher.curItem.Algorithm
    requires instance.hashAlgorithmItem.crypto == hasher.crypto
    ensures hasher.Validate(password, HashWithSalt(password, instanceSalt, instance.hashAlgorithmItem)) == Success(true)
    ensures instance.Validate(password, HashWithSalt(password, globalSalt, hasher.curItem)) == Success(true)
  {
    ValidateAcrossItems(password, instanceSalt, instance.hashAlgorithmItem, hasher.curItem);
    ValidateAcrossItems(password, globalSalt, hasher.curItem, instance.hashAlgorithmItem);
  }
}
