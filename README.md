# PasswordHashing.NET, modelled in Dafny

A model of the core of a small salted password-hashing library for .NET. A
stored password is the upper-case hex text of a digest (MD5, SHA-1, SHA-256,
SHA-384, SHA-512 or BLAKE2b) of `password + salt`, followed by the salt
itself. Validation cuts the salt off after the digest's fixed length,
recomputes and compares. Salts are cut from random GUIDs. The digest engines
("items") are created lazily, one per algorithm, in a shared registry. The
library has a process-wide hasher whose algorithm and salt size can be
changed at run time (`SetDefaultSettings`), and immutable per-instance hashers
(`PasswordHasherInstance`).

Modules, one per source file or component:

- `Wrappers` (wrappers.dfy): `Option`, `Result`, `Outcome` and the `Error` values standing for the exceptions the core throws.
- `HashAlgorithms` (hash_algorithm.dfy): the six-member selector, its underlying values, and the lengths its documentation promises.
- `Hex` (hex.dfy): the `"X2"` byte rendering (base 16 of section 8 of RFC 4648), with a decoder and round-trip proofs.
- `HashAlgorithmItems` (hash_algorithm_items.dfy): the digest items. `Size` is fixed at construction. `GetHashString` is a loop proved equal to the rendering of the digest.
- `Salt` (salt.dfy): `CreateSalt`, a loop over GUID chunks. It is proved equal to "the first `n` digits of the concatenated GUIDs, upper-cased".
- `Hasher` (password_hasher.dfy): the stored-string format (`HashWithSalt`, `ValidateWithItem`) and the process-wide hasher as class `PasswordHasher`. That class holds the registry, the current item and the salt size.
- `Instances` (password_hasher_instance.dfy): the per-instance hasher and `Create`.

The digests and the UTF-16 text encoder are library calls. They appear as the two function fields of a `Crypto` value. `Crypto.WellFormed()` states that each algorithm's digest has a fixed byte length. `Guid.NewGuid()` is random, so the GUIDs a call draws are a parameter `guids`, one per iteration of the salt loop. Each is 32 lower-case hex digits, the "N" format.

Behaviour of the code that the model keeps as written:

- Salt characters are `0-9A-F`: upper-cased GUID hex. They are not drawn from `0-9A-Z`.
- `PasswordHasherInstance.Create` does not check the salt size. A salt size of zero gives an empty salt. A negative size is accepted by `Create`, but `Hash` on that instance then always throws `ArgumentOutOfRangeException` from `new StringBuilder(saltSize)` (`CreateWithNegativeSaltSize`).
- `PasswordHasherInstance.HashedPasswordSize` is a 32-bit `int` sum: for a salt size above `int.MaxValue - Size` it wraps to a negative number.
- A stored text shorter than the digest length makes `Substring` throw `ArgumentOutOfRangeException`. It is modelled as `Failure(StartIndexOutOfRange(..))`, not as `false`.
- A selector value outside the six members throws `ArgumentException` from the registry. A `SetDefaultSettings` call that hits this keeps both settings unchanged.

## Model

| member | source | states |
|---|---|---|
| `HashAlgorithms.Value` | PasswordHashing/HashAlgorithm.cs:3-29 | each member's underlying value is in 0..5 |
| `HashAlgorithms.FromValue` | PasswordHashing/HashAlgorithm.cs:3-29 | exactly the values 0..5 name a member, and the member named has that value |
| `HashAlgorithms.ValueRoundTrip` | PasswordHashing/HashAlgorithm.cs:3-29 | every member is recovered from its underlying value |
| `HashAlgorithms.ValuesDistinct` | PasswordHashing/HashAlgorithm.cs:3-29 | the six underlying values are pairwise distinct |
| `HashAlgorithms.DocumentedLength` | PasswordHashing/HashAlgorithm.cs:5-28 | documented digest lengths (32, 40, 64, 96, 128, 128) are multiples of 8 in 32..128 |
| `Hex.HexDigit` | PasswordHashing/HashAlgorithmItems.cs:27 | a nibble renders as one upper-case hex digit |
| `Hex.DigitValue` | PasswordHashing/HashAlgorithmItems.cs:27 | digit parsing succeeds exactly on `0-9A-F` and inverts `HexDigit` |
| `Hex.X2` | PasswordHashing/HashAlgorithmItems.cs:27 | `"X2"` gives two upper-case digits, high nibble first |
| `Hex.X2Decodes` | PasswordHashing/HashAlgorithmItems.cs:27 | the two digits of a byte decode back to that byte |
| `Hex.Base16` | PasswordHashing/HashAlgorithmItems.cs:25-28 | the rendering has two characters per byte, all in `0-9A-F` |
| `Hex.Base16At` | PasswordHashing/HashAlgorithmItems.cs:25-28 | byte `i` is rendered at characters `2i` and `2i+1`, in byte order |
| `Hex.DecodeBase16` | PasswordHashing/HashAlgorithmItems.cs:25-28 | decoding the rendering yields the original bytes |
| `Hex.EncodeFromBase16` | PasswordHashing/HashAlgorithmItems.cs:25-28 | any text that decodes is the rendering of its decoding |
| `Hex.Base16Injective` | PasswordHashing/HashAlgorithmItems.cs:25-28 | distinct digests render to distinct texts |
| `HashAlgorithmItems.DigestByteLength` | PasswordHashing/HashAlgorithmItems.cs:19-109 | twice each algorithm's digest byte length is its documented character length |
| `HashAlgorithmItems.HashAlgorithmItem.constructor` | PasswordHashing/HashAlgorithmItems.cs:16-20 | `Size` is twice the length of the sample digest, hence the documented length; fields never change afterwards |
| `HashAlgorithmItems.HashAlgorithmItem.HashString` | PasswordHashing/HashAlgorithmItems.cs:21-29 | the digest text is upper-case hex and exactly `Size` characters long for every input |
| `HashAlgorithmItems.HashAlgorithmItem.GetHashString` | PasswordHashing/HashAlgorithmItems.cs:21-29 | the byte loop builds the base 16 rendering of the digest of the encoded text; it decodes back to that digest |
| `HashAlgorithmItems.HashStringHasDocumentedLength` | PasswordHashing/HashAlgorithmItems.cs:16-29 | every digest text has the documented length of its algorithm |
| `HashAlgorithmItems.HashStringDeterministic` | PasswordHashing/HashAlgorithmItems.cs:21-29 | items of one algorithm give equal texts for equal inputs and have equal sizes |
| `Salt.ChunkCount` | PasswordHashing/PasswordHasher.cs:87 | the loop bound is the ceiling of `saltSize / 32`; it is at most zero when `saltSize <= 0` |
| `Salt.ToUpper` | PasswordHashing/PasswordHasher.cs:96 | upper-casing keeps the length, leaves no lower-case ASCII letter, keeps every other character, and turns lower-case hex digits into upper-case ones |
| `Salt.SaltShape` | PasswordHashing/PasswordHasher.cs:85-97 | for a size of zero or more the salt has exactly that length, all characters in `0-9A-F` |
| `Salt.CreateSalt` | PasswordHashing/PasswordHasher.cs:85-97 | a negative size throws (`new StringBuilder(saltSize)`); otherwise whole GUIDs then a last one cut to `32 - overflow` give the first `saltSize` GUID digits, upper-cased, of length `saltSize` |
| `Hasher.HashWithSalt` | PasswordHashing/PasswordHasher.cs:66-72 | the stored text is `Size` hex digits followed by the salt, whose length is `Size` plus the salt length |
| `Hasher.ValidateWithItem` | PasswordHashing/PasswordHasher.cs:78-83 | validation throws exactly when the stored text is shorter than `Size` |
| `Hasher.ValidateHashed` | PasswordHashing/PasswordHasher.cs:66-83 | round trip: a stored text validates for its password, for every salt |
| `Hasher.ValidateAcceptsExactlyHashes` | PasswordHashing/PasswordHasher.cs:78-83 | validation succeeds iff the stored text is the hash of the password with some salt |
| `Hasher.ValidateAcrossItems` | PasswordHashing/PasswordHasher.cs:80 | the salt length comes from the stored text, so any item of the same algorithm validates it |
| `Hasher.PasswordHasher.constructor` | PasswordHashing/PasswordHasher.cs:52-58 | after static initialisation the settings are SHA-256 and 16, the registry holds only SHA-256, and `HashedPasswordSize` is 80 |
| `Hasher.PasswordHasher.GetHashAlgorithmItem` | PasswordHashing/PasswordHasher.cs:17-46 | an item is created only for a selector not yet cached; existing entries are returned and never replaced; undefined selectors throw and change nothing |
| `Hasher.GetHashAlgorithmItemTwice` | PasswordHashing/PasswordHasher.cs:17-46 | a second request returns the same item as the first and leaves the registry unchanged |
| `Hasher.PasswordHasher.SetDefaultSettings` | PasswordHashing/PasswordHasher.cs:102-111 | an out-of-range salt size throws before any field changes; absent arguments keep their fields; an undefined selector throws with both fields unchanged; the settings invariant is preserved |
| `Hasher.PasswordHasher.HashedPasswordSize` | PasswordHashing/PasswordHasher.cs:50 | the documented digest length of the current algorithm plus the current salt size |
| `Hasher.PasswordHasher.Hash` | PasswordHashing/PasswordHasher.cs:62-65 | the output is the digest text followed by a fresh salt, has length `HashedPasswordSize`, and validates |
| `Hasher.PasswordHasher.Validate` | PasswordHashing/PasswordHasher.cs:74-77 | fails iff the text is shorter than the digest; accepts exactly the hashes of the password under the current algorithm |
| `Instances.PasswordHasherInstance.HashedPasswordSize` | PasswordHashing/PasswordHasherInstance.cs:7 | the documented digest length plus the instance's salt size, wrapped to a negative `int` when the sum passes `int.MaxValue` |
| `Instances.PasswordHasherInstance.Hash` | PasswordHashing/PasswordHasherInstance.cs:18-21 | throws exactly when the salt size is negative; otherwise the output is the digest text followed by the salt, of length `Size` plus the salt size (which is `HashedPasswordSize` when that does not wrap), and validates on the instance |
| `Instances.PasswordHasherInstance.Validate` | PasswordHashing/PasswordHasherInstance.cs:22-25 | fails iff the text is shorter than the digest; accepts exactly the hashes of the password under the instance's algorithm |
| `Instances.Create` | PasswordHashing/PasswordHasherInstance.cs:14-17 | the instance holds the registry's item for the selector and the salt size unchecked; only an undefined selector throws; a new selector adds exactly one fresh entry and leaves the others as they were |
| `Instances.CreateTwice` | PasswordHashing/PasswordHasherInstance.cs:16 | instances created for the same selector share one cached item |
| `Instances.InstancesInteroperate` | PasswordHashing/PasswordHasherInstance.cs:20-24 | instances of the same algorithm validate each other's output whatever the salt |
| `Instances.InstanceAndGlobalInteroperate` | PasswordHashing/PasswordHasherInstance.cs:20-24 | an instance and the process-wide hasher of the same algorithm validate each other's output |
| `Instances.CreateWithNegativeSaltSize` | PasswordHashing/PasswordHasherInstance.cs:14-24 | `Create` accepts a negative salt size; `Hash` on that instance then throws, while `Validate` still accepts every hash of the password by the same algorithm |

## Left out

- Digest internals: MD5, SHA-1, SHA-2 and BLAKE2b are library calls. Only their fixed output lengths are modelled, as a property of the `Crypto` value.
- Text encoding: `UnicodeEncoding.GetBytes` (UTF-16) is a library call. It is the `encode` function of `Crypto`, the same for hashing and validating. C# strings are UTF-16 code units; Dafny strings are sequences of characters, so a lone surrogate cannot be written in the model.
- Randomness: `Guid.NewGuid()` is replaced by the `guids` parameter. That two salts differ, and so that two hashes of one password differ, holds only with high probability. It is not stated.
- Collision resistance: that a wrong password fails to validate depends on the digest, so it is not stated.
- Salt.ChunkCount: the float ceiling is integer ceiling division. The two agree wherever `(float)saltSize` is exact, that is for `|saltSize| <= 2^24`.
- Salt.CreateSalt: the 32-bit overflow of `_guidLength * count` for salt sizes near `int.MaxValue` is not modelled; the model computes the unbounded product.
- Null strings are not modelled: the source hashes a null password like the empty string, and `Validate` on a null stored value throws `NullReferenceException`.
- Salt.ToUpper: culture-sensitive upper-casing is modelled only for ASCII letters, which are the only letters a GUID contains.
- `_guidLength` is the constant 32, the length of every "N" format GUID.
- Concurrency: the shared registry and the global settings are not thread-safe in the source. The model is sequential.
- Constant-time comparison: the source compares with `==`, and so does the model.
