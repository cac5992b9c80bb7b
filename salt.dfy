/**
 * Salt generation: enough GUIDs, in their 32-digit "N" form, are concatenated
 * to cover the requested size, the last one is cut short, and the whole is
 * upper-cased. The GUIDs come from the caller, one per loop iteration,
 * standing for the successive results of `Guid.NewGuid()`.
 */
module Salt {
  import opened Wrappers
  import opened Hex

  /** `Guid.NewGuid().ToString("N").Length`. */
  const GuidLength: int := 32

  predicate IsLowerHexChar(c: char) {
    ('0' <= c <= '9') || ('a' <= c <= 'f')
  }

  /** A GUID in "N" format: 32 lower-case hex digits, no dashes. */
  predicate IsGuidN(g: string) {
    |g| == GuidLength && forall i :: 0 <= i < |g| ==> IsLowerHexChar(g[i])
  }

  predicate AllGuidsN(guids: seq<string>) {
    forall k :: 0 <= k < |guids| ==> IsGuidN(guids[k])
  }

  /** `(int)Math.Ceiling((float)saltSize / _guidLength)`: the loop's bound, zero or negative when `saltSize <= 0`. */
  function ChunkCount(saltSize: int): (count: int)
    ensures saltSize <= 0 ==> count <= 0
    ensures saltSize > 0 ==> GuidLength * (count - 1) < saltSize <= GuidLength * count
  {
    (saltSize + GuidLength - 1) / GuidLength
  }

  /** How many GUIDs one call draws: one per loop iteration. */
  function GuidsDrawn(saltSize: int): nat {
    if ChunkCount(saltSize) <= 0 then 0 else ChunkCount(saltSize)
  }

  /** The GUIDs written one after another. */
  function Concat(guids: seq<string>): (s: string)
  {
    if guids == [] then "" else Concat(guids[..|guids| - 1]) + guids[|guids| - 1]
  }

  /** `char.ToUpper` on the characters a GUID holds (ASCII letters). */
  function UpperChar(c: char): char {
    if 'a' <= c <= 'z' then (c as int - 32) as char else c
  }

  /**
   * `string.ToUpper()`: same length, no lower-case ASCII letter left, every other
   * character kept, and lower-case hex digits become upper-case ones.
   */
  function ToUpper(s: string): (r: string)
    ensures |r| == |s|
    ensures forall i :: 0 <= i < |r| ==> !('a' <= r[i] <= 'z')
    ensures forall i :: 0 <= i < |s| && !('a' <= s[i] <= 'z') ==> r[i] == s[i]
    ensures forall i :: 0 <= i < |s| && IsLowerHexChar(s[i]) ==> IsUpperHexChar(r[i])
  {
    seq(|s|, i requires 0 <= i < |s| => UpperChar(s[i]))
  }

  /** The salt, stated without the chunking: the first `saltSize` digits of all GUIDs, upper-cased. */
  function SaltOf(saltSize: int, guids: seq<string>): (salt: string)
    requires saltSize >= 0
    requires AllGuidsN(guids) && |guids| == GuidsDrawn(saltSize)
  {
    ConcatLength(guids);
    ToUpper(Concat(guids)[..saltSize])
  }

  lemma {:induction false} ConcatLength(guids: seq<string>)
    requires AllGuidsN(guids)
    ensures |Concat(guids)| == GuidLength * |guids|
  {
    if guids != [] {
      ConcatLength(guids[..|guids| - 1]);
    }
  }

  /** The first `i` GUIDs make up the first `32 i` characters. */
  lemma {:induction false} ConcatPrefix(guids: seq<string>, i: int)
    requires AllGuidsN(guids) && 0 <= i <= |guids|
    ensures GuidLength * i <= |Concat(guids)|
    ensures Concat(guids)[..GuidLength * i] == Concat(guids[..i])
  {
    ConcatLength(guids);
    if i < |guids| {
      var init := guids[..|guids| - 1];
      ConcatPrefix(init, i);
      ConcatLength(init);
      assert init[..i] == guids[..i];
    } else {
      assert guids[..i] == guids;
    }
  }

  /** Every character of concatenated GUIDs is a lower-case hex digit. */
  lemma {:induction false} ConcatLowerHex(guids: seq<string>)
    requires AllGuidsN(guids)
    ensures forall i :: 0 <= i < |Concat(guids)| ==> IsLowerHexChar(Concat(guids)[i])
  {
    if guids != [] {
      var init := guids[..|guids| - 1];
      ConcatLowerHex(init);
      var last := guids[|guids| - 1];
      assert IsGuidN(last);
      forall i | 0 <= i < |Concat(guids)|
        ensures IsLowerHexChar(Concat(guids)[i])
      {
        if i >= |Concat(init)| {
          assert Concat(guids)[i] == last[i - |Concat(init)|];
        }
      }
    }
  }

  /** The salt has exactly the requested length and only digits `0-9A-F`. */
  lemma SaltShape(saltSize: int, guids: seq<string>)
    requires saltSize >= 0
    requires AllGuidsN(guids) && |guids| == GuidsDrawn(saltSize)
    ensures |SaltOf(saltSize, guids)| == saltSize
    ensures IsUpperHex(SaltOf(saltSize, guids))
  {
    ConcatLowerHex(guids);
    ConcatLength(guids);
    var cut := Concat(guids)[..saltSize];
    forall i | 0 <= i < |cut| ensures IsUpperHexChar(ToUpper(cut)[i]) {
      assert IsLowerHexChar(Concat(guids)[i]);
    }
  }

  /**
   * `CreateSalt`: `new StringBuilder(saltSize)` throws for a negative size; otherwise
   * the loop appends whole GUIDs, except that the last one is cut to
   * `32 - overflow` characters, and the result is upper-cased.
   */
  method CreateSalt(saltSize: int, guids: seq<string>) returns (r: Result<string, Error>)
    requires AllGuidsN(guids) && |guids| == GuidsDrawn(saltSize)
    ensures r.Failure? <==> saltSize < 0
    ensures r.Failure? ==> r.error == CapacityOutOfRange(saltSize)
    ensures r.Success? ==> r.value == SaltOf(saltSize, guids)
    ensures r.Success? ==> |r.value| == saltSize && IsUpperHex(r.value)
  {
    var count := (saltSize + GuidLength - 1) / GuidLength;
    var overflow := GuidLength * count - saltSize;
    if saltSize < 0 {
      return Failure(CapacityOutOfRange(saltSize));
    }
    ConcatLength(guids);
    var sb := "";
    var i := 0;
    while i < count
      invariant 0 <= i <= count
      invariant GuidLength * i <= saltSize || i == count
      invariant sb == Concat(guids)[..if i == count then saltSize else GuidLength * i]
    {
      var saltPart := guids[i];
      ConcatPrefix(guids, i);
      ConcatPrefix(guids, i + 1);
      assert guids[..i + 1][..i] == guids[..i];
      assert Concat(guids[..i + 1]) == Concat(guids[..i]) + saltPart;
      if i + 1 == count {
        var keep := GuidLength - overflow;
        assert Concat(guids[..i + 1])[..GuidLength * i + keep] == Concat(guids[..i]) + saltPart[..keep];
        sb := sb + saltPart[..keep];
      } else {
        sb := sb + saltPart;
      }
      i := i + 1;
    }
    r := Success(ToUpper(sb));
    SaltShape(saltSize, guids);
  }
}
