/**
 * .NET strings as sequences of UTF-16 code units, and the byte encoding of
 * `Encoding.Unicode` (UTF-16, little-endian, no byte-order mark in `GetBytes`).
 */
module WideText {

  /** One UTF-16 code unit: the element type of a .NET `string`. */
  type CodeUnit = x: int | 0 <= x < 0x1_0000

  type Byte = x: int | 0 <= x < 0x100

  /** The longest string the .NET runtime allocates. */
  const MaxStringLength: nat := 0x3FFF_FFDF

  /** A .NET `string` value (never `null` here). */
  type NetString = s: seq<CodeUnit> | |s| <= MaxStringLength witness []

  /** The code unit that `Encoding.Unicode` writes in place of an unpaired surrogate. */
  const ReplacementCharacter: CodeUnit := 0xFFFD

  predicate IsHighSurrogate(u: CodeUnit) { 0xD800 <= u <= 0xDBFF }

  predicate IsLowSurrogate(u: CodeUnit) { 0xDC00 <= u <= 0xDFFF }

  /** Every surrogate in `s` is half of a high-low pair, read from the left. */
  predicate WellFormed(s: seq<CodeUnit>)
    decreases |s|
  {
    if s == [] then true
    else if IsHighSurrogate(s[0]) then 2 <= |s| && IsLowSurrogate(s[1]) && WellFormed(s[2..])
    else !IsLowSurrogate(s[0]) && WellFormed(s[1..])
  }

  /**
   * The code units the encoder actually emits: pairs are kept, every unpaired
   * surrogate becomes U+FFFD (the replacement fallback of `Encoding.Unicode`).
   */
  function Sanitized(s: seq<CodeUnit>): (r: seq<CodeUnit>)
    ensures |r| == |s|
    ensures WellFormed(r)
    ensures WellFormed(s) ==> r == s
    decreases |s|
  {
    if s == [] then []
    else if 2 <= |s| && IsHighSurrogate(s[0]) && IsLowSurrogate(s[1]) then
      var r := [s[0], s[1]] + Sanitized(s[2..]);
      assert r[2..] == Sanitized(s[2..]);
      r
    else if IsHighSurrogate(s[0]) || IsLowSurrogate(s[0]) then
      var r := [ReplacementCharacter] + Sanitized(s[1..]);
      assert r[1..] == Sanitized(s[1..]);
      r
    else
      var r := [s[0]] + Sanitized(s[1..]);
      assert r[1..] == Sanitized(s[1..]);
      r
  }

  /**
   * The code unit at `i` is a surrogate that is not half of a pair: a high surrogate
   * not followed by a low one, or a low surrogate not preceded by a high one.
   */
  predicate Unpaired(s: seq<CodeUnit>, i: nat)
    requires i < |s|
  {
    || (IsHighSurrogate(s[i]) && !(i + 1 < |s| && IsLowSurrogate(s[i + 1])))
    || (IsLowSurrogate(s[i]) && !(0 < i && IsHighSurrogate(s[i - 1])))
  }

  /** Dropping a prefix of `s` leaves a code unit's pairing alone, unless the cut separates it from its high half. */
  lemma UnpairedShift(s: seq<CodeUnit>, k: nat, i: nat)
    requires 0 < k <= i < |s|
    requires i == k && IsLowSurrogate(s[i]) ==> !IsHighSurrogate(s[k - 1])
    ensures Unpaired(s[k..], i - k) == Unpaired(s, i)
  {
    if i > k {
      assert s[k..][i - k - 1] == s[i - 1];
    }
    if i + 1 < |s| {
      assert s[k..][i - k + 1] == s[i + 1];
    }
  }

  /** Position by position, the encoder keeps every code unit but an unpaired surrogate, which it replaces. */
  lemma {:induction false} SanitizedReplacesUnpaired(s: seq<CodeUnit>)
    ensures forall i :: 0 <= i < |s| ==>
      Sanitized(s)[i] == if Unpaired(s, i) then ReplacementCharacter else s[i]
    decreases |s|
  {
    if s == [] {
    } else if 2 <= |s| && IsHighSurrogate(s[0]) && IsLowSurrogate(s[1]) {
      SanitizedReplacesUnpaired(s[2..]);
      forall i | 2 <= i < |s|
        ensures Sanitized(s)[i] == if Unpaired(s, i) then ReplacementCharacter else s[i]
      {
        UnpairedShift(s, 2, i);
        assert Sanitized(s)[i] == Sanitized(s[2..])[i - 2];
      }
    } else {
      SanitizedReplacesUnpaired(s[1..]);
      forall i | 1 <= i < |s|
        ensures Sanitized(s)[i] == if Unpaired(s, i) then ReplacementCharacter else s[i]
      {
        UnpairedShift(s, 1, i);
        assert Sanitized(s)[i] == Sanitized(s[1..])[i - 1];
      }
    }
  }

  /** Each code unit as two bytes, low byte first. */
  function LittleEndianBytes(s: seq<CodeUnit>): (b: seq<Byte>)
    ensures |b| == 2 * |s|
  {
    if s == [] then [] else [s[0] % 0x100, s[0] / 0x100] + LittleEndianBytes(s[1..])
  }

  /** Reads a little-endian UTF-16 byte sequence back into code units. */
  function CodeUnits(b: seq<Byte>): seq<CodeUnit>
    requires |b| % 2 == 0
  {
    if b == [] then [] else [(b[0] as int + 0x100 * b[1] as int) as CodeUnit] + CodeUnits(b[2..])
  }

  lemma {:induction false} CodeUnitsOfBytes(s: seq<CodeUnit>)
    ensures CodeUnits(LittleEndianBytes(s)) == s
  {
    if s != [] {
      CodeUnitsOfBytes(s[1..]);
      assert LittleEndianBytes(s)[2..] == LittleEndianBytes(s[1..]);
    }
  }

  /** `Encoding.Unicode.GetBytes(s)`. */
  function UnicodeBytes(s: seq<CodeUnit>): (b: seq<Byte>)
    ensures |b| == 2 * |s|
    ensures CodeUnits(b) == Sanitized(s)
    ensures WellFormed(s) ==> CodeUnits(b) == s
  {
    CodeUnitsOfBytes(Sanitized(s));
    LittleEndianBytes(Sanitized(s))
  }

  /** The UTF-16 form of an ASCII string, for the string literals of the program. */
  function Ascii(s: string): (w: seq<CodeUnit>)
    requires forall i :: 0 <= i < |s| ==> (s[i] as int) < 0x80
    ensures |w| == |s|
  {
    seq(|s|, i requires 0 <= i < |s| => (s[i] as int) as CodeUnit)
  }

  /** `directory` is non-empty and its last unit is a directory or volume separator (`\`, `/`, `:`). */
  predicate EndsInSeparator(directory: seq<CodeUnit>)
  {
    directory != [] && directory[|directory| - 1] in Ascii("\\/:")
  }

  /**
   * `Path.Combine(directory, name)` on Windows for a relative `name` with no root: the
   * directory, then one `\` unless it is empty or already ends in a separator, then the name.
   */
  function Combine(directory: seq<CodeUnit>, name: seq<CodeUnit>): (path: seq<CodeUnit>)
    ensures |name| <= |path|
    ensures path[|path| - |name|..] == name
    ensures |directory| <= |path| && path[..|directory|] == directory
    ensures directory == [] || EndsInSeparator(directory) ==> |path| == |directory| + |name|
    ensures directory != [] && !EndsInSeparator(directory) ==>
      |path| == |directory| + 1 + |name| && path[|directory|] == '\\' as CodeUnit
  {
    if directory == [] then name
    else if EndsInSeparator(directory) then directory + name
    else directory + Ascii("\\") + name
  }
}
