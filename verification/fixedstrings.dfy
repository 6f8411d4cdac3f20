/**
 * Byte-wise comparison of a fixed 32-byte UTF-8 string with a managed
 * UTF-16 string, and the cached conversion of the former into the latter.
 */
module FixedStrings {
  import opened Wrappers

  /** One byte of a FixedString32Bytes buffer. */
  newtype Byte = b: int | 0 <= b < 0x100

  /** One UTF-16 code unit of a managed string. */
  newtype CharUnit = c: int | 0 <= c < 0x1_0000

  /** The subset of StringComparison the comparison distinguishes. */
  datatype Comparison = CurrentCulture | CurrentCultureIgnoreCase | InvariantCulture | InvariantCultureIgnoreCase | Ordinal | OrdinalIgnoreCase

  /** The `(byte)` cast of a char: keeps the low eight bits. */
  function Truncate(c: CharUnit): (b: Byte)
    ensures b as int == c as int % 0x100
    ensures c < 0x100 ==> b as int == c as int
  {
    (c as int % 0x100) as Byte
  }

  /** `Convert.ToChar(byte)`: the char whose code is the byte value. */
  function Widen(b: Byte): (c: CharUnit)
    ensures c as int == b as int
  {
    b as int as CharUnit
  }

  /**
   * `EqualsStack(fs, toEqual)`: false on differing lengths, otherwise
   * compares each byte with the truncated char at the same index.
   */
  method EqualsStack(fs: seq<Byte>, toEqual: seq<CharUnit>) returns (r: bool)
    ensures |fs| != |toEqual| ==> !r
    ensures r <==> |fs| == |toEqual| && forall i :: 0 <= i < |fs| ==> fs[i] == Truncate(toEqual[i])
  {
    if |fs| != |toEqual| {
      return false;
    }
    var index := 0;
    while index < |fs|
      invariant 0 <= index <= |fs|
      invariant forall i :: 0 <= i < index ==> fs[i] == Truncate(toEqual[i])
    {
      if fs[index] != Truncate(toEqual[index]) {
        return false;
      }
      index := index + 1;
    }
    return true;
  }

  /** Character equality under the requested comparison mode. */
  predicate CharsMatch(a: CharUnit, b: CharUnit, comparison: Comparison, toLower: CharUnit -> CharUnit)
  {
    if comparison == CurrentCultureIgnoreCase then toLower(a) == toLower(b) else a == b
  }

  /**
   * `EqualsStack(fs, toEqual, comparison)`: widens each byte to a char;
   * lower-cases both sides only under CurrentCultureIgnoreCase, and every
   * other mode compares the chars exactly. `toLower` is the culture's
   * `char.ToLower`.
   */
  method EqualsStackWith(fs: seq<Byte>, toEqual: seq<CharUnit>, comparison: Comparison, toLower: CharUnit -> CharUnit)
    returns (r: bool)
    ensures |fs| != |toEqual| ==> !r
    ensures r <==> |fs| == |toEqual| && forall i :: 0 <= i < |fs| ==> CharsMatch(Widen(fs[i]), toEqual[i], comparison, toLower)
  {
    if |fs| != |toEqual| {
      return false;
    }
    var index := 0;
    while index < |fs|
      invariant 0 <= index <= |fs|
      invariant forall i :: 0 <= i < index ==> CharsMatch(Widen(fs[i]), toEqual[i], comparison, toLower)
    {
      var fsChar := Widen(fs[index]);
      var toEqualChar := toEqual[index];
      if comparison == CurrentCultureIgnoreCase {
        if toLower(fsChar) != toLower(toEqualChar) {
          return false;
        }
      } else if fsChar != toEqualChar {
        return false;
      }
      index := index + 1;
    }
    return true;
  }

  /** The pure meaning of the byte-truncating comparison. */
  predicate BytesEqual(fs: seq<Byte>, toEqual: seq<CharUnit>)
  {
    |fs| == |toEqual| && forall i :: 0 <= i < |fs| ==> fs[i] == Truncate(toEqual[i])
  }

  /** The pure meaning of the comparison-mode overload. */
  predicate CharsEqual(fs: seq<Byte>, toEqual: seq<CharUnit>, comparison: Comparison, toLower: CharUnit -> CharUnit)
  {
    |fs| == |toEqual| && forall i :: 0 <= i < |fs| ==> CharsMatch(Widen(fs[i]), toEqual[i], comparison, toLower)
  }

  /** On chars below 256 the two exact comparisons agree. */
  lemma ExactOverloadsAgreeOnNarrowChars(fs: seq<Byte>, toEqual: seq<CharUnit>, comparison: Comparison, toLower: CharUnit -> CharUnit)
    requires comparison != CurrentCultureIgnoreCase
    requires forall i :: 0 <= i < |toEqual| ==> toEqual[i] < 0x100
    ensures BytesEqual(fs, toEqual) <==> CharsEqual(fs, toEqual, comparison, toLower)
  {
    if BytesEqual(fs, toEqual) {
      forall i | 0 <= i < |fs|
        ensures Widen(fs[i]) == toEqual[i]
      {
        assert fs[i] == Truncate(toEqual[i]);
      }
    }
    if CharsEqual(fs, toEqual, comparison, toLower) {
      forall i | 0 <= i < |fs|
        ensures fs[i] == Truncate(toEqual[i])
      {
        assert CharsMatch(Widen(fs[i]), toEqual[i], comparison, toLower);
      }
    }
  }

  /**
   * A wide char is accepted by the truncating overload but rejected by the
   * exact-mode overload: 'Ł' (U+0141) against the byte 0x41 ('A').
   */
  lemma TruncationAcceptsWideChar(toLower: CharUnit -> CharUnit)
    ensures BytesEqual([0x41 as Byte], [0x141 as CharUnit])
    ensures !CharsEqual([0x41 as Byte], [0x141 as CharUnit], Ordinal, toLower)
  {
    var fs: seq<Byte> := [0x41 as Byte];
    var wide: seq<CharUnit> := [0x141 as CharUnit];
    assert Widen(fs[0]) != wide[0];
    assert !CharsMatch(Widen(fs[0]), wide[0], Ordinal, toLower);
  }

  /** A FixedString32 -> string cache; `decode` stands for `fs.ToString()`. */
  datatype Cached = Cached(text: seq<CharUnit>, cache: map<seq<Byte>, seq<CharUnit>>)

  /** Every cached entry is the decoding of its key. */
  ghost predicate CacheFaithful(cache: map<seq<Byte>, seq<CharUnit>>, decode: seq<Byte> -> seq<CharUnit>)
  {
    forall k :: k in cache ==> cache[k] == decode(k)
  }

  /**
   * `ToStringCached`: returns the cached string when present, otherwise
   * decodes, stores and returns it.
   */
  function ToStringCached(fs: seq<Byte>, cache: map<seq<Byte>, seq<CharUnit>>, decode: seq<Byte> -> seq<CharUnit>): (r: Cached)
    ensures fs in r.cache && r.cache[fs] == r.text
    ensures fs in cache ==> r == Cached(cache[fs], cache)
    ensures fs !in cache ==> r.text == decode(fs) && r.cache.Keys == cache.Keys + {fs}
    ensures forall k :: k in cache ==> k in r.cache && r.cache[k] == cache[k]
    ensures CacheFaithful(cache, decode) ==> r.text == decode(fs) && CacheFaithful(r.cache, decode)
  {
    if fs in cache then Cached(cache[fs], cache)
    else
      var str := decode(fs);
      Cached(str, cache[fs := str])
  }

  /** A second conversion of the same string is served from the cache unchanged. */
  lemma ToStringCachedIsStable(fs: seq<Byte>, cache: map<seq<Byte>, seq<CharUnit>>, decode: seq<Byte> -> seq<CharUnit>)
    ensures var first := ToStringCached(fs, cache, decode);
            ToStringCached(fs, first.cache, decode) == first
  {
  }
}
