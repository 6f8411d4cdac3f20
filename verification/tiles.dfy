/**
 * The slippy-map tile identifier that may run around the globe: zoom level
 * and grid coordinates as 32-bit signed integers, its equality and hash,
 * the eight neighbours, and the "Z/X/Y" text form.
 */
module Tiles {
  import opened Wrappers

  const Two31: int := 0x8000_0000
  const Two32: int := 0x1_0000_0000

  /** A C# `int`. */
  newtype Int32 = v: int | -0x8000_0000 <= v < 0x8000_0000

  /** Unchecked 32-bit arithmetic: the value congruent to `v` modulo 2^32 in the `int` range. */
  function Wrap(v: int): (r: Int32)
    ensures -Two31 <= v < Two31 ==> r as int == v
    ensures v == Two31 ==> r as int == -Two31
    ensures v == -Two31 - 1 ==> r as int == Two31 - 1
  {
    ((v + Two31) % Two32 - Two31) as Int32
  }

  /** Wrapping is insensitive to a prior wrap of the operand. */
  lemma WrapAdd(v: int, d: int)
    ensures Wrap(Wrap(v) as int + d) == Wrap(v + d)
  {
    var q := (v + Two31) / Two32;
    assert Wrap(v) as int == v - q * Two32;
    var w := v + d + Two31;
    assert (w - q * Two32) % Two32 == w % Two32 by {
      ModShift(w, q);
    }
  }

  /** Subtracting a multiple of the modulus keeps the remainder. */
  lemma {:induction false} ModShift(w: int, q: int)
    ensures (w - q * Two32) % Two32 == w % Two32
    decreases if q < 0 then -q else q
  {
    if q > 0 {
      ModShift(w, q - 1);
      assert w - q * Two32 == (w - (q - 1) * Two32) - Two32;
    } else if q < 0 {
      ModShift(w, q + 1);
      assert w - q * Two32 == (w - (q + 1) * Two32) + Two32;
    }
  }

  /** `UnwrappedTileId(z, x, y)`. */
  datatype TileId = TileId(z: Int32, x: Int32, y: Int32)

  /** `Equals` and `operator ==`: the three coordinates agree; this is exactly identity of the id. */
  predicate Equals(a: TileId, b: TileId): (r: bool)
    ensures r <==> a == b
  {
    a.x == b.x && a.y == b.y && a.z == b.z
  }

  /** `operator !=`: the negation of `==`. */
  predicate NotEquals(a: TileId, b: TileId): (r: bool)
    ensures r <==> a != b
  {
    !Equals(a, b)
  }

  /** The eight neighbours; the grid's y axis grows southward. */
  datatype Direction = North | East | South | West | NorthEast | SouthEast | NorthWest | SouthWest

  function DeltaX(d: Direction): int
  {
    match d
    case East | NorthEast | SouthEast => 1
    case West | NorthWest | SouthWest => -1
    case North | South => 0
  }

  function DeltaY(d: Direction): int
  {
    match d
    case North | NorthEast | NorthWest => -1
    case South | SouthEast | SouthWest => 1
    case East | West => 0
  }

  /** A tile shifted by a grid offset, wrapping like C# `int`. */
  function Shift(t: TileId, dx: int, dy: int): (r: TileId)
    ensures r.z == t.z
    ensures -Two31 <= t.x as int + dx < Two31 ==> r.x as int == t.x as int + dx
    ensures -Two31 <= t.y as int + dy < Two31 ==> r.y as int == t.y as int + dy
  {
    TileId(t.z, Wrap(t.x as int + dx), Wrap(t.y as int + dy))
  }

  /** The neighbour properties `North` … `SouthWest`. */
  function Neighbour(t: TileId, d: Direction): (r: TileId)
    ensures r.z == t.z
    ensures r == Shift(t, DeltaX(d), DeltaY(d))
  {
    match d
    case North => TileId(t.z, t.x, Wrap(t.y as int - 1))
    case East => TileId(t.z, Wrap(t.x as int + 1), t.y)
    case South => TileId(t.z, t.x, Wrap(t.y as int + 1))
    case West => TileId(t.z, Wrap(t.x as int - 1), t.y)
    case NorthEast => TileId(t.z, Wrap(t.x as int + 1), Wrap(t.y as int - 1))
    case SouthEast => TileId(t.z, Wrap(t.x as int + 1), Wrap(t.y as int + 1))
    case NorthWest => TileId(t.z, Wrap(t.x as int - 1), Wrap(t.y as int - 1))
    case SouthWest => TileId(t.z, Wrap(t.x as int - 1), Wrap(t.y as int + 1))
  }

  /** Two shifts are one shift by the summed offset, wrap-around included. */
  lemma ShiftCompose(t: TileId, dx1: int, dy1: int, dx2: int, dy2: int)
    ensures Shift(Shift(t, dx1, dy1), dx2, dy2) == Shift(t, dx1 + dx2, dy1 + dy2)
  {
    WrapAdd(t.x as int + dx1, dx2);
    WrapAdd(t.y as int + dy1, dy2);
  }

  /** The opposite direction. */
  function Opposite(d: Direction): (r: Direction)
    ensures DeltaX(r) == -DeltaX(d) && DeltaY(r) == -DeltaY(d)
  {
    match d
    case North => South
    case South => North
    case East => West
    case West => East
    case NorthEast => SouthWest
    case SouthWest => NorthEast
    case NorthWest => SouthEast
    case SouthEast => NorthWest
  }

  /** Going one way and back returns to the tile, even across the edge of the `int` range. */
  lemma NeighbourInverse(t: TileId, d: Direction)
    ensures Neighbour(Neighbour(t, d), Opposite(d)) == t
  {
    ShiftCompose(t, DeltaX(d), DeltaY(d), DeltaX(Opposite(d)), DeltaY(Opposite(d)));
  }

  /** Each diagonal neighbour is the north or south neighbour of the east or west one. */
  lemma DiagonalsCompose(t: TileId)
    ensures Neighbour(t, NorthEast) == Neighbour(Neighbour(t, North), East)
    ensures Neighbour(t, SouthEast) == Neighbour(Neighbour(t, South), East)
    ensures Neighbour(t, NorthWest) == Neighbour(Neighbour(t, North), West)
    ensures Neighbour(t, SouthWest) == Neighbour(Neighbour(t, South), West)
  {
    ShiftCompose(t, 0, -1, 1, 0);
    ShiftCompose(t, 0, 1, 1, 0);
    ShiftCompose(t, 0, -1, -1, 0);
    ShiftCompose(t, 0, 1, -1, 0);
  }

  /** The two's-complement bits of an `int`. */
  function Bits(v: Int32): bv32
  {
    ((v as int + Two32) % Two32) as bv32
  }

  /** `GetHashCode`: the shifts drop the bits moved past bit 31. */
  function Hash(t: TileId): bv32
  {
    (Bits(t.x) << 6) ^ (Bits(t.y) << 16) ^ (Bits(t.z) << 8)
  }

  /**
   * The hash agrees with `Equals`, but it is not injective: it mixes the
   * zoom into the same bits as the coordinates, so tile (zoom 1, 0, 0) and
   * tile (zoom 0, 4, 0) share a hash.
   */
  lemma HashAgreesWithEquals(a: TileId, b: TileId)
    ensures Equals(a, b) ==> Hash(a) == Hash(b)
    ensures Hash(TileId(1, 0, 0)) == Hash(TileId(0, 4, 0)) && !Equals(TileId(1, 0, 0), TileId(0, 4, 0))
  {
    assert Bits(1) == 1 && Bits(4) == 4 && Bits(0) == 0;
    assert (4 as bv32) << 6 == (1 as bv32) << 8;
  }

  predicate IsDigit(c: char)
  {
    '0' <= c <= '9'
  }

  predicate AllDigits(s: string)
  {
    forall i :: 0 <= i < |s| ==> IsDigit(s[i])
  }

  /** The decimal digits of a natural number, most significant first, without leading zeros. */
  function NatText(n: nat): (r: string)
    ensures |r| > 0 && AllDigits(r)
    decreases n
  {
    if n < 10 then [('0' as int + n) as char]
    else NatText(n / 10) + [('0' as int + n % 10) as char]
  }

  /** `int.ToString()` in the invariant culture. */
  function IntText(v: int): (r: string)
    ensures |r| > 0 && '/' !in r
  {
    if v < 0 then "-" + NatText(-v) else NatText(v)
  }

  /** `ToString`: zoom, x and y joined by slashes. */
  function ToString(t: TileId): string
  {
    IntText(t.z as int) + "/" + IntText(t.x as int) + "/" + IntText(t.y as int)
  }

  /** The value of a digit string. */
  function NatValue(s: string): nat
    requires AllDigits(s)
    decreases |s|
  {
    if s == [] then 0 else NatValue(s[..|s| - 1]) * 10 + (s[|s| - 1] as int - '0' as int)
  }

  /** Reading the digits back gives the number. */
  lemma {:induction false} NatTextValue(n: nat)
    ensures NatValue(NatText(n)) == n
    decreases n
  {
    var r := NatText(n);
    if n < 10 {
      assert r[..0] == [];
    } else {
      NatTextValue(n / 10);
      assert r[..|r| - 1] == NatText(n / 10);
    }
  }

  /** The reading of a decimal `int`, optionally negative. */
  function IntValue(s: string): Option<int>
  {
    if |s| > 1 && s[0] == '-' && AllDigits(s[1..]) then Some(0 - NatValue(s[1..]) as int)
    else if |s| > 0 && AllDigits(s) then Some(NatValue(s))
    else None
  }

  lemma IntTextValue(v: int)
    ensures IntValue(IntText(v)) == Some(v)
  {
    if v < 0 {
      var r := IntText(v);
      assert r[1..] == NatText(-v);
      NatTextValue(-v);
    } else {
      NatTextValue(v);
    }
  }

  /** The position of the first occurrence of `c`. */
  function IndexOf(s: string, c: char): (r: Option<nat>)
    ensures r.Some? ==> r.value < |s| && s[r.value] == c && c !in s[..r.value]
    ensures r.None? ==> c !in s
  {
    if s == [] then None
    else if s[0] == c then Some(0)
    else match IndexOf(s[1..], c)
      case None => None
      case Some(i) => assert s[..i + 1] == [s[0]] + s[1..][..i]; Some(i + 1)
  }

  /** The first slash of a joined text is the one after the first part. */
  lemma FirstSlash(a: string, b: string)
    requires '/' !in a
    ensures IndexOf(a + "/" + b, '/') == Some(|a|)
  {
    var s := a + "/" + b;
    assert s[|a|] == '/';
    assert s[..|a|] == a;
  }

  /** A coordinate in the `int` range. */
  function AsInt32(o: Option<int>): Option<Int32>
  {
    if o.Some? && -Two31 <= o.value < Two31 then Some(o.value as Int32) else None
  }

  /** Reads "Z/X/Y" back into a tile id; the inverse of `ToString`. */
  function Parse(s: string): Option<TileId>
  {
    match IndexOf(s, '/')
    case None => None
    case Some(i) =>
      var rest := s[i + 1..];
      match IndexOf(rest, '/')
      case None => None
      case Some(j) =>
        var z := AsInt32(IntValue(s[..i]));
        var x := AsInt32(IntValue(rest[..j]));
        var y := AsInt32(IntValue(rest[j + 1..]));
        if z.Some? && x.Some? && y.Some? then Some(TileId(z.value, x.value, y.value)) else None
  }

  /** Reading three slash-joined parts reads each part. */
  lemma ParseJoined(a: string, b: string, c: string)
    requires '/' !in a && '/' !in b
    ensures Parse(a + "/" + b + "/" + c) ==
      var z := AsInt32(IntValue(a));
      var x := AsInt32(IntValue(b));
      var y := AsInt32(IntValue(c));
      if z.Some? && x.Some? && y.Some? then Some(TileId(z.value, x.value, y.value)) else None
  {
    var s := a + "/" + b + "/" + c;
    assert s == a + "/" + (b + "/" + c);
    FirstSlash(a, b + "/" + c);
    assert s[..|a|] == a;
    var rest := s[|a| + 1..];
    assert rest == b + "/" + c;
    FirstSlash(b, c);
    assert rest[..|b|] == b;
    assert rest[|b| + 1..] == c;
  }

  /** The text form reads back as the id, so distinct ids print differently. */
  lemma ParseToString(t: TileId)
    ensures Parse(ToString(t)) == Some(t)
  {
    ParseJoined(IntText(t.z as int), IntText(t.x as int), IntText(t.y as int));
    IntTextValue(t.z as int);
    IntTextValue(t.x as int);
    IntTextValue(t.y as int);
  }

  lemma ToStringInjective(a: TileId, b: TileId)
    ensures ToString(a) == ToString(b) <==> Equals(a, b)
  {
    ParseToString(a);
    ParseToString(b);
  }
}
