/** Packed 32-bit RGBA colours: `convertToFloatColors` (src/main.ts) unpacks
    one, the Lua helper `make_color` of the mesh scripts packs one. */
module PackedColor {

  type Byte = x: int | 0 <= x < 256

  /** The four channels of a packed colour, red first. */
  datatype Rgba = Rgba(r: Byte, g: Byte, b: Byte, a: Byte)

  const TwoTo32: int := 0x1_0000_0000

  /** The 32-bit pattern JavaScript's `>>` works on (ToInt32 of an integer):
      the value modulo 2^32. */
  function Bits32(c: int): (u: int)
    ensures 0 <= u < TwoTo32
  {
    c % TwoTo32
  }

  /** A value already in 32-bit range is its own pattern. */
  lemma Bits32InRange(c: int)
    requires 0 <= c < TwoTo32
    ensures Bits32(c) == c
  {
  }

  /** `make_color(r, g, b, a)`: red in the most significant byte. Lua
      arithmetic on integers; the channels are not range-checked. */
  function MakeColor(r: int, g: int, b: int, a: int): (c: int)
    ensures 0 <= r < 256 && 0 <= g < 256 && 0 <= b < 256 && 0 <= a < 256 ==> 0 <= c < TwoTo32
  {
    var c := r * 256 + g;
    var c := c * 256 + b;
    c * 256 + a
  }

  /** The four bytes `(c >> 24) & 255`, `(c >> 16) & 255`, `(c >> 8) & 255`
      and `c & 255`. */
  function Unpack(c: int): Rgba
  {
    var u := Bits32(c);
    Rgba(u / 0x100_0000 % 256, u / 0x1_0000 % 256, u / 0x100 % 256, u % 256)
  }

  /** Packing the unpacked bytes again, red first, gives back the 32-bit
      pattern: the shifts read the same byte order `make_color` writes. */
  lemma UnpackPacks(c: int)
    ensures var p := Unpack(c); MakeColor(p.r, p.g, p.b, p.a) == Bits32(c)
  {
    Base256(Bits32(c));
  }

  /** A 32-bit value is its four base-256 digits. */
  lemma Base256(u: int)
    requires 0 <= u < TwoTo32
    ensures MakeColor(u / 0x100_0000 % 256, u / 0x1_0000 % 256, u / 0x100 % 256, u % 256) == u
  {
    var q1 := u / 256;
    var q2 := q1 / 256;
    var q3 := q2 / 256;
    DivBy256(u, 0x100);
    DivBy256(u, 0x1_0000);
    assert u / 0x1_0000 == q2;
    assert u / 0x100_0000 == q3;
    assert q3 < 256;
  }

  lemma DivBy256(x: int, m: int)
    requires 0 <= x && (m == 0x100 || m == 0x1_0000)
    ensures x / m / 256 == x / (m * 256)
  {
    var q, r, s := x / m / 256, x / m % 256, x % m;
    assert x == q * (m * 256) + (r * m + s);
  }

  /** Unpacking inverts `make_color` on bytes. */
  lemma {:induction false} UnpackMakeColor(r: Byte, g: Byte, b: Byte, a: Byte)
    ensures Unpack(MakeColor(r, g, b, a)) == Rgba(r, g, b, a)
  {
    var p := Unpack(MakeColor(r, g, b, a));
    UnpackPacks(MakeColor(r, g, b, a));
    Bits32InRange(MakeColor(r, g, b, a));
    DigitsUnique(p.r, p.g, p.b, p.a, r, g, b, a);
  }

  /** Base-256 digits are unique. */
  lemma DigitsUnique(r: Byte, g: Byte, b: Byte, a: Byte, r': Byte, g': Byte, b': Byte, a': Byte)
    requires MakeColor(r, g, b, a) == MakeColor(r', g', b', a')
    ensures r == r' && g == g' && b == b' && a == a'
  {
    var x, x' := (r * 256 + g) * 256 + b, (r' * 256 + g') * 256 + b';
    assert a == a' && x == x' by { ModOfDigit(x, a); ModOfDigit(x', a'); }
    var y, y' := r * 256 + g, r' * 256 + g';
    assert b == b' && y == y' by { ModOfDigit(y, b); ModOfDigit(y', b'); }
    assert g == g' && r == r' by { ModOfDigit(r, g); ModOfDigit(r', g'); }
  }

  lemma ModOfDigit(x: int, d: Byte)
    requires 0 <= x
    ensures (x * 256 + d) % 256 == d && (x * 256 + d) / 256 == x
  {
  }

  function Channel(x: Byte): real
  {
    x as real / 255.0
  }

  /** `convertToFloatColors`: the four channels of the 32-bit pattern of `c`,
      red first, each divided by 255. */
  function ConvertToFloatColors(c: int): (q: seq<real>)
    ensures |q| == 4
    ensures forall k :: 0 <= k < 4 ==> 0.0 <= q[k] <= 1.0
  {
    var p := Unpack(c);
    [Channel(p.r), Channel(p.g), Channel(p.b), Channel(p.a)]
  }

  /** Scaling the float channels back by 255 recovers the bytes, and packing
      those recovers the 32-bit pattern: no information is lost. */
  lemma FloatColorsRecover(c: int)
    ensures var q := ConvertToFloatColors(c);
      MakeColor((q[0] * 255.0).Floor, (q[1] * 255.0).Floor,
                (q[2] * 255.0).Floor, (q[3] * 255.0).Floor) == Bits32(c)
  {
    var p := Unpack(c);
    UnpackPacks(c);
    ChannelScale(p.r);
    ChannelScale(p.g);
    ChannelScale(p.b);
    ChannelScale(p.a);
  }

  lemma ChannelScale(x: Byte)
    ensures (Channel(x) * 255.0).Floor == x
  {
    assert Channel(x) * 255.0 == x as real;
  }

  /** The worked example: 0x112233FF is (17, 34, 51, 255). */
  lemma UnpackExample()
    ensures Unpack(0x112233FF) == Rgba(17, 34, 51, 255)
    ensures ConvertToFloatColors(0x112233FF) == [17.0 / 255.0, 34.0 / 255.0, 51.0 / 255.0, 1.0]
  {
  }
}
