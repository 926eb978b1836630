/**
 * `generate_unique_colors(n, s, l)`: `n` hues evenly spaced over [0, 1),
 * each turned into RGB by `colorsys.hls_to_rgb` and printed as `#rrggbb`.
 * The HLS conversion is a parameter: only its range, [0, 1] per channel, is used.
 */
module Palette {
  import opened Wrappers

  type Unit = r: real | 0.0 <= r <= 1.0

  datatype Rgb = Rgb(r: Unit, g: Unit, b: Unit)

  /** `colorsys.hls_to_rgb(h, l, s)`, arguments in that order. */
  type HlsToRgb = (real, real, real) -> Rgb

  const DefaultSaturation: real := 0.7
  const DefaultLightness: real := 0.5

  const HexDigits: string := "0123456789abcdef"

  /** `int(c * 255)` of a channel in [0, 1]. */
  function ToByte(c: Unit): (b: nat)
    ensures b <= 255
    ensures b as real <= c * 255.0 < b as real + 1.0
  {
    (c * 255.0).Floor
  }

  /** `'%02x' % b`. */
  function HexByte(b: nat): (s: string)
    requires b <= 255
    ensures |s| == 2 && s[0] in HexDigits && s[1] in HexDigits
  {
    [HexDigits[b / 16], HexDigits[b % 16]]
  }

  /** `'#%02x%02x%02x' % (int(r*255), int(g*255), int(b*255))`. */
  function HexColor(c: Rgb): (s: string)
    ensures IsHexColor(s)
  {
    "#" + HexByte(ToByte(c.r)) + HexByte(ToByte(c.g)) + HexByte(ToByte(c.b))
  }

  predicate IsHexColor(s: string) {
    |s| == 7 && s[0] == '#' && forall i :: 1 <= i < 7 ==> s[i] in HexDigits
  }

  function HexValue(c: char): Option<nat> {
    if '0' <= c <= '9' then Some(c as int - '0' as int)
    else if 'a' <= c <= 'f' then Some(c as int - 'a' as int + 10)
    else None
  }

  function DecodeHexByte(s: string): Option<nat>
    requires |s| == 2
  {
    match (HexValue(s[0]), HexValue(s[1]))
    case (Some(hi), Some(lo)) => Some(16 * hi + lo)
    case _ => None
  }

  /** Reads `#rrggbb` back into its three bytes. */
  function DecodeHexColor(s: string): Option<(nat, nat, nat)> {
    if |s| != 7 || s[0] != '#' then None
    else
      match (DecodeHexByte(s[1..3]), DecodeHexByte(s[3..5]), DecodeHexByte(s[5..7]))
      case (Some(r), Some(g), Some(b)) => Some((r, g, b))
      case _ => None
  }

  lemma HexDigitValue(k: nat)
    requires k < 16
    ensures HexValue(HexDigits[k]) == Some(k)
  {
    assert HexDigits[0] == '0' && HexDigits[9] == '9' && HexDigits[10] == 'a' && HexDigits[15] == 'f';
    if k < 10 {
      assert HexDigits[k] == ('0' as int + k) as char by {
        assert HexDigits[..10] == "0123456789";
      }
    } else {
      assert HexDigits[k] == ('a' as int + k - 10) as char by {
        assert HexDigits[10..] == "abcdef";
      }
    }
  }

  /** `'%02x'` is read back exactly. */
  lemma {:induction false} HexByteRoundTrip(b: nat)
    requires b <= 255
    ensures DecodeHexByte(HexByte(b)) == Some(b)
  {
    var hi, lo := b / 16, b % 16;
    assert 16 * hi + lo == b;
    HexDigitValue(hi);
    HexDigitValue(lo);
    assert HexByte(b)[0] == HexDigits[hi] && HexByte(b)[1] == HexDigits[lo];
  }

  /** The three bytes `'#%02x%02x%02x'` prints for a colour. */
  function Bytes(c: Rgb): (nat, nat, nat) {
    (ToByte(c.r), ToByte(c.g), ToByte(c.b))
  }

  /** Every colour string is `#` and six lower-case hex digits that spell its three bytes. */
  lemma {:induction false} HexColorRoundTrip(c: Rgb)
    ensures IsHexColor(HexColor(c))
    ensures DecodeHexColor(HexColor(c)) == Some(Bytes(c))
  {
    HexTripleRoundTrip(ToByte(c.r), ToByte(c.g), ToByte(c.b));
  }

  lemma {:induction false} HexTripleRoundTrip(r: nat, g: nat, b: nat)
    requires r <= 255 && g <= 255 && b <= 255
    ensures IsHexColor("#" + HexByte(r) + HexByte(g) + HexByte(b))
    ensures DecodeHexColor("#" + HexByte(r) + HexByte(g) + HexByte(b)) == Some((r, g, b))
  {
    var x, y, z := HexByte(r), HexByte(g), HexByte(b);
    var s := "#" + x + y + z;
    assert s[1..3] == x && s[3..5] == y && s[5..7] == z;
    assert s[1] == x[0] && s[2] == x[1] && s[3] == y[0] && s[4] == y[1] && s[5] == z[0] && s[6] == z[1];
    HexByteRoundTrip(r);
    HexByteRoundTrip(g);
    HexByteRoundTrip(b);
  }

  /** `np.linspace(0, 1, n, endpoint=False)[i]`. */
  function Hue(i: nat, n: nat): (h: real)
    requires i < n
    ensures 0.0 <= h < 1.0
  {
    i as real / n as real
  }

  /** Hues grow with the index, so distinct indices get distinct hues. */
  lemma HuesIncrease(i: nat, j: nat, n: nat)
    requires i < j < n
    ensures Hue(i, n) < Hue(j, n)
  {
  }

  /** `generate_unique_colors(n, s, l)`: `[]` for `n == 0`, otherwise one colour per hue `i/n`. */
  function GenerateUniqueColors(n: nat, s: real, l: real, hls: HlsToRgb): (cs: seq<string>)
    ensures |cs| == n
    ensures forall i :: 0 <= i < n ==> IsHexColor(cs[i])
    ensures forall i :: 0 <= i < n ==> DecodeHexColor(cs[i]) == Some(Bytes(hls(Hue(i, n), l, s)))
  {
    if n == 0 then []
    else
      var cs := seq(n, i requires 0 <= i < n => HexColor(hls(Hue(i, n), l, s)));
      assert forall i :: 0 <= i < n ==>
               IsHexColor(cs[i]) && DecodeHexColor(cs[i]) == Some(Bytes(hls(Hue(i, n), l, s))) by {
        forall i | 0 <= i < n
          ensures IsHexColor(cs[i]) && DecodeHexColor(cs[i]) == Some(Bytes(hls(Hue(i, n), l, s)))
        {
          HexColorRoundTrip(hls(Hue(i, n), l, s));
        }
      }
      cs
  }
}
