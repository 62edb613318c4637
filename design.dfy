/** The design step: three colour palettes (background, main, accent) that can be recoloured,
    shuffled or extended with random ones, and the colour currently selected. `Math.random` is
    supplied: each random colour is given as the number `Math.floor(Math.random() * 16777215)`. */
module Design {
  import opened Common

  datatype Palette = Palette(name: string, hex: string, shades: seq<string>)

  const InitialPalettes: seq<Palette> := [
    Palette("Cerise Red", "#DC2F4E", ["#F8B6C2", "#F36A8C", "#DC2F4E", "#A01B2A", "#6B0F1A"]),
    Palette("Wild Blue Yonder", "#7A80B9", ["#D1D3E6", "#AEB2D1", "#7A80B9", "#4B4F7A", "#2C2E4B"]),
    Palette("Madison", "#0E2466", ["#B3B9D6", "#4B5A99", "#0E2466", "#09153A", "#060B1A"])]

  /** The largest value `Math.floor(Math.random() * 16777215)` can take, plus one. */
  const RandomBound: nat := 16777215

  function HexDigit(d: nat): char
    requires d < 16
  {
    if d < 10 then ('0' as int + d) as char else ('a' as int + d - 10) as char
  }

  function HexDigitValue(c: char): int {
    if '0' <= c <= '9' then c as int - '0' as int else c as int - 'a' as int + 10
  }

  /** The last `width` hexadecimal digits of `n`, most significant first: `n.toString(16)`
      padded with zeros to `width` when `n < 16^width`. */
  function HexDigits(n: nat, width: nat): (r: string)
    ensures |r| == width
    ensures forall i | 0 <= i < |r| :: '0' <= r[i] <= '9' || 'a' <= r[i] <= 'f'
  {
    if width == 0 then "" else HexDigits(n / 16, width - 1) + [HexDigit(n % 16)]
  }

  function Power16(k: nat): (r: nat)
    ensures r > 0
  {
    if k == 0 then 1 else 16 * Power16(k - 1)
  }

  function ParseHex(s: string): int {
    if s == [] then 0 else ParseHex(s[..|s| - 1]) * 16 + HexDigitValue(s[|s| - 1])
  }

  /** The digits read back give the number modulo 16^width. */
  lemma {:induction false} ParseHexDigits(n: nat, width: nat)
    ensures ParseHex(HexDigits(n, width)) == n % Power16(width)
  {
    if width > 0 {
      var s := HexDigits(n, width);
      assert s[..|s| - 1] == HexDigits(n / 16, width - 1);
      ParseHexDigits(n / 16, width - 1);
      var p := Power16(width - 1);
      assert ParseHex(s) == ParseHex(HexDigits(n / 16, width - 1)) * 16 + HexDigitValue(HexDigit(n % 16));
      assert HexDigitValue(HexDigit(n % 16)) == n % 16;
      ModSplit(n, p);
    }
  }

  /** (n / 16 mod p) * 16 + n mod 16 == n mod 16p. */
  lemma ModSplit(n: nat, p: nat)
    requires p > 0
    ensures ((n / 16) % p) * 16 + n % 16 == n % (16 * p)
  {
    var q := n / 16;
    var r := n % 16;
    var a := q / p;
    var b := q % p;
    assert q == p * a + b;
    assert n == 16 * q + r;
    assert 16 * q == 16 * (p * a) + 16 * b;
    assert 16 * (p * a) == (16 * p) * a;
    ModUnique(n, 16 * p, a, b * 16 + r);
  }

  /** The remainder is the unique c in [0, m) with n == m * a + c. */
  lemma ModUnique(n: int, m: int, a: int, c: int)
    requires m > 0 && n == m * a + c && 0 <= c < m
    ensures n % m == c
  {
    var a', c' := n / m, n % m;
    assert m * a' + c' == m * a + c;
    if a' > a {
      assert m * a' >= m * (a + 1) by {
        MulMono(m, a + 1, a');
      }
    } else if a' < a {
      assert m * a >= m * (a' + 1) by {
        MulMono(m, a' + 1, a);
      }
    }
  }

  lemma MulMono(m: int, x: int, y: int)
    requires m > 0 && x <= y
    ensures m * x <= m * y
  {
    assert m * y - m * x == m * (y - x);
  }

  /** `randomHex()`: '#' and six lower-case hexadecimal digits. */
  function RandomHex(n: nat): (r: string)
    requires n < RandomBound
    ensures |r| == 7 && r[0] == '#'
  {
    "#" + HexDigits(n, 6)
  }

  /** Different random numbers give different colours: the colour reads back as its number. */
  lemma RandomHexRoundTrip(n: nat)
    requires n < RandomBound
    ensures ParseHex(RandomHex(n)[1..]) == n
  {
    assert RandomHex(n)[1..] == HexDigits(n, 6);
    ParseHexDigits(n, 6);
    ColourSpace();
    ModUnique(n, 16777216, 0, n);
  }

  /** Six hexadecimal digits span 16^6 = 16777216 colours. */
  lemma ColourSpace()
    ensures Power16(6) == 16777216
  {
    assert Power16(2) == 256;
    assert Power16(4) == 65536;
  }

  /** The five random numbers one `randomPalette()` draws: the base colour first, then the four
      other shades in order. */
  datatype Draw = Draw(base: nat, s0: nat, s1: nat, s3: nat, s4: nat)

  predicate InBounds(d: Draw) {
    d.base < RandomBound && d.s0 < RandomBound && d.s1 < RandomBound && d.s3 < RandomBound && d.s4 < RandomBound
  }

  /** `randomPalette()`: named "Custom", five shades, the middle one being its colour. */
  function RandomPalette(d: Draw): (p: Palette)
    requires InBounds(d)
    ensures p.name == "Custom" && |p.shades| == 5 && p.shades[2] == p.hex
  {
    var base := RandomHex(d.base);
    Palette("Custom", base, [RandomHex(d.s0), RandomHex(d.s1), base, RandomHex(d.s3), RandomHex(d.s4)])
  }

  /** `{ ...p, hex: color, shades: [color, ...p.shades.slice(1)] }`. */
  function Recolor(p: Palette, color: string): Palette {
    Palette(p.name, color, [color] + (if |p.shades| > 0 then p.shades[1..] else []))
  }

  /** `handleColorChange`'s new palettes. */
  function RecolorAt(palettes: seq<Palette>, idx: int, color: string): seq<Palette> {
    seq(|palettes|, i requires 0 <= i < |palettes| => if i == idx then Recolor(palettes[i], color) else palettes[i])
  }

  /** Recolouring palette idx sets its colour and first shade and keeps its name and other
      shades; the other palettes and their number stay. */
  lemma RecolorAtEffect(palettes: seq<Palette>, idx: int, color: string)
    ensures var r := RecolorAt(palettes, idx, color);
      && |r| == |palettes|
      && (forall i | 0 <= i < |palettes| && i != idx :: r[i] == palettes[i])
      && (0 <= idx < |palettes| ==>
            && r[idx].hex == color && r[idx].name == palettes[idx].name
            && r[idx].shades[0] == color
            && |r[idx].shades| == (if |palettes[idx].shades| > 0 then |palettes[idx].shades| else 1)
            && forall j | 1 <= j < |palettes[idx].shades| :: r[idx].shades[j] == palettes[idx].shades[j])
  {
  }

  datatype Theme = Light | Dark

  class ChooseDesignStep {
    var palettes: seq<Palette>
    var selected: string
    var theme: Theme
    var pickerIdx: Option<int>

    /** There is always a first palette: none of the handlers shortens the list below one. */
    ghost predicate Valid()
      reads this
    {
      |palettes| >= 1
    }

    constructor ()
      ensures Valid()
      ensures palettes == InitialPalettes && selected == "#DC2F4E" && theme == Dark && pickerIdx.None?
    {
      palettes := InitialPalettes;
      selected := InitialPalettes[0].hex;
      theme := Dark;
      pickerIdx := None;
    }

    /** `handleShuffle`: the first palette stays, two random ones follow it, and the old first
        colour is selected. */
    method Shuffle(d1: Draw, d2: Draw)
      requires Valid() && InBounds(d1) && InBounds(d2)
      modifies this
      ensures Valid()
      ensures palettes == [old(palettes[0]), RandomPalette(d1), RandomPalette(d2)]
      ensures selected == old(palettes[0].hex)
      ensures theme == old(theme) && pickerIdx == old(pickerIdx)
    {
      selected := palettes[0].hex;
      palettes := palettes[..1] + [RandomPalette(d1), RandomPalette(d2)];
    }

    /** `handleAddColor`. */
    method AddColor(d: Draw)
      requires Valid() && InBounds(d)
      modifies this
      ensures Valid()
      ensures palettes == old(palettes) + [RandomPalette(d)]
      ensures selected == old(selected) && theme == old(theme) && pickerIdx == old(pickerIdx)
    {
      palettes := palettes + [RandomPalette(d)];
    }

    /** `handleColorChange`: the colour picker of palette idx. */
    method ColorChange(idx: int, color: string)
      requires Valid()
      modifies this
      ensures Valid()
      ensures palettes == RecolorAt(old(palettes), idx, color)
      ensures selected == color && pickerIdx.None? && theme == old(theme)
    {
      palettes := RecolorAt(palettes, idx, color);
      selected := color;
      pickerIdx := None;
    }

    /** A click on one of the three colour cards, shown only when that palette exists. */
    method SelectCard(i: int)
      requires Valid() && 0 <= i < 3 && i < |palettes|
      modifies this
      ensures Valid()
      ensures palettes == old(palettes) && theme == old(theme)
      ensures selected == palettes[i].hex && pickerIdx == Some(i)
    {
      selected := palettes[i].hex;
      pickerIdx := Some(i);
    }

    /** Leaving the colour picker. */
    method PickerBlur()
      requires Valid()
      modifies this
      ensures Valid()
      ensures pickerIdx.None? && palettes == old(palettes) && selected == old(selected) && theme == old(theme)
    {
      pickerIdx := None;
    }

    method ToggleTheme()
      requires Valid()
      modifies this
      ensures Valid()
      ensures theme == (if old(theme) == Dark then Light else Dark)
      ensures palettes == old(palettes) && selected == old(selected) && pickerIdx == old(pickerIdx)
    {
      theme := if theme == Dark then Light else Dark;
    }

    /** Continue: disabled while nothing is selected; otherwise `onNext` first, then `setData`
        with the palettes when the host gave one. */
    method Continue(hasSetData: bool) returns (calls: seq<HostCall<seq<Palette>>>)
      ensures selected == "" ==> calls == []
      ensures selected != "" ==> calls == [OnNext] + (if hasSetData then [SetData(palettes)] else [])
    {
      if selected == "" {
        calls := [];
      } else if hasSetData {
        calls := [OnNext, SetData(palettes)];
      } else {
        calls := [OnNext];
      }
    }
  }

  /** Shuffling yields exactly three palettes, the first one kept and the other two random
      palettes of the usual shape. */
  lemma ShuffleShape(palettes: seq<Palette>, d1: Draw, d2: Draw)
    requires |palettes| >= 1 && InBounds(d1) && InBounds(d2)
    ensures var r := palettes[..1] + [RandomPalette(d1), RandomPalette(d2)];
      && |r| == 3 && r[0] == palettes[0]
      && forall i | 1 <= i < 3 :: r[i].name == "Custom" && |r[i].shades| == 5 && r[i].shades[2] == r[i].hex
  {
  }
}
