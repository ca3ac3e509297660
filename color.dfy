/**
 * Hex colour parsing of the batch generator: `normalize_hex`, `hex_to_rgb`,
 * `parse_color_spec` and the `ColorSpec` record (src/main.rs).
 */
module Color {
  import opened Wrappers
  import opened Text

  /** A `u8`. */
  type Byte = x: int | 0 <= x < 256

  datatype Rgb = Rgb(r: Byte, g: Byte, b: Byte)

  /** A configuration colour: `(u8, u8, u8, f32)`, the opacity as a real. */
  datatype Rgba = Rgba(r: Byte, g: Byte, b: Byte, a: real)

  datatype Channel = Red | Green | Blue

  /** The two `InvalidData` errors of the colour parser, with the text they quote. */
  datatype ColorError =
    | InvalidHexColor(raw: string)
    | InvalidChannel(hex: string, channel: Channel)

  /** A parsed colour: the byte triple and its canonical six-digit upper-case hex text. */
  datatype ColorSpec = ColorSpec(rgb: Rgb, hex: string)

  /** The value of one ASCII hex digit, either case. */
  function HexDigitValue(c: char): (v: nat)
    requires IsAsciiHexDigit(c)
    ensures v < 16
    ensures IsAsciiDigit(c) <==> v < 10
  {
    if IsAsciiDigit(c) then c as int - '0' as int
    else if 'A' <= c <= 'F' then c as int - 'A' as int + 10
    else c as int - 'a' as int + 10
  }

  /** The upper-case hex digit of a value below 16. */
  function UpperHexDigit(v: nat): (c: char)
    requires v < 16
    ensures IsUpperHexDigit(c) && HexDigitValue(c) == v
  {
    if v < 10 then ('0' as int + v) as char else ('A' as int + v - 10) as char
  }

  predicate IsUpperHexDigit(c: char) {
    IsAsciiDigit(c) || 'A' <= c <= 'F'
  }

  /** Exactly six ASCII hex digits, in either case. */
  predicate IsHexBody(s: string) {
    |s| == 6 && forall i :: 0 <= i < 6 ==> IsAsciiHexDigit(s[i])
  }

  /** Exactly six upper-case hex digits: the form `ColorSpec.hex` always has. */
  predicate IsCanonicalHex(s: string) {
    |s| == 6 && forall i :: 0 <= i < 6 ==> IsUpperHexDigit(s[i])
  }

  /** `str::trim_start_matches('#')`: every leading `#` goes. */
  function StripLeadingHashes(s: string): string {
    if s != [] && s[0] == '#' then StripLeadingHashes(s[1..]) else s
  }

  /** What `normalize_hex` validates: the token trimmed, then stripped of leading `#`s. */
  function HexCore(raw: string): string {
    StripLeadingHashes(Trim(raw))
  }

  /** Stripping `#`s keeps every other character. */
  lemma {:induction false} StripKeepsContent(s: string, c: char)
    requires c in s && c != '#'
    ensures c in StripLeadingHashes(s)
  {
    if s[0] == '#' {
      assert c in s[1..] by {
        var i :| 0 <= i < |s| && s[i] == c;
        assert s[1..][i - 1] == c;
      }
      StripKeepsContent(s[1..], c);
    }
  }

  /** A token holding a character that is neither whitespace, `#` nor a hex digit is never a colour. */
  lemma ForeignCharRejected(raw: string, c: char)
    requires c in raw && !IsWhitespace(c) && c != '#' && !IsAsciiHexDigit(c)
    ensures ParseColorSpec(raw) == Failure(InvalidHexColor(raw))
  {
    TrimKeepsContent(raw, c);
    StripKeepsContent(Trim(raw), c);
  }

  /**
   * `normalize_hex`. Accepts exactly when the core text is six hex digits;
   * the result then holds the same digits, upper-cased.
   */
  function NormalizeHex(raw: string): (r: Result<string, ColorError>)
    ensures r.Success? <==> IsHexBody(HexCore(raw))
    ensures r.Success? ==> IsCanonicalHex(r.value)
    ensures r.Success? ==> forall i :: 0 <= i < 6 ==>
              HexDigitValue(r.value[i]) == HexDigitValue(HexCore(raw)[i])
    ensures r.Failure? ==> r.error == InvalidHexColor(raw)
  {
    var core := HexCore(raw);
    if |core| != 6 || !(forall i :: 0 <= i < |core| ==> IsAsciiHexDigit(core[i])) then
      Failure(InvalidHexColor(raw))
    else
      Success(AsciiUpper(core))
  }

  /** Every character of `d` is an ASCII hex digit (true of the empty text). */
  predicate AllHexDigits(d: string) {
    forall i :: 0 <= i < |d| ==> IsAsciiHexDigit(d[i])
  }

  /** The number a run of hex digits denotes, most significant first; 0 for the empty run. */
  function DigitsValue(d: string): nat
    requires AllHexDigits(d)
  {
    if d == [] then 0 else DigitsValue(d[..|d| - 1]) * 16 + HexDigitValue(d[|d| - 1])
  }

  /**
   * `u8::from_str_radix(s, 16)`: an optional leading `+`, then one or more
   * hex digits whose value fits in a byte.
   */
  function ByteFromHex(s: string): (r: Option<Byte>)
    ensures r.Some? ==> s != [] && s != "+"
  {
    if s == [] || s == "+" then None
    else
      var digits := if s[0] == '+' then s[1..] else s;
      if AllHexDigits(digits) then
        var v := DigitsValue(digits);
        if v < 256 then Some(v) else None
      else None
  }

  /** A two-character slice that `from_str_radix` accepts: two hex digits, or `+` and one. */
  predicate IsByteText(s: string) {
    |s| == 2 && IsAsciiHexDigit(s[1]) && (IsAsciiHexDigit(s[0]) || s[0] == '+')
  }

  /**
   * On a two-character slice, as `hex_to_rgb` takes them, decoding succeeds
   * exactly for two hex digits (value 16*high + low) or `+` and one digit
   * (value of that digit).
   */
  lemma ByteTextDecodes(s: string)
    requires |s| == 2
    ensures ByteFromHex(s).Some? <==> IsByteText(s)
    ensures IsAsciiHexDigit(s[0]) && IsAsciiHexDigit(s[1]) ==>
              ByteFromHex(s) == Some(16 * HexDigitValue(s[0]) + HexDigitValue(s[1]))
    ensures s[0] == '+' && IsAsciiHexDigit(s[1]) ==> ByteFromHex(s) == Some(HexDigitValue(s[1]))
  {
    if IsAsciiHexDigit(s[0]) && IsAsciiHexDigit(s[1]) {
      TwoDigitsValue(s);
    } else if s[0] == '+' && IsAsciiHexDigit(s[1]) {
      var d := s[1..];
      assert d == [s[1]] && d[..0] == [];
      assert AllHexDigits(d);
      assert DigitsValue(d) == HexDigitValue(s[1]);
    } else if s[0] == '+' {
      assert !AllHexDigits(s[1..]) by { assert s[1..][0] == s[1]; }
    } else {
      assert s[0] != '+' && !AllHexDigits(s);
    }
  }

  /**
   * `hex_to_rgb`: each channel from one two-character slice. The slices are
   * taken by byte offset in the source, so the first six characters must be
   * ASCII for them to exist.
   */
  function HexToRgb(hex: string): (r: Result<Rgb, ColorError>)
    requires |hex| >= 6 && forall i :: 0 <= i < 6 ==> IsAscii(hex[i])
    ensures (forall i :: 0 <= i < 6 ==> IsAsciiHexDigit(hex[i])) ==> r == Success(Rgb(
              16 * HexDigitValue(hex[0]) + HexDigitValue(hex[1]),
              16 * HexDigitValue(hex[2]) + HexDigitValue(hex[3]),
              16 * HexDigitValue(hex[4]) + HexDigitValue(hex[5])))
    ensures r.Success? <==> IsByteText(hex[0..2]) && IsByteText(hex[2..4]) && IsByteText(hex[4..6])
    ensures !IsByteText(hex[0..2]) ==> r == Failure(InvalidChannel(hex, Red))
    ensures IsByteText(hex[0..2]) && !IsByteText(hex[2..4]) ==> r == Failure(InvalidChannel(hex, Green))
    ensures IsByteText(hex[0..2]) && IsByteText(hex[2..4]) && !IsByteText(hex[4..6]) ==>
              r == Failure(InvalidChannel(hex, Blue))
    ensures r.Failure? ==> r.error.InvalidChannel? && r.error.hex == hex
  {
    ByteTextDecodes(hex[0..2]);
    ByteTextDecodes(hex[2..4]);
    ByteTextDecodes(hex[4..6]);
    match ByteFromHex(hex[0..2])
    case None => Failure(InvalidChannel(hex, Red))
    case Some(red) =>
      match ByteFromHex(hex[2..4])
      case None => Failure(InvalidChannel(hex, Green))
      case Some(green) =>
        match ByteFromHex(hex[4..6])
        case None => Failure(InvalidChannel(hex, Blue))
        case Some(blue) => Success(Rgb(red, green, blue))
  }

  /** The inverse direction: a byte triple as six upper-case hex digits. */
  function EncodeHex(rgb: Rgb): (s: string)
    ensures IsCanonicalHex(s)
  {
    [UpperHexDigit(rgb.r / 16), UpperHexDigit(rgb.r % 16),
     UpperHexDigit(rgb.g / 16), UpperHexDigit(rgb.g % 16),
     UpperHexDigit(rgb.b / 16), UpperHexDigit(rgb.b % 16)]
  }

  /** `parse_color_spec`: normalise, then decode; the pair always agrees. */
  function ParseColorSpec(raw: string): (r: Result<ColorSpec, ColorError>)
    ensures r.Success? <==> IsHexBody(HexCore(raw))
    ensures r.Success? ==> IsCanonicalHex(r.value.hex) && EncodeHex(r.value.rgb) == r.value.hex
    ensures r.Success? ==> NormalizeHex(raw) == Success(r.value.hex) && HexToRgb(r.value.hex) == Success(r.value.rgb)
    ensures r.Failure? ==> r.error == InvalidHexColor(raw)
  {
    match NormalizeHex(raw)
    case Failure(e) => Failure(e)
    case Success(hex) =>
      NormalizedDecodes(raw, hex);
      match HexToRgb(hex)
      case Failure(e) => Failure(e)
      case Success(rgb) => Success(ColorSpec(rgb, hex))
  }

  lemma TwoDigitsValue(d: string)
    requires |d| == 2 && IsAsciiHexDigit(d[0]) && IsAsciiHexDigit(d[1])
    ensures DigitsValue(d) == 16 * HexDigitValue(d[0]) + HexDigitValue(d[1])
  {
    var h := d[..1];
    assert h == [d[0]] && h[..0] == [];
    assert DigitsValue(h) == HexDigitValue(d[0]);
    assert d[..|d| - 1] == h;
  }

  /** Splitting a byte into its two hex digits undoes putting them together. */
  lemma ByteDigits(hi: nat, lo: nat)
    requires hi < 16 && lo < 16
    ensures (16 * hi + lo) / 16 == hi && (16 * hi + lo) % 16 == lo
  {
  }

  /** A canonical hex digit is the digit of its own value. */
  lemma UpperDigitRoundTrip(c: char)
    requires IsUpperHexDigit(c)
    ensures UpperHexDigit(HexDigitValue(c)) == c
  {
  }

  /** Re-encoding the decoded bytes of canonical hex text gives the text back. */
  lemma CanonicalHexRoundTrip(hex: string)
    requires IsCanonicalHex(hex)
    ensures HexToRgb(hex).Success?
    ensures EncodeHex(HexToRgb(hex).value) == hex
  {
    var v := seq(6, i requires 0 <= i < 6 => HexDigitValue(hex[i]));
    var rgb := HexToRgb(hex).value;
    assert rgb == Rgb(16 * v[0] + v[1], 16 * v[2] + v[3], 16 * v[4] + v[5]);
    ByteDigits(v[0], v[1]);
    ByteDigits(v[2], v[3]);
    ByteDigits(v[4], v[5]);
    forall i | 0 <= i < 6 ensures UpperHexDigit(v[i]) == hex[i] {
      UpperDigitRoundTrip(hex[i]);
    }
    var e := EncodeHex(rgb);
    assert e == [UpperHexDigit(v[0]), UpperHexDigit(v[1]), UpperHexDigit(v[2]),
                 UpperHexDigit(v[3]), UpperHexDigit(v[4]), UpperHexDigit(v[5])];
  }

  /**
   * On any output of `normalize_hex`, `hex_to_rgb` cannot fail, and
   * re-encoding its bytes gives that output back.
   */
  lemma NormalizedDecodes(raw: string, hex: string)
    requires NormalizeHex(raw) == Success(hex)
    ensures HexToRgb(hex).Success?
    ensures EncodeHex(HexToRgb(hex).value) == hex
  {
    CanonicalHexRoundTrip(hex);
  }

  /** Decoding the canonical text of a byte triple gives the triple back. */
  lemma EncodeThenDecode(rgb: Rgb)
    ensures HexToRgb(EncodeHex(rgb)) == Success(rgb)
  {
    var s := EncodeHex(rgb);
    assert HexDigitValue(s[0]) == rgb.r / 16 && HexDigitValue(s[1]) == rgb.r % 16;
    assert HexDigitValue(s[2]) == rgb.g / 16 && HexDigitValue(s[3]) == rgb.g % 16;
    assert HexDigitValue(s[4]) == rgb.b / 16 && HexDigitValue(s[5]) == rgb.b % 16;
  }

  /** Canonical hex text is already normal: `normalize_hex` returns it unchanged. */
  lemma CanonicalIsNormal(hex: string)
    requires IsCanonicalHex(hex)
    ensures NormalizeHex(hex) == Success(hex)
  {
    TrimKeepsUnpadded(hex);
    assert HexCore(hex) == hex;
    assert AsciiUpper(hex) == hex;
  }

  /** Parsing the canonical text of a colour gives back that colour and that text. */
  lemma ParseEncoded(rgb: Rgb)
    ensures ParseColorSpec(EncodeHex(rgb)) == Success(ColorSpec(rgb, EncodeHex(rgb)))
  {
    CanonicalIsNormal(EncodeHex(rgb));
    EncodeThenDecode(rgb);
  }

  /** Any number of leading `#`s is accepted; a blank between `#` and digits is not. */
  // The literals are parameters fixed by `requires`; written inline, the solver
  // expands them on every step and the proof no longer fits its resource limit.
  lemma HashPrefixes(hashes: string, spaced: string)
    requires hashes == "##ffaa00" && spaced == "# ffaa00"
    ensures NormalizeHex(hashes) == Success("FFAA00")
    ensures NormalizeHex(spaced) == Failure(InvalidHexColor(spaced))
  {
    TrimKeepsUnpadded(hashes);
    var core := hashes[2..];
    assert StripLeadingHashes(hashes) == StripLeadingHashes(hashes[1..]) == StripLeadingHashes(core) == core;
    assert AsciiUpper(core) == "FFAA00";
    TrimKeepsUnpadded(spaced);
    assert StripLeadingHashes(spaced) == StripLeadingHashes(spaced[1..]) == spaced[1..];
    assert spaced[1] == ' ';
  }

  /** The decoded bytes of `FFAA00`. */
  lemma DecodeFfaa00()
    ensures HexToRgb("FFAA00") == Success(Rgb(255, 170, 0))
  {
  }

  /** Six bare hex digits, or the same after one `#`, normalise to their upper-case form. */
  lemma NormalizeBare(raw: string, digits: string)
    requires IsHexBody(digits)
    requires raw == digits || raw == "#" + digits
    ensures NormalizeHex(raw) == Success(AsciiUpper(digits))
  {
    TrimKeepsUnpadded(raw);
    assert StripLeadingHashes(digits) == digits;
    if raw != digits {
      assert raw[1..] == digits;
    }
  }

  /** A successful normalisation followed by a successful decoding is a parsed colour. */
  lemma ParsedFrom(raw: string, hex: string, rgb: Rgb)
    requires NormalizeHex(raw) == Success(hex) && HexToRgb(hex) == Success(rgb)
    ensures ParseColorSpec(raw) == Success(ColorSpec(rgb, hex))
  {
  }

  /** A `#`-prefixed mixed-case spelling parses to its canonical form. */
  // The literals are parameters fixed by `requires`; written inline, the solver
  // expands them on every step and the proof no longer fits its resource limit.
  lemma ParseMixedCase(raw: string)
    requires raw == "#ffAA00"
    ensures ParseColorSpec(raw) == Success(ColorSpec(Rgb(255, 170, 0), "FFAA00"))
  {
    var digits := raw[1..];
    NormalizeBare(raw, digits);
    assert AsciiUpper(digits) == "FFAA00";
    DecodeFfaa00();
    ParsedFrom(raw, "FFAA00", Rgb(255, 170, 0));
  }

  /** A bare lower-case spelling parses to the same bytes and the same text. */
  // The literals are parameters fixed by `requires`; written inline, the solver
  // expands them on every step and the proof no longer fits its resource limit.
  lemma ParseLowerCase(raw: string)
    requires raw == "ffaa00"
    ensures ParseColorSpec(raw) == Success(ColorSpec(Rgb(255, 170, 0), "FFAA00"))
  {
    NormalizeBare(raw, raw);
    assert AsciiUpper(raw) == "FFAA00";
    DecodeFfaa00();
    ParsedFrom(raw, "FFAA00", Rgb(255, 170, 0));
  }

  /**
   * `hex_to_rgb` on its own accepts a `+` before a digit, as `u8::from_str_radix`
   * does; `normalize_hex` never lets such text through to it.
   */
  lemma SignedDigitsAccepted()
    ensures HexToRgb("+F+F+F") == Success(Rgb(15, 15, 15))
    ensures NormalizeHex("+F+F+F").Failure?
  {
    var s := "+F+F+F";
    assert s[0..2] == "+F" && s[2..4] == "+F" && s[4..6] == "+F";
    assert "+F"[1..] == "F";
    assert DigitsValue("F") == 15 by { assert "F"[..0] == []; }
    assert ByteFromHex("+F") == Some(15);
    TrimKeepsUnpadded(s);
    assert StripLeadingHashes(s) == s;
  }
}
