/** The hex colour decoder `ParseColor` of src/Program.cs: a blank string is
    "no colour", a leading `#` is dropped, an 8-character `AARRGGBB` string
    loses its alpha pair, six characters are read as three base-16 pairs, and
    everything else falls back to white. */
module Color {
  import opened Options

  /** One colour channel, as stored in a System.Drawing.Color. */
  type Byte = b: int | 0 <= b < 256

  datatype Rgb = Rgb(r: Byte, g: Byte, b: Byte)

  /** A resolved (foreground, background) pair, either channel possibly
      absent: what a rule asks for, and what a terminal cell shows. */
  datatype ColorPair = ColorPair(fg: Option<Rgb>, bg: Option<Rgb>)

  /** Both channels absent: the terminal's default colours. */
  const NoColor: ColorPair := ColorPair(None, None)

  /** `Color.White`, the fallback for undecodable colour strings. */
  const White: Rgb := Rgb(255, 255, 255)

  /** `char.IsWhiteSpace`: the Unicode space separators, the line and
      paragraph separators, U+0009..U+000D and U+0085. */
  predicate IsWhiteSpace(c: char) {
    || '\U{9}' <= c <= '\U{D}'
    || c == ' '
    || c == '\U{85}'
    || c == '\U{A0}'
    || c == '\U{1680}'
    || '\U{2000}' <= c <= '\U{200A}'
    || c == '\U{2028}'
    || c == '\U{2029}'
    || c == '\U{202F}'
    || c == '\U{205F}'
    || c == '\U{3000}'
  }

  /** `string.IsNullOrWhiteSpace` of a (non-null) string. */
  predicate IsBlank(s: string) {
    forall i | 0 <= i < |s| :: IsWhiteSpace(s[i])
  }

  /** The white space `NumberStyles.HexNumber` tolerates around the digits. */
  predicate IsNumberWhite(c: char) {
    '\U{9}' <= c <= '\U{D}' || c == ' '
  }

  predicate IsHexDigit(c: char) {
    '0' <= c <= '9' || 'a' <= c <= 'f' || 'A' <= c <= 'F'
  }

  function HexValue(c: char): (v: nat)
    requires IsHexDigit(c)
    ensures v < 16
  {
    if '0' <= c <= '9' then c as int - '0' as int
    else if 'a' <= c <= 'f' then c as int - 'a' as int + 10
    else c as int - 'A' as int + 10
  }

  /** `int.TryParse(pair, NumberStyles.HexNumber, ...)` on a two-character
      string: two hex digits, or one hex digit with white space before or
      after it. */
  function ParsePair(a: char, b: char): (r: Option<Byte>)
    ensures r.Some? <==> (IsHexDigit(a) || IsNumberWhite(a)) && (IsHexDigit(b) || IsNumberWhite(b))
                         && (IsHexDigit(a) || IsHexDigit(b))
    ensures r.Some? && !(IsHexDigit(a) && IsHexDigit(b)) ==> r.value < 16
    ensures r.Some? && IsNumberWhite(a) ==> r.value == HexValue(b)
    ensures r.Some? && IsNumberWhite(b) ==> r.value == HexValue(a)
  {
    if IsHexDigit(a) && IsHexDigit(b) then Some(16 * HexValue(a) + HexValue(b))
    else if IsNumberWhite(a) && IsHexDigit(b) then Some(HexValue(b))
    else if IsHexDigit(a) && IsNumberWhite(b) then Some(HexValue(a))
    else None
  }

  /** Drops one leading `#`. */
  function StripHash(s: string): string {
    if |s| > 0 && s[0] == '#' then s[1..] else s
  }

  /** Drops the alpha pair of an 8-character `AARRGGBB` string. */
  function StripAlpha(s: string): string {
    if |s| == 8 then s[2..] else s
  }

  /** What is left to read as `RRGGBB` once the hash and the alpha pair are gone. */
  function HexPart(s: string): string {
    StripAlpha(StripHash(s))
  }

  /** `ParseColor`: `None` exactly for a blank string; otherwise some colour,
      white when the string is not six hex pairs after stripping. */
  function ParseColor(s: string): (r: Option<Rgb>)
    ensures r.None? <==> IsBlank(s)
    ensures !IsBlank(s) && |HexPart(s)| != 6 ==> r == Some(White)
  {
    if IsBlank(s) then None
    else
      var h := HexPart(s);
      if |h| == 6 then
        match (ParsePair(h[0], h[1]), ParsePair(h[2], h[3]), ParsePair(h[4], h[5]))
        case (Some(r), Some(g), Some(b)) => Some(Rgb(r, g, b))
        case _ => Some(White)
      else Some(White)
  }

  // ---------------------------------------------------------------------
  // The encoder partner: six upper-case hex digits for a colour.

  function HexChar(v: nat): (c: char)
    requires v < 16
    ensures IsHexDigit(c) && HexValue(c) == v
  {
    if v < 10 then ('0' as int + v) as char else ('A' as int + v - 10) as char
  }

  /** Two hex digits for one channel. */
  function FormatByte(v: Byte): string {
    [HexChar(v / 16), HexChar(v % 16)]
  }

  /** The `RRGGBB` spelling of a colour. */
  function FormatHex(c: Rgb): (s: string)
    ensures |s| == 6 && forall i | 0 <= i < 6 :: IsHexDigit(s[i])
  {
    FormatByte(c.r) + FormatByte(c.g) + FormatByte(c.b)
  }

  predicate AllHex(s: string) {
    forall i | 0 <= i < |s| :: IsHexDigit(s[i])
  }

  /** Once the hash and the alpha pair are gone, six hex digits decode
      pair by pair into the three channels. */
  lemma SixHexDigits(s: string)
    requires !IsBlank(s)
    requires |HexPart(s)| == 6 && AllHex(HexPart(s))
    ensures var h := HexPart(s);
            ParseColor(s) == Some(Rgb(16 * HexValue(h[0]) + HexValue(h[1]),
                                      16 * HexValue(h[2]) + HexValue(h[3]),
                                      16 * HexValue(h[4]) + HexValue(h[5])))
  {
    var h := HexPart(s);
    assert IsHexDigit(h[0]) && IsHexDigit(h[1]) && IsHexDigit(h[2]);
    assert IsHexDigit(h[3]) && IsHexDigit(h[4]) && IsHexDigit(h[5]);
  }

  /** Six hex digits, as they stand, are their own hex part. */
  lemma BareHexPart(s: string)
    requires |s| == 6 && AllHex(s)
    ensures !IsBlank(s) && HexPart(s) == s
  {
    assert !IsWhiteSpace(s[0]);
  }

  /** Decoding the `RRGGBB` spelling of a colour gives the colour back. */
  lemma ParseFormatHex(c: Rgb)
    ensures ParseColor(FormatHex(c)) == Some(c)
  {
    var s := FormatHex(c);
    BareHexPart(s);
    SixHexDigits(s);
  }

  /** A leading `#`, two leading alpha characters, or both, do not change
      the decoded colour of six hex digits. The alpha pair is never looked
      at; only without the `#` must it not start with one, or it would be
      taken for the hash. */
  lemma PrefixesIgnored(s: string, alpha: string)
    requires |s| == 6 && AllHex(s)
    requires |alpha| == 2
    ensures ParseColor("#" + s) == ParseColor(s)
    ensures alpha[0] != '#' ==> ParseColor(alpha + s) == ParseColor(s)
    ensures ParseColor("#" + alpha + s) == ParseColor(s)
  {
    assert !IsWhiteSpace(s[0]);
    assert ("#" + s)[0] == '#' && !IsWhiteSpace(("#" + s)[0]);
    assert HexPart("#" + s) == s by {
      assert ("#" + s)[1..] == s;
    }
    var t := "#" + alpha + s;
    assert t[0] == '#' && !IsWhiteSpace(t[0]);
    assert t[3] == s[0];
    assert HexPart(t) == s by {
      assert t[1..] == alpha + s;
      assert (alpha + s)[2..] == s;
    }
    if alpha[0] != '#' {
      assert (alpha + s)[2] == s[0];
      assert HexPart(alpha + s) == s by {
        assert (alpha + s)[2..] == s;
      }
    }
  }

  /** The spelling `#AARRGGBB` of a colour decodes to that colour whatever
      the alpha characters; so does `AARRGGBB` when they do not start with `#`. */
  lemma ParseFormatHexWithAlpha(c: Rgb, alpha: string)
    requires |alpha| == 2
    ensures ParseColor("#" + alpha + FormatHex(c)) == Some(c)
    ensures alpha[0] != '#' ==> ParseColor(alpha + FormatHex(c)) == Some(c)
  {
    PrefixesIgnored(FormatHex(c), alpha);
    ParseFormatHex(c);
  }

  /** Once the hash and the alpha pair are gone, six characters that are not
      three decodable pairs give white. */
  lemma UndecodablePairsGiveWhite(s: string)
    requires !IsBlank(s)
    requires |HexPart(s)| == 6
    requires var h := HexPart(s);
             ParsePair(h[0], h[1]).None? || ParsePair(h[2], h[3]).None? || ParsePair(h[4], h[5]).None?
    ensures ParseColor(s) == Some(White)
  {
  }

  /** The upper-case form of a hex digit. */
  function UpperHex(c: char): char
    requires IsHexDigit(c)
  {
    if 'a' <= c <= 'f' then (c as int - 'a' as int + 'A' as int) as char else c
  }

  /** The hex parser ignores case: a digit has the value of its upper-case
      form, which is the digit the encoder writes for that value. */
  lemma HexValueIgnoresCase(c: char)
    requires IsHexDigit(c)
    ensures IsHexDigit(UpperHex(c)) && HexValue(c) == HexValue(UpperHex(c))
    ensures HexChar(HexValue(c)) == UpperHex(c)
  {
  }

  /** The lower-case value `d8e21d` of the default `procname` rule. */
  lemma ExampleLowerCase()
    ensures ParseColor("d8e21d") == Some(Rgb(216, 226, 29))
  {
    var s := "d8e21d";
    assert s[0] == 'd' && s[1] == '8' && s[2] == 'e' && s[3] == '2' && s[4] == '1' && s[5] == 'd';
    assert AllHex(s);
    BareHexPart(s);
    SixHexDigits(s);
  }

  /** White space around a single digit is skipped: `FF880 ` reads its
      last pair as `0`. */
  lemma ExampleTrailingSpace()
    ensures ParseColor("FF880 ") == Some(Rgb(255, 136, 0))
  {
    var s := "FF880 ";
    assert s[0] == 'F' && s[1] == 'F' && s[2] == '8' && s[3] == '8' && s[4] == '0' && s[5] == ' ';
    assert !IsWhiteSpace(s[0]) && HexPart(s) == s;
  }

  /** Without `#`, only six or eight characters can decode; after a `#`,
      only seven or nine. Every other non-blank length gives white. */
  lemma OtherLengthsGiveWhite(s: string)
    requires !IsBlank(s)
    requires if s[0] == '#' then |s| != 7 && |s| != 9 else |s| != 6 && |s| != 8
    ensures ParseColor(s) == Some(White)
  {
  }

  /** The worked value `FF8800`. */
  lemma ExampleOrange()
    ensures ParseColor("FF8800") == Some(Rgb(255, 136, 0))
  {
    var s := "FF8800";
    assert s[0] == 'F' && s[1] == 'F' && s[2] == '8' && s[3] == '8' && s[4] == '0' && s[5] == '0';
    assert AllHex(s);
    BareHexPart(s);
    SixHexDigits(s);
  }

  /** The worked value `FF0000`. */
  lemma ExampleRed()
    ensures ParseColor("FF0000") == Some(Rgb(255, 0, 0))
  {
    var s := "FF0000";
    assert s[0] == 'F' && s[1] == 'F' && s[2] == '0' && s[3] == '0' && s[4] == '0' && s[5] == '0';
    assert AllHex(s);
    BareHexPart(s);
    SixHexDigits(s);
  }

  /** The same colour spelled `#80FF8800`: hash and alpha are dropped. */
  lemma ExampleOrangeWithAlpha()
    ensures ParseColor("#80FF8800") == Some(Rgb(255, 136, 0))
  {
    var s := "FF8800";
    assert ParseColor("#" + "80" + s) == ParseColor(s) by {
      assert "80"[0] == '8' && "80"[1] == '0';
      PrefixesIgnored(s, "80");
    }
    assert ParseColor(s) == Some(Rgb(255, 136, 0)) by {
      ExampleOrange();
    }
    AlphaSpelling();
  }

  lemma AlphaSpelling()
    ensures "#80FF8800" == "#" + "80" + "FF8800"
  {
  }

  /** The empty string is "no colour"; a two-character string is white. */
  lemma ExampleBlankAndShort()
    ensures ParseColor("") == None
    ensures ParseColor("12") == Some(White)
  {
    assert !IsWhiteSpace("12"[0]);
    assert HexPart("12") == "12";
  }
}
