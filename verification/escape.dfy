/** The escape-sequence builder `SetColor` of src/Program.cs as a pure
    function from the two optional channels to the string it writes, and a
    decoder for those strings that recovers both channels. */
module Escape {
  import opened Options
  import opened Color

  /** The escape character, `(char)27`. */
  const Esc: char := '\U{1B}'

  /** SGR parameter selecting a 24-bit foreground colour. */
  const ForegroundSelector: nat := 38
  /** SGR parameter selecting a 24-bit background colour. */
  const BackgroundSelector: nat := 48

  predicate IsDigit(c: char) {
    '0' <= c <= '9'
  }

  function DigitChar(d: nat): (c: char)
    requires d < 10
    ensures IsDigit(c)
  {
    ('0' as int + d) as char
  }

  /** The decimal spelling of a number, as string interpolation writes a
      byte: no sign, no leading zeros. */
  function Decimal(n: nat): (s: string)
    ensures |s| > 0 && forall i | 0 <= i < |s| :: IsDigit(s[i])
    ensures n == 0 || s[0] != '0'
    decreases n
  {
    if n < 10 then [DigitChar(n)] else Decimal(n / 10) + [DigitChar(n % 10)]
  }

  /** `ESC[<sel>;2;R;G;Bm`: one 24-bit colour sequence. */
  function TrueColor(selector: nat, c: Rgb): string {
    [Esc] + "[" + Decimal(selector) + ";2;" + Decimal(c.r) + ";" + Decimal(c.g) + ";" + Decimal(c.b) + "m"
  }

  /** `ESC[0m`: back to the terminal's default colours. */
  const ResetCode: string := [Esc] + "[0m"

  /** The string `SetColor(fg, bg)` writes: one escape sequence or two, the
      reset exactly when both channels are absent. */
  function SetColorCode(fg: Option<Rgb>, bg: Option<Rgb>): (r: string)
    ensures |r| >= 4 && r[0] == Esc && r[|r| - 1] == 'm'
    ensures r == ResetCode <==> fg.None? && bg.None?
  {
    match (fg, bg)
    case (None, None) => ResetCode
    case (Some(f), None) => TrueColor(ForegroundSelector, f)
    case (None, Some(b)) => TrueColor(BackgroundSelector, b)
    case (Some(f), Some(b)) => TrueColor(ForegroundSelector, f) + TrueColor(BackgroundSelector, b)
  }

  // ---------------------------------------------------------------------
  // Decoding.

  function Pow10(k: nat): (p: nat)
    ensures p >= 1
  {
    if k == 0 then 1 else 10 * Pow10(k - 1)
  }

  /** Reads a run of decimal digits, accumulating onto `acc`. */
  function ReadDigits(s: string, acc: nat): (nat, string)
    decreases |s|
  {
    if |s| > 0 && IsDigit(s[0]) then ReadDigits(s[1..], acc * 10 + (s[0] as int - '0' as int))
    else (acc, s)
  }

  /** A number of at least one digit, and what follows it. */
  function ReadNumber(s: string): Option<(nat, string)> {
    if |s| > 0 && IsDigit(s[0]) then Some(ReadDigits(s, 0)) else None
  }

  /** A number in 0..255. */
  function ReadByte(s: string): Option<(Byte, string)> {
    var (n, rest) :- ReadNumber(s);
    if n < 256 then Some((n, rest)) else None
  }

  /** The rest of `s` after the literal `prefix`. */
  function Expect(prefix: string, s: string): Option<string> {
    if prefix <= s then Some(s[|prefix|..]) else None
  }

  /** One `ESC[<sel>;2;R;G;Bm` sequence: its selector, its colour and what follows. */
  function ReadTrueColor(s: string): Option<(nat, Rgb, string)> {
    var s1 :- Expect([Esc] + "[", s);
    var (sel, s2) :- ReadNumber(s1);
    var s3 :- Expect(";2;", s2);
    var (r, s4) :- ReadByte(s3);
    var s5 :- Expect(";", s4);
    var (g, s6) :- ReadByte(s5);
    var s7 :- Expect(";", s6);
    var (b, s8) :- ReadByte(s7);
    var s9 :- Expect("m", s8);
    Some((sel, Rgb(r, g, b), s9))
  }

  /** Recovers the two channels from a string `SetColor` could have written. */
  function DecodeSetColor(s: string): Option<(Option<Rgb>, Option<Rgb>)> {
    if s == ResetCode then Some((None, None))
    else
      var (sel, c, rest) :- ReadTrueColor(s);
      if sel == BackgroundSelector && rest == [] then Some((None, Some(c)))
      else if sel == ForegroundSelector && rest == [] then Some((Some(c), None))
      else if sel == ForegroundSelector then
        var (sel2, c2, rest2) :- ReadTrueColor(rest);
        if sel2 == BackgroundSelector && rest2 == [] then Some((Some(c), Some(c2))) else None
      else None
  }

  lemma ReadOneDigit(d: nat, rest: string, acc: nat)
    requires d < 10
    ensures ReadDigits([DigitChar(d)] + rest, acc) == ReadDigits(rest, acc * 10 + d)
  {
    assert ([DigitChar(d)] + rest)[1..] == rest;
  }

  lemma ShiftDigit(acc: nat, p: nat, n: nat)
    requires n >= 10
    ensures (acc * p + n / 10) * 10 + n % 10 == acc * (10 * p) + n
  {
    assert n == (n / 10) * 10 + n % 10;
    assert (acc * p + n / 10) * 10 == acc * p * 10 + (n / 10) * 10;
  }

  lemma {:induction false} ReadDecimal(n: nat, rest: string, acc: nat)
    ensures ReadDigits(Decimal(n) + rest, acc) == ReadDigits(rest, acc * Pow10(|Decimal(n)|) + n)
    decreases n
  {
    if n < 10 {
      ReadOneDigit(n, rest, acc);
    } else {
      var d := [DigitChar(n % 10)];
      var p := Pow10(|Decimal(n / 10)|);
      assert Decimal(n) + rest == Decimal(n / 10) + (d + rest);
      ReadDecimal(n / 10, d + rest, acc);
      ReadOneDigit(n % 10, rest, acc * p + n / 10);
      ShiftDigit(acc, p, n);
      assert Pow10(|Decimal(n)|) == 10 * p;
    }
  }

  /** A number spelled by `Decimal` and followed by a non-digit reads back. */
  lemma ReadNumberDecimal(n: nat, rest: string)
    requires rest == [] || !IsDigit(rest[0])
    ensures ReadNumber(Decimal(n) + rest) == Some((n, rest))
  {
    ReadDecimal(n, rest, 0);
    assert (Decimal(n) + rest)[0] == Decimal(n)[0];
  }

  lemma ExpectPrefix(prefix: string, rest: string)
    ensures Expect(prefix, prefix + rest) == Some(rest)
  {
    assert (prefix + rest)[..|prefix|] == prefix;
    assert (prefix + rest)[|prefix|..] == rest;
  }

  /** `TrueColor(sel, c) + rest`, grouped the way the decoder reads it. */
  lemma TrueColorNested(sel: nat, c: Rgb, rest: string)
    ensures TrueColor(sel, c) + rest
         == [Esc] + "[" + (Decimal(sel) + (";2;" + (Decimal(c.r) + (";" + (Decimal(c.g) + (";" + (Decimal(c.b) + ("m" + rest))))))))
  {
  }

  lemma {:induction false} ReadTrueColorBack(sel: nat, c: Rgb, rest: string)
    ensures ReadTrueColor(TrueColor(sel, c) + rest) == Some((sel, c, rest))
  {
    var tail := "m" + rest;
    var s8 := Decimal(c.b) + tail;
    var s6 := Decimal(c.g) + (";" + s8);
    var s4 := Decimal(c.r) + (";" + s6);
    var s2 := Decimal(sel) + (";2;" + s4);
    var s := [Esc] + "[" + s2;
    TrueColorNested(sel, c, rest);
    ExpectPrefix([Esc] + "[", s2);
    ReadNumberDecimal(sel, ";2;" + s4);
    ExpectPrefix(";2;", s4);
    ReadNumberDecimal(c.r, ";" + s6);
    ExpectPrefix(";", s6);
    ReadNumberDecimal(c.g, ";" + s8);
    ExpectPrefix(";", s8);
    ReadNumberDecimal(c.b, tail);
    ExpectPrefix("m", rest);
  }

  lemma SelectorsSpelled()
    ensures Decimal(ForegroundSelector) == "38"
    ensures Decimal(BackgroundSelector) == "48"
  {
  }

  /** `SetColor` writes a string that determines both channels: decoding it
      gives back exactly the foreground and background it was called with. */
  lemma SetColorCodeRoundTrip(fg: Option<Rgb>, bg: Option<Rgb>)
    ensures DecodeSetColor(SetColorCode(fg, bg)) == Some((fg, bg))
  {
    match (fg, bg)
    case (None, None) =>
    case (Some(f), None) =>
      ReadTrueColorBack(ForegroundSelector, f, []);
      assert TrueColor(ForegroundSelector, f) + [] == TrueColor(ForegroundSelector, f);
      assert TrueColor(ForegroundSelector, f) != ResetCode by {
        assert |Decimal(f.r)| >= 1;
      }
    case (None, Some(b)) =>
      ReadTrueColorBack(BackgroundSelector, b, []);
      assert TrueColor(BackgroundSelector, b) + [] == TrueColor(BackgroundSelector, b);
      assert TrueColor(BackgroundSelector, b) != ResetCode by {
        assert |Decimal(b.r)| >= 1;
      }
    case (Some(f), Some(b)) =>
      var t := TrueColor(BackgroundSelector, b);
      ReadTrueColorBack(ForegroundSelector, f, t);
      ReadTrueColorBack(BackgroundSelector, b, []);
      assert t + [] == t;
      assert TrueColor(ForegroundSelector, f) + t != ResetCode by {
        assert |Decimal(f.r)| >= 1;
      }
  }

  /** Each of the four cases writes its own kind of sequence: the reset code
      for no colour, one `38;2` sequence for a foreground, one `48;2`
      sequence for a background, and foreground before background for both. */
  lemma SetColorCodeShape(fg: Option<Rgb>, bg: Option<Rgb>)
    ensures fg.None? && bg.None? ==> SetColorCode(fg, bg) == [Esc] + "[0m"
    ensures fg.Some? && bg.None? ==>
      SetColorCode(fg, bg) == [Esc] + "[38;2;" + Decimal(fg.value.r) + ";" + Decimal(fg.value.g) + ";" + Decimal(fg.value.b) + "m"
    ensures fg.None? && bg.Some? ==>
      SetColorCode(fg, bg) == [Esc] + "[48;2;" + Decimal(bg.value.r) + ";" + Decimal(bg.value.g) + ";" + Decimal(bg.value.b) + "m"
    ensures fg.Some? && bg.Some? ==>
      SetColorCode(fg, bg) == SetColorCode(fg, None) + SetColorCode(None, bg)
  {
    match (fg, bg)
    case (None, None) =>
    case (Some(f), None) =>
      SelectorsSpelled();
      assert "[38;2;" == "[" + "38" + ";2;";
      TrueColorSpelled(ForegroundSelector, f, "[38;2;");
    case (None, Some(b)) =>
      SelectorsSpelled();
      assert "[48;2;" == "[" + "48" + ";2;";
      TrueColorSpelled(BackgroundSelector, b, "[48;2;");
    case (Some(f), Some(b)) =>
  }

  lemma TrueColorSpelled(sel: nat, c: Rgb, head: string)
    requires head == "[" + Decimal(sel) + ";2;"
    ensures TrueColor(sel, c) == [Esc] + head + Decimal(c.r) + ";" + Decimal(c.g) + ";" + Decimal(c.b) + "m"
  {
  }
}
