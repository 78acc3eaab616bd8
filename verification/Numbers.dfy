/** Reading and writing integers as text, the way Swift's integer initialisers and printf do. */
module Numbers {
  import opened Text

  function DigitValue(c: char): nat {
    if '0' <= c <= '9' then (c - '0') as int
    else if 'a' <= c <= 'z' then (c - 'a') as int + 10
    else if 'A' <= c <= 'Z' then (c - 'A') as int + 10
    else 36
  }

  datatype Radix = Ten | Sixteen {
    predicate Has(d: nat) { d < if Ten? then 10 else 16 }
    function Next(high: nat, d: nat): nat { if Ten? then high * 10 + d else high * 16 + d }
    function High(n: nat): nat { if Ten? then n / 10 else n / 16 }
    function Low(n: nat): (d: nat)
      ensures Has(d) && n == Next(High(n), d)
    {
      if Ten? then n % 10 else n % 16
    }
  }

  /** A non-empty text of digits. */
  function Digits(s: string, radix: Radix): Option<nat> {
    if s == "" then None
    else
      var d := DigitValue(s[|s| - 1]);
      if !radix.Has(d) then None
      else if |s| == 1 then Some(d)
      else match Digits(s[..|s| - 1], radix)
           case None => None
           case Some(high) => Some(radix.Next(high, d))
  }

  function Unsign(s: string): (bool, string) {
    if s != "" && s[0] == '-' then (true, s[1..])
    else if s != "" && s[0] == '+' then (false, s[1..])
    else (false, s)
  }

  /** `UInt32(text, radix:)`: an optional sign and digits; none when it does not fit. */
  function ParseUnsigned(s: string, radix: Radix): (r: Option<nat>)
    ensures r.Some? ==> r.value < 0x1_0000_0000
  {
    var (negative, digits) := Unsign(s);
    match Digits(digits, radix)
    case None => None
    case Some(v) => if v >= 0x1_0000_0000 || (negative && v != 0) then None else Some(v)
  }

  /** `Int(text)` on 64 bits. */
  function ParseInt(s: string): Option<int> {
    var (negative, digits) := Unsign(s);
    match Digits(digits, Ten)
    case None => None
    case Some(v) =>
      var n: int := v;
      var value: int := if negative then -n else n;
      if -0x8000_0000_0000_0000 <= value < 0x8000_0000_0000_0000 then Some(value) else None
  }

  const DIGITS := "0123456789abcdef"

  function DigitChar(d: nat): (c: char)
    requires d < 16
    ensures DigitValue(c) == d
  {
    DIGITS[d]
  }

  /** A number's digits without leading zeros. */
  function Write(n: nat, radix: Radix): (s: string)
    ensures |s| > 0
  {
    if radix.Has(n) then [DigitChar(n)] else Write(radix.High(n), radix) + [DigitChar(radix.Low(n))]
  }

  function Decimal(n: nat): string { Write(n, Ten) }

  function PadZeros(s: string, width: nat): (r: string)
    decreases width - |s|
  {
    if |s| >= width then s else PadZeros("0" + s, width)
  }

  /** `String(format: "%0<width>x", value)` */
  function Hex(v: nat, width: nat): string { PadZeros(Write(v, Sixteen), width) }

  // ---------------------------------------------------------------- reading undoes writing

  lemma DigitsAppend(init: string, last: char, radix: Radix)
    requires Digits(init, radix).Some? && radix.Has(DigitValue(last))
    ensures Digits(init + [last], radix) == Some(radix.Next(Digits(init, radix).value, DigitValue(last)))
  {
    var s := init + [last];
    assert s[..|s| - 1] == init && s[|s| - 1] == last;
  }

  lemma {:induction false} WriteReads(n: nat, radix: Radix)
    ensures Digits(Write(n, radix), radix) == Some(n)
  {
    if !radix.Has(n) {
      var high, low := radix.High(n), radix.Low(n);
      WriteReads(high, radix);
      DigitsAppend(Write(high, radix), DigitChar(low), radix);
    }
  }

  ghost predicate AreDigits(s: string) { forall c :: c in s ==> c in DIGITS }

  lemma {:induction false} WriteIsDigits(n: nat, radix: Radix)
    ensures AreDigits(Write(n, radix))
  {
    if !radix.Has(n) { WriteIsDigits(radix.High(n), radix); }
  }

  lemma {:induction false} ZeroFirst(s: string, radix: Radix)
    ensures Digits(s, radix).Some? ==> Digits("0" + s, radix) == Digits(s, radix)
  {
    if s != "" {
      var t := "0" + s;
      assert t[..|t| - 1] == "0" + s[..|s| - 1];
      if |s| > 1 { ZeroFirst(s[..|s| - 1], radix); }
    }
  }

  lemma {:induction false} PadReads(s: string, width: nat, radix: Radix)
    requires Digits(s, radix).Some? && AreDigits(s)
    ensures Digits(PadZeros(s, width), radix) == Digits(s, radix) && AreDigits(PadZeros(s, width))
    decreases width - |s|
  {
    if |s| < width {
      ZeroFirst(s, radix);
      PadReads("0" + s, width, radix);
    }
  }

  lemma HexReads(v: nat, width: nat)
    ensures Digits(Hex(v, width), Sixteen) == Some(v) && AreDigits(Hex(v, width))
  {
    WriteReads(v, Sixteen);
    WriteIsDigits(v, Sixteen);
    PadReads(Write(v, Sixteen), width, Sixteen);
  }

  lemma DigitsUnsigned(s: string)
    requires s != "" && AreDigits(s)
    ensures Unsign(s) == (false, s)
  {
    assert s[0] in s;
  }

  lemma ParseIntDecimal(n: nat)
    requires n < 0x8000_0000_0000_0000
    ensures ParseInt(Decimal(n)) == Some(n)
  {
    WriteReads(n, Ten);
    WriteIsDigits(n, Ten);
    DigitsUnsigned(Decimal(n));
  }

  lemma ParseHex(v: nat, width: nat)
    requires v < 0x1_0000_0000
    ensures ParseUnsigned(Hex(v, width), Sixteen) == Some(v)
  {
    HexReads(v, width);
    DigitsUnsigned(Hex(v, width));
  }
}
