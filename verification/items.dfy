/**
 * Items: the light/quality pair an infusion works on, and the token syntax
 * that names one (`+310` exotic, `-280` rare, `300` legendary).
 */
module Items {
  import opened Results

  /** Item quality; only `Exotic` influences the infusion arithmetic. */
  datatype Quality = Rare | Legendary | Exotic

  /** The explicit `(light, quality)` form; building one never fails. */
  datatype Item = Item(light: int, quality: Quality)

  /** Lights never decrease along the sequence. */
  predicate Ascending(s: seq<Item>) {
    forall i, j :: 0 <= i < j < |s| ==> s[i].light <= s[j].light
  }

  predicate IsDigit(c: char) {
    '0' <= c <= '9'
  }

  predicate AllDigits(s: string) {
    forall i :: 0 <= i < |s| ==> IsDigit(s[i])
  }

  function DigitValue(c: char): (d: nat)
    requires IsDigit(c)
    ensures d < 10
  {
    (c as int) - ('0' as int)
  }

  function DigitChar(d: nat): (c: char)
    requires d < 10
    ensures IsDigit(c) && DigitValue(c) == d
  {
    (('0' as int) + d) as char
  }

  /** The value of a run of decimal digits, most significant first. */
  function DigitsValue(s: string): nat
    requires AllDigits(s)
  {
    if |s| == 0 then 0 else 10 * DigitsValue(s[..|s| - 1]) + DigitValue(s[|s| - 1])
  }

  /** A sign character: `+` or `-`. */
  predicate IsSign(c: char) {
    c == '+' || c == '-'
  }

  /** The text after an optional leading sign. */
  function Unsigned(s: string): string {
    if |s| > 0 && IsSign(s[0]) then s[1..] else s
  }

  /**
   * Decimal integer text: an optional `+` or `-` followed by at least one
   * ASCII digit. This is the part of Python's `int()` the engine relies on.
   */
  function ParseInt(s: string): (r: Option<int>)
    ensures r.Some? ==> |s| > 0
    ensures r.Some? && s[0] == '-' ==> r.value <= 0
    ensures r.Some? && s[0] != '-' ==> r.value >= 0
    ensures (exists i :: 0 <= i < |s| && !IsDigit(s[i]) && !IsSign(s[i])) ==> r.None?
  {
    if |s| > 0 && IsSign(s[0]) then
      var digits := s[1..];
      if |digits| > 0 && AllDigits(digits) then
        Some(if s[0] == '-' then -(DigitsValue(digits) as int) else DigitsValue(digits))
      else
        None
    else if |s| > 0 && AllDigits(s) then
      Some(DigitsValue(s))
    else
      None
  }

  /** Shortest decimal digits of a natural number. */
  function FormatNat(n: nat): (s: string)
    ensures |s| > 0 && AllDigits(s)
    decreases n
  {
    if n < 10 then [DigitChar(n)] else FormatNat(n / 10) + [DigitChar(n % 10)]
  }

  /** Canonical decimal text of an integer: a `-` only when negative. */
  function FormatInt(n: int): string {
    if n < 0 then "-" + FormatNat(-n) else FormatNat(n)
  }

  lemma {:induction false} DigitsValueOfFormatNat(n: nat)
    ensures DigitsValue(FormatNat(n)) == n
    decreases n
  {
    if n >= 10 {
      var s := FormatNat(n);
      DigitsValueOfFormatNat(n / 10);
      assert s[..|s| - 1] == FormatNat(n / 10);
    }
  }

  /**
   * The texts that read as an integer: non-empty, every character a digit
   * except for one sign in front, and at least one digit after that sign.
   * The digits after the sign give the magnitude.
   */
  lemma ParseIntAccepts(s: string)
    ensures ParseInt(s).Some? <==>
      && |s| > 0
      && (IsSign(s[0]) ==> |s| > 1)
      && forall i :: 0 <= i < |s| ==> IsDigit(s[i]) || (i == 0 && IsSign(s[i]))
    ensures ParseInt(s).Some? ==> |Unsigned(s)| > 0 && AllDigits(Unsigned(s))
    ensures ParseInt(s).Some? ==>
      var n := ParseInt(s).value;
      DigitsValue(Unsigned(s)) == if n < 0 then -n else n
  {
    if |s| > 0 && IsSign(s[0]) && |s| > 1 && !AllDigits(s[1..]) {
      var i :| 0 <= i < |s| - 1 && !IsDigit(s[1..][i]);
      assert !IsDigit(s[i + 1]);
    }
  }

  /** Unsigned digits read as their value. */
  lemma ParseIntDigits(d: string)
    requires |d| > 0 && AllDigits(d)
    ensures ParseInt(d) == Some(DigitsValue(d) as int)
  {
    assert !IsSign(d[0]);
  }

  /** A leading `+` reads the digits unchanged; a leading `-` negates them. */
  lemma ParseIntSigned(d: string)
    requires |d| > 0 && AllDigits(d)
    ensures ParseInt("+" + d) == ParseInt(d)
    ensures ParseInt("-" + d) == Some(-ParseInt(d).value)
  {
    ParseIntDigits(d);
    assert ("+" + d)[1..] == d;
    assert ("-" + d)[1..] == d;
  }

  /** Reading back a formatted integer gives the integer. */
  lemma ParseFormatInt(n: int)
    ensures ParseInt(FormatInt(n)) == Some(n)
  {
    if n < 0 {
      DigitsValueOfFormatNat(-n);
      ParseIntDigits(FormatNat(-n));
      ParseIntSigned(FormatNat(-n));
    } else {
      DigitsValueOfFormatNat(n);
      ParseIntDigits(FormatNat(n));
    }
  }

  lemma {:induction false} DigitsValueLeadingZero(d: string)
    requires AllDigits(d)
    ensures AllDigits("0" + d) && DigitsValue("0" + d) == DigitsValue(d)
    decreases |d|
  {
    if |d| > 0 {
      assert ("0" + d)[..|d|] == "0" + d[..|d| - 1];
      DigitsValueLeadingZero(d[..|d| - 1]);
    }
  }

  /** A leading zero does not change a number, with or without a sign before it. */
  lemma ParseIntLeadingZero(d: string)
    requires |d| > 0 && AllDigits(d)
    ensures ParseInt("0" + d) == ParseInt(d)
    ensures ParseInt("+0" + d) == ParseInt("+" + d)
    ensures ParseInt("-0" + d) == ParseInt("-" + d)
  {
    var z := "0" + d;
    assert ParseInt(z) == ParseInt(d) by {
      DigitsValueLeadingZero(d);
      ParseIntDigits(d);
      ParseIntDigits(z);
    }
    assert |z| > 0 && AllDigits(z) by {
      DigitsValueLeadingZero(d);
    }
    ParseIntSigned(d);
    ParseIntSigned(z);
    assert "+0" + d == "+" + z;
    assert "-0" + d == "-" + z;
  }

  /** The quality a token's first character selects. */
  function SigilQuality(c: char): Quality {
    if c == '+' then Exotic else if c == '-' then Rare else Legendary
  }

  /** The text handed to `int()`: the rest after a sigil, else the whole token. */
  function NumericPart(token: string): string
    requires |token| > 0
  {
    if SigilQuality(token[0]) == Legendary then token else token[1..]
  }

  /**
   * How a token splits: `+` selects exotic, `-` rare and anything else
   * legendary; the numeric part is the token without that one sign, if any.
   */
  lemma TokenParts(token: string)
    requires |token| > 0
    ensures SigilQuality(token[0]) == Exotic <==> token[0] == '+'
    ensures SigilQuality(token[0]) == Rare <==> token[0] == '-'
    ensures SigilQuality(token[0]) == Legendary <==> !IsSign(token[0])
    ensures |NumericPart(token)| == |token| - (if IsSign(token[0]) then 1 else 0)
    ensures NumericPart(token) == token[|token| - |NumericPart(token)|..]
  {
  }

  /** `Item(token)`: read quality from the sigil and light from the rest. */
  function Parse(token: string): (r: Result<Item>)
    ensures |token| == 0 <==> r == Err(EmptyToken)
    ensures |token| > 0 ==> (r.Ok? <==> ParseInt(NumericPart(token)).Some?)
    ensures r.Ok? ==> Some(r.value.light) == ParseInt(NumericPart(token))
    ensures r.Ok? ==> (r.value.quality == Exotic <==> token[0] == '+')
    ensures r.Ok? ==> (r.value.quality == Rare <==> token[0] == '-')
    ensures r.Err? && |token| > 0 ==> r.error == ParseError(NumericPart(token))
  {
    if |token| == 0 then
      Err(EmptyToken)
    else
      var quality := SigilQuality(token[0]);
      var text := NumericPart(token);
      match ParseInt(text)
      case Some(light) => Ok(Item(light, quality))
      case None => Err(ParseError(text))
  }

  /** The token that names an item: a sigil for exotic and rare, then the light. */
  function Format(x: Item): string {
    match x.quality
    case Exotic => "+" + FormatInt(x.light)
    case Rare => "-" + FormatInt(x.light)
    case Legendary => FormatInt(x.light)
  }

  /**
   * In the modelled grammar every item has a token except a legendary one of
   * negative light: its text would begin with `-` and so read as rare.
   */
  predicate Nameable(x: Item) {
    x.quality != Legendary || x.light >= 0
  }

  lemma ParseFormat(x: Item)
    requires Nameable(x)
    ensures Parse(Format(x)) == Ok(x)
  {
    ParseFormatInt(x.light);
    var t := Format(x);
    if x.quality != Legendary {
      assert t[1..] == FormatInt(x.light);
    } else {
      assert t[0] != '+' && t[0] != '-';
    }
  }

  /** Whatever parses names a nameable item, and its canonical token reads back the same. */
  lemma FormatParse(token: string)
    requires Parse(token).Ok?
    ensures Nameable(Parse(token).value)
    ensures Parse(Format(Parse(token).value)) == Parse(token)
  {
    var x := Parse(token).value;
    if x.quality == Legendary {
      assert token[0] != '-';
    }
    ParseFormat(x);
  }

  /** Examples of the token syntax: signed tokens, including a doubled sign. */
  lemma ParseSignedExamples()
    ensures Parse("+250") == Ok(Item(250, Exotic))
    ensures Parse("-180") == Ok(Item(180, Rare))
    ensures Parse("--5") == Ok(Item(-5, Rare))
  {
    assert "+250"[1..] == "250";
    assert "250"[..2] == "25" && "25"[..1] == "2";
    assert DigitsValue("250") == 250;
    assert "-180"[1..] == "180";
    assert "180"[..2] == "18" && "18"[..1] == "1";
    assert DigitsValue("180") == 180;
    assert "--5"[1..] == "-5" && "-5"[1..] == "5";
  }

  /** Unsigned tokens name legendary items; leading zeros are allowed. */
  lemma ParseBareExamples()
    ensures Parse("300") == Ok(Item(300, Legendary))
    ensures Parse("007") == Ok(Item(7, Legendary))
  {
    assert "300"[..2] == "30" && "30"[..1] == "3";
    assert DigitsValue("300") == 300;
    assert "007"[..2] == "00" && "00"[..1] == "0";
  }

  /** Tokens that fail, and what each failure carries. */
  lemma ParseRejectExamples()
    ensures Parse("200x") == Err(ParseError("200x"))
    ensures Parse("+abc") == Err(ParseError("abc"))
    ensures Parse("+") == Err(ParseError(""))
    ensures Parse("") == Err(EmptyToken)
  {
    assert "200x"[3] == 'x';
    assert "+abc"[1..] == "abc" && "abc"[0] == 'a';
    assert "+"[1..] == "";
  }
}
