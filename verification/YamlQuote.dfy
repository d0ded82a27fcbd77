/**
 The projector's YAML quoter, and an independent decoder for the single-line form of a YAML
 double-quoted scalar (YAML 1.2.2, sections 5.7 and 7.3.1). A Go string is a sequence of encoded runes and
 of bytes that encode none, which the quoter's range loop reads as U+FFFD.
 */
module YamlQuote {
  import opened Options
  import opened Sequences

  /** A byte that a Go string may hold outside a rune's encoding: below 0x80 every byte encodes a rune by itself. */
  type StrayByte = b: int | 0x80 <= b < 0x100 witness 0xFF

  /** One step of a range loop over a Go string: an encoded rune, or a byte that is not valid UTF-8. */
  datatype Unit = Rune(c: char) | Invalid(byte: StrayByte)

  /** No rune's encoding has this byte. */
  const NEVER_VALID: StrayByte := 0xFF

  const REPLACEMENT := '\U{FFFD}'

  function RuneOf(unit: Unit): char {
    match unit
    case Rune(c) => c
    case Invalid(_) => REPLACEMENT
  }

  /** The runes that a range loop sees. */
  function Ranged(s: seq<Unit>): string {
    seq(|s|, i requires 0 <= i < |s| => RuneOf(s[i]))
  }

  function Encoded(text: string): seq<Unit> {
    seq(|text|, i requires 0 <= i < |text| => Rune(text[i]))
  }

  // ----- the quoter -----

  function HexDigit(n: nat): char
    requires n < 16
  {
    "0123456789ABCDEF"[n]
  }

  /** What the quoter writes for one rune. */
  function Escape(c: char): string {
    match c
    case '\\' => "\\\\"
    case '"' => "\\\""
    case '\n' => "\\n"
    case '\r' => "\\r"
    case '\t' => "\\t"
    case _ =>
      if c < ' ' then ['\\', 'x', HexDigit(c as int / 16), HexDigit(c as int % 16)] else [c]
  }

  function EscapeAll(s: string): string {
    FlatMap(Escape, s)
  }

  function Quoted(s: string): string {
    "\"" + EscapeAll(s) + "\""
  }

  method YamlQuote(s: seq<Unit>) returns (out: string)
    ensures out == Quoted(Ranged(s))
  {
    ghost var runes := Ranged(s);
    out := "\"";
    for i := 0 to |s|
      invariant out == "\"" + EscapeAll(runes[..i])
    {
      PrefixGrows(runes, i, i + 1);
      FlatMapSnoc(Escape, runes[..i], runes[i]);
      ConcatIsAssociative("\"", EscapeAll(runes[..i]), Escape(runes[i]));
      out := out + Escape(RuneOf(s[i]));
    }
    assert runes[..|s|] == runes;
    out := out + "\"";
  }

  // ----- the decoder -----

  function HexValue(c: char): (v: Option<nat>)
    ensures v.Some? ==> v.value < 16
  {
    if '0' <= c <= '9' then Some(c as int - '0' as int)
    else if 'A' <= c <= 'F' then Some(c as int - 'A' as int + 10)
    else if 'a' <= c <= 'f' then Some(c as int - 'a' as int + 10)
    else None
  }

  function HexNumber(t: string): Option<nat> {
    if t == "" then Some(0)
    else
      var high := HexNumber(t[..|t| - 1]);
      var low := HexValue(t[|t| - 1]);
      if high.Some? && low.Some? then Some(high.value * 16 + low.value) else None
  }

  /** The rune numbered by the first `digits` characters of `t`, and what follows them. */
  function NumberedRune(t: string, digits: nat): (r: Option<(char, string)>)
    ensures r.Some? ==> |r.value.1| <= |t|
  {
    if |t| < digits then None
    else
      match HexNumber(t[..digits])
      case None => None
      case Some(n) =>
        if n < 0xD800 || 0xE000 <= n < 0x11_0000 then Some((n as char, t[digits..])) else None
  }

  /** One escape sequence, read after its backslash: section 5.7. */
  function ReadEscape(t: string): (r: Option<(char, string)>)
    ensures r.Some? ==> |r.value.1| < |t|
  {
    if t == "" then None
    else
      var rest := t[1..];
      match t[0]
      case '0' => Some(('\0', rest))
      case 'a' => Some((7 as char, rest))
      case 'b' => Some((8 as char, rest))
      case 't' => Some(('\t', rest))
      case '\t' => Some(('\t', rest))
      case 'n' => Some(('\n', rest))
      case 'v' => Some((11 as char, rest))
      case 'f' => Some((12 as char, rest))
      case 'r' => Some(('\r', rest))
      case 'e' => Some((27 as char, rest))
      case ' ' => Some((' ', rest))
      case '"' => Some(('"', rest))
      case '/' => Some(('/', rest))
      case '\\' => Some(('\\', rest))
      case 'N' => Some((0x85 as char, rest))
      case '_' => Some((0xA0 as char, rest))
      case 'L' => Some((0x2028 as char, rest))
      case 'P' => Some((0x2029 as char, rest))
      case 'x' => NumberedRune(rest, 2)
      case 'u' => NumberedRune(rest, 4)
      case 'U' => NumberedRune(rest, 8)
      case _ => None
  }

  /**
   Decodes a double-quoted scalar on one line, read after its opening quote: the text it stands
   for and what follows the closing quote. A raw control character other than a tab is refused.
   */
  function DecodeBody(t: string): Option<(string, string)>
    decreases |t|
  {
    if t == "" then None
    else if t[0] == '"' then Some(("", t[1..]))
    else if t[0] == '\\' then
      match ReadEscape(t[1..])
      case None => None
      case Some((c, rest)) => Prepend(c, DecodeBody(rest))
    else if t[0] == '\t' || ' ' <= t[0] then Prepend(t[0], DecodeBody(t[1..]))
    else None
  }

  function Prepend(c: char, tail: Option<(string, string)>): Option<(string, string)> {
    match tail
    case None => None
    case Some((text, rest)) => Some(([c] + text, rest))
  }

  function Decode(t: string): Option<(string, string)> {
    if t != "" && t[0] == '"' then DecodeBody(t[1..]) else None
  }

  // ----- the round trip -----

  lemma HexPairDecodes(n: nat, t: string)
    requires n < 32
    ensures NumberedRune([HexDigit(n / 16), HexDigit(n % 16)] + t, 2) == Some((n as char, t))
  {
    var high, low := HexDigit(n / 16), HexDigit(n % 16);
    var digits := [high, low];
    assert (digits + t)[..2] == digits && (digits + t)[2..] == t;
    assert digits[..1] == [high] && [high][..0] == "";
    assert HexValue(high) == Some(n / 16) && HexValue(low) == Some(n % 16);
    assert HexNumber([high]) == Some(n / 16);
    assert HexNumber(digits) == Some(n / 16 * 16 + n % 16);
  }

  /** What a backslash leads to. */
  function AfterBackslash(t: string): Option<(string, string)> {
    match ReadEscape(t)
    case None => None
    case Some((c, rest)) => Prepend(c, DecodeBody(rest))
  }

  lemma BackslashDecodes(t: string)
    ensures DecodeBody(['\\'] + t) == AfterBackslash(t)
  {
    PartsOfConcat(['\\'], t);
  }

  predicate IsShort(c: char) { c == '\\' || c == '"' || c == '\n' || c == '\r' || c == '\t' }

  function Letter(c: char): char {
    match c
    case '\n' => 'n'
    case '\r' => 'r'
    case '\t' => 't'
    case _ => c
  }

  lemma LetterIsRead(c: char, t: string)
    requires IsShort(c)
    ensures ReadEscape([Letter(c)] + t) == Some((c, t))
  {
    PartsOfConcat([Letter(c)], t);
  }

  lemma ShortEscapeDecodes(c: char, t: string)
    requires IsShort(c)
    ensures DecodeBody(Escape(c) + t) == Prepend(c, DecodeBody(t))
  {
    assert Escape(c) == ['\\'] + [Letter(c)];
    ConcatIsAssociative(['\\'], [Letter(c)], t);
    BackslashDecodes([Letter(c)] + t);
    LetterIsRead(c, t);
  }

  lemma HexIsRead(c: char, t: string)
    requires c < ' '
    ensures ReadEscape(['x'] + ([HexDigit(c as int / 16), HexDigit(c as int % 16)] + t)) == Some((c, t))
  {
    var digits := [HexDigit(c as int / 16), HexDigit(c as int % 16)];
    PartsOfConcat(['x'], digits + t);
    HexPairDecodes(c as int, t);
  }

  lemma HexEscapeDecodes(c: char, t: string)
    requires c < ' ' && !IsShort(c)
    ensures DecodeBody(Escape(c) + t) == Prepend(c, DecodeBody(t))
  {
    var digits := [HexDigit(c as int / 16), HexDigit(c as int % 16)];
    assert Escape(c) == ['\\'] + (['x'] + digits);
    ConcatIsAssociative(['\\'], ['x'] + digits, t);
    ConcatIsAssociative(['x'], digits, t);
    BackslashDecodes(['x'] + (digits + t));
    HexIsRead(c, t);
  }

  /** The decoder reads back one escaped rune and carries on with the rest. */
  lemma DecodeEscape(c: char, t: string)
    ensures DecodeBody(Escape(c) + t) == Prepend(c, DecodeBody(t))
  {
    if IsShort(c) {
      ShortEscapeDecodes(c, t);
    } else if c < ' ' {
      HexEscapeDecodes(c, t);
    } else {
      PartsOfConcat([c], t);
    }
  }

  /** Decoding a quoted string gives the string back and stops at its closing quote. */
  lemma QuoteRoundTrip(s: string, suffix: string)
    ensures Decode(Quoted(s) + suffix) == Some((s, suffix))
  {
    var body := EscapeAll(s) + ("\"" + suffix);
    ConcatIsAssociative("\"" + EscapeAll(s), "\"", suffix);
    ConcatIsAssociative("\"", EscapeAll(s), "\"" + suffix);
    PartsOfConcat("\"", body);
    BodyRoundTrip(s, suffix);
  }

  lemma {:induction false} BodyRoundTrip(s: string, suffix: string)
    ensures DecodeBody(EscapeAll(s) + ("\"" + suffix)) == Some((s, suffix))
  {
    var close := "\"" + suffix;
    if s == "" {
      PartsOfConcat("\"", suffix);
      ConcatNothing(close);
    } else {
      ConcatIsAssociative(Escape(s[0]), EscapeAll(s[1..]), close);
      DecodeEscape(s[0], EscapeAll(s[1..]) + close);
      BodyRoundTrip(s[1..], suffix);
      HeadAndTail(s);
    }
  }

  /** A Go string comes back from its quoted form as it was exactly when it is valid UTF-8. */
  lemma GoTextRoundTripIff(s: seq<Unit>, suffix: string)
    ensures var decoded := Decode(Quoted(Ranged(s)) + suffix);
            && decoded.Some? && decoded.value.1 == suffix
            && (Encoded(decoded.value.0) == s <==> forall unit <- s :: unit.Rune?)
  {
    QuoteRoundTrip(Ranged(s), suffix);
    if unit :| unit in s && unit.Invalid? {
      var i :| 0 <= i < |s| && s[i] == unit;
      assert Encoded(Ranged(s))[i] != s[i];
    }
  }

  /** No other Go string is quoted in the same way, if and only if no U+FFFD is among the runes, encoded or not. */
  lemma QuotedIsInjectiveIff(s: seq<Unit>)
    ensures (forall t :: Quoted(Ranged(t)) == Quoted(Ranged(s)) ==> t == s) <==> REPLACEMENT !in Ranged(s)
  {
    if REPLACEMENT in Ranged(s) {
      var i :| 0 <= i < |s| && Ranged(s)[i] == REPLACEMENT;
      var t := s[i := if s[i].Rune? then Invalid(NEVER_VALID) else Rune(REPLACEMENT)];
      assert Ranged(t) == Ranged(s);
      assert t[i] != s[i];
    } else {
      forall t | Quoted(Ranged(t)) == Quoted(Ranged(s)) ensures t == s {
        QuotedIsInjective(Ranged(t), Ranged(s));
        forall i | 0 <= i < |s| ensures t[i] == s[i] {
          assert Ranged(t)[i] == Ranged(s)[i] && Ranged(s)[i] in Ranged(s);
        }
      }
    }
  }

  /** Two sequences of runes with the same quoted form are the same. */
  lemma QuotedIsInjective(s: string, t: string)
    requires Quoted(s) == Quoted(t)
    ensures s == t
  {
    QuoteRoundTrip(s, "");
    QuoteRoundTrip(t, "");
  }

  /** The quoted form stays on one line: it holds no raw control character. */
  lemma {:induction false} NoRawControl(s: string, k: nat)
    requires k < |Quoted(s)|
    ensures ' ' <= Quoted(s)[k]
  {
    if 0 < k < |Quoted(s)| - 1 {
      NoRawControlInBody(s, k - 1);
    }
  }

  lemma {:induction false} NoRawControlInBody(s: string, k: nat)
    requires k < |EscapeAll(s)|
    ensures ' ' <= EscapeAll(s)[k]
  {
    var e := Escape(s[0]);
    if k >= |e| {
      NoRawControlInBody(s[1..], k - |e|);
    }
  }
}
