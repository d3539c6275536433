// Number and string texts of the overlay protocol (src/plugin/overlay_protocol.cpp), with readers
// that are written independently of the printers. A byte is a character below 256; nothing here
// depends on that bound.

module OverlayText {
  import opened Wrappers

  /** A reader's result: the value and what is left of the input. */
  datatype Parsed<T> = Fail | Done(value: T, rest: string)

  const BACKSPACE: char := '\U{8}'
  const FORM_FEED: char := '\U{C}'

  // ---- numbers ---------------------------------------------------------------------------

  function Digit(n: nat): char
    requires n < 10
  {
    ('0' as nat + n) as char
  }

  /** Entry `n` of the table "0123456789abcdef". */
  function HexDigit(n: nat): char
    requires n < 16
  {
    if n < 10 then ('0' as nat + n) as char else ('a' as nat + (n - 10)) as char
  }

  function Decimal(n: nat): string {
    if n < 10 then [Digit(n)] else Decimal(n / 10) + [Digit(n % 10)]
  }

  /** Hexadecimal digits without leading zeros; "0" for zero. */
  function Hex(n: nat): string {
    if n < 16 then [HexDigit(n)] else Hex(n / 16) + [HexDigit(n % 16)]
  }

  predicate IsDigit(c: char) { '0' <= c <= '9' }

  function DigitValue(c: char): nat
    requires IsDigit(c)
  {
    c as nat - '0' as nat
  }

  function HexValue(c: char): Option<nat> {
    if '0' <= c <= '9' then Some(c as nat - '0' as nat)
    else if 'a' <= c <= 'f' then Some(c as nat - 'a' as nat + 10)
    else if 'A' <= c <= 'F' then Some(c as nat - 'A' as nat + 10)
    else None
  }

  /** As many digits as there are, continuing from `acc`. */
  function Digits(s: string, acc: nat): (nat, string) {
    if s != "" && IsDigit(s[0]) then Digits(s[1..], acc * 10 + DigitValue(s[0])) else (acc, s)
  }

  function HexDigits(s: string, acc: nat): (nat, string) {
    if s != "" && HexValue(s[0]).Some? then HexDigits(s[1..], acc * 16 + HexValue(s[0]).value) else (acc, s)
  }

  predicate StopsDigits(rest: string) { rest == "" || !IsDigit(rest[0]) }

  lemma {:induction false} DecimalReads(n: nat, rest: string)
    ensures Digits(Decimal(n) + rest, 0) == Digits(rest, n)
    ensures |Decimal(n)| > 0 && forall i :: 0 <= i < |Decimal(n)| ==> IsDigit(Decimal(n)[i])
  {
    if n < 10 {
      assert (Decimal(n) + rest)[1..] == rest;
    } else {
      var d := [Digit(n % 10)];
      assert Decimal(n) + rest == Decimal(n / 10) + (d + rest);
      DecimalReads(n / 10, d + rest);
      assert (d + rest)[1..] == rest;
    }
  }

  lemma {:induction false} HexDigitValue(n: nat)
    requires n < 16
    ensures HexValue(HexDigit(n)) == Some(n)
  {
  }

  lemma {:induction false} HexReads(n: nat, rest: string)
    ensures HexDigits(Hex(n) + rest, 0) == HexDigits(rest, n)
    ensures |Hex(n)| > 0 && HexValue(Hex(n)[0]).Some?
  {
    HexDigitValue(n % 16);
    var d := [HexDigit(n % 16)];
    assert (d + rest)[1..] == rest;
    if n < 16 {
      assert Hex(n) + rest == d + rest;
    } else {
      assert Hex(n) + rest == Hex(n / 16) + (d + rest);
      HexReads(n / 16, d + rest);
    }
  }

  // ---- strings ---------------------------------------------------------------------------

  function Escape(c: char): string {
    if c == '"' then "\\\""
    else if c == '\\' then "\\\\"
    else if c == BACKSPACE then "\\b"
    else if c == FORM_FEED then "\\f"
    else if c == '\n' then "\\n"
    else if c == '\r' then "\\r"
    else if c == '\t' then "\\t"
    else if c < ' ' then "\\u00" + [HexDigit(c as nat / 16), HexDigit(c as nat % 16)]
    else [c]
  }

  function Escaped(s: string): string {
    if s == "" then "" else Escape(s[0]) + Escaped(s[1..])
  }

  function JsonString(s: string): string { ['"'] + Escaped(s) + ['"'] }

  /** The control characters with an escape of their own. */
  predicate Short(c: char) { c == BACKSPACE || c == FORM_FEED || c == '\n' || c == '\r' || c == '\t' }

  function Unescape(c: char): Option<char> {
    match c
    case '"' => Some('"')
    case '\\' => Some('\\')
    case '/' => Some('/')
    case 'b' => Some(BACKSPACE)
    case 'f' => Some(FORM_FEED)
    case 'n' => Some('\n')
    case 'r' => Some('\r')
    case 't' => Some('\t')
    case _ => None
  }

  function FourHex(s: string): Option<nat> {
    if |s| < 4 then None
    else if HexValue(s[0]).None? || HexValue(s[1]).None? || HexValue(s[2]).None? || HexValue(s[3]).None? then None
    else Some(HexValue(s[0]).value * 4096 + HexValue(s[1]).value * 256 + HexValue(s[2]).value * 16
              + HexValue(s[3]).value)
  }

  predicate HighSurrogate(n: nat) { 0xD800 <= n < 0xDC00 }
  predicate LowSurrogate(n: nat) { 0xDC00 <= n < 0xE000 }

  /** A \u escape after its "\u": one code unit, or two that form a surrogate pair. */
  function ReadUnicode(s: string): (p: Parsed<char>)
    ensures p.Done? ==> |p.rest| < |s|
  {
    var first := FourHex(s);
    if first.None? || LowSurrogate(first.value) then Fail
    else if !HighSurrogate(first.value) then
      if first.value < 0xD800 || 0xE000 <= first.value < 0x10000 then Done(first.value as char, s[4..]) else Fail
    else if |s| < 6 || s[4] != '\\' || s[5] != 'u' then Fail
    else
      var second := FourHex(s[6..]);
      if second.None? || !LowSurrogate(second.value) then Fail
      else
        var n := 0x10000 + (first.value - 0xD800) * 1024 + (second.value - 0xDC00);
        if 0x10000 <= n < 0x110000 then Done(n as char, s[10..]) else Fail
  }

  /** The rest of a JSON string after its opening quotation mark, by section 7 of RFC 8259:
      control characters must be escaped, every escape of that section is understood. */
  function ReadString(s: string): (p: Parsed<string>)
    ensures p.Done? ==> |p.rest| < |s|
    decreases |s|
  {
    if s == "" then Fail
    else if s[0] == '"' then Done("", s[1..])
    else if s[0] < ' ' then Fail
    else if s[0] != '\\' then
      match ReadString(s[1..])
      case Fail => Fail
      case Done(v, rest) => Done([s[0]] + v, rest)
    else if |s| < 2 then Fail
    else if s[1] == 'u' then
      match ReadUnicode(s[2..])
      case Fail => Fail
      case Done(c, more) =>
        (match ReadString(more)
         case Fail => Fail
         case Done(v, rest) => Done([c] + v, rest))
    else if Unescape(s[1]).None? then Fail
    else
      match ReadString(s[2..])
      case Fail => Fail
      case Done(v, rest) => Done([Unescape(s[1]).value] + v, rest)
  }

  lemma {:induction false} EscapedControlReads(c: char, rest: string)
    requires c < ' ' && !Short(c)
    ensures ReadUnicode((Escape(c) + rest)[2..]) == Done(c, rest)
  {
    var hi, lo := HexDigit(c as nat / 16), HexDigit(c as nat % 16);
    HexDigitValue(c as nat / 16);
    HexDigitValue(c as nat % 16);
    var s := (Escape(c) + rest)[2..];
    assert s == ['0', '0', hi, lo] + rest;
    assert FourHex(s) == Some(c as nat);
    assert s[4..] == rest;
  }

  lemma {:induction false} PlainReads(c: char, more: string, v: string, rest: string)
    requires Escape(c) == [c] && c != '"' && c != '\\' && c >= ' '
    requires ReadString(more) == Done(v, rest)
    ensures ReadString(Escape(c) + more) == Done([c] + v, rest)
  {
    assert (Escape(c) + more)[1..] == more;
  }

  lemma {:induction false} ShortReads(c: char, e: char, more: string, v: string, rest: string)
    requires Escape(c) == ['\\', e] && e != 'u' && Unescape(e) == Some(c)
    requires ReadString(more) == Done(v, rest)
    ensures ReadString(Escape(c) + more) == Done([c] + v, rest)
  {
    assert (Escape(c) + more)[2..] == more;
  }

  lemma {:induction false} ControlReads(c: char, more: string, v: string, rest: string)
    requires c < ' ' && !Short(c)
    requires ReadString(more) == Done(v, rest)
    ensures ReadString(Escape(c) + more) == Done([c] + v, rest)
  {
    EscapedControlReads(c, more);
    var all := Escape(c) + more;
    assert all[0] == '\\' && all[1] == 'u';
  }

  lemma {:induction false} EscapeReads(c: char, more: string, v: string, rest: string)
    requires ReadString(more) == Done(v, rest)
    ensures ReadString(Escape(c) + more) == Done([c] + v, rest)
  {
    if c == '"' || c == '\\' { ShortReads(c, c, more, v, rest); }
    else if c == BACKSPACE { ShortReads(c, 'b', more, v, rest); }
    else if c == FORM_FEED { ShortReads(c, 'f', more, v, rest); }
    else if c == '\n' { ShortReads(c, 'n', more, v, rest); }
    else if c == '\r' { ShortReads(c, 'r', more, v, rest); }
    else if c == '\t' { ShortReads(c, 't', more, v, rest); }
    else if c < ' ' { ControlReads(c, more, v, rest); }
    else { PlainReads(c, more, v, rest); }
  }

  /** The RFC reader inverts the printer, for every string. */
  lemma {:induction false} StringReads(s: string, rest: string)
    ensures ReadString(Escaped(s) + ['"'] + rest) == Done(s, rest)
    decreases |s|
  {
    var tail := ['"'] + rest;
    if s == "" {
      assert Escaped(s) + ['"'] + rest == tail;
      assert tail[1..] == rest;
    } else {
      StringReads(s[1..], rest);
      var more := Escaped(s[1..]) + ['"'] + rest;
      assert Escaped(s) + ['"'] + rest == Escape(s[0]) + more;
      EscapeReads(s[0], more, s[1..], rest);
      assert s == [s[0]] + s[1..];
    }
  }

  /** No character below 0x20 is printed. */
  predicate Printable(s: string) { forall i :: 0 <= i < |s| ==> s[i] >= ' ' }

  lemma {:induction false} EscapedPrintable(s: string)
    ensures Printable(Escaped(s))
  {
    if s != "" { EscapedPrintable(s[1..]); }
  }

  lemma {:induction false} DecimalPrintable(n: nat)
    ensures Printable(Decimal(n))
  {
    if n >= 10 { DecimalPrintable(n / 10); }
  }

  lemma {:induction false} HexPrintable(n: nat)
    ensures Printable(Hex(n))
  {
    if n >= 16 { HexPrintable(n / 16); }
  }
}
