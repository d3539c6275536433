// The plugin's side of the overlay protocol: the three encoders. The fixed texts of a session_start
// message are a record, so that the printing loops are proved once for any such texts.

module OverlayPrinter {
  import opened Domain
  import opened OverlayText

  const TWO_TO_THE_64: nat := 0x1_0000_0000_0000_0000

  type Address = a: nat | a < TWO_TO_THE_64

  datatype OverlayWindowInfo = OverlayWindowInfo(address: Address, title: string, windowClass: string)

  datatype Syntax = Syntax(
    head: string, open: string, title: string, cls: string, close: string, index: string, end: string)

  const VERSION: nat := 1

  /** The address follows `open` with its "0x"; title and class bring their own quotation marks. */
  const WIRE := Syntax(
    "{\"v\":" + Decimal(VERSION) + ",\"type\":\"session_start\"" + ",\"windows\":[",
    "{\"addr\":\"",
    "\",\"title\":",
    ",\"class\":",
    "}",
    "],\"index\":",
    "}")

  function EncodedWindow(x: Syntax, w: OverlayWindowInfo): string {
    x.open + "0x" + Hex(w.address) + x.title + JsonString(w.title) + x.cls + JsonString(w.windowClass) + x.close
  }

  function Texts(x: Syntax, ws: seq<OverlayWindowInfo>): (ts: seq<string>)
    ensures |ts| == |ws| && forall i :: 0 <= i < |ws| ==> ts[i] == EncodedWindow(x, ws[i])
  {
    seq(|ws|, i requires 0 <= i < |ws| => EncodedWindow(x, ws[i]))
  }

  /** Texts separated by commas. */
  function Joined(ts: seq<string>): string {
    if ts == [] then ""
    else if |ts| == 1 then ts[0]
    else Joined(ts[..|ts| - 1]) + [','] + ts[|ts| - 1]
  }

  function SessionStart(x: Syntax, ws: seq<OverlayWindowInfo>, index: nat): string {
    x.head + Joined(Texts(x, ws)) + x.index + Decimal(index) + x.end
  }

  function EncodeSelection(index: nat): string {
    "{\"v\":" + Decimal(VERSION) + ",\"type\":\"selection\"" + ",\"index\":" + Decimal(index) + ['}']
  }

  function EncodeSessionEnd(reason: UiEndReason): string {
    "{\"v\":" + Decimal(VERSION) + ",\"type\":\"session_end\"" + ",\"reason\":"
    + (if reason == UiApplied then "\"applied\"" else "\"cancelled\"") + ['}']
  }

  // ---- the printing loops ----------------------------------------------------------------

  lemma {:induction false} EscapedStep(out: string, s: string, i: nat)
    requires i < |s|
    ensures out + Escaped(s[i..]) == out + Escape(s[i]) + Escaped(s[i + 1..])
  {
    assert s[i..][1..] == s[i + 1..];
  }

  method AppendJsonString(start: string, s: string) returns (out: string)
    ensures out == start + JsonString(s)
  {
    out := start + ['"'];
    for i := 0 to |s|
      invariant out + Escaped(s[i..]) == start + ['"'] + Escaped(s)
    {
      EscapedStep(out, s, i);
      out := out + Escape(s[i]);
    }
    assert s[|s|..] == "";
    assert out == start + ['"'] + Escaped(s);
    out := out + ['"'];
    assert out == start + JsonString(s);
  }

  /** The address shifted right by `k` nibbles. */
  function Top(a: nat, k: nat): nat {
    if k == 0 then a else Top(a, k - 1) / 16
  }

  lemma {:induction false} TopNibble(a: Address)
    ensures Top(a, 16) == 0
  {
    assert Top(a, 1) < 0x1000000000000000;
    assert Top(a, 2) < 0x100000000000000;
    assert Top(a, 3) < 0x10000000000000;
    assert Top(a, 4) < 0x1000000000000;
    assert Top(a, 5) < 0x100000000000;
    assert Top(a, 6) < 0x10000000000;
    assert Top(a, 7) < 0x1000000000;
    assert Top(a, 8) < 0x100000000;
    assert Top(a, 9) < 0x10000000;
    assert Top(a, 10) < 0x1000000;
    assert Top(a, 11) < 0x100000;
    assert Top(a, 12) < 0x10000;
    assert Top(a, 13) < 0x1000;
    assert Top(a, 14) < 0x100;
    assert Top(a, 15) < 0x10;
    assert Top(a, 16) < 0x1;
  }

  /** What has been printed when the value read so far is `v`: nothing before the first digit. */
  function SoFar(v: nat): string { if v == 0 then "" else Hex(v) }

  lemma {:induction false} NextNibble(v: nat, nibble: nat)
    requires nibble < 16
    ensures SoFar(v * 16 + nibble) == if v == 0 && nibble == 0 then "" else SoFar(v) + [HexDigit(nibble)]
  {
  }

  lemma {:induction false} NibbleAt(a: nat, k: nat)
    requires k > 0
    ensures var u, v := Top(a, k), Top(a, k - 1);
            && (v > 0 <==> u > 0 || v % 16 != 0)
            && SoFar(v) == if u == 0 && v % 16 == 0 then "" else SoFar(u) + [HexDigit(v % 16)]
  {
    var v := Top(a, k - 1);
    NextNibble(v / 16, v % 16);
  }

  /** The hexadecimal address: sixteen nibbles from the top, leading zeros skipped. */
  method EncodeAddr(address: Address) returns (out: string)
    ensures out == "0x" + Hex(address)
  {
    out := "0x";
    if address == 0 {
      out := out + ['0'];
      return;
    }
    ghost var prefix := out;
    var started := false;
    TopNibble(address);
    var k := 16;
    while k > 0
      invariant 0 <= k <= 16
      invariant started <==> Top(address, k) > 0
      invariant out == prefix + SoFar(Top(address, k))
    {
      NibbleAt(address, k);
      k := k - 1;
      var nibble := Top(address, k) % 16;
      if !started && nibble == 0 { continue; }
      started := true;
      out := out + [HexDigit(nibble)];
    }
  }

  lemma {:induction false} JoinedSnoc(ts: seq<string>, t: string)
    ensures Joined(ts + [t]) == if ts == [] then t else Joined(ts) + [','] + t
  {
    assert (ts + [t])[..|ts|] == ts;
  }

  lemma {:induction false} JoinedAfter(head: string, ts: seq<string>, t: string)
    ensures ts == [] ==> head + Joined(ts) + t == head + Joined(ts + [t])
    ensures ts != [] ==> head + Joined(ts) + [','] + t == head + Joined(ts + [t])
  {
    JoinedSnoc(ts, t);
  }

  method EncodeWindow(x: Syntax, w: OverlayWindowInfo, start: string, ghost text: string) returns (out: string)
    requires text == EncodedWindow(x, w)
    ensures out == start + text
  {
    var addr := EncodeAddr(w.address);
    out := start + x.open + addr;
    assert out == start + (x.open + "0x" + Hex(w.address));
    out := out + x.title;
    out := AppendJsonString(out, w.title);
    out := out + x.cls;
    out := AppendJsonString(out, w.windowClass);
    out := out + x.close;
  }

  method EncodeStart(x: Syntax, ws: seq<OverlayWindowInfo>, index: nat) returns (out: string)
    ensures out == SessionStart(x, ws, index)
  {
    ghost var texts := Texts(x, ws);
    out := x.head;
    var first := true;
    for i := 0 to |ws|
      invariant first <==> i == 0
      invariant out == x.head + Joined(texts[..i])
    {
      JoinedAfter(x.head, texts[..i], texts[i]);
      assert texts[..i + 1] == texts[..i] + [texts[i]];
      if !first { out := out + [',']; }
      first := false;
      out := EncodeWindow(x, ws[i], out, texts[i]);
    }
    assert texts[..|ws|] == texts;
    out := out + x.index + Decimal(index) + x.end;
  }

  method EncodeSessionStart(ws: seq<OverlayWindowInfo>, index: nat) returns (out: string)
    ensures out == SessionStart(WIRE, ws, index)
  {
    out := EncodeStart(WIRE, ws, index);
  }

  // ---- printability ----------------------------------------------------------------------

  predicate PrintableSyntax(x: Syntax) {
    Printable(x.head) && Printable(x.open) && Printable(x.title) && Printable(x.cls) && Printable(x.close)
    && Printable(x.index) && Printable(x.end)
  }

  lemma {:induction false} PrintableAppend(a: string, b: string)
    requires Printable(a) && Printable(b)
    ensures Printable(a + b)
  {
  }

  lemma {:induction false} VersionPrintable()
    ensures Printable("{\"v\":" + Decimal(VERSION))
  {
    DecimalPrintable(VERSION);
    PrintableAppend("{\"v\":", Decimal(VERSION));
  }

  lemma {:induction false} HeadPrintable()
    ensures Printable(WIRE.head)
  {
    VersionPrintable();
    assert Printable(",\"type\":\"session_start\"") && Printable(",\"windows\":[");
    PrintableAppend("{\"v\":" + Decimal(VERSION), ",\"type\":\"session_start\"");
    PrintableAppend("{\"v\":" + Decimal(VERSION) + ",\"type\":\"session_start\"", ",\"windows\":[");
  }

  lemma {:induction false} WirePrintable()
    ensures PrintableSyntax(WIRE)
  {
    HeadPrintable();
  }

  lemma {:induction false} WindowPrintable(x: Syntax, w: OverlayWindowInfo)
    requires PrintableSyntax(x)
    ensures Printable(EncodedWindow(x, w))
  {
    EscapedPrintable(w.title);
    EscapedPrintable(w.windowClass);
    HexPrintable(w.address);
    var addr, title, cls := x.open + "0x", JsonString(w.title), JsonString(w.windowClass);
    PrintableAppend(addr, Hex(w.address));
    PrintableAppend(addr + Hex(w.address), x.title);
    PrintableAppend(addr + Hex(w.address) + x.title, title);
    PrintableAppend(addr + Hex(w.address) + x.title + title, x.cls);
    PrintableAppend(addr + Hex(w.address) + x.title + title + x.cls, cls);
    PrintableAppend(addr + Hex(w.address) + x.title + title + x.cls + cls, x.close);
  }

  lemma {:induction false} JoinedPrintable(ts: seq<string>)
    requires forall i :: 0 <= i < |ts| ==> Printable(ts[i])
    ensures Printable(Joined(ts))
  {
    if |ts| > 1 { JoinedPrintable(ts[..|ts| - 1]); }
  }

  lemma {:induction false} StartPrintable(x: Syntax, ws: seq<OverlayWindowInfo>, index: nat)
    requires PrintableSyntax(x)
    ensures Printable(SessionStart(x, ws, index))
  {
    var ts := Texts(x, ws);
    forall i | 0 <= i < |ws| ensures Printable(ts[i]) { WindowPrintable(x, ws[i]); }
    JoinedPrintable(ts);
    DecimalPrintable(index);
    PrintableAppend(x.head, Joined(ts));
    PrintableAppend(x.head + Joined(ts), x.index);
    PrintableAppend(x.head + Joined(ts) + x.index, Decimal(index));
    PrintableAppend(x.head + Joined(ts) + x.index + Decimal(index), x.end);
  }

  /** No message contains a character below 0x20, so none contains a line break. */
  lemma {:induction false} MessagesArePrintable(ws: seq<OverlayWindowInfo>, index: nat, reason: UiEndReason)
    ensures Printable(SessionStart(WIRE, ws, index))
    ensures Printable(EncodeSelection(index))
    ensures Printable(EncodeSessionEnd(reason))
  {
    WirePrintable();
    StartPrintable(WIRE, ws, index);
    SelectionPrintable(index);
    EndPrintable(reason);
  }

  lemma {:induction false} EndPrintable(reason: UiEndReason)
    ensures Printable(EncodeSessionEnd(reason))
  {
    var head := "{\"v\":" + Decimal(VERSION);
    var word := if reason == UiApplied then "\"applied\"" else "\"cancelled\"";
    VersionPrintable();
    PrintableAppend(head, ",\"type\":\"session_end\"");
    PrintableAppend(head + ",\"type\":\"session_end\"", ",\"reason\":");
    PrintableAppend(head + ",\"type\":\"session_end\"" + ",\"reason\":", word);
  }

  lemma {:induction false} SelectionPrintable(index: nat)
    ensures Printable(EncodeSelection(index))
  {
    var head := "{\"v\":" + Decimal(VERSION);
    VersionPrintable();
    DecimalPrintable(index);
    PrintableAppend(head, ",\"type\":\"selection\"");
    PrintableAppend(head + ",\"type\":\"selection\"", ",\"index\":");
    PrintableAppend(head + ",\"type\":\"selection\"" + ",\"index\":", Decimal(index));
  }
}
