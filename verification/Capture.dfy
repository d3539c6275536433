// `normalize_capture` (src/plugin/border_highlight_ui.cpp): turning the reply of a property read
// into a value that the property write accepts, and how it behaves when applied to its own result.

module Capture {
  import opened Blanks

  datatype Slot = ActiveColor | InactiveColor | Size | Alpha | AlphaInactive

  predicate HasSpace(s: string) { exists i :: 0 <= i < |s| && IsSpace(s[i]) }

  /** The position of the last whitespace character, or -1. */
  function LastSpace(s: string): (k: int)
    ensures -1 <= k < |s|
    ensures k >= 0 ==> IsSpace(s[k])
    ensures forall i :: k < i < |s| ==> !IsSpace(s[i])
  {
    if s == "" then -1
    else if IsSpace(s[|s| - 1]) then |s| - 1
    else LastSpace(s[..|s| - 1])
  }

  predicate AllDigits(s: string) { forall i :: 0 <= i < |s| ==> '0' <= s[i] <= '9' }

  predicate IsHexDigit(c: char) { '0' <= c <= '9' || 'a' <= c <= 'f' || 'A' <= c <= 'F' }

  predicate AllHex(s: string) { forall i :: 0 <= i < |s| ==> IsHexDigit(s[i]) }

  predicate EndsWith(s: string, t: string) { |s| >= |t| && s[|s| - |t|..] == t }

  predicate RgbForm(s: string) { "rgb(" <= s || "rgba(" <= s }

  /** A colour without its angle: a hex form with its prefix, an rgb form as it is, or nothing. */
  function ColorForm(raw: string): string {
    if RgbForm(raw) then raw
    else if "0x" <= raw then
      if |raw| > 2 && AllHex(raw[2..]) then raw else ""
    else if (|raw| == 6 || |raw| == 8) && AllHex(raw) then "0x" + raw
    else ""
  }

  /** `alphaOk` stands for "is a finite decimal in [0, 1]". */
  function Normalized(alphaOk: string -> bool, raw: string, slot: Slot): string {
    var raw := Trim(raw);
    if raw == "" then ""
    else match slot
      case Size => if AllDigits(raw) then raw else ""
      case Alpha => if alphaOk(raw) then raw else ""
      case AlphaInactive => if alphaOk(raw) then raw else ""
      case _ =>
        var space := LastSpace(raw);
        if space < 0 then ColorForm(raw)
        else if EndsWith(raw[space + 1..], "deg") then ColorForm(raw[..space])
        else ""
  }

  predicate IsColor(slot: Slot) { slot.ActiveColor? || slot.InactiveColor? }

  // ---- what a reply says -----------------------------------------------------------------

  datatype ColorName = HexDigits(digits: string) | RgbText(text: string)

  /** The colour texts: six or eight hex digits, "0x" and any hex digits, or an rgb form. */
  ghost predicate Names(text: string, c: ColorName) {
    match c
    case HexDigits(d) => AllHex(d) && ((text == d && (|d| == 6 || |d| == 8)) || (text == "0x" + d && d != ""))
    case RgbText(t) => text == t && RgbForm(t)
  }

  /** How the property write has to be given the colour. */
  function Writable(c: ColorName): string {
    match c
    case HexDigits(d) => "0x" + d
    case RgbText(t) => t
  }

  /** One whitespace character and a word that ends in "deg". */
  ghost predicate Angle(s: string) {
    s != "" && IsSpace(s[0]) && !HasSpace(s[1..]) && EndsWith(s[1..], "deg")
  }

  /** The reply, between whitespace: a text with an angle behind it, or a text of one word. */
  ghost predicate Worded(reply: string, before: string, text: string, angle: string, after: string) {
    && Blank(before) && Blank(after)
    && reply == before + (text + angle) + after
    && (Angle(angle) || (angle == "" && !HasSpace(text)))
  }

  ghost predicate ReplyNames(reply: string, c: ColorName) {
    exists before, text, angle, after :: Worded(reply, before, text, angle, after) && Names(text, c)
  }

  lemma {:induction false} LastSpaceAt(s: string, k: nat)
    requires k < |s| && IsSpace(s[k]) && forall i :: k < i < |s| ==> !IsSpace(s[i])
    ensures LastSpace(s) == k
  {
    var l := LastSpace(s);
    assert !(l < k) && !(k < l);
  }

  lemma {:induction false} NamesForm(text: string, c: ColorName)
    requires Names(text, c)
    ensures ColorForm(text) == Writable(c) && text != "" && !IsSpace(text[0])
    ensures !HasSpace(text) || RgbForm(text)
  {
    if c.HexDigits? {
      if text == c.digits {
        assert !("0x" <= text) by { assert IsHexDigit(text[1]); }
      } else {
        assert text[2..] == c.digits;
        assert text[0] == '0' && text[1] == 'x';
        assert forall i :: 2 <= i < |text| ==> text[i] == c.digits[i - 2];
      }
    } else {
      assert text[0] == 'r';
    }
  }

  lemma {:induction false} FormNames(text: string) returns (c: ColorName)
    requires ColorForm(text) != ""
    ensures Names(text, c) && ColorForm(text) == Writable(c)
  {
    if RgbForm(text) { return RgbText(text); }
    if "0x" <= text {
      assert text == "0x" + text[2..];
      return HexDigits(text[2..]);
    }
    return HexDigits(text);
  }

  /** A reply that names a colour is captured as this colour. */
  lemma {:induction false} NamedIsCaptured(alphaOk: string -> bool, reply: string, slot: Slot, c: ColorName)
    requires IsColor(slot) && ReplyNames(reply, c)
    ensures Normalized(alphaOk, reply, slot) == Writable(c) && Writable(c) != ""
  {
    var before, text, angle, after :| Worded(reply, before, text, angle, after) && Names(text, c);
    NamesForm(text, c);
    if angle == "" {
      assert text + angle == text;
    } else {
      AngleLast(text, angle);
    }
    TrimBlanks(before, text + angle, after);
    CoreCaptured(alphaOk, reply, slot, c, text, angle);
  }

  lemma {:induction false} CoreCaptured(alphaOk: string -> bool, reply: string, slot: Slot, c: ColorName,
                                        text: string, angle: string)
    requires IsColor(slot) && Trim(reply) == text + angle && text != "" && ColorForm(text) == Writable(c)
    requires Angle(angle) || (angle == "" && !HasSpace(text))
    ensures Normalized(alphaOk, reply, slot) == Writable(c)
  {
    if angle == "" {
      assert text + angle == text;
      assert LastSpace(text) < 0;
    } else {
      AngleLast(text, angle);
    }
  }

  lemma {:induction false} AngleLast(text: string, angle: string)
    requires Angle(angle) && text != ""
    ensures var core := text + angle;
            && core[0] == text[0] && !IsSpace(core[|core| - 1])
            && LastSpace(core) == |text| && core[|text| + 1..] == angle[1..] && core[..|text|] == text
  {
    var core := text + angle;
    forall i | |text| < i < |core| ensures !IsSpace(core[i]) { assert core[i] == angle[1..][i - |text| - 1]; }
    assert core[|text|] == angle[0];
    LastSpaceAt(core, |text|);
  }

  /** A trimmed text cut at its last whitespace. */
  lemma {:induction false} CoreSplits(core: string) returns (text: string, angle: string)
    requires core != ""
    ensures core == text + angle
    ensures LastSpace(core) < 0 ==> text == core && angle == "" && !HasSpace(text)
    ensures LastSpace(core) >= 0 ==> text == core[..LastSpace(core)] && angle == core[LastSpace(core)..]
    ensures LastSpace(core) >= 0 && EndsWith(core[LastSpace(core) + 1..], "deg") ==> Angle(angle)
  {
    var space := LastSpace(core);
    if space < 0 { return core, ""; }
    text, angle := core[..space], core[space..];
    assert angle[1..] == core[space + 1..];
    assert forall i :: 0 <= i < |angle[1..]| ==> angle[1..][i] == core[space + 1 + i];
  }

  /** What is captured for a colour, the reply names. */
  lemma {:induction false} CapturedIsNamed(alphaOk: string -> bool, reply: string, slot: Slot) returns (c: ColorName)
    requires IsColor(slot) && Normalized(alphaOk, reply, slot) != ""
    ensures ReplyNames(reply, c) && Normalized(alphaOk, reply, slot) == Writable(c)
  {
    var before, after := TrimSplits(reply);
    c := CoreNames(alphaOk, reply, Trim(reply), slot, before, after);
  }

  lemma {:induction false} CoreNames(alphaOk: string -> bool, reply: string, core: string, slot: Slot,
                                     before: string, after: string)
    returns (c: ColorName)
    requires IsColor(slot) && core == Trim(reply) && Normalized(alphaOk, reply, slot) != ""
    requires Blank(before) && Blank(after) && reply == before + core + after
    ensures ReplyNames(reply, c) && Normalized(alphaOk, reply, slot) == Writable(c)
  {
    var text, angle := CoreSplits(core);
    c := FormNames(text);
    assert Worded(reply, before, text, angle, after);
  }

  /** A colour is captured exactly from the replies that name one, and it is the colour named: the same
      digits, or the same rgb text. */
  lemma {:induction false} ColorExactly(alphaOk: string -> bool, reply: string, slot: Slot, value: string)
    requires IsColor(slot) && value != ""
    ensures Normalized(alphaOk, reply, slot) == value <==> exists c :: ReplyNames(reply, c) && Writable(c) == value
  {
    if Normalized(alphaOk, reply, slot) == value { var _ := CapturedIsNamed(alphaOk, reply, slot); }
    if c :| ReplyNames(reply, c) && Writable(c) == value { NamedIsCaptured(alphaOk, reply, slot, c); }
  }

  /** A size or an alpha is captured exactly from the replies that hold it between whitespace. */
  lemma {:induction false} PlainExactly(alphaOk: string -> bool, reply: string, slot: Slot, value: string)
    requires !IsColor(slot) && value != "" && !IsSpace(value[0]) && !IsSpace(value[|value| - 1])
    ensures Normalized(alphaOk, reply, slot) == value <==>
              && (if slot == Size then AllDigits(value) else alphaOk(value))
              && exists before, after :: Blank(before) && Blank(after) && reply == before + value + after
  {
    var before, after := TrimSplits(reply);
    if before', after' :| Blank(before') && Blank(after') && reply == before' + value + after' {
      TrimBlanks(before', value, after');
    }
  }

  // ---- how normalizing behaves on its own results ----------------------------------------

  /** Size and alpha results are fixed points. */
  lemma {:induction false} PlainFixedPoint(alphaOk: string -> bool, raw: string, slot: Slot)
    requires !IsColor(slot)
    ensures var y := Normalized(alphaOk, raw, slot); Normalized(alphaOk, y, slot) == y
  {
    TrimEnds(raw);
    TrimKeeps(Trim(raw));
    TrimKeeps("");
  }

  /** What a colour result looks like: empty, a hex form without whitespace, or an rgb form. */
  lemma {:induction false} ColorResult(alphaOk: string -> bool, raw: string, slot: Slot)
    requires IsColor(slot)
    ensures var y := Normalized(alphaOk, raw, slot);
            || y == ""
            || RgbForm(y)
            || ("0x" <= y && |y| > 2 && AllHex(y[2..]) && !HasSpace(y))
  {
    var t := Trim(raw);
    if t != "" {
      var u := if LastSpace(t) < 0 then t else t[..LastSpace(t)];
      ColorFormResult(u);
    }
  }

  lemma {:induction false} ColorFormResult(u: string)
    ensures var y := ColorForm(u);
            y == "" || RgbForm(y) || ("0x" <= y && |y| > 2 && AllHex(y[2..]) && !HasSpace(y))
  {
    var y := ColorForm(u);
    if y != "" && !RgbForm(y) {
      assert y[2..] == (if "0x" <= u then u[2..] else u);
      forall i | 0 <= i < |y| ensures !IsSpace(y[i]) {
        if i >= 2 { assert y[i] == y[2..][i - 2]; }
      }
    }
  }

  lemma {:induction false} NoSpaceColor(alphaOk: string -> bool, y: string, slot: Slot)
    requires IsColor(slot) && !HasSpace(y)
    ensures Normalized(alphaOk, y, slot) == if y == "" then "" else ColorForm(y)
  {
    TrimKeeps(y);
  }

  /** The texts that a second pass cuts shorter without dropping them: they have whitespace, and
      once trimmed they have none or end in an angle. */
  predicate Drifts(y: string) {
    HasSpace(y) && (!HasSpace(Trim(y)) || EndsWith(Trim(y), "deg"))
  }

  lemma {:induction false} SpaceInRgb(y: string, k: nat)
    requires RgbForm(y) && k < |y| && IsSpace(y[k])
    ensures k >= 4 && ("rgb(" <= y[..k] || (k >= 5 && "rgba(" <= y[..k]))
  {
    if "rgb(" <= y {
      assert y[0] == 'r' && y[1] == 'g' && y[2] == 'b' && y[3] == '(';
    } else {
      assert y[0] == 'r' && y[1] == 'g' && y[2] == 'b' && y[3] == 'a' && y[4] == '(';
    }
  }

  /** The second pass over an rgb form. */
  lemma {:induction false} RgbAgain(alphaOk: string -> bool, y: string, slot: Slot)
    requires IsColor(slot) && RgbForm(y)
    ensures var z := Normalized(alphaOk, y, slot);
            if Drifts(y) then RgbForm(z) && |z| < |y| else if HasSpace(y) then z == "" else z == y
  {
    var t := Trim(y);
    assert y[0] == 'r';
    TrimStartsSolid(y);
    RgbTrimmed(y, t);
    if !HasSpace(y) {
      NoSpaceColor(alphaOk, y, slot);
    } else if !HasSpace(t) {
      assert t != y && LastSpace(t) < 0;
    } else {
      var k := LastSpace(t);
      assert k >= 0 by { var i :| 0 <= i < |t| && IsSpace(t[i]); }
      SpaceInRgb(t, k);
      TailEnds(t, k);
    }
  }

  /** An rgb form keeps its opening when its trailing whitespace goes. */
  lemma {:induction false} RgbTrimmed(y: string, t: string)
    requires RgbForm(y) && t == Trim(y) && t <= y && t != "" && !IsSpace(y[0])
    ensures RgbForm(t)
  {
    TrimStartsSolid(y);
    TrimRightKeepsSolid(y, if "rgb(" <= y then 3 else 4);
    assert t == y[..|t|];
  }

  /** With the last whitespace at `k`, the text after it ends in "deg" iff the whole text does. */
  lemma {:induction false} TailEnds(y: string, k: nat)
    requires k < |y| && k == LastSpace(y)
    ensures EndsWith(y[k + 1..], "deg") <==> EndsWith(y, "deg")
  {
    var tail := y[k + 1..];
    if EndsWith(y, "deg") {
      assert y[|y| - 3..] == "deg";
      assert y[|y| - 3] == 'd' && y[|y| - 2] == 'e' && y[|y| - 1] == 'g';
      assert k < |y| - 3;
    }
    if |tail| >= 3 { assert tail[|tail| - 3..] == y[|y| - 3..]; }
  }

  // ---- main results ----------------------------------------------------------------------

  /** The value is kept or dropped when it is captured a second time, never altered. */
  predicate Stable(alphaOk: string -> bool, raw: string, slot: Slot) {
    var y := Normalized(alphaOk, raw, slot);
    Normalized(alphaOk, y, slot) == y || Normalized(alphaOk, y, slot) == ""
  }

  /** Exactly when a captured value survives being captured again: always for sizes, alphas and hex
      colours; for the rest unless the captured text drifts. A captured text without whitespace is
      a fixed point. */
  lemma {:induction false} StableExactly(alphaOk: string -> bool, raw: string, slot: Slot)
    ensures var y := Normalized(alphaOk, raw, slot);
            && (Stable(alphaOk, raw, slot) <==> !(IsColor(slot) && Drifts(y)))
            && (!HasSpace(y) || !IsColor(slot) ==> Normalized(alphaOk, y, slot) == y)
            && (IsColor(slot) && Drifts(y) ==> 0 < |Normalized(alphaOk, y, slot)| < |y| <= |raw|)
  {
    var y := Normalized(alphaOk, raw, slot);
    if !IsColor(slot) {
      PlainFixedPoint(alphaOk, raw, slot);
    } else {
      ColorResult(alphaOk, raw, slot);
      if RgbForm(y) {
        RgbAgain(alphaOk, y, slot);
        RgbShorter(alphaOk, raw, slot);
      } else {
        NoSpaceColor(alphaOk, y, slot);
      }
    }
  }

  lemma {:induction false} RgbShorter(alphaOk: string -> bool, raw: string, slot: Slot)
    requires IsColor(slot) && RgbForm(Normalized(alphaOk, raw, slot))
    ensures |Normalized(alphaOk, raw, slot)| <= |raw|
  {
    TrimEnds(raw);
    var t := Trim(raw);
    RgbFormKept(if LastSpace(t) < 0 then t else t[..LastSpace(t)]);
  }

  lemma {:induction false} RgbFormKept(u: string)
    ensures RgbForm(ColorForm(u)) ==> ColorForm(u) == u
  {
    assert ("0x" + u)[0] == '0';
  }

  /** A reply of the drifting kind: two blanks before the angle. */
  lemma {:induction false} DriftingReply(alphaOk: string -> bool, slot: Slot)
    requires IsColor(slot)
    ensures var raw := "rgb(1,2,3)  0deg";
            && Normalized(alphaOk, raw, slot) == "rgb(1,2,3) "
            && Normalized(alphaOk, "rgb(1,2,3) ", slot) == "rgb(1,2,3)"
            && !Stable(alphaOk, raw, slot)
  {
    FirstPass(alphaOk, slot);
    SecondPass(alphaOk, slot);
  }

  lemma {:induction false} FirstPass(alphaOk: string -> bool, slot: Slot)
    requires IsColor(slot)
    ensures Normalized(alphaOk, "rgb(1,2,3)  0deg", slot) == "rgb(1,2,3) "
  {
    var raw := "rgb(1,2,3)  0deg";
    TrimKeeps(raw);
    assert LastSpace(raw) == 11 by { assert IsSpace(raw[11]); }
    assert raw[12..] == "0deg" && raw[..11] == "rgb(1,2,3) ";
    assert "0deg"[1..] == "deg";
  }

  lemma {:induction false} SecondPass(alphaOk: string -> bool, slot: Slot)
    requires IsColor(slot)
    ensures Normalized(alphaOk, "rgb(1,2,3) ", slot) == "rgb(1,2,3)"
  {
    var y, z := "rgb(1,2,3) ", "rgb(1,2,3)";
    assert y == z + " ";
    EndBlank(z, " ");
    assert TrimLeft(y) == y && Trim(y) == z;
    assert !HasSpace(z);
    assert LastSpace(z) < 0;
  }
}
