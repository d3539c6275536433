// The peer's commands: the plugin's tolerant parser (src/plugin/overlay_protocol.cpp) against the
// printer of the reference peer (tools/overlay_stub.py).

module OverlayCommand {
  import opened Blanks
  import opened Wrappers
  import opened OverlayText

  const MAX_LINE_BYTES: nat := 64 * 1024
  const TWO_TO_THE_63: int := 0x8000_0000_0000_0000

  datatype Command = Select(index: nat) | Apply | Cancel

  // ---- the flat-object reader; a position in the line is given as the text from it on ----

  /** What follows the first occurrence of `needle`. */
  function AfterNeedle(s: string, needle: string): Option<string> {
    if |needle| > |s| then None
    else if needle <= s then Some(s[|needle|..])
    else if s == "" then None
    else AfterNeedle(s[1..], needle)
  }

  function Quoted(key: string): string { ['"'] + key + ['"'] }

  function ValueAfterKey(s: string, key: string): Option<string> {
    var after := AfterNeedle(s, Quoted(key));
    if after.None? then None
    else
      var colon := TrimLeft(after.value);
      if colon == "" || colon[0] != ':' then None
      else
        var value := TrimLeft(colon[1..]);
        if value == "" then None else Some(value)
  }

  /** std::from_chars for a signed 64-bit integer: optional minus, digits, error when out of range. */
  function FromChars(s: string): Option<int> {
    var negative := s != "" && s[0] == '-';
    var digits := if negative then s[1..] else s;
    if digits == "" || !IsDigit(digits[0]) then None
    else
      var n: int := Digits(digits, 0).0;
      var value := if negative then -n else n;
      if -TWO_TO_THE_63 <= value < TWO_TO_THE_63 then Some(value) else None
  }

  function ReadInt(s: string, key: string): Option<int> {
    var value := ValueAfterKey(s, key);
    if value.None? then None else FromChars(value.value)
  }

  function Prefixed(p: string, text: Option<string>): Option<string> {
    if text.None? then None else Some(p + text.value)
  }

  /** The repository's own string reader, after the opening quotation mark: the short escapes only,
      and control characters taken as they are. */
  function RepoChars(s: string): Option<string>
    decreases |s|
  {
    if s == "" then None
    else if s[0] == '\\' && |s| >= 2 then
      if Unescape(s[1]).None? then None
      else
        Prefixed([Unescape(s[1]).value], RepoChars(s[2..]))
    else if s[0] == '"' then Some("")
    else Prefixed([s[0]], RepoChars(s[1..]))
  }

  function ReadText(s: string, key: string): Option<string> {
    var value := ValueAfterKey(s, key);
    if value.None? || value.value[0] != '"' then None else RepoChars(value.value[1..])
  }

  function ParseTrimmed(line: string): Option<Command> {
    if |line| < 2 || line[0] != '{' || line[|line| - 1] != '}' then None
    else if ReadInt(line, "v") != Some(1) then None
    else
      match ReadText(line, "type")
      case None => None
      case Some(kind) =>
        if kind == "apply" then Some(Apply)
        else if kind == "cancel" then Some(Cancel)
        else if kind == "select" then
          var index := ReadInt(line, "index");
          if index.None? || index.value < 0 then None else Some(Select(index.value))
        else None
  }

  function ParseCommand(line: string): Option<Command> {
    if |line| > MAX_LINE_BYTES then None else ParseTrimmed(Trim(line))
  }

  // ---- the loops of the source -----------------------------------------------------------

  method SkipWsFrom(s: string, start: nat) returns (i: nat)
    requires start <= |s|
    ensures i <= |s| && s[i..] == TrimLeft(s[start..])
  {
    i := start;
    while i < |s| && IsSpace(s[i])
      invariant start <= i <= |s| && TrimLeft(s[i..]) == TrimLeft(s[start..])
    {
      assert s[i..][1..] == s[i + 1..];
      i := i + 1;
    }
  }

  /** The loop of `read_string`, from after the opening quotation mark. */
  method ReadStringFrom(s: string, start: nat) returns (text: Option<string>)
    requires start <= |s|
    ensures text == RepoChars(s[start..])
  {
    var out := "";
    var i := start;
    ghost var whole := RepoChars(s[start..]);
    PrefixedNone(whole);
    while i < |s|
      invariant start <= i <= |s|
      invariant whole == Prefixed(out, RepoChars(s[i..]))
    {
      var c := s[i];
      ghost var more := s[i..];
      if c == '\\' && i + 1 < |s| {
        assert more[2..] == s[i + 2..] && more[1] == s[i + 1];
        var e := Unescape(s[i + 1]);
        if e.None? { return None; }
        PrefixedMore(out, e.value, RepoChars(s[i + 2..]));
        out := out + [e.value];
        i := i + 2;
        continue;
      }
      if c == '"' {
        assert out + "" == out;
        return Some(out);
      }
      assert more[1..] == s[i + 1..];
      PrefixedMore(out, c, RepoChars(s[i + 1..]));
      out := out + [c];
      i := i + 1;
    }
    return None;
  }

  lemma {:induction false} PrefixedNone(text: Option<string>)
    ensures Prefixed("", text) == text
  {
    if text.Some? { assert "" + text.value == text.value; }
  }

  lemma {:induction false} PrefixedMore(p: string, c: char, text: Option<string>)
    ensures Prefixed(p, Prefixed([c], text)) == Prefixed(p + [c], text)
  {
    if text.Some? { assert p + ([c] + text.value) == p + [c] + text.value; }
  }

  method TrimLine(line: string) returns (s: string)
    ensures s == Trim(line)
  {
    s := line;
    while s != "" && IsSpace(s[0])
      invariant TrimLeft(s) == TrimLeft(line)
      decreases |s|
    {
      s := s[1..];
    }
    while s != "" && IsSpace(s[|s| - 1])
      invariant TrimRight(s) == Trim(line)
      decreases |s|
    {
      s := s[..|s| - 1];
    }
  }

  // ---- what the parser accepts -----------------------------------------------------------

  /** `needle` does not start anywhere in `s` before position `n`. */
  ghost predicate NotBefore(s: string, needle: string, n: nat) {
    forall i :: 0 <= i < n && i <= |s| ==> !(needle <= s[i..])
  }

  ghost predicate Occurs(s: string, needle: string) {
    exists i :: 0 <= i <= |s| && needle <= s[i..]
  }

  /** `s` is `p`, the quoted key, a colon between whitespace, and `value`; the quoted key does not start
      inside `p`. */
  ghost predicate Found(s: string, key: string, p: string, left: string, right: string, value: string) {
    && s == p + (Quoted(key) + (left + ([':'] + (right + value))))
    && NotBefore(s, Quoted(key), |p|)
    && Blank(left) && Blank(right)
    && value != "" && !IsSpace(value[0])
  }

  ghost predicate Finds(s: string, key: string, value: string) {
    exists p, left, right :: Found(s, key, p, left, right, value)
  }

  lemma {:induction false} NeedleIs(s: string, needle: string, p: string, rest: string)
    requires s == p + (needle + rest) && NotBefore(s, needle, |p|)
    ensures AfterNeedle(s, needle) == Some(rest)
  {
    if p == "" {
      assert s == needle + rest;
    } else {
      assert s[1..] == p[1..] + (needle + rest);
      assert !(needle <= s) by { assert s[0..] == s; }
      forall i | 0 <= i < |p[1..]| && i <= |s[1..]| ensures !(needle <= s[1..][i..]) {
        assert s[1..][i..] == s[i + 1..];
      }
      NeedleIs(s[1..], needle, p[1..], rest);
    }
  }

  lemma {:induction false} NeedleAt(s: string, needle: string) returns (p: string)
    requires AfterNeedle(s, needle).Some?
    ensures s == p + (needle + AfterNeedle(s, needle).value) && NotBefore(s, needle, |p|)
  {
    if needle <= s { return ""; }
    p := NeedleAt(s[1..], needle);
    p := [s[0]] + p;
    forall i | 0 <= i < |p| ensures !(needle <= s[i..]) {
      if i > 0 { assert s[i..] == s[1..][i - 1..]; } else { assert s[0..] == s; }
    }
  }

  lemma {:induction false} NeedleOccurs(s: string, needle: string)
    ensures AfterNeedle(s, needle).Some? ==> Occurs(s, needle)
  {
    if AfterNeedle(s, needle).Some? {
      var p := NeedleAt(s, needle);
      assert s[|p|..] == needle + AfterNeedle(s, needle).value;
    }
  }

  lemma {:induction false} FoundIsRead(s: string, key: string, p: string, left: string, right: string, value: string)
    requires Found(s, key, p, left, right, value)
    ensures ValueAfterKey(s, key) == Some(value)
  {
    var colon := [':'] + (right + value);
    NeedleIs(s, Quoted(key), p, left + colon);
    SkipBlank(left, colon);
    assert colon[1..] == right + value;
    SkipBlank(right, value);
  }

  lemma {:induction false} ReadIsFound(s: string, key: string)
    requires ValueAfterKey(s, key).Some?
    ensures Finds(s, key, ValueAfterKey(s, key).value)
  {
    var value := ValueAfterKey(s, key).value;
    var after := AfterNeedle(s, Quoted(key)).value;
    var p := NeedleAt(s, Quoted(key));
    var left := LeftSplits(after);
    var colon := TrimLeft(after);
    var right := LeftSplits(colon[1..]);
    TrimLeftEnd(colon[1..]);
    assert colon == [':'] + (right + value);
    assert Found(s, key, p, left, right, value);
  }

  /** The value of a key is what follows the first quoted occurrence of it, whitespace, a colon and
      whitespace; without such an occurrence there is none. */
  lemma {:induction false} KeyExactly(s: string, key: string, value: string)
    ensures ValueAfterKey(s, key) == Some(value) <==> Finds(s, key, value)
  {
    if ValueAfterKey(s, key) == Some(value) { ReadIsFound(s, key); }
    if Finds(s, key, value) {
      var p, left, right :| Found(s, key, p, left, right, value);
      FoundIsRead(s, key, p, left, right, value);
    }
  }

  function Kind(cmd: Command): string {
    match cmd
    case Select(_) => "select"
    case Apply => "apply"
    case Cancel => "cancel"
  }

  /** The key is found with a number for its value. */
  ghost predicate HasInt(s: string, key: string, n: int) {
    exists value :: Finds(s, key, value) && FromChars(value) == Some(n)
  }

  /** The key is found with a string for its value. */
  ghost predicate HasText(s: string, key: string, text: string) {
    exists value :: Finds(s, key, value) && value[0] == '"' && RepoChars(value[1..]) == Some(text)
  }

  lemma {:induction false} HasExactly(s: string, key: string, n: int, text: string)
    ensures ReadInt(s, key) == Some(n) <==> HasInt(s, key, n)
    ensures ReadText(s, key) == Some(text) <==> HasText(s, key, text)
  {
    if ValueAfterKey(s, key).Some? { KeyExactly(s, key, ValueAfterKey(s, key).value); }
    if value :| Finds(s, key, value) && FromChars(value) == Some(n) { KeyExactly(s, key, value); }
    if value :| Finds(s, key, value) && value[0] == '"' && RepoChars(value[1..]) == Some(text) {
      KeyExactly(s, key, value);
    }
  }

  /** What a line has to say, once the whitespace around it is gone, to be this command. */
  ghost predicate Says(core: string, cmd: Command) {
    && |core| >= 2 && core[0] == '{' && core[|core| - 1] == '}'
    && HasInt(core, "v", 1)
    && HasText(core, "type", Kind(cmd))
    && (cmd.Select? ==> HasInt(core, "index", cmd.index))
  }

  /** A line is taken for a command exactly if it is within the cap and, trimmed, an object text with
      version 1, the type of this command and, for a select, its index. Everything else is refused. */
  lemma {:induction false} CommandExactly(line: string, cmd: Command)
    ensures ParseCommand(line) == Some(cmd) <==> |line| <= MAX_LINE_BYTES && Says(Trim(line), cmd)
  {
    TrimmedExactly(Trim(line), cmd);
    SaysExactly(Trim(line), cmd);
  }

  /** The same, said by the readers. */
  predicate Reads(core: string, cmd: Command) {
    && |core| >= 2 && core[0] == '{' && core[|core| - 1] == '}'
    && ReadInt(core, "v") == Some(1)
    && ReadText(core, "type") == Some(Kind(cmd))
    && (cmd.Select? ==> ReadInt(core, "index") == Some(cmd.index))
  }

  lemma {:induction false} TrimmedExactly(core: string, cmd: Command)
    ensures ParseTrimmed(core) == Some(cmd) <==> Reads(core, cmd)
  {
    KindsDiffer();
  }

  lemma {:induction false} KindsDiffer()
    ensures "apply" != "cancel" && "apply" != "select" && "cancel" != "select"
  {
    assert "apply"[1] == 'p' && "cancel"[1] == 'a' && "select"[1] == 'e';
  }

  lemma {:induction false} SaysExactly(core: string, cmd: Command)
    ensures Says(core, cmd) <==> Reads(core, cmd)
  {
    HasExactly(core, "v", 1, "");
    HasExactly(core, "type", 0, Kind(cmd));
    if cmd.Select? { HasExactly(core, "index", cmd.index, ""); }
  }

  // ---- strings ---------------------------------------------------------------------------

  /** The repository's reader inverts the plugin's string printer exactly on the strings whose control
      characters all have a short escape; any other string it refuses. */
  lemma {:induction false} OwnReader(s: string, rest: string)
    ensures RepoChars(Escaped(s) + (['"'] + rest))
         == if forall i :: 0 <= i < |s| && s[i] < ' ' ==> Short(s[i]) then Some(s) else None
    decreases |s|
  {
    var tail := ['"'] + rest;
    if s == "" {
      assert Escaped(s) + tail == tail;
    } else {
      OwnReader(s[1..], rest);
      var more := Escaped(s[1..]) + tail;
      assert Escaped(s) + tail == Escape(s[0]) + more;
      OwnEscape(s[0], more);
      assert s == [s[0]] + s[1..];
    }
  }

  lemma {:induction false} OwnEscape(c: char, more: string)
    ensures RepoChars(Escape(c) + more)
         == if c < ' ' && !Short(c) then None
            else Prefixed([c], RepoChars(more))
  {
    var s := Escape(c) + more;
    if c < ' ' && !Short(c) {
      assert s[0] == '\\' && s[1] == 'u';
    } else if c == '"' || c == '\\' || Short(c) {
      assert |Escape(c)| == 2 && s[2..] == more;
    } else {
      assert s[1..] == more;
    }
  }
}
