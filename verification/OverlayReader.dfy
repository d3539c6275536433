// A peer of the overlay: it reads each line as JSON and looks the members up by name, and it recovers
// what the plugin printed. Nothing of the reader knows how the printer puts a message together.

module OverlayReader {
  import opened Wrappers
  import opened Domain
  import opened OverlayText
  import opened Json
  import opened OverlayPrinter

  // ---- the peer --------------------------------------------------------------------------

  datatype Message =
    | SessionStarted(windows: seq<OverlayWindowInfo>, index: nat)
    | Selected(index: nat)
    | SessionEnded(reason: UiEndReason)

  /** A hexadecimal number after "0x", and nothing else. */
  function ReadAddr(s: string): Option<Address> {
    if |s| < 3 || s[..2] != "0x" || HexValue(s[2]).None? then None
    else
      var (a, rest) := HexDigits(s[2..], 0);
      if rest != "" || a >= TWO_TO_THE_64 then None else Some(a)
  }

  function ReadWindow(v: Value): Option<OverlayWindowInfo> {
    if !v.Object? then None
    else
      match (Lookup(v.members, "addr"), Lookup(v.members, "title"), Lookup(v.members, "class"))
      case (Some(Text(addr)), Some(Text(title)), Some(Text(cls))) =>
        var a := ReadAddr(addr);
        if a.None? then None else Some(OverlayWindowInfo(a.value, title, cls))
      case _ => None
  }

  function ReadWindows(vs: seq<Value>): Option<seq<OverlayWindowInfo>> {
    if vs == [] then Some([])
    else
      var front, last := ReadWindows(vs[..|vs| - 1]), ReadWindow(vs[|vs| - 1]);
      if front.None? || last.None? then None else Some(front.value + [last.value])
  }

  /** What a peer makes of a line: one JSON object with "v" 1, told apart by its "type". */
  function Understood(line: string): Option<Message> {
    match ReadValue(line)
    case Done(Object(ms), "") =>
      if Lookup(ms, "v") != Some(Number(1)) then None
      else if Lookup(ms, "type") == Some(Text("session_start")) then StartOf(Lookup(ms, "windows"), Lookup(ms, "index"))
      else if Lookup(ms, "type") == Some(Text("selection")) then SelectionOf(Lookup(ms, "index"))
      else if Lookup(ms, "type") == Some(Text("session_end")) then EndOf(Lookup(ms, "reason"))
      else None
    case _ => None
  }

  function StartOf(windows: Option<Value>, index: Option<Value>): Option<Message> {
    match (windows, index)
    case (Some(Array(vs)), Some(Number(i))) =>
      var ws := ReadWindows(vs);
      if ws.None? then None else Some(SessionStarted(ws.value, i))
    case _ => None
  }

  function SelectionOf(index: Option<Value>): Option<Message> {
    match index
    case Some(Number(i)) => Some(Selected(i))
    case _ => None
  }

  function EndOf(reason: Option<Value>): Option<Message> {
    if reason == Some(Text("applied")) then Some(SessionEnded(UiApplied))
    else if reason == Some(Text("cancelled")) then Some(SessionEnded(UiCancelled))
    else None
  }

  // ---- what the printer prints -----------------------------------------------------------

  function WindowValue(w: OverlayWindowInfo): Value {
    Object([Member("addr", Text("0x" + Hex(w.address))), Member("title", Text(w.title)),
            Member("class", Text(w.windowClass))])
  }

  function WindowValues(ws: seq<OverlayWindowInfo>): (vs: seq<Value>)
    ensures |vs| == |ws| && forall i :: 0 <= i < |ws| ==> vs[i] == WindowValue(ws[i])
  {
    seq(|ws|, i requires 0 <= i < |ws| => WindowValue(ws[i]))
  }

  function StartValue(ws: seq<OverlayWindowInfo>, index: nat): Value {
    Object([Member("v", Number(1)), Member("type", Text("session_start")),
            Member("windows", Array(WindowValues(ws))), Member("index", Number(index))])
  }

  predicate Bare(s: string) { forall i :: 0 <= i < |s| ==> s[i] >= ' ' && s[i] != '"' && s[i] != '\\' }

  lemma {:induction false} BareText(s: string)
    requires Bare(s)
    ensures JsonString(s) == InQuotes(s)
  {
    BareEscaped(s);
  }

  lemma {:induction false} BareEscaped(s: string)
    requires Bare(s)
    ensures Escaped(s) == s
  {
    if s != "" {
      BareEscaped(s[1..]);
      assert s == [s[0]] + s[1..];
    }
  }

  lemma {:induction false} HexBare(n: nat)
    ensures Bare(Hex(n)) && Bare("0x" + Hex(n))
  {
    if n >= 16 { HexBare(n / 16); }
  }

  /** A member of a message, as the program spells it. */
  function Spelled(name: string, text: string): string { Named(name) + text }

  function Named(name: string): string { ['"'] + name + ['"'] + [':'] }

  function InQuotes(word: string): string { ['"'] + word + ['"'] }

  lemma {:induction false} MemberText(m: Member, text: string)
    requires Bare(m.name) && Compact(m.value) == text
    ensures CompactMember(m) == Spelled(m.name, text)
  {
    BareText(m.name);
  }

  lemma {:induction false} TwoMembers(a: Member, b: Member)
    ensures CompactMembers([a, b]) == CompactMember(a) + ([','] + CompactMember(b))
  {
    assert [a, b][1..] == [b];
  }

  lemma {:induction false} ThreeMembers(a: Member, b: Member, c: Member)
    ensures CompactMembers([a, b, c]) == CompactMember(a) + ([','] + (CompactMember(b) + ([','] + CompactMember(c))))
  {
    assert [a, b, c][1..] == [b, c];
    TwoMembers(b, c);
  }

  lemma {:induction false} FourMembers(a: Member, b: Member, c: Member, d: Member)
    ensures CompactMembers([a, b, c, d])
         == CompactMember(a)
            + ([','] + (CompactMember(b) + ([','] + (CompactMember(c) + ([','] + CompactMember(d))))))
  {
    assert [a, b, c, d][1..] == [b, c, d];
    ThreeMembers(b, c, d);
  }

  /** An object of three members, each spelled out. */
  lemma {:induction false} ThreeTexts(a: Member, b: Member, c: Member, ta: string, tb: string, tc: string)
    requires Bare(a.name) && Bare(b.name) && Bare(c.name)
    requires Compact(a.value) == ta && Compact(b.value) == tb && Compact(c.value) == tc
    ensures Compact(Object([a, b, c]))
         == ['{'] + ((Spelled(a.name, ta) + ([','] + (Spelled(b.name, tb) + ([','] + Spelled(c.name, tc))))) + ['}'])
  {
    MemberText(a, ta);
    MemberText(b, tb);
    MemberText(c, tc);
    ThreeMembers(a, b, c);
  }

  lemma {:induction false} FourTexts(a: Member, b: Member, c: Member, d: Member, ta: string, tb: string, tc: string,
                                     td: string)
    requires Bare(a.name) && Bare(b.name) && Bare(c.name) && Bare(d.name)
    requires Compact(a.value) == ta && Compact(b.value) == tb && Compact(c.value) == tc && Compact(d.value) == td
    ensures Compact(Object([a, b, c, d]))
         == ['{'] + ((Spelled(a.name, ta)
                      + ([','] + (Spelled(b.name, tb)
                                  + ([','] + (Spelled(c.name, tc) + ([','] + Spelled(d.name, td))))))) + ['}'])
  {
    MemberText(a, ta);
    MemberText(b, tb);
    MemberText(c, tc);
    MemberText(d, td);
    FourMembers(a, b, c, d);
  }

  lemma {:induction false} WindowText(w: OverlayWindowInfo)
    ensures EncodedWindow(WIRE, w) == Compact(WindowValue(w))
  {
    var addr, title, cls := Hex(w.address), JsonString(w.title), JsonString(w.windowClass);
    HexBare(w.address);
    BareText("0x" + addr);
    var ms := WindowValue(w).members;
    ThreeTexts(ms[0], ms[1], ms[2], InQuotes("0x" + addr), title, cls);
    WindowPieces(addr, title, cls);
  }

  /** The window's text, cut at the members. */
  lemma {:induction false} WindowPieces(addr: string, title: string, cls: string)
    ensures WIRE.open + "0x" + addr + WIRE.title + title + WIRE.cls + cls + WIRE.close
         == ['{'] + ((Spelled("addr", InQuotes("0x" + addr))
                      + ([','] + (Spelled("title", title) + ([','] + Spelled("class", cls))))) + ['}'])
  {
    assert WIRE.open == ['{'] + Named("addr") + ['"'];
    assert WIRE.title == ['"'] + [','] + Named("title");
    assert WIRE.cls == [','] + Named("class");
    WindowFlat(Named("addr"), addr, Named("title"), title, Named("class"), cls);
  }

  lemma {:induction false} WindowFlat(a: string, addr: string, t: string, title: string, c: string, cls: string)
    ensures (['{'] + a + ['"']) + "0x" + addr + (['"'] + [','] + t) + title + ([','] + c) + cls + ['}']
         == ['{'] + (((a + (['"'] + ("0x" + addr) + ['"']))
                      + ([','] + ((t + title) + ([','] + (c + cls))))) + ['}'])
  {
    var end := [','] + (c + cls);
    assert ([','] + c) + cls == end;
    var middle := [','] + ((t + title) + end);
    assert [','] + t + title + end == middle;
    var value := ['"'] + ("0x" + addr) + ['"'];
    assert ['"'] + "0x" + addr + ['"'] == value;
    assert (['{'] + a + ['"']) + "0x" + addr + (['"'] + [','] + t) == ['{'] + a + value + ([','] + t);
    assert ['{'] + a + value + ([','] + t) + title + end == ['{'] + a + value + middle;
    assert ['{'] + a + value + middle == ['{'] + ((a + value) + middle);
  }

  lemma {:induction false} ListText(ts: seq<string>, vs: seq<Value>)
    requires |ts| == |vs| && forall i :: 0 <= i < |ts| ==> ts[i] == Compact(vs[i])
    ensures Joined(ts) == CompactItems(vs)
  {
    if |ts| > 1 {
      ListText(ts[1..], vs[1..]);
      JoinedFromFront(ts);
      CommaFirst(ts[0], Joined(ts[1..]));
    }
  }

  lemma {:induction false} CommaFirst(a: string, b: string)
    ensures a + [','] + b == a + ([','] + b)
  {
  }

  lemma {:induction false} JoinedFromFront(ts: seq<string>)
    requires |ts| >= 2
    ensures Joined(ts) == ts[0] + [','] + Joined(ts[1..])
  {
    var front, last := ts[..|ts| - 1], ts[|ts| - 1];
    if |ts| == 2 {
      assert front == [ts[0]] && ts[1..] == [last];
    } else {
      JoinedFromFront(front);
      JoinedSnoc(front[1..], last);
      assert ts[1..] == front[1..] + [last];
      ConcatShift(ts[0], Joined(front[1..]), last);
    }
  }

  lemma {:induction false} ConcatShift(a: string, b: string, c: string)
    ensures a + [','] + b + [','] + c == a + [','] + (b + [','] + c)
  {
  }

  lemma {:induction false} VersionLiteral()
    ensures "{\"v\":" == ['{'] + Named("v") && Decimal(VERSION) == "1" && Compact(Number(1)) == "1"
  {
  }

  lemma {:induction false} WindowTexts(ws: seq<OverlayWindowInfo>)
    ensures Joined(Texts(WIRE, ws)) == CompactItems(WindowValues(ws))
  {
    var vs, ts := WindowValues(ws), Texts(WIRE, ws);
    forall i | 0 <= i < |ts| ensures ts[i] == Compact(vs[i]) { WindowText(ws[i]); }
    ListText(ts, vs);
  }

  lemma {:induction false} StartText(ws: seq<OverlayWindowInfo>, index: nat, text: string, v: Value)
    requires text == SessionStart(WIRE, ws, index) && v == StartValue(ws, index)
    ensures text == Compact(v)
  {
    WindowTexts(ws);
    ListInMessage(WindowValues(ws), Joined(Texts(WIRE, ws)), index, text);
  }

  lemma {:induction false} ListInMessage(vs: seq<Value>, list: string, index: nat, text: string)
    requires CompactItems(vs) == list && text == WIRE.head + list + WIRE.index + Decimal(index) + WIRE.end
    ensures text == Compact(Object([Member("v", Number(1)), Member("type", Text("session_start")),
                                    Member("windows", Array(vs)), Member("index", Number(index))]))
  {
    StartMembers([Member("v", Number(1)), Member("type", Text("session_start")), Member("windows", Array(vs)),
                  Member("index", Number(index))], vs, list, index, "session_start");
    StartPieces(list, Decimal(index));
  }

  lemma {:induction false} StartMembers(ms: seq<Member>, vs: seq<Value>, list: string, index: nat, kind: string)
    requires CompactItems(vs) == list && Bare(kind)
    requires ms == [Member("v", Number(1)), Member("type", Text(kind)), Member("windows", Array(vs)),
                    Member("index", Number(index))]
    ensures Compact(Object(ms))
         == ['{'] + ((Spelled("v", "1")
              + ([','] + (Spelled("type", InQuotes(kind))
                          + ([','] + (Spelled("windows", ['['] + (list + [']']))
                                      + ([','] + Spelled("index", Decimal(index)))))))) + ['}'])
  {
    VersionLiteral();
    BareText(kind);
    FourTexts(ms[0], ms[1], ms[2], ms[3], "1", InQuotes(kind), ['['] + (list + [']']), Decimal(index));
  }

  lemma {:induction false} StartPieces(list: string, index: string)
    ensures WIRE.head + list + WIRE.index + index + WIRE.end
         == ['{'] + ((Spelled("v", "1")
              + ([','] + (Spelled("type", InQuotes("session_start"))
                          + ([','] + (Spelled("windows", ['['] + (list + [']']))
                                      + ([','] + Spelled("index", index))))))) + ['}'])
  {
    VersionLiteral();
    StartKind();
    StartLiterals();
    StartFlat(Named("v"), "1", Spelled("type", InQuotes("session_start")), Named("windows"), list, Named("index"),
              index);
  }

  lemma {:induction false} TypeLiteral()
    ensures [','] + Named("type") == ",\"type\":"
  {
  }

  lemma {:induction false} StartKind()
    ensures ",\"type\":\"session_start\"" == [','] + Spelled("type", InQuotes("session_start"))
  {
    TypeLiteral();
    assert InQuotes("session_start") == "\"session_start\"";
    assert ",\"type\":\"session_start\"" == ",\"type\":" + "\"session_start\"";
  }

  lemma {:induction false} StartLiterals()
    ensures ",\"windows\":[" == [','] + Named("windows") + ['[']
    ensures WIRE.index == [']'] + [','] + Named("index") && WIRE.end == ['}']
  {
  }

  lemma {:induction false} StartFlat(v: string, one: string, t: string, n: string, list: string, i: string,
                                     index: string)
    ensures ((['{'] + v) + one + ([','] + t) + ([','] + n + ['['])) + list + ([']'] + [','] + i) + index + ['}']
         == ['{'] + (((v + one) + ([','] + (t + ([','] + ((n + (['['] + (list + [']'])))
                                                          + ([','] + (i + index))))))) + ['}'])
  {
    var end := [','] + (i + index);
    var windows := n + (['['] + (list + [']']));
    assert ([']'] + [','] + i) + index == [']'] + end;
    var rest := [','] + (windows + end);
    assert ['['] + list + ([']'] + end) == (['['] + (list + [']'])) + end;
    assert ([','] + n + ['[']) + list + ([']'] + end) == rest;
    assert ((['{'] + v) + one + ([','] + t) + ([','] + n + ['['])) + list + ([']'] + [','] + i) + index
        == ['{'] + (v + one) + ([','] + t) + rest;
    assert ['{'] + (v + one) + ([','] + t) + rest == ['{'] + ((v + one) + ([','] + (t + rest)));
  }

  // ---- the peer reads what was printed ---------------------------------------------------

  lemma {:induction false} AddrReads(a: Address)
    ensures ReadAddr("0x" + Hex(a)) == Some(a)
  {
    var s := "0x" + Hex(a);
    HexReads(a, "");
    assert Hex(a) + "" == Hex(a) && s[2..] == Hex(a) && s[..2] == "0x";
    assert s[2] == Hex(a)[0];
    assert HexDigits("", a) == (a, "");
  }

  lemma {:induction false} WindowReads(w: OverlayWindowInfo)
    ensures ReadWindow(WindowValue(w)) == Some(w)
  {
    AddrReads(w.address);
    var ms := WindowValue(w).members;
    assert "addr"[0] == 'a' && "title"[0] == 't' && "class"[0] == 'c';
    LookupThree(ms[0], ms[1], ms[2], "addr");
    LookupThree(ms[0], ms[1], ms[2], "title");
    LookupThree(ms[0], ms[1], ms[2], "class");
  }

  lemma {:induction false} WindowsRead(ws: seq<OverlayWindowInfo>)
    ensures ReadWindows(WindowValues(ws)) == Some(ws)
  {
    if ws != [] {
      var front, last := ws[..|ws| - 1], ws[|ws| - 1];
      var vs := WindowValues(ws);
      WindowsRead(front);
      WindowReads(last);
      assert vs[..|vs| - 1] == WindowValues(front);
      assert ws == front + [last];
    }
  }

  lemma {:induction false} NamesDiffer()
    ensures "v" != "type" && "v" != "windows" && "v" != "index" && "v" != "reason" && "type" != "windows"
    ensures "type" != "index" && "type" != "reason" && "windows" != "index"
    ensures "session_start" != "selection" && "session_start" != "session_end" && "selection" != "session_end"
    ensures "applied" != "cancelled"
  {
    assert "v"[0] == 'v' && "type"[0] == 't' && "windows"[0] == 'w' && "index"[0] == 'i' && "reason"[0] == 'r';
    assert "session_start"[8] == 's' && "session_end"[8] == 'e' && "selection"[2] == 'l' && "session_end"[2] == 's';
  }

  lemma {:induction false} LookupCons(m: Member, ms: seq<Member>, name: string)
    ensures Lookup([m] + ms, name) == if m.name == name then Some(m.value) else Lookup(ms, name)
  {
    assert ([m] + ms)[1..] == ms;
  }

  lemma {:induction false} LookupThree(a: Member, b: Member, c: Member, name: string)
    ensures Lookup([a, b, c], name)
         == if a.name == name then Some(a.value) else if b.name == name then Some(b.value)
            else if c.name == name then Some(c.value) else None
  {
    LookupCons(a, [b, c], name);
    LookupCons(b, [c], name);
    LookupCons(c, [], name);
    assert [a] + [b, c] == [a, b, c] && [b] + [c] == [b, c] && [c] + [] == [c];
  }

  lemma {:induction false} LookupFour(a: Member, b: Member, c: Member, d: Member, name: string)
    ensures Lookup([a, b, c, d], name)
         == if a.name == name then Some(a.value) else if b.name == name then Some(b.value)
            else if c.name == name then Some(c.value) else if d.name == name then Some(d.value) else None
  {
    LookupCons(a, [b, c, d], name);
    LookupThree(b, c, d, name);
    assert [a] + [b, c, d] == [a, b, c, d];
  }

  /** The first two members of a message of this kind, among three or four. */
  lemma {:induction false} LookupKind(ms: seq<Member>, kind: string)
    requires (|ms| == 3 && ms == [ms[0], ms[1], ms[2]]) || (|ms| == 4 && ms == [ms[0], ms[1], ms[2], ms[3]])
    requires ms[0] == Member("v", Number(1)) && ms[1] == Member("type", Text(kind))
    ensures Lookup(ms, "v") == Some(Number(1)) && Lookup(ms, "type") == Some(Text(kind))
  {
    NamesDiffer();
    if |ms| == 3 {
      LookupThree(ms[0], ms[1], ms[2], "type");
    } else {
      LookupFour(ms[0], ms[1], ms[2], ms[3], "type");
    }
  }

  // ---- main results ----------------------------------------------------------------------

  /** A peer that reads JSON and looks the members up by their names recovers the windows, in order and
      each with its own address, title and class, and the index, whatever the titles and classes. */
  lemma {:induction false} PrinterIsInvertible(ws: seq<OverlayWindowInfo>, index: nat)
    ensures Understood(SessionStart(WIRE, ws, index)) == Some(SessionStarted(ws, index))
  {
    var v, text := StartValue(ws, index), SessionStart(WIRE, ws, index);
    StartText(ws, index, text, v);
    ReadsAll(text, v);
    WindowsRead(ws);
    StartUnderstood(text, v.members, WindowValues(ws), ws, index);
  }

  lemma {:induction false} StartUnderstood(text: string, ms: seq<Member>, vs: seq<Value>, ws: seq<OverlayWindowInfo>,
                                           index: nat)
    requires ReadValue(text) == Done(Object(ms), "") && ReadWindows(vs) == Some(ws)
    requires ms == [Member("v", Number(1)), Member("type", Text("session_start")), Member("windows", Array(vs)),
                    Member("index", Number(index))]
    ensures Understood(text) == Some(SessionStarted(ws, index))
  {
    LookupKind(ms, "session_start");
    NamesDiffer();
    LookupFour(ms[0], ms[1], ms[2], ms[3], "windows");
    LookupFour(ms[0], ms[1], ms[2], ms[3], "index");
  }

  lemma {:induction false} ReadsAll(text: string, v: Value)
    requires text == Compact(v)
    ensures ReadValue(text) == Done(v, "")
  {
    ReadsBack(v, "");
    assert text + "" == text;
  }

  /** The peer recovers the index of a selection message. */
  lemma {:induction false} SelectionIsRead(index: nat)
    ensures Understood(EncodeSelection(index)) == Some(Selected(index))
  {
    var ms := [Member("v", Number(1)), Member("type", Text("selection")), Member("index", Number(index))];
    SelectionText(ms, index, EncodeSelection(index));
    ReadsAll(EncodeSelection(index), Object(ms));
    LookupKind(ms, "selection");
    NamesDiffer();
    LookupThree(ms[0], ms[1], ms[2], "index");
  }

  lemma {:induction false} SelectionText(ms: seq<Member>, index: nat, text: string)
    requires ms == [Member("v", Number(1)), Member("type", Text("selection")), Member("index", Number(index))]
    requires text == EncodeSelection(index)
    ensures text == Compact(Object(ms))
  {
    ShortMembers(ms, "selection", Decimal(index));
    SelectionLiterals();
    VersionLiteral();
    ThreeFlat(Named("v"), "1", Spelled("type", InQuotes("selection")), Named("index"), Decimal(index));
  }

  /** A message of version, type and one more member. */
  lemma {:induction false} ShortMembers(ms: seq<Member>, kind: string, text: string)
    requires |ms| == 3 && ms[0] == Member("v", Number(1)) && ms[1] == Member("type", Text(kind))
    requires Bare(kind) && Bare(ms[2].name) && Compact(ms[2].value) == text
    ensures Compact(Object(ms))
         == ['{'] + ((Spelled("v", "1") + ([','] + (Spelled("type", InQuotes(kind))
                      + ([','] + Spelled(ms[2].name, text))))) + ['}'])
  {
    VersionLiteral();
    BareText(kind);
    ThreeTexts(ms[0], ms[1], ms[2], "1", InQuotes(kind), text);
    assert ms == [ms[0], ms[1], ms[2]];
  }

  lemma {:induction false} SelectionLiterals()
    ensures ",\"type\":\"selection\"" == [','] + Spelled("type", InQuotes("selection"))
    ensures ",\"index\":" == [','] + Named("index")
  {
    TypeLiteral();
    assert InQuotes("selection") == "\"selection\"";
    assert ",\"type\":\"selection\"" == ",\"type\":" + "\"selection\"";
  }

  lemma {:induction false} ThreeFlat(v: string, one: string, t: string, n: string, x: string)
    ensures (['{'] + v) + one + ([','] + t) + ([','] + n) + x + ['}']
         == ['{'] + (((v + one) + ([','] + (t + ([','] + (n + x))))) + ['}'])
  {
    assert ([','] + n) + x == [','] + (n + x);
    assert (['{'] + v) + one + ([','] + t) + ([','] + n) + x == ['{'] + (v + one) + ([','] + t) + ([','] + (n + x));
    assert ['{'] + (v + one) + ([','] + t) + ([','] + (n + x))
        == ['{'] + ((v + one) + ([','] + (t + ([','] + (n + x)))));
  }

  /** The peer recovers the reason of a session_end message. */
  lemma {:induction false} EndIsRead(reason: UiEndReason)
    ensures Understood(EncodeSessionEnd(reason)) == Some(SessionEnded(reason))
  {
    var word := if reason == UiApplied then "applied" else "cancelled";
    var ms := [Member("v", Number(1)), Member("type", Text("session_end")), Member("reason", Text(word))];
    EndText(ms, reason, word, EncodeSessionEnd(reason));
    ReadsAll(EncodeSessionEnd(reason), Object(ms));
    LookupKind(ms, "session_end");
    NamesDiffer();
    LookupThree(ms[0], ms[1], ms[2], "reason");
  }

  lemma {:induction false} EndText(ms: seq<Member>, reason: UiEndReason, word: string, text: string)
    requires ms == [Member("v", Number(1)), Member("type", Text("session_end")), Member("reason", Text(word))]
    requires word == (if reason == UiApplied then "applied" else "cancelled") && text == EncodeSessionEnd(reason)
    ensures text == Compact(Object(ms))
  {
    BareText(word);
    ShortMembers(ms, "session_end", InQuotes(word));
    EndLiterals();
    ReasonLiterals();
    VersionLiteral();
    ThreeFlat(Named("v"), "1", Spelled("type", InQuotes("session_end")), Named("reason"), InQuotes(word));
  }

  lemma {:induction false} EndLiterals()
    ensures ",\"type\":\"session_end\"" == [','] + Spelled("type", InQuotes("session_end"))
    ensures ",\"reason\":" == [','] + Named("reason")
  {
    TypeLiteral();
    assert InQuotes("session_end") == "\"session_end\"";
    assert ",\"type\":\"session_end\"" == ",\"type\":" + "\"session_end\"";
  }

  lemma {:induction false} ReasonLiterals()
    ensures InQuotes("applied") == "\"applied\"" && InQuotes("cancelled") == "\"cancelled\""
  {
  }
}
