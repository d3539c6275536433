// JSON texts (RFC 8259) as far as the overlay messages need them: objects, arrays, strings and
// natural numbers. The reader allows whitespace between the tokens, as section 2 of the RFC does.

module Json {
  import opened Blanks
  import opened Wrappers
  import opened OverlayText

  datatype Value =
    | Text(text: string)
    | Number(n: nat)
    | Array(items: seq<Value>)
    | Object(members: seq<Member>)

  datatype Member = Member(name: string, value: Value)

  // ---- the compact form ------------------------------------------------------------------

  function Compact(v: Value): string
    decreases v, 0
  {
    match v
    case Text(text) => JsonString(text)
    case Number(n) => Decimal(n)
    case Array(items) => ['['] + (CompactItems(items) + [']'])
    case Object(members) => ['{'] + (CompactMembers(members) + ['}'])
  }

  function CompactItems(items: seq<Value>): string
    decreases items, 1
  {
    if items == [] then ""
    else if |items| == 1 then Compact(items[0])
    else Compact(items[0]) + ([','] + CompactItems(items[1..]))
  }

  function CompactMembers(members: seq<Member>): string
    decreases members, 1
  {
    if members == [] then ""
    else if |members| == 1 then CompactMember(members[0])
    else CompactMember(members[0]) + ([','] + CompactMembers(members[1..]))
  }

  function CompactMember(m: Member): string
    decreases m, 1
  {
    JsonString(m.name) + ([':'] + Compact(m.value))
  }

  // ---- the reader ------------------------------------------------------------------------

  /** The text from the next token on. */
  function Token(s: string): (t: string)
    ensures |t| <= |s|
  {
    TrimLeftEnd(s);
    TrimLeft(s)
  }

  function ReadValue(s: string): (p: Parsed<Value>)
    ensures p.Done? ==> |p.rest| < |s|
    decreases |s|, 0
  {
    var t := Token(s);
    if t == "" then Fail
    else if t[0] == '"' then
      var p := ReadString(t[1..]);
      if p.Fail? then Fail else Done(Text(p.value), p.rest)
    else if IsDigit(t[0]) then
      DigitsShorter(t[1..], DigitValue(t[0]));
      Done(Number(Digits(t, 0).0), Digits(t, 0).1)
    else if t[0] == '[' then
      var u := Token(t[1..]);
      if u != "" && u[0] == ']' then Done(Array([]), u[1..])
      else
        var p := ReadItems(u);
        if p.Fail? then Fail else Done(Array(p.value), p.rest)
    else if t[0] == '{' then
      var u := Token(t[1..]);
      if u != "" && u[0] == '}' then Done(Object([]), u[1..])
      else
        var p := ReadMembers(u);
        if p.Fail? then Fail else Done(Object(p.value), p.rest)
    else Fail
  }

  /** Values separated by commas, and the closing bracket. */
  function ReadItems(s: string): (p: Parsed<seq<Value>>)
    ensures p.Done? ==> |p.rest| < |s|
    decreases |s|, 1
  {
    var v := ReadValue(s);
    if v.Fail? then Fail
    else
      var t := Token(v.rest);
      if t == "" then Fail
      else if t[0] == ']' then Done([v.value], t[1..])
      else if t[0] != ',' then Fail
      else
        var more := ReadItems(t[1..]);
        if more.Fail? then Fail else Done([v.value] + more.value, more.rest)
  }

  /** Members separated by commas, and the closing brace. */
  function ReadMembers(s: string): (p: Parsed<seq<Member>>)
    ensures p.Done? ==> |p.rest| < |s|
    decreases |s|, 1
  {
    var m := ReadMember(s);
    if m.Fail? then Fail
    else
      var t := Token(m.rest);
      if t == "" then Fail
      else if t[0] == '}' then Done([m.value], t[1..])
      else if t[0] != ',' then Fail
      else
        var more := ReadMembers(t[1..]);
        if more.Fail? then Fail else Done([m.value] + more.value, more.rest)
  }

  function ReadMember(s: string): (p: Parsed<Member>)
    ensures p.Done? ==> |p.rest| < |s|
    decreases |s|, 0
  {
    var t := Token(s);
    if t == "" || t[0] != '"' then Fail
    else
      var name := ReadString(t[1..]);
      if name.Fail? then Fail
      else
        var colon := Token(name.rest);
        if colon == "" || colon[0] != ':' then Fail
        else
          var v := ReadValue(colon[1..]);
          if v.Fail? then Fail else Done(Member(name.value, v.value), v.rest)
  }

  lemma {:induction false} DigitsShorter(s: string, acc: nat)
    ensures |Digits(s, acc).1| <= |s|
    decreases |s|
  {
    if s != "" && IsDigit(s[0]) { DigitsShorter(s[1..], acc * 10 + DigitValue(s[0])); }
  }

  /** The first member of this name. */
  function Lookup(members: seq<Member>, name: string): Option<Value> {
    if members == [] then None
    else if members[0].name == name then Some(members[0].value)
    else Lookup(members[1..], name)
  }

  // ---- the reader inverts the compact form -----------------------------------------------

  lemma {:induction false} QuotedIs(s: string, rest: string)
    ensures var t := JsonString(s) + rest;
            t[0] == '"' && Token(t) == t && ReadString(t[1..]) == Done(s, rest)
  {
    StringReads(s, rest);
    assert JsonString(s) + rest == ['"'] + (Escaped(s) + ['"'] + rest);
  }

  /** A compact text starts with a token; a closing one or a separator is not among them. */
  lemma {:induction false} CompactStarts(v: Value)
    ensures var t := Compact(v); t != "" && !IsSpace(t[0]) && t[0] !in {']', '}', ',', ':'}
  {
    if v.Number? { DecimalReads(v.n, ""); }
  }

  lemma {:induction false} ItemsStart(items: seq<Value>)
    requires items != []
    ensures var t := CompactItems(items); t != "" && !IsSpace(t[0]) && t[0] != ']'
  {
    CompactStarts(items[0]);
  }

  lemma {:induction false} MembersStart(members: seq<Member>)
    requires members != []
    ensures var t := CompactMembers(members); t != "" && t[0] == '"'
  {
    assert CompactMember(members[0])[0] == '"';
  }

  /** Reading the compact form of any value gives the value, and leaves what follows it. */
  lemma {:induction false} ReadsBack(v: Value, rest: string)
    requires v.Number? ==> StopsDigits(rest)
    ensures ReadValue(Compact(v) + rest) == Done(v, rest)
    decreases v, 0
  {
    match v
    case Text(text) => QuotedIs(text, rest);
    case Number(n) =>
      DecimalReads(n, rest);
      assert (Decimal(n) + rest)[0] == Decimal(n)[0];
    case Array(items) => ArrayReads(items, rest);
    case Object(members) => ObjectReads(members, rest);
  }

  lemma {:induction false} ArrayReads(items: seq<Value>, rest: string)
    ensures ReadValue(Compact(Array(items)) + rest) == Done(Array(items), rest)
    decreases items, 2
  {
    var inner := CompactItems(items) + ([']'] + rest);
    assert Compact(Array(items)) + rest == ['['] + inner;
    assert (['['] + inner)[1..] == inner;
    if items == [] {
      assert inner == [']'] + rest && inner[1..] == rest;
    } else {
      ItemsStart(items);
      assert inner[0] == CompactItems(items)[0];
      ItemsRead(items, rest);
    }
  }

  lemma {:induction false} ItemsRead(items: seq<Value>, rest: string)
    requires items != []
    ensures ReadItems(CompactItems(items) + ([']'] + rest)) == Done(items, rest)
    decreases items, 1
  {
    var close := [']'] + rest;
    assert close[1..] == rest;
    if |items| == 1 {
      ReadsBack(items[0], close);
      assert items == [items[0]];
    } else {
      var more := CompactItems(items[1..]) + close;
      var all := CompactItems(items) + close;
      assert all == Compact(items[0]) + ([','] + more);
      assert ([','] + more)[1..] == more;
      ReadsBack(items[0], [','] + more);
      ItemsRead(items[1..], rest);
      assert items == [items[0]] + items[1..];
    }
  }

  lemma {:induction false} MemberReads(m: Member, rest: string)
    requires StopsDigits(rest)
    ensures ReadMember(CompactMember(m) + rest) == Done(m, rest)
    decreases m, 1
  {
    var after := [':'] + (Compact(m.value) + rest);
    assert CompactMember(m) + rest == JsonString(m.name) + after;
    QuotedIs(m.name, after);
    assert after[1..] == Compact(m.value) + rest;
    ReadsBack(m.value, rest);
  }

  lemma {:induction false} ObjectReads(members: seq<Member>, rest: string)
    ensures ReadValue(Compact(Object(members)) + rest) == Done(Object(members), rest)
    decreases members, 2
  {
    var inner := CompactMembers(members) + (['}'] + rest);
    assert Compact(Object(members)) + rest == ['{'] + inner;
    if members == [] {
      assert inner == ['}'] + rest && inner[1..] == rest;
    } else {
      MembersStart(members);
      assert inner[0] == CompactMembers(members)[0];
      MembersRead(members, rest, inner);
    }
    OpenObject(inner, members, rest);
  }

  lemma {:induction false} OpenObject(inner: string, members: seq<Member>, rest: string)
    requires inner != "" && !IsSpace(inner[0])
    requires if members == [] then inner[0] == '}' && inner[1..] == rest
             else inner[0] != '}' && ReadMembers(inner) == Done(members, rest)
    ensures ReadValue(['{'] + inner) == Done(Object(members), rest)
  {
    assert (['{'] + inner)[1..] == inner;
  }

  lemma {:induction false} MembersRead(members: seq<Member>, rest: string, text: string)
    requires members != [] && text == CompactMembers(members) + (['}'] + rest)
    ensures ReadMembers(text) == Done(members, rest)
    decreases members, 1
  {
    if |members| == 1 {
      OnlyMember(members, rest, text);
    } else {
      var more := CompactMembers(members[1..]) + (['}'] + rest);
      MembersRead(members[1..], rest, more);
      FirstMember(members, rest, text, more);
    }
  }

  lemma {:induction false} OnlyMember(members: seq<Member>, rest: string, text: string)
    requires |members| == 1 && text == CompactMembers(members) + (['}'] + rest)
    ensures ReadMembers(text) == Done(members, rest)
    decreases members, 0
  {
    MemberReads(members[0], ['}'] + rest);
    LastMember(text, members[0], rest);
    assert members == [members[0]];
  }

  lemma {:induction false} FirstMember(members: seq<Member>, rest: string, text: string, more: string)
    requires |members| > 1 && text == CompactMembers(members) + (['}'] + rest)
    requires more == CompactMembers(members[1..]) + (['}'] + rest) && ReadMembers(more) == Done(members[1..], rest)
    ensures ReadMembers(text) == Done(members, rest)
    decreases members, 0
  {
    MembersText(members, ['}'] + rest);
    MemberReads(members[0], [','] + more);
    MoreMembers(text, members[0], more, members[1..], rest);
    assert members == [members[0]] + members[1..];
  }

  lemma {:induction false} MembersText(members: seq<Member>, close: string)
    requires |members| > 1
    ensures CompactMembers(members) + close
         == CompactMember(members[0]) + ([','] + (CompactMembers(members[1..]) + close))
  {
  }

  lemma {:induction false} LastMember(all: string, m: Member, rest: string)
    requires ReadMember(all) == Done(m, ['}'] + rest)
    ensures ReadMembers(all) == Done([m], rest)
  {
    assert (['}'] + rest)[1..] == rest;
  }

  lemma {:induction false} MoreMembers(all: string, m: Member, more: string, ms: seq<Member>, rest: string)
    requires ReadMember(all) == Done(m, [','] + more) && ReadMembers(more) == Done(ms, rest)
    ensures ReadMembers(all) == Done([m] + ms, rest)
  {
    assert ([','] + more)[1..] == more;
  }
}
