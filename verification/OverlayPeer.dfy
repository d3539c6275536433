// Command lines as a peer may print them: any order of the fields, further fields, whitespace around
// every token. The reference peer (tools/overlay_stub.py) prints the compact form.

module OverlayPeer {
  import opened Blanks
  import opened Wrappers
  import opened OverlayText
  import opened OverlayCommand

  /** One field, with the whitespace before it, around its colon and after its value. */
  datatype Field = Field(before: string, key: string, left: string, right: string, value: string, after: string)

  function FieldText(f: Field): string {
    f.before + (Quoted(f.key) + (f.left + ([':'] + (f.right + (f.value + f.after)))))
  }

  function Joined(fs: seq<Field>): string {
    if fs == [] then ""
    else if |fs| == 1 then FieldText(fs[0])
    else FieldText(fs[0]) + ([','] + Joined(fs[1..]))
  }

  /** The fields in braces; `more` is whatever else stands before the closing brace. */
  function ObjectText(fs: seq<Field>, more: string): string {
    ['{'] + (Joined(fs) + (more + ['}']))
  }

  /** Nothing, or any text that starts with a comma. */
  predicate Rest(more: string) { more == "" || more[0] == ',' }

  predicate Spaced(f: Field) {
    Blank(f.before) && Blank(f.left) && Blank(f.right) && Blank(f.after) && f.value != "" && !IsSpace(f.value[0])
  }

  /** Every quotation mark of `p` is followed, inside `p`, by something other than `k`. */
  predicate Clear(p: string, k: char) {
    forall i :: 0 <= i < |p| && p[i] == '"' ==> i + 1 < |p| && p[i + 1] != k
  }

  /** The field, up to the comma behind it, holds nothing that could be taken for a key in `k`. */
  predicate Quiet(f: Field, k: char) { Clear(FieldText(f) + [','], k) }

  /** The first field of this key has this value, and what stands before it is quiet. */
  ghost predicate Carries(fs: seq<Field>, key: string, value: string) {
    exists n :: 0 <= n < |fs| && CarriesAt(fs, n, key, value)
  }

  ghost predicate CarriesAt(fs: seq<Field>, n: nat, key: string, value: string)
    requires n < |fs|
  {
    && fs[n].key == key && fs[n].value == value
    && key != "" && forall m :: 0 <= m < n ==> Quiet(fs[m], key[0])
  }

  ghost predicate AllSpaced(fs: seq<Field>) { forall n :: 0 <= n < |fs| ==> Spaced(fs[n]) }

  // ---- finding a field -------------------------------------------------------------------

  lemma {:induction false} ClearAppend(p: string, q: string, k: char)
    requires Clear(p, k) && Clear(q, k)
    ensures Clear(p + q, k)
  {
    forall i | 0 <= i < |p + q| && (p + q)[i] == '"' ensures i + 1 < |p + q| && (p + q)[i + 1] != k {
      if i < |p| { assert p[i] == '"'; } else { assert q[i - |p|] == '"'; }
    }
  }

  lemma {:induction false} ClearHides(p: string, key: string, rest: string)
    requires key != "" && Clear(p, key[0])
    ensures NotBefore(p + rest, Quoted(key), |p|)
  {
    var s := p + rest;
    forall i | 0 <= i < |p| ensures !(Quoted(key) <= s[i..]) { NotQuoted(s, key, i); }
  }

  lemma {:induction false} NotQuoted(s: string, key: string, i: nat)
    requires key != "" && i < |s| && (s[i] != '"' || i + 1 >= |s| || s[i + 1] != key[0])
    ensures !(Quoted(key) <= s[i..])
  {
    assert Quoted(key)[0] == '"' && Quoted(key)[1] == key[0];
    assert s[i..][0] == s[i];
    if i + 1 < |s| { assert s[i..][1] == s[i + 1]; }
  }

  /** The text around field `n`. */
  lemma {:induction false} JoinedAt(fs: seq<Field>, n: nat, k: char) returns (p: string, q: string)
    requires n < |fs| && forall m :: 0 <= m < n ==> Quiet(fs[m], k)
    ensures Joined(fs) == p + (FieldText(fs[n]) + q) && Clear(p, k) && Rest(q)
  {
    if n == 0 {
      p, q := "", if |fs| == 1 then "" else [','] + Joined(fs[1..]);
      assert FieldText(fs[0]) + "" == FieldText(fs[0]);
    } else {
      p, q := JoinedAt(fs[1..], n - 1, k);
      var head := FieldText(fs[0]) + [','];
      assert head + (p + (FieldText(fs[n]) + q)) == head + p + (FieldText(fs[n]) + q);
      assert FieldText(fs[0]) + ([','] + Joined(fs[1..])) == head + Joined(fs[1..]);
      ClearAppend(head, p, k);
      p := head + p;
    }
  }

  /** What may follow a value: whitespace, a comma, or the closing brace. */
  predicate EndsValue(rest: string) { rest != "" && (IsSpace(rest[0]) || rest[0] == ',' || rest[0] == '}') }

  lemma {:induction false} FieldParts(p: string, f: Field, q: string, more: string)
    ensures ['{'] + ((p + (FieldText(f) + q)) + (more + ['}']))
         == (['{'] + p + f.before)
            + (Quoted(f.key) + (f.left + ([':'] + (f.right + (f.value + (f.after + (q + (more + ['}']))))))))
  {
    var end := more + ['}'];
    var tail := f.after + (q + end);
    assert f.value + f.after + (q + end) == f.value + tail;
    assert (f.right + (f.value + f.after)) + (q + end) == f.right + (f.value + tail);
    var colon := [':'] + (f.right + (f.value + f.after));
    assert colon + (q + end) == [':'] + (f.right + (f.value + tail));
    assert (f.left + colon) + (q + end) == f.left + (colon + (q + end));
    assert (Quoted(f.key) + (f.left + colon)) + (q + end) == Quoted(f.key) + ((f.left + colon) + (q + end));
    assert FieldText(f) + (q + end) == f.before + ((Quoted(f.key) + (f.left + colon)) + (q + end));
    assert (p + (FieldText(f) + q)) + end == p + (FieldText(f) + (q + end));
  }

  lemma {:induction false} FieldFound(fs: seq<Field>, more: string, key: string, value: string) returns (rest: string)
    requires AllSpaced(fs) && Carries(fs, key, value) && Rest(more)
    ensures EndsValue(rest) && ValueAfterKey(ObjectText(fs, more), key) == Some(value + rest)
  {
    var n :| 0 <= n < |fs| && CarriesAt(fs, n, key, value);
    var f := fs[n];
    var p, q := JoinedAt(fs, n, key[0]);
    FieldParts(p, f, q, more);
    rest := f.after + (q + (more + ['}']));
    var front := ['{'] + p + f.before;
    BlankClear(f.before, key[0]);
    ClearAppend(['{'], p, key[0]);
    ClearAppend(['{'] + p, f.before, key[0]);
    ClearHides(front, key, Quoted(key) + (f.left + ([':'] + (f.right + (value + rest)))));
    FoundIsRead(ObjectText(fs, more), key, front, f.left, f.right, value + rest);
  }

  lemma {:induction false} BlankClear(s: string, k: char)
    requires Blank(s)
    ensures Clear(s, k)
  {
  }

  // ---- reading the values ----------------------------------------------------------------

  predicate Plain(s: string) { forall i :: 0 <= i < |s| ==> s[i] != '"' && s[i] != '\\' }

  lemma {:induction false} PlainRepo(word: string, rest: string)
    requires Plain(word)
    ensures RepoChars(word + (['"'] + rest)) == Some(word)
  {
    var s := word + (['"'] + rest);
    if word != "" {
      assert s[1..] == word[1..] + (['"'] + rest);
      PlainRepo(word[1..], rest);
      assert word == [word[0]] + word[1..];
    }
  }

  lemma {:induction false} DecimalParses(n: nat, rest: string)
    requires StopsDigits(rest)
    ensures FromChars(Decimal(n) + rest) == if n < TWO_TO_THE_63 then Some(n) else None
  {
    DecimalReads(n, rest);
    assert (Decimal(n) + rest)[0] == Decimal(n)[0];
  }

  lemma {:induction false} NegativeParses(n: nat, rest: string)
    requires StopsDigits(rest)
    ensures var v := FromChars(['-'] + (Decimal(n) + rest)); v.None? || v.value + n == 0
  {
    DecimalReads(n, rest);
    assert (['-'] + (Decimal(n) + rest))[1..] == Decimal(n) + rest;
    assert (Decimal(n) + rest)[0] == Decimal(n)[0];
  }

  lemma {:induction false} IntCarried(fs: seq<Field>, more: string, key: string, n: nat)
    requires AllSpaced(fs) && Rest(more) && Carries(fs, key, Decimal(n))
    ensures ReadInt(ObjectText(fs, more), key) == if n < TWO_TO_THE_63 then Some(n) else None
  {
    var rest := FieldFound(fs, more, key, Decimal(n));
    DecimalParses(n, rest);
  }

  lemma {:induction false} NegativeCarried(fs: seq<Field>, more: string, key: string, n: nat)
    requires AllSpaced(fs) && Rest(more) && Carries(fs, key, ['-'] + Decimal(n))
    ensures var v := ReadInt(ObjectText(fs, more), key); v.None? || v.value + n == 0
  {
    var rest := FieldFound(fs, more, key, ['-'] + Decimal(n));
    assert ['-'] + Decimal(n) + rest == ['-'] + (Decimal(n) + rest);
    NegativeParses(n, rest);
  }

  lemma {:induction false} TextCarried(fs: seq<Field>, more: string, key: string, word: string)
    requires AllSpaced(fs) && Rest(more) && Carries(fs, key, Quoted(word)) && Plain(word)
    ensures ReadText(ObjectText(fs, more), key) == Some(word)
  {
    var rest := FieldFound(fs, more, key, Quoted(word));
    var value := Quoted(word) + rest;
    assert value[1..] == word + (['"'] + rest);
    PlainRepo(word, rest);
  }

  /** A value that is no number, and no string, is refused as one. */
  lemma {:induction false} OtherCarried(fs: seq<Field>, more: string, key: string, value: string)
    requires AllSpaced(fs) && Rest(more) && Carries(fs, key, value) && value != ""
    ensures !IsDigit(value[0]) && value[0] != '-' ==> ReadInt(ObjectText(fs, more), key) == None
    ensures value[0] != '"' ==> ReadText(ObjectText(fs, more), key) == None
  {
    var rest := FieldFound(fs, more, key, value);
    assert (value + rest)[0] == value[0];
  }

  lemma {:induction false} KeyAbsent(s: string, key: string)
    requires !Occurs(s, Quoted(key))
    ensures ReadInt(s, key) == None && ReadText(s, key) == None
  {
    NeedleOccurs(s, Quoted(key));
  }

  // ---- main results ----------------------------------------------------------------------

  /** The fields say this command. */
  ghost predicate Tells(fs: seq<Field>, cmd: Command) {
    && Carries(fs, "v", "1")
    && Carries(fs, "type", Quoted(Kind(cmd)))
    && (cmd.Select? ==> Carries(fs, "index", Decimal(cmd.index)))
  }

  /** A field that the command needs. */
  predicate Own(f: Field, cmd: Command) {
    || (f.key == "v" && f.value == "1")
    || (f.key == "type" && f.value == Quoted(Kind(cmd)))
    || (f.key == "index" && cmd.Select? && f.value == Decimal(cmd.index))
  }

  /** A field that no needed key can be read from. */
  predicate Foreign(f: Field) {
    f.key !in {"v", "type", "index"} && Quiet(f, 'v') && Quiet(f, 't') && Quiet(f, 'i')
  }

  /** What the parser makes of a command: an index it cannot hold is refused. */
  function Understood(cmd: Command): Option<Command> {
    if cmd.Select? && cmd.index >= TWO_TO_THE_63 then None else Some(cmd)
  }

  lemma {:induction false} Framed(fs: seq<Field>, more: string, before: string, after: string)
    requires Blank(before) && Blank(after)
    ensures Trim(before + ObjectText(fs, more) + after) == ObjectText(fs, more)
    ensures var s := ObjectText(fs, more); |s| >= 2 && s[0] == '{' && s[|s| - 1] == '}'
  {
    var s := ObjectText(fs, more);
    assert s == ['{'] + (Joined(fs) + more) + ['}'];
    TrimBlanks(before, s, after);
  }

  /** The parser returns the peer's command, whatever whitespace stands around the line, the keys, the
      colons, the values and the commas, whichever order the fields have, and whatever else stands
      before the closing brace, up to the size cap. */
  lemma {:induction false} CommandRoundTrip(fs: seq<Field>, more: string, cmd: Command, before: string, after: string)
    requires AllSpaced(fs) && Rest(more) && Tells(fs, cmd) && Blank(before) && Blank(after)
    requires |before + ObjectText(fs, more) + after| <= MAX_LINE_BYTES
    ensures ParseCommand(before + ObjectText(fs, more) + after) == Understood(cmd)
  {
    var core := ObjectText(fs, more);
    Framed(fs, more, before, after);
    assert Decimal(1) == "1";
    IntCarried(fs, more, "v", 1);
    TextCarried(fs, more, "type", Kind(cmd));
    if cmd.Select? { IntCarried(fs, more, "index", cmd.index); }
    ReadAs(core, cmd);
  }

  lemma {:induction false} ReadAs(core: string, cmd: Command)
    requires |core| >= 2 && core[0] == '{' && core[|core| - 1] == '}'
    requires ReadInt(core, "v") == Some(1) && ReadText(core, "type") == Some(Kind(cmd))
    requires cmd.Select? ==> ReadInt(core, "index") == if cmd.index < TWO_TO_THE_63 then Some(cmd.index) else None
    ensures ParseTrimmed(core) == Understood(cmd)
  {
  }

  lemma {:induction false} ClearWord(word: string, rest: string, k: char)
    requires Plain(word) && word != "" && word[0] != k && rest != "" && rest[0] != k && Clear(rest, k)
    ensures Clear(Quoted(word) + rest, k)
  {
    var s := Quoted(word) + rest;
    forall i | 0 <= i < |s| ensures s[i] == '"' ==> i + 1 < |s| && s[i + 1] != k {
      if i == 0 {
        assert s[1] == word[0];
      } else if i <= |word| {
        assert s[i] == word[i - 1];
      } else if i == |word| + 1 {
        assert s[i + 1] == rest[0];
      } else {
        assert s[i] == rest[i - |word| - 2];
        if i + 1 < |s| { assert s[i + 1] == rest[i - |word| - 1]; }
      }
    }
  }

  /** A field of one of the three keys is quiet about the other two. */
  lemma {:induction false} OwnQuiet(f: Field, cmd: Command, k: char)
    requires Spaced(f) && Own(f, cmd) && k in {'v', 't', 'i'} && f.key[0] != k
    ensures Quiet(f, k)
  {
    var end := f.after + [','];
    BlankClear(f.after, k);
    ClearAppend(f.after, [','], k);
    ValueQuiet(f, cmd, end, k);
    var value := f.value + end;
    BlankClear(f.right, k);
    ClearAppend(f.right, value, k);
    ClearAppend([':'], f.right + value, k);
    var colon := [':'] + (f.right + value);
    BlankClear(f.left, k);
    ClearAppend(f.left, colon, k);
    ClearWord(f.key, f.left + colon, k);
    BlankClear(f.before, k);
    ClearAppend(f.before, Quoted(f.key) + (f.left + colon), k);
    OwnAssoc(f);
  }

  lemma {:induction false} OwnAssoc(f: Field)
    ensures FieldText(f) + [',']
         == f.before + (Quoted(f.key) + (f.left + ([':'] + (f.right + (f.value + (f.after + [',']))))))
  {
    var value := f.value + f.after;
    assert value + [','] == f.value + (f.after + [',']);
    assert (f.right + value) + [','] == f.right + (value + [',']);
    var colon := [':'] + (f.right + value);
    assert colon + [','] == [':'] + ((f.right + value) + [',']);
    assert (f.left + colon) + [','] == f.left + (colon + [',']);
    assert (Quoted(f.key) + (f.left + colon)) + [','] == Quoted(f.key) + ((f.left + colon) + [',']);
  }

  lemma {:induction false} ValueQuiet(f: Field, cmd: Command, end: string, k: char)
    requires Own(f, cmd) && k in {'v', 't', 'i'} && Blank(f.after) && end == f.after + [','] && Clear(end, k)
    ensures Clear(f.value + end, k)
  {
    if f.key == "type" {
      ClearWord(Kind(cmd), end, k);
    } else {
      if f.key == "index" { DecimalReads(cmd.index, ""); }
      assert forall i :: 0 <= i < |f.value| ==> f.value[i] != '"';
      ClearAppend(f.value, end, k);
    }
  }

  lemma {:induction false} FirstCarries(fs: seq<Field>, cmd: Command, key: string, value: string, n: nat)
    requires AllSpaced(fs) && forall m :: 0 <= m < |fs| ==> Own(fs[m], cmd) || Foreign(fs[m])
    requires key in {"v", "type", "index"} && n < |fs| && fs[n].key == key && fs[n].value == value
    requires forall m :: 0 <= m < |fs| && fs[m].key == key ==> fs[m].value == value
    ensures Carries(fs, key, value)
  {
    if m :| 0 <= m < n && fs[m].key == key {
      FirstCarries(fs, cmd, key, value, m);
    } else {
      forall m | 0 <= m < n ensures Quiet(fs[m], key[0]) {
        if Own(fs[m], cmd) { OwnQuiet(fs[m], cmd, key[0]); }
      }
      assert CarriesAt(fs, n, key, value);
    }
  }

  /** The needed fields tell the command in any order, among any foreign fields. */
  lemma {:induction false} AnyOrderTells(fs: seq<Field>, cmd: Command, v: nat, t: nat, i: nat)
    requires AllSpaced(fs) && forall m :: 0 <= m < |fs| ==> Own(fs[m], cmd) || Foreign(fs[m])
    requires v < |fs| && fs[v].key == "v" && t < |fs| && fs[t].key == "type"
    requires cmd.Select? ==> i < |fs| && fs[i].key == "index"
    ensures Tells(fs, cmd)
  {
    FirstCarries(fs, cmd, "v", "1", v);
    FirstCarries(fs, cmd, "type", Quoted(Kind(cmd)), t);
    if cmd.Select? { FirstCarries(fs, cmd, "index", Decimal(cmd.index), i); }
  }

  // ---- the reference peer ----------------------------------------------------------------

  /** The message the reference peer prints for a command, without the line break. */
  function PeerEncode(cmd: Command): string {
    "{\"v\":1,\"type\":\"" + Kind(cmd)
    + (if cmd.Select? then "\",\"index\":" + Decimal(cmd.index) else "\"")
    + ['}']
  }

  function Compact(key: string, value: string): Field { Field("", key, "", "", value, "") }

  function PeerFields(cmd: Command): seq<Field> {
    [Compact("v", "1"), Compact("type", Quoted(Kind(cmd)))]
    + if cmd.Select? then [Compact("index", Decimal(cmd.index))] else []
  }

  lemma {:induction false} CompactText(key: string, value: string)
    ensures FieldText(Compact(key, value)) == Quoted(key) + ([':'] + value)
  {
    assert "" + (value + "") == value;
    assert "" + ([':'] + value) == [':'] + value;
  }

  /** The plain message of the reference peer is the case of no whitespace and no further fields, and
      the parser returns its command. */
  lemma {:induction false} PeerPlain(cmd: Command)
    requires |PeerEncode(cmd)| <= MAX_LINE_BYTES
    ensures PeerEncode(cmd) == ObjectText(PeerFields(cmd), "")
    ensures ParseCommand(PeerEncode(cmd)) == Understood(cmd)
  {
    var fs := PeerFields(cmd);
    PeerText(cmd);
    PeerTells(cmd);
    assert "" + PeerEncode(cmd) + "" == PeerEncode(cmd);
    CommandRoundTrip(fs, "", cmd, "", "");
  }

  lemma {:induction false} PeerTells(cmd: Command)
    ensures AllSpaced(PeerFields(cmd)) && Tells(PeerFields(cmd), cmd)
  {
    if cmd.Select? { DecimalReads(cmd.index, ""); }
    AnyOrderTells(PeerFields(cmd), cmd, 0, 1, 2);
  }

  lemma {:induction false} PeerText(cmd: Command)
    ensures PeerEncode(cmd) == ObjectText(PeerFields(cmd), "")
  {
    var fs, word := PeerFields(cmd), Quoted(Kind(cmd));
    var type_ := Quoted("type") + ([':'] + word);
    CompactText("v", "1");
    CompactText("type", word);
    var number := if cmd.Select? then Decimal(cmd.index) else "";
    var index := if cmd.Select? then [','] + (Quoted("index") + ([':'] + number)) else "";
    if cmd.Select? {
      CompactText("index", number);
      assert fs[1..] == [fs[1], fs[2]] && fs[1..][1..] == [fs[2]];
      assert Joined(fs[1..]) == type_ + index;
    } else {
      assert fs[1..] == [fs[1]];
      assert Joined(fs[1..]) == type_ + index;
    }
    PeerPieces(cmd, number, type_, index);
  }

  lemma {:induction false} PeerPieces(cmd: Command, number: string, type_: string, index: string)
    requires type_ == Quoted("type") + ([':'] + Quoted(Kind(cmd)))
    requires cmd.Select? ==> number == Decimal(cmd.index)
    requires index == if cmd.Select? then [','] + (Quoted("index") + ([':'] + number)) else ""
    ensures PeerEncode(cmd)
         == ['{'] + (((Quoted("v") + ([':'] + "1")) + ([','] + (type_ + index))) + ("" + ['}']))
  {
    var kind, t := Kind(cmd), Quoted("type") + ([':'] + ['"']);
    OpeningText();
    assert type_ == t + (kind + ['"']);
    Flattened(Quoted("v") + ([':'] + "1"), t, kind, index);
    if cmd.Select? {
      assert "\",\"index\":" == ['"'] + ([','] + (Quoted("index") + [':']));
      MiddleText(Quoted("index"), number, index);
    } else {
      assert ['"'] + index == "\"";
    }
  }

  lemma {:induction false} OpeningText()
    ensures "{\"v\":1,\"type\":\""
         == ['{'] + (Quoted("v") + ([':'] + "1")) + [','] + (Quoted("type") + ([':'] + ['"']))
  {
    assert Quoted("v") + ([':'] + "1") == "\"v\":1";
    assert Quoted("type") + ([':'] + ['"']) == "\"type\":\"";
  }

  lemma {:induction false} MiddleText(key: string, number: string, index: string)
    requires index == [','] + (key + ([':'] + number))
    ensures ['"'] + index == (['"'] + ([','] + (key + [':']))) + number
  {
    assert key + ([':'] + number) == (key + [':']) + number;
  }

  lemma {:induction false} Flattened(v: string, t: string, kind: string, index: string)
    ensures ['{'] + ((v + ([','] + ((t + (kind + ['"'])) + index))) + ("" + ['}']))
         == ((['{'] + v + [','] + t) + kind + (['"'] + index)) + ['}']
  {
    assert (t + (kind + ['"'])) + index == t + (kind + (['"'] + index));
    var tail := kind + (['"'] + index);
    assert [','] + (t + tail) == ([','] + t) + tail;
    assert v + (([','] + t) + tail) == (v + ([','] + t)) + tail;
    assert "" + ['}'] == ['}'];
    assert (['{'] + v + [','] + t) + tail == ['{'] + ((v + ([','] + t)) + tail);
    assert (['{'] + v + [','] + t) + kind + (['"'] + index) == (['{'] + v + [','] + t) + tail;
  }

  // ---- refusals --------------------------------------------------------------------------

  /** Another version is refused, whatever else the line says: another number, or no number. */
  lemma {:induction false} WrongVersionRefused(fs: seq<Field>, more: string, before: string, after: string,
                                               value: string, n: nat)
    requires AllSpaced(fs) && Rest(more) && Blank(before) && Blank(after) && Carries(fs, "v", value)
    requires (value == Decimal(n) && n != 1) || value == ['-'] + Decimal(n)
             || (value != "" && !IsDigit(value[0]) && value[0] != '-')
    ensures ParseCommand(before + ObjectText(fs, more) + after) == None
  {
    Framed(fs, more, before, after);
    if value == Decimal(n) {
      IntCarried(fs, more, "v", n);
    } else if value == ['-'] + Decimal(n) {
      NegativeCarried(fs, more, "v", n);
    } else {
      OtherCarried(fs, more, "v", value);
    }
  }

  /** A line that does not mention the version, or the type, is refused. */
  lemma {:induction false} MissingKeyRefused(line: string, key: string)
    requires key in {"v", "type"} && !Occurs(line, Quoted(key))
    ensures ParseCommand(line) == None
  {
    TrimHides(line, Quoted(key));
    KeyAbsent(Trim(line), key);
  }

  lemma {:induction false} PrefixLonger(needle: string, s: string, t: string)
    ensures needle <= s ==> needle <= s + t
  {
  }

  lemma {:induction false} TrimHides(line: string, needle: string)
    requires !Occurs(line, needle)
    ensures !Occurs(Trim(line), needle)
  {
    var before, after := TrimSplits(line);
    forall i | 0 <= i <= |Trim(line)| ensures !(needle <= Trim(line)[i..]) {
      assert line[|before| + i..] == Trim(line)[i..] + after;
      assert !(needle <= line[|before| + i..]);
      PrefixLonger(needle, Trim(line)[i..], after);
    }
  }

  /** A type that is none of the three, or no string, is refused. */
  lemma {:induction false} UnknownTypeRefused(fs: seq<Field>, more: string, before: string, after: string,
                                              word: string, value: string)
    requires AllSpaced(fs) && Rest(more) && Blank(before) && Blank(after) && Carries(fs, "type", value)
    requires (value == Quoted(word) && Plain(word) && word !in {"apply", "cancel", "select"})
             || (value != "" && value[0] != '"')
    ensures ParseCommand(before + ObjectText(fs, more) + after) == None
  {
    Framed(fs, more, before, after);
    if value != "" && value[0] != '"' {
      OtherCarried(fs, more, "type", value);
    } else {
      TextCarried(fs, more, "type", word);
    }
  }

  /** A select is refused without an index, and with one that is negative or no number. */
  lemma {:induction false} SelectNeedsIndex(fs: seq<Field>, more: string, before: string, after: string,
                                            value: string, n: nat)
    requires AllSpaced(fs) && Rest(more) && Blank(before) && Blank(after) && Carries(fs, "type", Quoted("select"))
    requires || !Occurs(ObjectText(fs, more), Quoted("index"))
             || (Carries(fs, "index", value) && n > 0 && value == ['-'] + Decimal(n))
             || (Carries(fs, "index", value) && value != "" && !IsDigit(value[0]) && value[0] != '-')
    ensures ParseCommand(before + ObjectText(fs, more) + after) == None
  {
    Framed(fs, more, before, after);
    TextCarried(fs, more, "type", "select");
    if !Occurs(ObjectText(fs, more), Quoted("index")) {
      KeyAbsent(ObjectText(fs, more), "index");
    } else if value == ['-'] + Decimal(n) {
      NegativeCarried(fs, more, "index", n);
    } else {
      OtherCarried(fs, more, "index", value);
    }
  }

  /** A line over the cap is refused, and one that is not in braces once trimmed. */
  lemma {:induction false} UnframedRefused(line: string, before: string, core: string, after: string)
    requires Blank(before) && Blank(after) && line == before + core + after
    requires core == "" || (!IsSpace(core[0]) && !IsSpace(core[|core| - 1]))
    requires |line| > MAX_LINE_BYTES || |core| < 2 || core[0] != '{' || core[|core| - 1] != '}'
    ensures ParseCommand(line) == None
  {
    if core != "" {
      TrimBlanks(before, core, after);
    } else {
      BlankTrims(before + after);
      assert line == before + after;
    }
  }

  lemma {:induction false} BlankTrims(s: string)
    requires Blank(s)
    ensures Trim(s) == ""
  {
    if s != "" { BlankTrims(s[1..]); }
  }
}
