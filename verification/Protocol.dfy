// The peer's side and the plugin's side of the command stream together: what the peer prints, framed
// by line breaks and cut anywhere, is what the plugin's line handler parses.

module Protocol {
  import opened Blanks
  import opened Wrappers
  import opened OverlayCommand
  import opened OverlayPeer
  import opened Framing

  /** A command as a peer may print it: its fields in any order and with any further ones, and with
      whitespace wherever it may stand. */
  datatype Message = Message(cmd: Command, fields: seq<Field>, more: string, before: string, after: string)

  ghost predicate WellPrinted(m: Message) {
    && AllSpaced(m.fields) && Rest(m.more) && Tells(m.fields, m.cmd)
    && Blank(m.before) && Blank(m.after) && NoBreak(TextOf(m))
  }

  function TextOf(m: Message): string { m.before + ObjectText(m.fields, m.more) + m.after }

  function TextsOf(ms: seq<Message>): seq<string> {
    if ms == [] then [] else TextsOf(ms[..|ms| - 1]) + [TextOf(ms[|ms| - 1])]
  }

  function Wire(ms: seq<Message>): string {
    if ms == [] then "" else Wire(ms[..|ms| - 1]) + (TextOf(ms[|ms| - 1]) + ['\n'])
  }

  function ParsedAll(lines: seq<string>): seq<Option<Command>> {
    if lines == [] then [] else ParsedAll(lines[..|lines| - 1]) + [ParseCommand(lines[|lines| - 1])]
  }

  function UnderstoodAll(ms: seq<Message>): seq<Option<Command>> {
    if ms == [] then [] else UnderstoodAll(ms[..|ms| - 1]) + [Understood(ms[|ms| - 1].cmd)]
  }

  lemma {:induction false} WireLines(ms: seq<Message>)
    requires forall i :: 0 <= i < |ms| ==> WellPrinted(ms[i])
    ensures Lines(Wire(ms)) == TextsOf(ms) && Residue(Wire(ms)) == ""
  {
    if ms != [] {
      var front, last := ms[..|ms| - 1], ms[|ms| - 1];
      assert forall i :: 0 <= i < |front| ==> front[i] == ms[i];
      WireLines(front);
      assert WellPrinted(last);
      FrameAdds(Wire(front), TextOf(last));
    }
  }

  lemma {:induction false} TextsNonEmpty(ms: seq<Message>)
    ensures NonEmpty(TextsOf(ms)) == TextsOf(ms)
  {
    if ms != [] {
      var front, last := ms[..|ms| - 1], ms[|ms| - 1];
      TextsNonEmpty(front);
      assert (TextsOf(front) + [TextOf(last)])[..|TextsOf(front)|] == TextsOf(front);
    }
  }

  lemma {:induction false} RunStaysShort(p: Peer, polls: seq<seq<Recv>>)
    requires |p.buffer| <= MAX_LINE_BYTES && ShortLines(p.dispatched)
    ensures var r := PolledAll(p, polls); |r.buffer| <= MAX_LINE_BYTES && ShortLines(r.dispatched)
  {
    if polls != [] {
      RunStaysShort(p, polls[..|polls| - 1]);
      DispatchedLinesAreShort(PolledAll(p, polls[..|polls| - 1]), polls[|polls| - 1]);
    }
  }

  lemma {:induction false} TextsParse(ms: seq<Message>)
    requires forall i :: 0 <= i < |ms| ==> WellPrinted(ms[i])
    requires ShortLines(TextsOf(ms))
    ensures ParsedAll(TextsOf(ms)) == UnderstoodAll(ms)
  {
    if ms != [] {
      var front, last := ms[..|ms| - 1], ms[|ms| - 1];
      var texts := TextsOf(front);
      assert forall i :: 0 <= i < |front| ==> front[i] == ms[i];
      assert TextsOf(ms) == texts + [TextOf(last)];
      assert forall line :: line in texts ==> line in TextsOf(ms);
      assert TextsOf(ms)[|texts|] == TextOf(last);
      TextsParse(front);
      assert WellPrinted(last) && |TextOf(last)| <= MAX_LINE_BYTES;
      CommandRoundTrip(last.fields, last.more, last.cmd, last.before, last.after);
      assert TextsOf(ms)[..|texts|] == texts;
    }
  }

  /** The peer's messages, one line each, cut into any receives and polls that never exceed the cap:
      the line handler parses exactly the peer's commands, in order, and nothing is left over. */
  lemma {:induction false} CommandsArrive(p: Peer, polls: seq<seq<Recv>>, ms: seq<Message>)
    requires p.connected && p.buffer == "" && p.dispatched == [] && AllFit(p, polls)
    requires forall i :: 0 <= i < |ms| ==> WellPrinted(ms[i])
    requires StreamOf(polls) == Wire(ms)
    ensures var r := PolledAll(p, polls);
            r.connected && r.buffer == "" && ParsedAll(r.dispatched) == UnderstoodAll(ms)
  {
    ChunkingDoesNotMatter(p, polls);
    WireLines(ms);
    TextsNonEmpty(ms);
    RunStaysShort(p, polls);
    assert [] + TextsOf(ms) == TextsOf(ms);
    TextsParse(ms);
  }
}
