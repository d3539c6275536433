// The buffer logic of src/plugin/overlay_socket_server.cpp: bytes arrive in pieces, complete lines
// are dispatched, an over-long buffer is dropped; and the sending side, one frame per message.

module Framing {
  import opened OverlayText
  import opened OverlayCommand

  // ---- what a byte stream says -----------------------------------------------------------

  /** What follows the last line break. */
  function Residue(s: string): string {
    if s == "" then ""
    else if s[|s| - 1] == '\n' then ""
    else Residue(s[..|s| - 1]) + [s[|s| - 1]]
  }

  /** The newline-terminated lines, without their line breaks. */
  function Lines(s: string): seq<string> {
    if s == "" then []
    else if s[|s| - 1] == '\n' then Lines(s[..|s| - 1]) + [Residue(s[..|s| - 1])]
    else Lines(s[..|s| - 1])
  }

  function NonEmpty(lines: seq<string>): seq<string> {
    if lines == [] then []
    else
      var r := NonEmpty(lines[..|lines| - 1]);
      if lines[|lines| - 1] == "" then r else r + [lines[|lines| - 1]]
  }

  // ---- the receiving side ----------------------------------------------------------------

  datatype Recv = Data(bytes: string) | Interrupted | WouldBlock | Eof | HardError

  datatype Peer = Peer(connected: bool, buffer: string, dropped: nat, dispatched: seq<string>)

  /** One receive that delivered bytes; an over-long buffer is dropped as a whole. */
  function Received(p: Peer, bytes: string): Peer {
    var buffer := p.buffer + bytes;
    if |buffer| > MAX_LINE_BYTES then p.(buffer := "", dropped := p.dropped + 1) else p.(buffer := buffer)
  }

  function Dispatched(p: Peer): Peer {
    p.(buffer := Residue(p.buffer), dispatched := p.dispatched + NonEmpty(Lines(p.buffer)))
  }

  /** A poll with the replies of its receive calls; they end with the first that stops the loop. */
  function Polled(p: Peer, replies: seq<Recv>): Peer
    decreases |replies|
  {
    if !p.connected then p
    else if replies == [] then Dispatched(p)
    else match replies[0]
      case Data(bytes) => Polled(Received(p, bytes), replies[1..])
      case Interrupted => Polled(p, replies[1..])
      case WouldBlock => Dispatched(p)
      case Eof => p.(connected := false, buffer := "")
      case HardError => p.(connected := false, buffer := "")
  }

  function FirstBreak(s: string): (k: nat)
    ensures k <= |s|
    ensures k < |s| ==> s[k] == '\n'
    ensures forall i :: 0 <= i < k ==> s[i] != '\n'
  {
    if s == "" || s[0] == '\n' then 0 else 1 + FirstBreak(s[1..])
  }

  class OverlaySocketServer {
    var connected: bool
    var recvBuf: string
    var droppedLines: nat
    var dispatched: seq<string>   // what the line handler has been given
    var wire: string              // what the client's socket has taken

    ghost function Abs(): Peer
      reads this
    {
      Peer(connected, recvBuf, droppedLines, dispatched)
    }

    ghost function Out(): Sender
      reads this
    {
      Sender(connected, wire, droppedLines)
    }

    constructor ()
      ensures Abs() == Peer(false, "", 0, []) && wire == ""
    {
      connected, recvBuf, droppedLines, dispatched, wire := false, "", 0, [], "";
    }

    method CloseClient()
      modifies this
      ensures Abs() == old(Abs()).(connected := false, buffer := "") && wire == old(wire)
    {
      connected := false;
      recvBuf := "";
    }

    method DispatchBuffer()
      modifies this
      ensures Abs() == Dispatched(old(Abs())) && wire == old(wire)
    {
      ghost var whole := recvBuf;
      while true
        invariant connected == old(connected) && droppedLines == old(droppedLines) && wire == old(wire)
        invariant Residue(recvBuf) == Residue(whole)
        invariant dispatched + NonEmpty(Lines(recvBuf)) == old(dispatched) + NonEmpty(Lines(whole))
        decreases |recvBuf|
      {
        var nl := FirstBreak(recvBuf);
        FirstLine(recvBuf, nl);
        if nl == |recvBuf| {
          assert dispatched + [] == dispatched;
          return;
        }
        var line := recvBuf[..nl];
        recvBuf := recvBuf[nl + 1..];
        NonEmptyFirst(dispatched, line, Lines(recvBuf));
        if line == "" { continue; }
        dispatched := dispatched + [line];
      }
    }

    method PollClient(replies: seq<Recv>) returns (ok: bool)
      modifies this
      ensures Abs() == Polled(old(Abs()), replies) && wire == old(wire)
      ensures ok == (old(connected) && connected)
    {
      if !connected { return false; }
      var i := 0;
      while i < |replies|
        invariant 0 <= i <= |replies| && connected && old(connected) && wire == old(wire)
        invariant Polled(old(Abs()), replies) == Polled(Abs(), replies[i..])
      {
        var r := replies[i];
        assert replies[i..][1..] == replies[i + 1..];
        i := i + 1;
        match r
        case Data(bytes) =>
          recvBuf := recvBuf + bytes;
          if |recvBuf| > MAX_LINE_BYTES {
            recvBuf := "";
            droppedLines := droppedLines + 1;
          }
        case Interrupted =>
        case WouldBlock =>
          DispatchBuffer();
          return true;
        case Eof =>
          CloseClient();
          return false;
        case HardError =>
          CloseClient();
          return false;
      }
      DispatchBuffer();
      return true;
    }

    /** `result`: what the send call did with the frame. */
    method SendLine(line: string, result: SendResult) returns (ok: bool)
      requires result.Took? ==> result.count <= |line| + 1
      modifies this
      ensures Out() == Sent(old(Out()), line, result)
      ensures ok == (old(connected) && result == Took(|line| + 1))
      ensures dispatched == old(dispatched)
      ensures recvBuf == if old(connected) && !connected then "" else old(recvBuf)
    {
      if !connected {
        droppedLines := droppedLines + 1;
        return false;
      }
      var frame := line + ['\n'];
      if result.Took? {
        wire := wire + frame[..result.count];
        if result.count == |frame| {
          assert frame[..result.count] == frame;
          return true;
        }
      }
      droppedLines := droppedLines + 1;
      if !result.TryLater? { CloseClient(); }
      return false;
    }
  }

  // ---- splitting -------------------------------------------------------------------------

  lemma {:induction false} SplitSnoc(s: string, c: char)
    ensures Residue(s + [c]) == if c == '\n' then "" else Residue(s) + [c]
    ensures Lines(s + [c]) == if c == '\n' then Lines(s) + [Residue(s)] else Lines(s)
  {
    assert (s + [c])[..|s|] == s;
  }

  lemma {:induction false} SplitNothing(a: string)
    ensures Residue(a + "") == Residue(Residue(a) + "")
    ensures Lines(a + "") == Lines(a) + Lines(Residue(a) + "")
  {
    assert a + "" == a && Residue(a) + "" == Residue(a);
    ResidueHasNoBreak(a);
    NoBreakSplit(Residue(a));
  }

  lemma {:induction false} SplitNext(a: string, b: string, last: char)
    requires Residue(a + b) == Residue(Residue(a) + b)
    requires Lines(a + b) == Lines(a) + Lines(Residue(a) + b)
    ensures Residue(a + (b + [last])) == Residue(Residue(a) + (b + [last]))
    ensures Lines(a + (b + [last])) == Lines(a) + Lines(Residue(a) + (b + [last]))
  {
    ReassociateLast(a, b, last);
    ReassociateLast(Residue(a), b, last);
    SplitSnoc(a + b, last);
    SplitSnoc(Residue(a) + b, last);
    ReassociateLast(Lines(a), Lines(Residue(a) + b), Residue(a + b));
  }

  lemma {:induction false} ReassociateLast<T>(a: seq<T>, b: seq<T>, last: T)
    ensures a + (b + [last]) == a + b + [last]
  {
  }

  /** Splitting a stream at any point: what the first part leaves over is continued by the second. */
  lemma {:induction false} SplitAppend(a: string, b: string)
    ensures Residue(a + b) == Residue(Residue(a) + b)
    ensures Lines(a + b) == Lines(a) + Lines(Residue(a) + b)
    decreases |b|
  {
    if b == "" {
      SplitNothing(a);
    } else {
      var front, last := b[..|b| - 1], b[|b| - 1];
      SplitAppend(a, front);
      SplitNext(a, front, last);
      assert b == front + [last];
    }
  }

  predicate NoBreak(s: string) { forall i :: 0 <= i < |s| ==> s[i] != '\n' }

  lemma {:induction false} ResidueHasNoBreak(s: string)
    ensures NoBreak(Residue(s))
  {
    if s != "" { ResidueHasNoBreak(s[..|s| - 1]); }
  }

  lemma {:induction false} NoBreakSplit(s: string)
    requires NoBreak(s)
    ensures Lines(s) == [] && Residue(s) == s
  {
    if s != "" {
      NoBreakSplit(s[..|s| - 1]);
      assert s == s[..|s| - 1] + [s[|s| - 1]];
    }
  }

  /** One complete line at the front. */
  lemma {:induction false} OneLine(line: string, rest: string)
    requires NoBreak(line)
    ensures Lines(line + ['\n'] + rest) == [line] + Lines(rest)
    ensures Residue(line + ['\n'] + rest) == Residue(rest)
  {
    var a := line + ['\n'];
    SplitSnoc(line, '\n');
    NoBreakSplit(line);
    SplitAppend(a, rest);
    assert Residue(a) + rest == rest;
  }

  lemma {:induction false} FirstLine(s: string, k: nat)
    requires k <= |s| && k == FirstBreak(s)
    ensures k == |s| ==> Lines(s) == [] && NonEmpty(Lines(s)) == [] && Residue(s) == s
    ensures k < |s| ==> Lines(s) == [s[..k]] + Lines(s[k + 1..]) && Residue(s) == Residue(s[k + 1..])
  {
    if k == |s| {
      NoBreakSplit(s);
    } else {
      assert s == s[..k] + ['\n'] + s[k + 1..];
      OneLine(s[..k], s[k + 1..]);
    }
  }

  lemma {:induction false} NonEmptyAppend(a: seq<string>, b: seq<string>)
    ensures NonEmpty(a + b) == NonEmpty(a) + NonEmpty(b)
    decreases |b|
  {
    if b == [] {
      assert a + b == a;
    } else {
      assert (a + b)[..|a + b| - 1] == a + b[..|b| - 1];
      NonEmptyAppend(a, b[..|b| - 1]);
    }
  }

  lemma {:induction false} NonEmptyFirst(before: seq<string>, line: string, lines: seq<string>)
    ensures before + NonEmpty([line] + lines) == (if line == "" then before else before + [line]) + NonEmpty(lines)
  {
    var one := [line];
    NonEmptyAppend(one, lines);
    var none := one[..0];
    assert NonEmpty(none) == [];
    assert NonEmpty(one) == if line == "" then [] else one;
    assert before + (one + NonEmpty(lines)) == before + one + NonEmpty(lines);
  }

  // ---- main results: receiving -----------------------------------------------------------

  /** The bytes of one poll. */
  function BytesOf(replies: seq<Recv>): string {
    if replies == [] then ""
    else match replies[0]
      case Data(bytes) => bytes + BytesOf(replies[1..])
      case Interrupted => BytesOf(replies[1..])
      case _ => ""
  }

  function StreamOf(polls: seq<seq<Recv>>): string {
    if polls == [] then "" else StreamOf(polls[..|polls| - 1]) + BytesOf(polls[|polls| - 1])
  }

  function PolledAll(p: Peer, polls: seq<seq<Recv>>): Peer {
    if polls == [] then p else Polled(PolledAll(p, polls[..|polls| - 1]), polls[|polls| - 1])
  }

  /** No receive of the poll overfills the buffer, and the peer stays connected. */
  predicate Fits(buffer: string, replies: seq<Recv>)
    decreases |replies|
  {
    if replies == [] then true
    else match replies[0]
      case Data(bytes) => |buffer + bytes| <= MAX_LINE_BYTES && Fits(buffer + bytes, replies[1..])
      case Interrupted => Fits(buffer, replies[1..])
      case WouldBlock => true
      case Eof => false
      case HardError => false
  }

  ghost predicate AllFit(p: Peer, polls: seq<seq<Recv>>) {
    forall n :: 0 <= n < |polls| ==> Fits(PolledAll(p, polls[..n]).buffer, polls[n])
  }

  lemma {:induction false} PolledFits(p: Peer, replies: seq<Recv>)
    requires p.connected && Fits(p.buffer, replies)
    ensures Polled(p, replies) == Dispatched(p.(buffer := p.buffer + BytesOf(replies)))
    decreases |replies|
  {
    if replies == [] {
      assert p.buffer + "" == p.buffer;
    } else {
      match replies[0]
      case Data(bytes) =>
        PolledFits(Received(p, bytes), replies[1..]);
        assert p.buffer + bytes + BytesOf(replies[1..]) == p.buffer + (bytes + BytesOf(replies[1..]));
      case Interrupted => PolledFits(p, replies[1..]);
      case WouldBlock => assert p.buffer + "" == p.buffer;
      case _ => assert false;
    }
  }

  /** Chunking does not matter: however the stream is cut into receives and polls, as long as the
      buffer never exceeds the cap the lines dispatched are exactly the non-empty lines of the whole
      stream, in order, and the buffer is what follows its last line break. */
  lemma {:induction false} ChunkingDoesNotMatter(p: Peer, polls: seq<seq<Recv>>)
    requires p.connected && p.buffer == "" && AllFit(p, polls)
    ensures var r := PolledAll(p, polls);
            && r.connected && r.dropped == p.dropped
            && r.dispatched == p.dispatched + NonEmpty(Lines(StreamOf(polls)))
            && r.buffer == Residue(StreamOf(polls))
  {
    if polls != [] {
      var front, last := polls[..|polls| - 1], polls[|polls| - 1];
      assert forall n :: 0 <= n < |front| ==> polls[..n] == front[..n] && front[n] == polls[n];
      ChunkingDoesNotMatter(p, front);
      assert Fits(PolledAll(p, polls[..|front|]).buffer, polls[|front|]);
      var r, bytes := PolledAll(p, front), BytesOf(last);
      PolledFits(r, last);
      DispatchExtends(p.dispatched, StreamOf(front), bytes);
    }
  }

  lemma {:induction false} DispatchExtends(before: seq<string>, stream: string, bytes: string)
    ensures before + NonEmpty(Lines(stream)) + NonEmpty(Lines(Residue(stream) + bytes))
         == before + NonEmpty(Lines(stream + bytes))
    ensures Residue(Residue(stream) + bytes) == Residue(stream + bytes)
  {
    SplitAppend(stream, bytes);
    NonEmptyAppend(Lines(stream), Lines(Residue(stream) + bytes));
    assert before + NonEmpty(Lines(stream)) + NonEmpty(Lines(Residue(stream) + bytes))
        == before + (NonEmpty(Lines(stream)) + NonEmpty(Lines(Residue(stream) + bytes)));
  }

  /** Whatever arrives, the buffer stays within the cap, and so does every dispatched line: the
      parser's own length limit never rejects a line that was dispatched. */
  lemma {:induction false} DispatchedLinesAreShort(p: Peer, replies: seq<Recv>)
    requires |p.buffer| <= MAX_LINE_BYTES && ShortLines(p.dispatched)
    ensures |Polled(p, replies).buffer| <= MAX_LINE_BYTES && ShortLines(Polled(p, replies).dispatched)
    decreases |replies|
  {
    LinesFit(p.buffer);
    NonEmptyFit(Lines(p.buffer));
    if p.connected && replies != [] {
      match replies[0]
      case Data(bytes) => DispatchedLinesAreShort(Received(p, bytes), replies[1..]);
      case Interrupted => DispatchedLinesAreShort(p, replies[1..]);
      case _ =>
    }
  }

  predicate ShortLines(lines: seq<string>) { forall line :: line in lines ==> |line| <= MAX_LINE_BYTES }

  lemma {:induction false} LinesFit(s: string)
    ensures |Residue(s)| <= |s|
    ensures forall i :: 0 <= i < |Lines(s)| ==> |Lines(s)[i]| <= |s|
  {
    if s != "" { LinesFit(s[..|s| - 1]); }
  }

  lemma {:induction false} NonEmptyFit(lines: seq<string>)
    ensures forall line :: line in NonEmpty(lines) ==> line in lines
  {
    if lines != [] { NonEmptyFit(lines[..|lines| - 1]); }
  }

  /** The poll ends with the peer's end of stream or a hard error. */
  predicate Closes(replies: seq<Recv>) {
    if replies == [] then false
    else match replies[0]
      case Data(_) => Closes(replies[1..])
      case Interrupted => Closes(replies[1..])
      case WouldBlock => false
      case _ => true
  }

  /** What a poll does, whatever it receives. If the peer is gone, nothing is dispatched and nothing is
      kept. Otherwise the lines of `tail` are dispatched and its residue is kept: all that was
      buffered and received when every receive fits the cap, and then nothing is counted as dropped;
      else only what was received after some receive that overran the cap. */
  lemma {:induction false} PollOutcome(p: Peer, replies: seq<Recv>) returns (tail: string, after: nat)
    requires p.connected
    ensures var r := Polled(p, replies);
            if Closes(replies) then !r.connected && r.buffer == "" && r.dispatched == p.dispatched
            else
              && r.connected && r.dispatched == p.dispatched + NonEmpty(Lines(tail)) && r.buffer == Residue(tail)
              && r.dropped >= p.dropped && (r.dropped == p.dropped <==> Fits(p.buffer, replies))
              && (if r.dropped == p.dropped then tail == p.buffer + BytesOf(replies)
                  else 0 < after <= |replies| && replies[after - 1].Data? && tail == BytesOf(replies[after..]))
    decreases |replies|
  {
    tail, after := p.buffer, 0;
    if replies != [] && (replies[0].Data? || replies[0].Interrupted?) {
      var p' := if replies[0].Data? then Received(p, replies[0].bytes) else p;
      tail, after := PollOutcome(p', replies[1..]);
      PollStep(p, p', replies, tail, after);
      after := if Polled(p', replies[1..]).dropped == p'.dropped then 1 else after + 1;
    } else {
      assert p.buffer + "" == p.buffer;
    }
  }

  lemma {:induction false} PollStep(p: Peer, p': Peer, replies: seq<Recv>, tail: string, after: nat)
    requires replies != [] && (replies[0].Data? || replies[0].Interrupted?)
    requires p' == if replies[0].Data? then Received(p, replies[0].bytes) else p
    ensures p'.dropped == p.dropped && tail == p'.buffer + BytesOf(replies[1..]) ==> tail == p.buffer + BytesOf(replies)
    ensures p'.dropped != p.dropped && tail == p'.buffer + BytesOf(replies[1..]) ==> tail == BytesOf(replies[1..])
    ensures after <= |replies[1..]| ==> replies[1..][after..] == replies[after + 1..]
    ensures 0 < after <= |replies[1..]| ==> replies[1..][after - 1] == replies[after]
  {
    var rest := BytesOf(replies[1..]);
    if replies[0].Data? && p'.dropped == p.dropped {
      assert p.buffer + replies[0].bytes + rest == p.buffer + (replies[0].bytes + rest);
    }
    assert "" + rest == rest;
  }

  // ---- main results: sending -------------------------------------------------------------

  datatype SendResult = Took(count: nat) | TryLater | Broken

  datatype Sender = Sender(connected: bool, wire: string, dropped: nat)

  /** A frame is taken whole, or it is counted as dropped; a partial write or a broken peer closes the
      connection, a peer that is merely slow does not. */
  function Sent(s: Sender, line: string, result: SendResult): Sender
    requires result.Took? ==> result.count <= |line| + 1
  {
    var frame := line + ['\n'];
    if !s.connected then s.(dropped := s.dropped + 1)
    else if result == Took(|frame|) then s.(wire := s.wire + frame)
    else if result.Took? then Sender(false, s.wire + frame[..result.count], s.dropped + 1)
    else Sender(result.TryLater?, s.wire, s.dropped + 1)
  }

  datatype Attempt = Attempt(line: string, result: SendResult)

  predicate Possible(a: Attempt) {
    NoBreak(a.line) && (a.result.Took? ==> a.result.count <= |a.line| + 1)
  }

  function SentAll(s: Sender, attempts: seq<Attempt>): Sender
    requires forall i :: 0 <= i < |attempts| ==> Possible(attempts[i])
  {
    if attempts == [] then s
    else
      assert Possible(attempts[|attempts| - 1]);
      Sent(SentAll(s, attempts[..|attempts| - 1]), attempts[|attempts| - 1].line, attempts[|attempts| - 1].result)
  }

  /** The messages for which the send was reported as done. */
  function Delivered(s: Sender, attempts: seq<Attempt>): seq<string>
    requires forall i :: 0 <= i < |attempts| ==> Possible(attempts[i])
  {
    if attempts == [] then []
    else
      var front, last := attempts[..|attempts| - 1], attempts[|attempts| - 1];
      var r := Delivered(s, front);
      if SentAll(s, front).connected && last.result == Took(|last.line| + 1) then r + [last.line] else r
  }

  /** A whole frame on a clean wire adds one line. */
  lemma {:induction false} FrameAdds(wire: string, line: string)
    requires Residue(wire) == "" && NoBreak(line)
    ensures Lines(wire + (line + ['\n'])) == Lines(wire) + [line]
    ensures Residue(wire + (line + ['\n'])) == ""
  {
    var frame := line + ['\n'];
    SplitAppend(wire, frame);
    assert Residue(wire) + frame == frame;
    SplitSnoc(line, '\n');
    NoBreakSplit(line);
  }

  /** A frame cut short adds none. */
  lemma {:induction false} PartAddsNone(wire: string, line: string, count: nat)
    requires Residue(wire) == "" && NoBreak(line) && count <= |line|
    ensures Lines(wire + (line + ['\n'])[..count]) == Lines(wire)
  {
    var part := (line + ['\n'])[..count];
    assert part == line[..count];
    SplitAppend(wire, part);
    assert Residue(wire) + part == part;
    NoBreakSplit(part);
  }

  lemma {:induction false} SentAdds(r: Sender, last: Attempt)
    requires Possible(last) && (r.connected ==> Residue(r.wire) == "")
    ensures var r' := Sent(r, last.line, last.result);
            && (r'.connected ==> Residue(r'.wire) == "")
            && Lines(r'.wire)
                 == Lines(r.wire) + (if r.connected && last.result == Took(|last.line| + 1) then [last.line] else [])
  {
    if r.connected && last.result.Took? {
      if last.result.count == |last.line| + 1 {
        FrameAdds(r.wire, last.line);
      } else {
        PartAddsNone(r.wire, last.line, last.result.count);
      }
    }
  }

  lemma {:induction false} WireInv(s: Sender, attempts: seq<Attempt>)
    requires s.wire == ""
    requires forall i :: 0 <= i < |attempts| ==> Possible(attempts[i])
    ensures var r := SentAll(s, attempts);
            && Lines(r.wire) == Delivered(s, attempts)
            && (r.connected ==> Residue(r.wire) == "")
  {
    if attempts != [] {
      var front, last := attempts[..|attempts| - 1], attempts[|attempts| - 1];
      WireInv(s, front);
      assert Possible(last);
      SentAdds(SentAll(s, front), last);
    }
  }

  /** Whatever the socket does with the frames, the lines the peer can split from the wire are exactly
      the messages reported as sent, in order; while the connection is up nothing is left over. Every
      encoded message qualifies, because none contains a line break. */
  lemma {:induction false} FramesSplitBack(s: Sender, attempts: seq<Attempt>)
    requires s.wire == ""
    requires forall i :: 0 <= i < |attempts| ==>
               && Printable(attempts[i].line)
               && (attempts[i].result.Took? ==> attempts[i].result.count <= |attempts[i].line| + 1)
    ensures forall i :: 0 <= i < |attempts| ==> Possible(attempts[i])
    ensures Lines(SentAll(s, attempts).wire) == Delivered(s, attempts)
    ensures SentAll(s, attempts).connected ==> Residue(SentAll(s, attempts).wire) == ""
  {
    assert forall i :: 0 <= i < |attempts| ==> Possible(attempts[i]);
    WireInv(s, attempts);
  }

  /** Every attempt is either delivered or counted as dropped; the connection is still up exactly if it
      was and every frame so far was taken whole or the peer was merely slow. */
  lemma {:induction false} SendAccounting(s: Sender, attempts: seq<Attempt>)
    requires forall i :: 0 <= i < |attempts| ==> Possible(attempts[i])
    ensures var r := SentAll(s, attempts);
            && r.dropped + |Delivered(s, attempts)| == s.dropped + |attempts|
            && (r.connected <==>
                  s.connected && forall i :: 0 <= i < |attempts| ==>
                    attempts[i].result == Took(|attempts[i].line| + 1) || attempts[i].result == TryLater)
  {
    if attempts != [] {
      var front, last := attempts[..|attempts| - 1], attempts[|attempts| - 1];
      SendAccounting(s, front);
      assert forall i :: 0 <= i < |front| ==> front[i] == attempts[i];
      assert Possible(last);
    }
  }
}
