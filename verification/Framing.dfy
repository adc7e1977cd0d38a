/** The padded message framing of the Python node: packets of fixed size out, arbitrary chunks in. */
module Framing {
  const END_MSG := "#END#"
  const PACKET_SIZE := 4096

  function LStrip(s: string): string {
    if s != "" && s[0] == 'X' then LStrip(s[1..]) else s
  }

  function RStrip(s: string): string {
    if s != "" && s[|s| - 1] == 'X' then RStrip(s[..|s| - 1]) else s
  }

  function Padding(n: nat): string {
    seq(n, _ => 'X')
  }

  predicate EndAt(s: string, i: int) {
    0 <= i && i + |END_MSG| <= |s| && s[i..i + |END_MSG|] == END_MSG
  }

  /** The place of the first end mark, or the length of `s` if there is none. */
  function FirstEnd(s: string): (i: nat)
    ensures i < |s| ==> EndAt(s, i)
    ensures i <= |s| && forall j :: EndAt(s, j) ==> i <= j
  {
    FindEnd(s, 0)
  }

  function FindEnd(s: string, from: nat): (i: nat)
    requires from <= |s| && forall j :: EndAt(s, j) ==> from <= j
    ensures i < |s| ==> EndAt(s, i)
    ensures i <= |s| && forall j :: EndAt(s, j) ==> i <= j
    decreases |s| - from
  {
    if from == |s| || EndAt(s, from) then from else FindEnd(s, from + 1)
  }

  /** The messages in a stream that arrives in one piece. */
  function Parse(stream: string): seq<string>
    decreases |stream|
  {
    var s := LStrip(stream);
    var i := FirstEnd(s);
    if i == |s| then [] else
      LStripShortens(stream);
      var m := RStrip(s[..i]);
      (if m != "" then [m] else []) + Parse(s[i + |END_MSG|..])
  }

  lemma {:induction false} LStripShortens(s: string)
    ensures |LStrip(s)| <= |s| && LStrip(s) == s[|s| - |LStrip(s)|..]
    ensures LStrip(s) != "" ==> LStrip(s)[0] != 'X'
  {
    if s != "" && s[0] == 'X' {
      LStripShortens(s[1..]);
    }
  }

  lemma {:induction false} RStripShortens(s: string)
    ensures |RStrip(s)| <= |s| && RStrip(s) == s[..|RStrip(s)|]
    ensures RStrip(s) != "" ==> RStrip(s)[|RStrip(s)| - 1] != 'X'
  {
    if s != "" && s[|s| - 1] == 'X' {
      RStripShortens(s[..|s| - 1]);
    }
  }

  /** Stripping before more data arrives makes no difference. */
  lemma {:induction false} LStripEarly(s: string, t: string)
    ensures LStrip(LStrip(s) + t) == LStrip(s + t)
  {
    if s != "" && s[0] == 'X' {
      LStripEarly(s[1..], t);
      assert (s + t)[1..] == s[1..] + t;
    }
  }

  lemma {:induction false} LStripPadding(n: nat, t: string)
    ensures LStrip(Padding(n) + t) == LStrip(t)
  {
    if n > 0 {
      LStripPadding(n - 1, t);
      assert (Padding(n) + t)[1..] == Padding(n - 1) + t;
    } else {
      assert Padding(n) + t == t;
    }
  }

  lemma ParseStripped(s: string)
    ensures Parse(LStrip(s)) == Parse(s)
  {
    LStripEarly(s, "");
    assert LStrip(s) + "" == LStrip(s) && s + "" == s;
  }

  /** An end mark found in what has arrived is also the first one of the whole stream. */
  lemma EndStays(s: string, t: string)
    requires FirstEnd(s) < |s|
    ensures FirstEnd(s + t) == FirstEnd(s)
  {
    var i := FirstEnd(s);
    assert (s + t)[i..i + |END_MSG|] == s[i..i + |END_MSG|];
    assert EndAt(s + t, i);
    var j := FirstEnd(s + t);
    assert (s + t)[j..j + |END_MSG|] == s[j..j + |END_MSG|];
    assert EndAt(s, j);
  }

  /** Taking the first message off a buffer is what parsing the whole stream does. */
  lemma ParseSplits(s: string, rest: string)
    requires LStrip(s) == s && FirstEnd(s) < |s|
    ensures var i, m := FirstEnd(s), RStrip(s[..FirstEnd(s)]);
      Parse(s + rest) == (if m != "" then [m] else []) + Parse(LStrip(s[i + |END_MSG|..]) + rest)
  {
    var i := FirstEnd(s);
    EndStays(s, rest);
    LStripEarly(s, rest);
    assert s[0] != 'X' by {
      LStripShortens(s);
    }
    assert LStrip(s + rest) == s + rest;
    var tail := s[i + |END_MSG|..];
    assert (s + rest)[i + |END_MSG|..] == tail + rest;
    assert (s + rest)[..i] == s[..i];
    ParseStripped(tail + rest);
    LStripEarly(tail, rest);
    ParseStripped(LStrip(tail) + rest);
  }

  /** Whatever comes next, the messages delivered so far and those in the buffer are the stream's. */
  ghost predicate InStep(received: string, delivered: seq<string>, buffer: string) {
    forall rest :: InStepBefore(received, delivered, buffer, rest)
  }

  ghost predicate InStepBefore(received: string, delivered: seq<string>, buffer: string, rest: string) {
    Parse(received + rest) == delivered + Parse(buffer + rest)
  }

  lemma ParseChunk(buffer: string, data: string, rest: string)
    ensures Parse(LStrip(buffer + data) + rest) == Parse(buffer + (data + rest))
  {
    assert buffer + data + rest == buffer + (data + rest);
    LStripEarly(buffer + data, rest);
    ParseStripped(buffer + data + rest);
    ParseStripped(LStrip(buffer + data) + rest);
  }

  lemma Regroup(a: string, b: string, c: string)
    ensures a + b + c == a + (b + c)
  {
  }

  lemma ChunkArrivesBefore(received: string, delivered: seq<string>, buffer: string, data: string, rest: string)
    requires InStepBefore(received, delivered, buffer, data + rest)
    ensures InStepBefore(received + data, delivered, LStrip(buffer + data), rest)
  {
    Regroup(received, data, rest);
    ParseChunk(buffer, data, rest);
  }

  lemma ChunkArrives(received: string, delivered: seq<string>, buffer: string, data: string)
    requires InStep(received, delivered, buffer)
    ensures InStep(received + data, delivered, LStrip(buffer + data))
  {
    var now, left := received + data, LStrip(buffer + data);
    forall rest
      ensures InStepBefore(now, delivered, left, rest)
    {
      assert InStepBefore(received, delivered, buffer, data + rest);
      ChunkArrivesBefore(received, delivered, buffer, data, rest);
    }
  }

  lemma MessageTaken(received: string, delivered: seq<string>, buffer: string)
    requires InStep(received, delivered, buffer) && LStrip(buffer) == buffer && FirstEnd(buffer) < |buffer|
    ensures var m := RStrip(buffer[..FirstEnd(buffer)]);
      InStep(received, if m != "" then delivered + [m] else delivered, LStrip(buffer[FirstEnd(buffer) + |END_MSG|..]))
  {
    var m := RStrip(buffer[..FirstEnd(buffer)]);
    var next := LStrip(buffer[FirstEnd(buffer) + |END_MSG|..]);
    var after := if m != "" then delivered + [m] else delivered;
    forall rest
      ensures InStepBefore(received, after, next, rest)
    {
      assert InStepBefore(received, delivered, buffer, rest);
      ParseSplits(buffer, rest);
      AppendOne(delivered, m, Parse(next + rest));
    }
  }

  lemma AppendOne(delivered: seq<string>, m: string, later: seq<string>)
    ensures delivered + ((if m != "" then [m] else []) + later)
         == (if m != "" then delivered + [m] else delivered) + later
  {
    assert delivered + ([m] + later) == delivered + [m] + later;
    assert delivered + ([] + later) == delivered + later;
  }

  class Node {
    var recvBuffer: string
    ghost var received: string
    var delivered: seq<string>

    ghost predicate Valid()
      reads this
    {
      && LStrip(recvBuffer) == recvBuffer && FirstEnd(recvBuffer) == |recvBuffer|
      && InStep(received, delivered, recvBuffer)
    }

    constructor ()
      ensures Valid() && received == "" && delivered == []
    {
      recvBuffer, received, delivered := "", "", [];
      new;
      forall rest
        ensures InStepBefore("", [], "", rest)
      {
      }
    }

    /** What listen does with one chunk of data. */
    method Receive(data: string)
      requires Valid()
      modifies this
      ensures Valid() && received == old(received) + data
    {
      if data == "" {
        assert received + data == received;
        return;
      }
      recvBuffer := LStrip(recvBuffer + data);
      received := received + data;
      ChunkArrives(old(received), delivered, old(recvBuffer), data);
      LStripTwice(old(recvBuffer) + data);
      while FirstEnd(recvBuffer) < |recvBuffer|
        invariant LStrip(recvBuffer) == recvBuffer && received == old(received) + data
        invariant InStep(received, delivered, recvBuffer)
        decreases |recvBuffer|
      {
        TakeMessage();
      }
    }

    /** Splits the first message off the buffer. */
    method TakeMessage()
      requires LStrip(recvBuffer) == recvBuffer && FirstEnd(recvBuffer) < |recvBuffer|
      requires InStep(received, delivered, recvBuffer)
      modifies this`recvBuffer, this`delivered
      ensures LStrip(recvBuffer) == recvBuffer && |recvBuffer| < |old(recvBuffer)|
      ensures InStep(received, delivered, recvBuffer)
    {
      MessageTaken(received, delivered, recvBuffer);
      var i := FirstEnd(recvBuffer);
      var message := RStrip(recvBuffer[..i]);
      var tail := recvBuffer[i + |END_MSG|..];
      LStripShortens(tail);
      LStripTwice(tail);
      recvBuffer := LStrip(tail);
      if message != "" {
        delivered := delivered + [message];
      }
    }
  }

  lemma LStripTwice(s: string)
    ensures LStrip(LStrip(s)) == LStrip(s)
  {
    LStripEarly(s, "");
    assert LStrip(s) + "" == LStrip(s) && s + "" == s;
  }

  function Join(parts: seq<string>): string {
    if parts == [] then "" else Join(parts[..|parts| - 1]) + parts[|parts| - 1]
  }

  function PadLength(n: nat): nat {
    (PACKET_SIZE - n % PACKET_SIZE) % PACKET_SIZE
  }

  /** What a message looks like on the wire. */
  function Framed(message: string): string {
    message + END_MSG + Padding(PadLength(|message| + |END_MSG|))
  }

  function StreamOf(messages: seq<string>): string {
    if messages == [] then "" else Framed(messages[0]) + StreamOf(messages[1..])
  }

  /** A message the framing can carry: it neither starts nor ends with the padding character, and appending the
      end mark makes no earlier end mark. */
  predicate Clean(m: string) {
    m != "" && m[0] != 'X' && m[|m| - 1] != 'X' && FirstEnd(m + END_MSG) == |m|
  }

  /** mux_msg: packets of exactly the packet size that join to the framed message. */
  method MuxMsg(message: string) returns (packets: seq<string>)
    ensures Join(packets) == Framed(message)
    ensures forall i :: 0 <= i < |packets| ==> |packets[i]| == PACKET_SIZE
  {
    var whole := message + END_MSG;
    packets := [];
    var idx := 0;
    while idx < |whole|
      invariant idx == |packets| * PACKET_SIZE
      invariant forall i :: 0 <= i < |packets| ==> |packets[i]| == PACKET_SIZE
      invariant Join(packets) == SentUpTo(whole, idx)
    {
      var end := if idx + PACKET_SIZE <= |whole| then idx + PACKET_SIZE else |whole|;
      var msg := whole[idx..end];
      if |msg| != PACKET_SIZE {
        msg := msg + Padding(PACKET_SIZE - |msg|);
      }
      NextPacket(whole, |packets|, idx, msg);
      JoinOne(packets, msg);
      packets := packets + [msg];
      idx := idx + PACKET_SIZE;
    }
  }

  /** What has gone out once the packets up to `idx` have. */
  function SentUpTo(whole: string, idx: nat): string {
    if idx < |whole| then whole[..idx] else whole + Padding(PadLength(|whole|))
  }

  lemma NextPacket(whole: string, n: nat, idx: nat, msg: string)
    requires idx == n * PACKET_SIZE && idx < |whole|
    requires if idx + PACKET_SIZE <= |whole| then msg == whole[idx..idx + PACKET_SIZE]
      else msg == whole[idx..] + Padding(PACKET_SIZE - (|whole| - idx))
    ensures SentUpTo(whole, idx) + msg == SentUpTo(whole, idx + PACKET_SIZE)
  {
    if idx + PACKET_SIZE < |whole| {
      assert whole[..idx] + msg == whole[..idx + PACKET_SIZE];
    } else if idx + PACKET_SIZE == |whole| {
      assert |whole| == (n + 1) * PACKET_SIZE;
      assert PadLength(|whole|) == 0;
      assert whole[..idx] + msg == whole == whole + Padding(0);
    } else {
      PadTo(|whole|, n);
      assert whole[..idx] + whole[idx..] == whole;
      assert whole[..idx] + msg == whole + Padding(PACKET_SIZE - (|whole| - idx));
    }
  }

  lemma JoinOne(packets: seq<string>, msg: string)
    ensures Join(packets + [msg]) == Join(packets) + msg
  {
    assert (packets + [msg])[..|packets|] == packets;
  }

  lemma PadTo(size: nat, n: nat)
    requires n * PACKET_SIZE < size < (n + 1) * PACKET_SIZE
    ensures PadLength(size) == (n + 1) * PACKET_SIZE - size
  {
    assert size % PACKET_SIZE == size - n * PACKET_SIZE;
  }

  /** A clean message in front of a stream comes out first and unchanged. */
  lemma ParseFramed(m: string, rest: string)
    requires Clean(m)
    ensures Parse(Framed(m) + rest) == [m] + Parse(rest)
  {
    var pad := Padding(PadLength(|m| + |END_MSG|));
    var s := m + END_MSG;
    assert Framed(m) + rest == s + (pad + rest);
    EndStays(s, pad + rest);
    var all := s + (pad + rest);
    assert all[0] == m[0] && LStrip(all) == all;
    assert all[..|m|] == m && RStrip(m) == m;
    assert all[|m| + |END_MSG|..] == pad + rest;
    ParseStripped(pad + rest);
    LStripPadding(PadLength(|m| + |END_MSG|), rest);
    ParseStripped(rest);
  }

  /** What follows the first end mark of a stream. */
  function Later(s: string): string {
    var t := LStrip(s);
    if FirstEnd(t) < |t| then t[FirstEnd(t) + |END_MSG|..] else ""
  }

  /** The first message of a stream, if there is an end mark. */
  function First(s: string): string {
    RStrip(LStrip(s)[..FirstEnd(LStrip(s))])
  }

  /** A delivered message is the first of the stream, or comes later. */
  lemma PieceCases(s: string, d: string)
    requires d in Parse(s)
    ensures FirstEnd(LStrip(s)) < |LStrip(s)| && |Later(s)| < |s|
    ensures (d != "" && d == First(s)) || d in Parse(Later(s))
  {
    LStripShortens(s);
  }

  lemma FirstIsTrimmed(s: string)
    ensures var d := First(s); d != "" ==> d[0] != 'X' && d[|d| - 1] != 'X'
    ensures |First(s)| <= FirstEnd(LStrip(s))
  {
    var t := LStrip(s);
    LStripShortens(s);
    RStripShortens(t[..FirstEnd(t)]);
  }

  /** Delivered messages are neither empty nor padded at either end. */
  lemma {:induction false} PiecesAreTrimmed(s: string, d: string)
    requires d in Parse(s)
    ensures d != "" && d[0] != 'X' && d[|d| - 1] != 'X'
    decreases |s|
  {
    PieceCases(s, d);
    if d in Parse(Later(s)) {
      PiecesAreTrimmed(Later(s), d);
    } else {
      FirstIsTrimmed(s);
    }
  }

  /** Delivered messages hold no end mark. */
  lemma {:induction false} PiecesHoldNoMark(s: string, d: string, k: int)
    requires d in Parse(s)
    ensures !EndAt(d, k)
    decreases |s|
  {
    PieceCases(s, d);
    if d in Parse(Later(s)) {
      PiecesHoldNoMark(Later(s), d, k);
    } else if EndAt(d, k) {
      var t := LStrip(s);
      RStripShortens(t[..FirstEnd(t)]);
      MarkFromFront(t, d, k);
      assert false;
    }
  }

  lemma MarkFromFront(t: string, d: string, k: int)
    requires |d| <= |t| && d == t[..|d|] && EndAt(d, k)
    ensures EndAt(t, k) && FirstEnd(t) < |d|
  {
    assert t[k..k + |END_MSG|] == d[k..k + |END_MSG|];
    assert EndAt(t, k);
  }

  /** An earlier end mark is the first of the stream as well, whatever follows. */
  lemma EarlyParts(m: string, rest: string, i: nat)
    requires m != "" && m[0] != 'X' && i == FirstEnd(m + END_MSG) < |m|
    ensures var all := Framed(m) + rest;
      LStrip(all) == all && FirstEnd(all) == i && First(all) == RStrip(m[..i]) && Later(all) == all[i + |END_MSG|..]
  {
    var s, more := m + END_MSG, Padding(PadLength(|m| + |END_MSG|)) + rest;
    EndStays(s, more);
    var all := s + more;
    assert all == Framed(m) + rest && all[0] == m[0] && LStrip(all) == all;
    assert all[..i] == m[..i];
  }

  /** A message at whose start the mark appears holds the mark, or is the mark without its last character. */
  lemma MarkAtStart(m: string)
    requires m != "" && EndAt(m + END_MSG, 0)
    ensures EndAt(m, 0) || m == "#END"
  {
    var s := m + END_MSG;
    assert s[..|END_MSG|] == END_MSG;
    if |m| < |END_MSG| {
      assert s[|m|] == '#';
      assert END_MSG[|m|] == '#';
      assert m == s[..4] == END_MSG[..4];
    } else {
      assert m[..|END_MSG|] == s[..|END_MSG|];
    }
  }

  /** The first message of a stream that starts with neither padding nor the mark starts as the stream does. */
  lemma StartsAlike(s: string)
    requires s != "" && s[0] != 'X' && s[0] != '#'
    ensures Parse(s) == [] || (Parse(s)[0] != "" && Parse(s)[0][0] == s[0])
  {
    var i := FirstEnd(s);
    if i < |s| {
      assert s[i] == s[i..i + |END_MSG|][0] == '#';
      StripKeepsFront(s[..i]);
    }
  }

  lemma {:induction false} StripKeepsFront(s: string)
    requires s != "" && s[0] != 'X'
    ensures RStrip(s) != "" && RStrip(s)[0] == s[0]
  {
    if s[|s| - 1] == 'X' {
      StripKeepsFront(s[..|s| - 1]);
    }
  }

  /** A message that is not clean never comes out first, whatever follows it. */
  lemma UncleanIsLost(m: string, rest: string)
    requires !Clean(m)
    ensures var out := Parse(Framed(m) + rest); out == [] || out[0] != m
  {
    var all := Framed(m) + rest;
    var out := Parse(all);
    if out != [] && out[0] == m {
      PiecesAreTrimmed(all, m);
      assert EndAt(m + END_MSG, |m|);
      var i := FirstEnd(m + END_MSG);
      EarlyParts(m, rest, i);
      if i > 0 {
        StripKeepsFront(m[..i]);
        RStripShortens(m[..i]);
      } else {
        MarkAtStart(m);
        PiecesHoldNoMark(all, m, 0);
        assert all[|END_MSG|] == END_MSG[1];
        StartsAlike(Later(all));
      }
      assert false;
    }
  }

  /** Messages sent one after another all come through unchanged exactly when every one of them is clean. */
  lemma {:induction false} FaithfulIffAllClean(messages: seq<string>)
    ensures Parse(StreamOf(messages)) == messages <==> forall i :: 0 <= i < |messages| ==> Clean(messages[i])
  {
    if messages == [] {
      assert LStrip("") == "";
    } else {
      var m, more := messages[0], messages[1..];
      FaithfulIffAllClean(more);
      if Clean(m) {
        ParseFramed(m, StreamOf(more));
        assert messages == [m] + more;
        assert forall i :: 0 <= i < |messages| ==> messages[i] == if i == 0 then m else more[i - 1];
      } else {
        UncleanIsLost(m, StreamOf(more));
      }
    }
  }

  /** A message comes through on its own exactly when it is clean. */
  lemma FaithfulIffClean(m: string)
    ensures Parse(Framed(m)) == [m] <==> Clean(m)
  {
    FaithfulIffAllClean([m]);
    assert StreamOf([m]) == Framed(m) + "" == Framed(m);
    assert forall i :: 0 <= i < |[m]| ==> [m][i] == m;
  }

  /** Messages that do not come through: one that starts with the padding character, and one that holds the mark. */
  lemma UncleanInputs()
    ensures Parse(Framed("X")) != ["X"]
    ensures Parse(Framed("a" + END_MSG + "b")) != ["a" + END_MSG + "b"]
  {
    FaithfulIffClean("X");
    var m := "a" + END_MSG + "b";
    assert EndAt(m + END_MSG, 1);
    FaithfulIffClean(m);
  }

  /** However the stream is cut into chunks, the node delivers the messages of the stream. */
  method Listen(chunks: seq<string>) returns (node: Node)
    ensures fresh(node) && node.Valid() && node.delivered == Parse(Join(chunks))
  {
    node := new Node();
    for i := 0 to |chunks|
      invariant fresh(node) && node.Valid() && node.received == Join(chunks[..i])
    {
      assert chunks[..i + 1][..i] == chunks[..i];
      node.Receive(chunks[i]);
    }
    assert chunks[..|chunks|] == chunks;
    assert InStepBefore(node.received, node.delivered, node.recvBuffer, "");
    assert node.received + "" == node.received && node.recvBuffer + "" == node.recvBuffer;
  }

  /** Messages arrive as they were sent, whatever the chunks, exactly when every one of them is clean. */
  method RoundTrip(messages: seq<string>, chunks: seq<string>) returns (node: Node)
    requires Join(chunks) == StreamOf(messages)
    ensures node.delivered == messages <==> forall i :: 0 <= i < |messages| ==> Clean(messages[i])
  {
    node := Listen(chunks);
    FaithfulIffAllClean(messages);
  }
}
