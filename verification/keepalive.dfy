/**
 * The transport-level keepalive: a timer and a pump write into one stream, the timer a
 * comment frame whenever the stream has been silent for the interval.
 */
module Keepalive {
  import opened Wrappers
  import opened EventStream

  /** The bytes of ": keepalive", and the frame that ends this line and adds a blank one. */
  const COMMENT: Bytes := [58, 32, 107, 101, 101, 112, 97, 108, 105, 118, 101]
  const FRAME: Bytes := COMMENT + [LF, LF]

  // ---- what a client makes of an injected frame ----

  /**
   * The client stands at an event boundary: nothing is buffered that would show in the next
   * event, and no line is open (a byte order mark alone does not open one).
   */
  predicate AtBoundary(q: Client) {
    && q.data == []
    && EffectiveKind(q.kind) == MESSAGE
    && (if q.first then q.line == BOM else q.line == [])
  }

  /** The same events so far, and buffers that lead to the same events. */
  predicate SameBuffers(q: Client, w: Client) {
    && q.data == w.data && EffectiveKind(q.kind) == EffectiveKind(w.kind)
    && q.id == w.id && q.retry == w.retry && q.events == w.events
  }

  /** Two clients that will dispatch the same events from here on; the second may have seen frames. */
  predicate Alike(q: Client, w: Client) {
    && SameBuffers(q, w)
    && Text(q.first, q.line) == Text(w.first, w.line)
    && (w.first ==> q.first && q.line == w.line)
    && (q.first && !w.first ==> q.line == BOM + w.line || q.line == w.line)
    && (q.afterCR != w.afterCR ==> q.afterCR && q.line == [] && q.data == [] && EffectiveKind(q.kind) == MESSAGE)
  }

  /** The first line so far could still turn out to begin with a byte order mark only one of them strips. */
  predicate MarkPending(q: Client, w: Client) {
    q.first && !w.first && q.line == w.line
  }

  lemma FieldAlike(q: Client, w: Client, kind: FieldKind, value: Bytes)
    requires SameBuffers(q, w)
    ensures SameBuffers(Field(q, kind, value), Field(w, kind, value))
  {
  }

  lemma EndLineAlike(q: Client, w: Client)
    requires SameBuffers(q, w) && Text(q.first, q.line) == Text(w.first, w.line)
    ensures SameBuffers(EndLine(q), EndLine(w))
  {
    var line := Text(q.first, q.line);
    FieldAlike(q.(line := [], first := false), w.(line := [], first := false), KindOf(FieldName(line)),
               FieldValue(line));
  }

  lemma TextGrows(line: Bytes, b: byte)
    ensures Text(true, BOM + line) == line && BOM + line + [b] == BOM + (line + [b])
  {
    assert (BOM + line)[3..] == line;
  }

  /** Alike clients stay alike, byte by byte. */
  lemma ReceiveAlike(q: Client, w: Client, b: byte)
    requires Reachable(q) && Reachable(w) && Alike(q, w)
    requires MarkPending(q, w) ==> !(BOM <= q.line + [b])
    ensures Alike(Receive(q, b), Receive(w, b))
    ensures MarkPending(Receive(q, b), Receive(w, b)) ==> MarkPending(q, w)
  {
    if b != LF && b != CR {
      TextGrows(w.line, b);
      TextGrows(w.line + [b], b);
    } else if q.afterCR == w.afterCR || b == CR {
      EndLineAlike(q, w);
    }
  }

  /** A comment line, without its end. */
  predicate IsComment(comment: Bytes) {
    comment != [] && comment[0] == COLON && CR !in comment && LF !in comment
  }

  /** The frame that sends a comment: its line, and a blank one. */
  function FrameOf(comment: Bytes): Bytes {
    comment + [LF, LF]
  }

  lemma KeepaliveIsComment()
    ensures IsComment(COMMENT) && FRAME == FrameOf(COMMENT)
  {
  }

  /** Appending a comment, or a data line, to the open line appends it to the line's text. */
  lemma TextAppend(q: Client, more: Bytes)
    requires more != [] && more[0] !in BOM
    ensures Text(q.first, q.line + more) == Text(q.first, q.line) + more
  {
    if q.first && BOM <= q.line {
      assert (q.line + more)[3..] == q.line[3..] + more;
    } else if q.first {
      assert !(BOM <= q.line + more) by {
        if |q.line| < 3 {
          assert (q.line + more)[|q.line|] == more[0] && BOM[|q.line|] in BOM;
        }
      }
    }
  }

  /** At a boundary the frame leaves a client that behaves alike. */
  lemma FrameAtBoundary(q: Client, comment: Bytes)
    requires Reachable(q) && AtBoundary(q) && IsComment(comment)
    ensures Alike(q, Feed(q, FrameOf(comment))) && !MarkPending(q, Feed(q, FrameOf(comment)))
  {
    FeedBlock(q, comment);
    TextAppend(q, comment);
    assert [] + comment == comment;
    assert q.first ==> q.line == BOM + [];
  }

  /** Alike clients see the same events whatever arrives next. */
  lemma {:induction false} FeedAlike(q: Client, w: Client, rest: Bytes)
    requires Reachable(q) && Reachable(w) && Alike(q, w) && !MarkPending(q, w)
    ensures Alike(Feed(q, rest), Feed(w, rest)) && !MarkPending(Feed(q, rest), Feed(w, rest))
  {
    if rest != [] {
      var init := rest[..|rest| - 1];
      FeedAlike(q, w, init);
      FeedReachable(q, init);
      FeedReachable(w, init);
      ReceiveAlike(Feed(q, init), Feed(w, init), rest[|rest| - 1]);
    }
  }

  /** A line that adds to the data buffer, without its end, and not starting like a byte order mark. */
  predicate IsProbe(probe: Bytes) {
    IsData(probe) && probe[0] !in BOM && CR !in probe && LF !in probe && |FieldName(probe)| == 4
  }

  /** The line "data: x". */
  const PROBE: Bytes := DATA + [COLON, SPACE, 120]

  lemma ProbeExists()
    ensures IsProbe(PROBE)
  {
    CutConcat(DATA, [COLON, SPACE, 120]);
    assert COLON !in DATA;
    assert Cut(PROBE) == 4;
    assert FieldName(PROBE) == DATA;
  }

  /** Ending a line, and the blank line after it: at most one event, and one exactly if there is data. */
  lemma EndsWithOneEvent(q: Client)
    requires Text(q.first, q.line) != []
    ensures var line, r := Text(q.first, q.line), EndLine(EndLine(q));
            && r.data == [] && r.kind == [] && r.line == [] && !r.first
            && |r.events| == |q.events| + (if q.data != [] || IsData(line) then 1 else 0)
            && (q.data == [] && IsData(line) ==> r.events[|q.events|].kind == EffectiveKind(q.kind))
  {
  }

  /** The same for a block of text that arrives at once. */
  lemma BlockEvents(q: Client, text: Bytes)
    requires text != [] && CR !in text && LF !in text && Text(q.first, q.line + text) != []
    ensures var line, r := Text(q.first, q.line + text), Feed(q, text + [LF, LF]);
            && r.data == [] && r.kind == [] && r.line == [] && !r.first
            && |r.events| == |q.events| + (if q.data != [] || IsData(line) then 1 else 0)
            && (q.data == [] && IsData(line) ==> r.events[|q.events|].kind == EffectiveKind(q.kind))
  {
    FeedBlock(q, text);
    EndsWithOneEvent(q.(afterCR := false, line := q.line + text));
  }

  /** The events after a frame and a data block: the block's own event comes last, of the default kind. */
  lemma ProbeAfterFrame(q: Client, comment: Bytes, probe: Bytes)
    requires IsComment(comment) && IsProbe(probe)
    ensures var flushed := q.data != [] || IsData(Text(q.first, q.line) + comment);
            var seen := Feed(Feed(q, FrameOf(comment)), FrameOf(probe)).events;
            && |seen| == |q.events| + (if flushed then 2 else 1)
            && seen[|seen| - 1].kind == MESSAGE
  {
    var w := Feed(q, FrameOf(comment));
    TextAppend(q, comment);
    BlockEvents(q, comment);
    assert [] + probe == probe;
    BlockEvents(w, probe);
  }

  /** The events after the same block without the frame. */
  lemma ProbePlain(q: Client, probe: Bytes)
    requires IsProbe(probe)
    ensures var shown := q.data != [] || IsData(Text(q.first, q.line) + probe);
            var seen := Feed(q, FrameOf(probe)).events;
            && |seen| == |q.events| + (if shown then 1 else 0)
            && (q.data == [] && shown ==> seen[|seen| - 1].kind == EffectiveKind(q.kind))
  {
    TextAppend(q, probe);
    BlockEvents(q, probe);
  }

  /** Text appended to an open line that is not blank: the comment makes it data whenever the probe does. */
  lemma InsideLine(p: Bytes, comment: Bytes, probe: Bytes)
    requires p != [] && IsComment(comment) && IsProbe(probe)
    ensures IsData(p + probe) ==> IsData(p + comment)
  {
    IsDataConcat(p, comment);
    IsDataConcat(p, probe);
    if COLON !in p {
      assert |FieldName(p + probe)| > |DATA|;
    }
  }

  /** A client with an open line or something buffered: a data block tells it from its framed twin. */
  lemma ProbeTellsApart(q: Client, comment: Bytes, probe: Bytes)
    requires IsComment(comment) && IsProbe(probe)
    requires Text(q.first, q.line) != [] || q.data != [] || EffectiveKind(q.kind) != MESSAGE
    ensures Feed(q, FrameOf(probe)).events != Feed(Feed(q, FrameOf(comment)), FrameOf(probe)).events
  {
    var p := Text(q.first, q.line);
    ProbeAfterFrame(q, comment, probe);
    ProbePlain(q, probe);
    if p != [] {
      InsideLine(p, comment, probe);
    } else {
      assert p + probe == probe && p + comment == comment;
    }
  }

  lemma MarkedProbe(probe: Bytes)
    requires IsProbe(probe)
    ensures Text(true, BOM + probe) == probe && !IsData(BOM + probe)
    ensures CR !in BOM + probe && LF !in BOM + probe
  {
    assert (BOM + probe)[3..] == probe;
    IsDataConcat(BOM, probe);
    assert COLON !in BOM;
    assert |FieldName(BOM + probe)| == 7;
  }

  /** Before anything has arrived, a frame robs a byte order mark of its special place. */
  lemma MarkTellsApart(q: Client, comment: Bytes, probe: Bytes)
    requires Reachable(q) && q.first && q.line == [] && IsComment(comment) && IsProbe(probe)
    ensures Feed(q, FrameOf(BOM + probe)).events != Feed(Feed(q, FrameOf(comment)), FrameOf(BOM + probe)).events
  {
    var marked := BOM + probe;
    MarkedProbe(probe);
    TextAppend(q, comment);
    assert [] + comment == comment && [] + marked == marked;
    BlockEvents(q, comment);
    BlockEvents(q, marked);
    BlockEvents(Feed(q, FrameOf(comment)), marked);
  }

  /**
   * The exact condition under which a comment frame is the no-op it is meant to be: whatever
   * arrives afterwards, the client dispatches the same events with and without the frame if and
   * only if the frame came at an event boundary.
   */
  lemma FrameInvisibleExactly(q: Client, comment: Bytes)
    requires Reachable(q) && IsComment(comment)
    ensures AtBoundary(q) <==> forall rest :: Feed(Feed(q, FrameOf(comment)), rest).events == Feed(q, rest).events
  {
    ProbeExists();
    var probe := PROBE;
    if AtBoundary(q) {
      FrameAtBoundary(q, comment);
      FeedReachable(q, FrameOf(comment));
      forall rest ensures Feed(Feed(q, FrameOf(comment)), rest).events == Feed(q, rest).events {
        FeedAlike(q, Feed(q, FrameOf(comment)), rest);
      }
    } else if q.first && q.line == [] {
      MarkTellsApart(q, comment, probe);
    } else {
      ProbeTellsApart(q, comment, probe);
    }
  }

  /** An upstream pause inside a line is enough: the injected frame splits one event into two. */
  lemma FrameInsideLineShows(begun: Bytes, comment: Bytes)
    requires begun != [] && CR !in begun && LF !in begun && begun != BOM && IsComment(comment)
    ensures exists rest :: Events(begun + rest) != Events(begun + (FrameOf(comment) + rest))
  {
    ProbeExists();
    var probe := PROBE;
    FeedText(FRESH, begun);
    assert [] + begun == begun;
    var q, rest := Feed(FRESH, begun), FrameOf(probe);
    if BOM <= begun {
      assert |Text(true, begun)| > 0;
    }
    ProbeTellsApart(q, comment, probe);
    FeedConcat(FRESH, begun, rest);
    FeedConcat(FRESH, begun, FrameOf(comment) + rest);
    FeedConcat(q, FrameOf(comment), rest);
  }

  // ---- the stream: writes, in order, with their times ----

  datatype Payload = Upstream(bytes: Bytes) | Frame

  datatype Write = Write(at: int, payload: Payload)

  function Sent(p: Payload): Bytes {
    if p.Frame? then FRAME else p.bytes
  }

  /** The bytes that go to the client. */
  function Wire(out: seq<Write>): Bytes {
    if out == [] then [] else Wire(out[..|out| - 1]) + Sent(out[|out| - 1].payload)
  }

  /** What is left of them when the frames are erased. */
  function Erased(out: seq<Write>): Bytes {
    if out == [] then []
    else Erased(out[..|out| - 1]) + (if out[|out| - 1].payload.Frame? then [] else out[|out| - 1].payload.bytes)
  }

  /**
   * Every frame was written at an event boundary of the upstream bytes before it, or before
   * the first of them when the upstream, in full, does not start with a byte order mark.
   */
  ghost predicate FramesAtBoundaries(out: seq<Write>, upstream: Bytes) {
    forall i :: 0 <= i < |out| && out[i].payload.Frame? ==>
      AtBoundary(Feed(FRESH, Erased(out[..i]))) || (Erased(out[..i]) == [] && !(BOM <= upstream))
  }

  /** Feeding upstream bytes to both clients, where the second may already have lost its first line. */
  lemma {:induction false} FeedAlikeUnmarked(q: Client, w: Client, before: Bytes, rest: Bytes)
    requires Reachable(q) && Reachable(w) && Alike(q, w)
    requires q.first ==> q.line == before
    requires MarkPending(q, w) ==> !(BOM <= before + rest)
    ensures Alike(Feed(q, rest), Feed(w, rest))
    ensures MarkPending(Feed(q, rest), Feed(w, rest)) ==> MarkPending(q, w)
    ensures Feed(q, rest).first ==> q.first && Feed(q, rest).line == before + rest
  {
    if rest == [] {
      assert before + rest == before;
    } else {
      var init := rest[..|rest| - 1];
      var b := rest[|rest| - 1];
      assert before + rest == before + init + [b];
      FeedAlikeUnmarked(q, w, before, init);
      FeedReachable(q, init);
      FeedReachable(w, init);
      ReceiveAlike(Feed(q, init), Feed(w, init), b);
    }
  }

  /** A frame sent to the second of two alike clients, at a boundary of the first. */
  lemma FrameAlike(q: Client, w: Client, upstream: Bytes, comment: Bytes)
    requires IsComment(comment)
    requires Reachable(q) && Reachable(w) && Alike(q, w)
    requires AtBoundary(q) || (q == FRESH && !(BOM <= upstream))
    requires MarkPending(q, w) ==> !(BOM <= upstream)
    ensures Alike(q, Feed(w, FrameOf(comment)))
    ensures MarkPending(q, Feed(w, FrameOf(comment))) ==> !(BOM <= upstream)
  {
    FeedBlock(w, comment);
    TextAppend(w, comment);
    assert [] + comment == comment;
    assert q.first && q.line == BOM ==> q.line == BOM + [];
  }

  /** The client of the wire and the client of the bare upstream stay alike, write by write. */
  lemma {:induction false} ClientsAlike(out: seq<Write>, upstream: Bytes)
    requires Erased(out) <= upstream && FramesAtBoundaries(out, upstream)
    ensures Alike(Feed(FRESH, Erased(out)), Feed(FRESH, Wire(out)))
    ensures MarkPending(Feed(FRESH, Erased(out)), Feed(FRESH, Wire(out))) ==> !(BOM <= upstream)
  {
    if out != [] {
      var init, last := out[..|out| - 1], out[|out| - 1];
      var u := Erased(init);
      assert forall i :: 0 <= i < |init| ==> init[..i] == out[..i];
      ClientsAlike(init, upstream);
      var q, w := Feed(FRESH, u), Feed(FRESH, Wire(init));
      FeedReachable(FRESH, u);
      FeedReachable(FRESH, Wire(init));
      FeedConcat(FRESH, Wire(init), Sent(last.payload));
      if last.payload.Frame? {
        assert Erased(out) == u;
        KeepaliveIsComment();
        FrameAlike(q, w, upstream, COMMENT);
      } else {
        FeedConcat(FRESH, u, last.payload.bytes);
        FirstLineIsAll(u);
        FeedAlikeUnmarked(q, w, u, last.payload.bytes);
      }
    }
  }

  /** With every frame at an event boundary the client dispatches exactly the upstream's events. */
  lemma SameEvents(out: seq<Write>)
    requires FramesAtBoundaries(out, Erased(out))
    ensures Events(Wire(out)) == Events(Erased(out))
  {
    ClientsAlike(out, Erased(out));
  }

  // ---- timer and pump ----

  /** The state of the outgoing stream's controller. */
  datatype Controller = Readable | Closed | Errored

  datatype State = State(interval: int, closed: bool, lastByteAt: int, controller: Controller, out: seq<Write>)

  /** What can happen to the stream, each with the clock reading of its handler. */
  datatype Happening = Tick(at: int) | Chunk(at: int, bytes: Bytes) | Done(at: int) | Fail(at: int) | Cancel(at: int)

  const SSE_KEEPALIVE_MS := 15_000
  const IDLE_TIMEOUT_MS := 30_000

  /** The timer period: half the interval, in whole milliseconds, but never under a second. */
  function Period(interval: int): (p: int)
    ensures p >= 1_000
    ensures interval >= 2_000 ==> 0 <= interval - 2 * p <= 1
    ensures interval < 2_000 ==> p == 1_000
  {
    if interval / 2 > 1_000 then interval / 2 else 1_000
  }

  function Start(interval: int, now: int): State {
    State(interval, false, now, Readable, [])
  }

  /** Ends the pump: the flag is set, and the controller closed unless it no longer is readable. */
  function Finish(s: State): State {
    s.(closed := true, controller := if s.controller.Readable? then Closed else s.controller)
  }

  function Step(s: State, h: Happening): State {
    match h
    case Tick(at) =>
      if s.closed || at - s.lastByteAt < s.interval || !s.controller.Readable? then s
      else s.(lastByteAt := at, out := s.out + [Write(at, Frame)])
    case Chunk(at, bytes) =>
      if s.closed then s
      else if s.controller.Readable? then s.(lastByteAt := at, out := s.out + [Write(at, Upstream(bytes))])
      else Finish(s.(lastByteAt := at))
    case Done(_) => if s.closed then s else Finish(s)
    case Fail(_) =>
      if s.closed then s else Finish(s.(controller := if s.controller.Readable? then Errored else s.controller))
    case Cancel(_) => s.(controller := if s.controller.Readable? then Closed else s.controller)
  }

  function Run(s: State, hs: seq<Happening>): State {
    if hs == [] then s else Step(Run(s, hs[..|hs| - 1]), hs[|hs| - 1])
  }

  /** The upstream has ended or failed, or the consumer has gone. */
  predicate Terminated(hs: seq<Happening>) {
    exists h :: h in hs && !h.Tick? && !h.Chunk?
  }

  /** The upstream bytes, in order, up to the end of the stream. */
  function Delivered(hs: seq<Happening>): Bytes {
    if hs == [] then []
    else
      var init, last := hs[..|hs| - 1], hs[|hs| - 1];
      Delivered(init) + (if last.Chunk? && !Terminated(init) then last.bytes else [])
  }

  lemma TerminatedStep(hs: seq<Happening>)
    requires hs != []
    ensures var last := hs[|hs| - 1];
            Terminated(hs) <==> Terminated(hs[..|hs| - 1]) || (!last.Tick? && !last.Chunk?)
  {
    var init, last := hs[..|hs| - 1], hs[|hs| - 1];
    assert forall h :: h in hs <==> h in init || h == last;
  }

  /** One step adds to the erased output just what a chunk brings to an open stream. */
  lemma ErasedStep(s: State, h: Happening)
    requires s.controller.Readable? ==> !s.closed
    ensures Erased(Step(s, h).out) == Erased(s.out) + (if h.Chunk? && s.controller.Readable? then h.bytes else [])
    ensures Step(s, h).controller.Readable? <==> s.controller.Readable? && (h.Tick? || h.Chunk?)
    ensures Step(s, h).controller.Readable? ==> !Step(s, h).closed
  {
    var out := Step(s, h).out;
    if |out| > |s.out| {
      assert out[..|out| - 1] == s.out;
    }
    assert Erased(s.out) + [] == Erased(s.out);
  }

  /**
   * For every upstream, chunking and timer schedule: erasing the frames gives back exactly the
   * upstream bytes in order, and the stream is readable just as long as nothing has ended it.
   */
  lemma {:induction false} ErasureIsUpstream(interval: int, now: int, hs: seq<Happening>)
    ensures var s := Run(Start(interval, now), hs);
            && Erased(s.out) == Delivered(hs)
            && (s.controller.Readable? <==> !Terminated(hs))
            && (s.controller.Readable? ==> !s.closed)
  {
    if hs != [] {
      ErasureIsUpstream(interval, now, hs[..|hs| - 1]);
      TerminatedStep(hs);
      ErasedStep(Run(Start(interval, now), hs[..|hs| - 1]), hs[|hs| - 1]);
    }
  }

  /** The first thing that ends the stream. */
  function FirstEnd(hs: seq<Happening>): Option<Happening> {
    if hs == [] then None
    else
      var before, last := FirstEnd(hs[..|hs| - 1]), hs[|hs| - 1];
      if before.Some? then before else if last.Tick? || last.Chunk? then None else Some(last)
  }

  /** An upstream failure reaches the client as an error, unless the stream had already ended; all else closes it. */
  lemma {:induction false} EndsAsUpstreamEnds(interval: int, now: int, hs: seq<Happening>)
    ensures var s := Run(Start(interval, now), hs);
            && s.controller == (match FirstEnd(hs)
                                case None => Readable
                                case Some(Fail(_)) => Errored
                                case Some(_) => Closed)
            && (s.controller.Readable? ==> !s.closed)
  {
    if hs != [] {
      EndsAsUpstreamEnds(interval, now, hs[..|hs| - 1]);
    }
  }

  /** After the end nothing is written any more. */
  lemma SilentAfterEnd(interval: int, now: int, hs: seq<Happening>, h: Happening)
    requires Terminated(hs)
    ensures Run(Start(interval, now), hs + [h]).out == Run(Start(interval, now), hs).out
  {
    ErasureIsUpstream(interval, now, hs);
    assert (hs + [h])[..|hs|] == hs;
  }

  /** What the client of the wrapped response sees is what the upstream said. */
  lemma ClientSeesUpstream(interval: int, now: int, hs: seq<Happening>)
    requires FramesAtBoundaries(Run(Start(interval, now), hs).out, Delivered(hs))
    ensures Events(Wire(Run(Start(interval, now), hs).out)) == Events(Delivered(hs))
  {
    ErasureIsUpstream(interval, now, hs);
    SameEvents(Run(Start(interval, now), hs).out);
  }

  // ---- upstreams that pause only between events ----

  /** The chunks that are passed on. */
  function ChunksOf(hs: seq<Happening>): seq<Bytes> {
    if hs == [] then []
    else
      var init, last := hs[..|hs| - 1], hs[|hs| - 1];
      ChunksOf(init) + (if last.Chunk? && !Terminated(init) then [last.bytes] else [])
  }

  function Concat(chunks: seq<Bytes>): Bytes {
    if chunks == [] then [] else Concat(chunks[..|chunks| - 1]) + chunks[|chunks| - 1]
  }

  /**
   * After every chunk the client stands at an event boundary, or nothing has come yet and the
   * upstream does not start with a byte order mark.
   */
  ghost predicate PausesBetweenEvents(chunks: seq<Bytes>) {
    forall i :: 0 <= i <= |chunks| ==>
      AtBoundary(Feed(FRESH, Concat(chunks[..i]))) || (Concat(chunks[..i]) == [] && !(BOM <= Concat(chunks)))
  }

  /** What a client has of the upstream at some point of the output is what some of the chunks bring. */
  ghost predicate CutAtChunk(bytes: Bytes, chunks: seq<Bytes>) {
    exists m :: 0 <= m <= |chunks| && bytes == Concat(chunks[..m])
  }

  lemma CutLater(bytes: Bytes, chunks: seq<Bytes>, more: seq<Bytes>)
    requires CutAtChunk(bytes, chunks)
    ensures CutAtChunk(bytes, chunks + more)
  {
    var m :| 0 <= m <= |chunks| && bytes == Concat(chunks[..m]);
    assert (chunks + more)[..m] == chunks[..m];
  }

  lemma {:induction false} DeliveredIsConcat(hs: seq<Happening>)
    ensures Delivered(hs) == Concat(ChunksOf(hs))
  {
    if hs != [] {
      var init, last := hs[..|hs| - 1], hs[|hs| - 1];
      DeliveredIsConcat(init);
      if last.Chunk? && !Terminated(init) {
        assert ChunksOf(hs)[..|ChunksOf(hs)| - 1] == ChunksOf(init);
      } else {
        assert ChunksOf(hs) == ChunksOf(init);
      }
    }
  }

  lemma StepAppends(s: State, h: Happening)
    ensures s.out <= Step(s, h).out && |Step(s, h).out| <= |s.out| + 1
  {
  }

  ghost predicate AllCutAtChunks(out: seq<Write>, chunks: seq<Bytes>) {
    forall i :: 0 <= i <= |out| ==> CutAtChunk(Erased(out[..i]), chunks)
  }

  lemma CutsExtend(before: seq<Write>, out: seq<Write>, chunks: seq<Bytes>, more: seq<Bytes>)
    requires AllCutAtChunks(before, chunks)
    requires before <= out && |out| <= |before| + 1 && Erased(out) == Concat(chunks + more)
    ensures AllCutAtChunks(out, chunks + more)
  {
    forall i | 0 <= i <= |out| ensures CutAtChunk(Erased(out[..i]), chunks + more) {
      if i <= |before| {
        assert out[..i] == before[..i] && CutAtChunk(Erased(before[..i]), chunks);
        CutLater(Erased(out[..i]), chunks, more);
      } else {
        assert out[..i] == out && (chunks + more)[..|chunks + more|] == chunks + more;
      }
    }
  }

  /** The output is cut nowhere but at chunks. */
  lemma {:induction false} CutsAtChunks(interval: int, now: int, hs: seq<Happening>)
    ensures AllCutAtChunks(Run(Start(interval, now), hs).out, ChunksOf(hs))
  {
    ErasureIsUpstream(interval, now, hs);
    DeliveredIsConcat(hs);
    if hs == [] {
      assert Erased([]) == Concat([][..0]);
    } else {
      var init, last := hs[..|hs| - 1], hs[|hs| - 1];
      var before := Run(Start(interval, now), init);
      CutsAtChunks(interval, now, init);
      StepAppends(before, last);
      CutsExtend(before.out, Step(before, last).out, ChunksOf(init),
                 if last.Chunk? && !Terminated(init) then [last.bytes] else []);
    }
  }

  /**
   * An upstream that pauses only between events is safe under every schedule: whenever the timer
   * fires, the client of the wrapped response sees exactly the upstream's events.
   */
  lemma SafeUnderEverySchedule(interval: int, now: int, hs: seq<Happening>)
    requires PausesBetweenEvents(ChunksOf(hs))
    ensures Events(Wire(Run(Start(interval, now), hs).out)) == Events(Delivered(hs))
  {
    CutsAtChunks(interval, now, hs);
    DeliveredIsConcat(hs);
    var out, chunks := Run(Start(interval, now), hs).out, ChunksOf(hs);
    forall i | 0 <= i < |out| && out[i].payload.Frame?
      ensures AtBoundary(Feed(FRESH, Erased(out[..i]))) || (Erased(out[..i]) == [] && !(BOM <= Delivered(hs)))
    {
      assert CutAtChunk(Erased(out[..i]), chunks);
      var m :| 0 <= m <= |chunks| && Erased(out[..i]) == Concat(chunks[..m]);
    }
    ClientSeesUpstream(interval, now, hs);
  }

  /** The chunks arrive at once. */
  function Arriving(now: int, chunks: seq<Bytes>): seq<Happening> {
    if chunks == [] then [] else Arriving(now, chunks[..|chunks| - 1]) + [Chunk(now, chunks[|chunks| - 1])]
  }

  lemma {:induction false} ArrivingRun(interval: int, now: int, chunks: seq<Bytes>)
    ensures var hs := Arriving(now, chunks);
            var s := Run(Start(interval, now), hs);
            && !Terminated(hs) && ChunksOf(hs) == chunks && Wire(s.out) == Concat(chunks)
            && s.interval == interval && !s.closed && s.lastByteAt == now && s.controller.Readable?
  {
    if chunks != [] {
      var init, last := chunks[..|chunks| - 1], chunks[|chunks| - 1];
      ArrivingRun(interval, now, init);
      var hs := Arriving(now, chunks);
      assert hs[..|hs| - 1] == Arriving(now, init);
      TerminatedStep(hs);
      var out := Run(Start(interval, now), hs).out;
      assert out[..|out| - 1] == Run(Start(interval, now), Arriving(now, init)).out;
      assert chunks == init + [last];
    }
  }

  lemma WireLast(out: seq<Write>, w: Write)
    ensures Wire(out + [w]) == Wire(out) + Sent(w.payload)
  {
    assert (out + [w])[..|out|] == out;
  }

  lemma RunLast(s: State, hs: seq<Happening>, h: Happening)
    ensures Run(s, hs + [h]) == Step(Run(s, hs), h)
    ensures ChunksOf(hs + [h]) == ChunksOf(hs) + (if h.Chunk? && !Terminated(hs) then [h.bytes] else [])
    ensures Terminated(hs + [h]) <==> Terminated(hs) || (!h.Tick? && !h.Chunk?)
  {
    assert (hs + [h])[..|hs|] == hs;
    TerminatedStep(hs + [h]);
  }

  lemma StepWrites(s: State, at: int, rest: Bytes)
    requires !s.closed && s.controller.Readable?
    ensures at - s.lastByteAt >= s.interval ==>
      Step(s, Tick(at)) == s.(lastByteAt := at, out := s.out + [Write(at, Frame)])
    ensures Step(s, Chunk(at, rest)) == s.(lastByteAt := at, out := s.out + [Write(at, Upstream(rest))])
  {
  }

  /** The wire of one frame and one more chunk. */
  lemma FrameThenChunk(interval: int, now: int, hs: seq<Happening>, at: int, rest: Bytes)
      returns (longer: seq<Happening>)
    requires var s := Run(Start(interval, now), hs);
             !s.closed && s.controller.Readable? && at - s.lastByteAt >= s.interval && !Terminated(hs)
    ensures ChunksOf(longer) == ChunksOf(hs) + [rest]
    ensures Wire(Run(Start(interval, now), longer).out) == Wire(Run(Start(interval, now), hs).out) + FRAME + rest
  {
    var s, ticked := Run(Start(interval, now), hs), hs + [Tick(at)];
    RunLast(Start(interval, now), hs, Tick(at));
    RunLast(Start(interval, now), ticked, Chunk(at, rest));
    StepWrites(s, at, rest);
    StepWrites(Step(s, Tick(at)), at, rest);
    WireLast(s.out, Write(at, Frame));
    WireLast(s.out + [Write(at, Frame)], Write(at, Upstream(rest)));
    longer := ticked + [Chunk(at, rest)];
  }

  /** After bytes that do not end at a boundary some continuation shows a frame. */
  lemma FrameShows(sent: Bytes) returns (rest: Bytes)
    requires !AtBoundary(Feed(FRESH, sent))
    ensures Events(sent + FRAME + rest) != Events(sent + rest)
  {
    var q := Feed(FRESH, sent);
    KeepaliveIsComment();
    FeedReachable(FRESH, sent);
    FrameInvisibleExactly(q, COMMENT);
    rest :| Feed(Feed(q, FrameOf(COMMENT)), rest).events != Feed(q, rest).events;
    FeedConcat(FRESH, sent + FRAME, rest);
    FeedConcat(FRESH, sent, FRAME);
    FeedConcat(FRESH, sent, rest);
  }

  /** The chunks arrive, the timer fires once the interval is over, and one more chunk follows. */
  lemma FramedArrival(interval: int, now: int, chunks: seq<Bytes>, rest: Bytes) returns (hs: seq<Happening>)
    ensures ChunksOf(hs) == chunks + [rest]
    ensures Wire(Run(Start(interval, now), hs).out) == Concat(chunks) + FRAME + rest
  {
    ArrivingRun(interval, now, chunks);
    hs := FrameThenChunk(interval, now, Arriving(now, chunks), now + interval, rest);
  }

  /**
   * And no other pause is: when the client does not stand at a boundary after some chunks, there is a
   * continuation, and a schedule whose timer fires in between, for which it sees other events.
   */
  lemma OtherPausesShow(interval: int, now: int, chunks: seq<Bytes>) returns (rest: Bytes, hs: seq<Happening>)
    requires !AtBoundary(Feed(FRESH, Concat(chunks)))
    ensures ChunksOf(hs) == chunks + [rest]
    ensures Events(Wire(Run(Start(interval, now), hs).out)) != Events(Delivered(hs))
  {
    rest := FrameShows(Concat(chunks));
    hs := FramedArrival(interval, now, chunks, rest);
    DeliveredIsConcat(hs);
    ConcatLast(chunks, rest);
  }

  lemma ConcatLast(chunks: seq<Bytes>, last: Bytes)
    ensures Concat(chunks + [last]) == Concat(chunks) + last
  {
    assert (chunks + [last])[..|chunks|] == chunks;
  }

  // ---- timing ----

  function Ticks(hs: seq<Happening>): nat {
    if hs == [] then 0 else Ticks(hs[..|hs| - 1]) + (if hs[|hs| - 1].Tick? then 1 else 0)
  }

  /** The clock at the end of a schedule. */
  function Clock(now: int, hs: seq<Happening>): int {
    if hs == [] then now else hs[|hs| - 1].at
  }

  /** When the n-th tick is due. */
  function Due(interval: int, now: int, n: nat): int {
    if n == 0 then now else Due(interval, now, n - 1) + Period(interval)
  }

  /** Ideal timers: time does not run backwards, the n-th tick falls n periods after the start, none is late. */
  ghost predicate Ideal(interval: int, now: int, hs: seq<Happening>) {
    hs == [] ||
    var init, last := hs[..|hs| - 1], hs[|hs| - 1];
    && Ideal(interval, now, init)
    && Clock(now, init) <= last.at
    && (if last.Tick? then last.at == Due(interval, now, Ticks(init) + 1)
        else last.at <= Due(interval, now, Ticks(init) + 1))
  }

  /** The time of the last write, counting the start of the stream as one. */
  function LastWrite(now: int, out: seq<Write>): int {
    if out == [] then now else out[|out| - 1].at
  }

  /** The longest silence the scheme allows, as a strict bound. */
  function Bound(interval: int): int {
    (if interval > 0 then interval else 1) + Period(interval)
  }

  /** Each write follows the one before it closely, and a frame only after a silent interval. */
  ghost predicate WellSpaced(interval: int, now: int, out: seq<Write>) {
    out == [] ||
    var init, last := out[..|out| - 1], out[|out| - 1];
    && WellSpaced(interval, now, init)
    && 0 <= last.at - LastWrite(now, init) < Bound(interval)
    && (last.payload.Frame? ==> last.at - LastWrite(now, init) >= interval)
  }

  lemma WellSpacedExtend(interval: int, now: int, out: seq<Write>, w: Write)
    requires WellSpaced(interval, now, out)
    requires 0 <= w.at - LastWrite(now, out) < Bound(interval)
    requires w.payload.Frame? ==> w.at - LastWrite(now, out) >= interval
    ensures WellSpaced(interval, now, out + [w]) && LastWrite(now, out + [w]) == w.at
  {
    assert (out + [w])[..|out|] == out;
  }

  /** What holds of an open stream whose clock reads `clock` and whose latest tick was due at `tick`. */
  ghost predicate Spaced(now: int, s: State, tick: int, clock: int) {
    && WellSpaced(s.interval, now, s.out)
    && s.lastByteAt == LastWrite(now, s.out)
    && s.lastByteAt <= clock && tick <= clock
    && !s.closed && s.controller.Readable?
    && (s.lastByteAt >= tick || tick - s.lastByteAt < s.interval)
  }

  lemma SpacedStep(now: int, s: State, tick: int, clock: int, h: Happening)
    requires Spaced(now, s, tick, clock) && (h.Tick? || h.Chunk?)
    requires clock <= h.at <= tick + Period(s.interval)
    requires h.Tick? ==> h.at == tick + Period(s.interval)
    ensures Spaced(now, Step(s, h), if h.Tick? then h.at else tick, h.at)
  {
    if h.Chunk? {
      WellSpacedExtend(s.interval, now, s.out, Write(h.at, Upstream(h.bytes)));
    } else if h.at - s.lastByteAt >= s.interval {
      WellSpacedExtend(s.interval, now, s.out, Write(h.at, Frame));
    }
  }

  lemma {:induction false} Spacing(interval: int, now: int, hs: seq<Happening>)
    requires Ideal(interval, now, hs) && !Terminated(hs)
    ensures Run(Start(interval, now), hs).interval == interval
    ensures Spaced(now, Run(Start(interval, now), hs), Due(interval, now, Ticks(hs)), Clock(now, hs))
  {
    if hs != [] {
      var init, last := hs[..|hs| - 1], hs[|hs| - 1];
      TerminatedStep(hs);
      Spacing(interval, now, init);
      SpacedStep(now, Run(Start(interval, now), init), Due(interval, now, Ticks(init)), Clock(now, init), last);
    }
  }

  /**
   * With ideal timers and an open stream the silence between neighbouring writes, and the silence
   * since the last one at any moment before the next tick is due, stays below one interval plus
   * one period; no frame follows a byte within the interval.
   */
  lemma SilenceBounded(interval: int, now: int, hs: seq<Happening>, t: int)
    requires Ideal(interval, now, hs) && !Terminated(hs)
    requires Clock(now, hs) <= t <= Due(interval, now, Ticks(hs) + 1)
    ensures var out := Run(Start(interval, now), hs).out;
            && WellSpaced(interval, now, out)
            && t - LastWrite(now, out) < Bound(interval)
  {
    Spacing(interval, now, hs);
  }

  /** The deployed interval keeps every silence under 22.5 seconds, and so under the idle timeout. */
  lemma DeployedSilence(now: int, hs: seq<Happening>, t: int)
    requires Ideal(SSE_KEEPALIVE_MS, now, hs) && !Terminated(hs)
    requires Clock(now, hs) <= t <= Due(SSE_KEEPALIVE_MS, now, Ticks(hs) + 1)
    ensures var out := Run(Start(SSE_KEEPALIVE_MS, now), hs).out;
            t - LastWrite(now, out) < 22_500 < IDLE_TIMEOUT_MS
  {
    SilenceBounded(SSE_KEEPALIVE_MS, now, hs, t);
  }

  /** The wrapper's shared variables and its outgoing stream. */
  class KeepaliveStream {
    const interval: int
    var closed: bool
    var lastByteAt: int
    var controller: Controller
    var out: seq<Write>

    constructor (interval: int, now: int)
      ensures Abs() == Start(interval, now)
    {
      this.interval := interval;
      closed, lastByteAt := false, now;
      controller, out := Readable, [];
    }

    ghost function Abs(): State
      reads this
    {
      State(interval, closed, lastByteAt, controller, out)
    }

    /** Puts a payload into the stream; fails when the controller no longer accepts any. */
    method Enqueue(now: int, payload: Payload) returns (ok: bool)
      modifies this`out
      ensures ok == controller.Readable?
      ensures out == old(out) + (if ok then [Write(now, payload)] else [])
    {
      ok := controller.Readable?;
      if ok {
        out := out + [Write(now, payload)];
      }
    }

    method OnTick(now: int)
      modifies this
      ensures Abs() == Step(old(Abs()), Tick(now))
    {
      if closed {
        return;
      }
      if now - lastByteAt < interval {
        return;
      }
      var ok := Enqueue(now, Frame);
      if ok {
        lastByteAt := now;
      }
    }

    method OnChunk(now: int, value: Bytes)
      modifies this
      ensures Abs() == Step(old(Abs()), Chunk(now, value))
    {
      if closed {
        return;
      }
      lastByteAt := now;
      var ok := Enqueue(now, Upstream(value));
      if !ok {
        Close();
      }
    }

    method OnDone(now: int)
      modifies this
      ensures Abs() == Step(old(Abs()), Done(now))
    {
      if !closed {
        Close();
      }
    }

    method OnError(now: int)
      modifies this
      ensures Abs() == Step(old(Abs()), Fail(now))
    {
      if closed {
        return;
      }
      if controller.Readable? {
        controller := Errored;
      }
      Close();
    }

    method OnCancel(now: int)
      modifies this
      ensures Abs() == Step(old(Abs()), Cancel(now))
    {
      if controller.Readable? {
        controller := Closed;
      }
    }

    /** The end of the pump: stops the timer and closes what is still open. */
    method Close()
      modifies this
      ensures Abs() == Finish(old(Abs()))
    {
      closed := true;
      if controller.Readable? {
        controller := Closed;
      }
    }
  }
}
