/** Cutting the runtime's server-sent-event byte stream into frames. */
module SseFraming {
  import opened Wrappers
  import opened Framing

  newtype Byte = b: int | 0 <= b < 256

  type Bytes = seq<Byte>

  const CRLF: Bytes := [13, 10, 13, 10]
  const LF: Bytes := [10, 10]

  /** End of the next frame: the first `\r\n\r\n` anywhere in the buffer wins
      over any `\n\n`, even an earlier one. */
  ghost function Cut(buffer: Bytes): (end: Option<nat>)
    ensures end.Some? ==> 0 < end.value <= |buffer|
  {
    match Find(buffer, CRLF)
    case Some(p) => Some(p + 4)
    case None =>
      match Find(buffer, LF)
      case Some(p) => Some(p + 2)
      case None => None
  }

  datatype Drained = Drained(frames: seq<Bytes>, rest: Bytes)

  /** Everything the inner loop takes out of one buffer, and what it leaves. */
  ghost function Drain(buffer: Bytes): Drained
    decreases |buffer|
  {
    match Cut(buffer)
    case None => Drained([], buffer)
    case Some(e) =>
      var tail := Drain(buffer[e..]);
      Drained([buffer[..e]] + tail.frames, tail.rest)
  }

  /** The frames taken while the chunks arrive one after the other. */
  ghost function Receive(buffer: Bytes, chunks: seq<Bytes>): Drained
    decreases |chunks|
  {
    if chunks == [] then
      Drained([], buffer)
    else
      var now := Drain(buffer + chunks[0]);
      var later := Receive(now.rest, chunks[1..]);
      Drained(now.frames + later.frames, later.rest)
  }

  /** The buffer the source drains from its front. */
  class SseBuffer {
    var bytes: Bytes

    constructor ()
      ensures bytes == []
    {
      bytes := [];
    }

    method Extend(chunk: Bytes)
      modifies this
      ensures bytes == old(bytes) + chunk
    {
      bytes := bytes + chunk;
    }

    method TakeFrame() returns (frame: Option<Bytes>)
      modifies this
      ensures Cut(old(bytes)).None? ==> frame.None? && bytes == old(bytes)
      ensures Cut(old(bytes)).Some? ==>
                var e := Cut(old(bytes)).value;
                frame == Some(old(bytes)[..e]) && bytes == old(bytes)[e..]
    {
      var crlf := FindPosition(bytes, CRLF);
      if crlf.Some? {
        frame := Some(bytes[..crlf.value + 4]);
        bytes := bytes[crlf.value + 4..];
        return;
      }
      var lf := FindPosition(bytes, LF);
      if lf.Some? {
        frame := Some(bytes[..lf.value + 2]);
        bytes := bytes[lf.value + 2..];
      } else {
        frame := None;
      }
    }
  }

  // ------------------------------------------------------------- conservation

  lemma {:induction false} DrainConserves(buffer: Bytes)
    ensures Concat(Drain(buffer).frames) + Drain(buffer).rest == buffer
    decreases |buffer|
  {
    hide Cut;
    if Cut(buffer).Some? {
      var e := Cut(buffer).value;
      DrainConserves(buffer[e..]);
      StepConserves(buffer, e, Drain(buffer[e..]));
    }
  }

  lemma StepConserves(buffer: Bytes, e: nat, tail: Drained)
    requires e <= |buffer| && Concat(tail.frames) + tail.rest == buffer[e..]
    ensures Concat([buffer[..e]] + tail.frames) + tail.rest == buffer
  {
    var head := buffer[..e];
    ConcatCons(head, tail.frames);
    Associative(head, Concat(tail.frames), tail.rest);
    assert head + buffer[e..] == buffer;
  }

  lemma ConcatCons(head: Bytes, frames: seq<Bytes>)
    ensures Concat([head] + frames) == head + Concat(frames)
  {
    assert ([head] + frames)[1..] == frames;
  }

  /** No byte is lost, invented or reordered, however the stream is chunked. */
  lemma {:induction false} ReceiveConserves(buffer: Bytes, chunks: seq<Bytes>)
    ensures var r := Receive(buffer, chunks); Concat(r.frames) + r.rest == buffer + Concat(chunks)
    decreases |chunks|
  {
    if chunks != [] {
      var now := Drain(buffer + chunks[0]);
      var later := Receive(now.rest, chunks[1..]);
      DrainConserves(buffer + chunks[0]);
      ReceiveConserves(now.rest, chunks[1..]);
      ConcatAppend(now.frames, later.frames);
      var c := Concat(chunks[1..]);
      Associative(Concat(now.frames), Concat(later.frames), later.rest);
      Associative(Concat(now.frames), now.rest, c);
      Associative(buffer, chunks[0], c);
    }
  }

  // ------------------------------------------------------- chunk independence

  /** No `\n\n` inside a frame that `\r\n\r\n` ends. */
  ghost predicate NeverMixed(stream: Bytes)
    decreases |stream|
  {
    match Find(stream, CRLF)
    case None => true
    case Some(p) => Find(stream[..p + 4], LF).None? && NeverMixed(stream[p + 4..])
  }

  /** A stream that uses one of the two delimiters only is never mixed. */
  lemma {:induction false} OneDelimiterNeverMixes(stream: Bytes)
    requires Find(stream, CRLF).None? || Find(stream, LF).None?
    ensures NeverMixed(stream)
    decreases |stream|
  {
    if Find(stream, CRLF).Some? {
      var e := Find(stream, CRLF).value + 4;
      if Find(stream[..e], LF).Some? {
        OccursInPart(stream, LF, 0, e, Find(stream[..e], LF).value);
      }
      if Find(stream[e..], LF).Some? {
        assert stream[e..] == stream[e..|stream|];
        OccursInPart(stream, LF, e, |stream|, Find(stream[e..], LF).value);
      }
      OneDelimiterNeverMixes(stream[e..]);
    }
  }

  /** Bytes still to come do not change a frame already complete. */
  lemma CutExtends(x: Bytes, y: Bytes)
    requires NeverMixed(x + y) && Cut(x).Some?
    ensures Cut(x + y) == Cut(x)
    ensures NeverMixed(x[Cut(x).value..] + y)
  {
    var e := Cut(x).value;
    assert (x + y)[e..] == x[e..] + y;
    if Find(x, CRLF).Some? {
      FindExtends(x, y, CRLF);
    } else {
      FindExtends(x, y, LF);
      var p := Find(x, LF).value;
      if Find(x + y, CRLF).Some? {
        var q := Find(x + y, CRLF).value;
        if q + 4 <= |x| {
          assert (x + y)[q..q + 4] == x[q..q + 4];
          assert OccursAt(x, CRLF, q);
        }
        OccursInside(x + y, LF, 0, q + 4, p);
        assert false;
      }
      if Find(x[e..] + y, CRLF).Some? {
        assert x[e..] + y == (x + y)[e..|x + y|];
        OccursInPart(x + y, CRLF, e, |x + y|, Find(x[e..] + y, CRLF).value);
      }
    }
  }

  /** Draining early and draining late agree. */
  lemma {:induction false} DrainSplits(x: Bytes, y: Bytes)
    requires NeverMixed(x + y)
    ensures Drain(x + y) ==
              var first := Drain(x);
              var second := Drain(first.rest + y);
              Drained(first.frames + second.frames, second.rest)
    ensures NeverMixed(Drain(x).rest + y)
    decreases |x|
  {
    if Cut(x).Some? {
      var e := Cut(x).value;
      CutExtends(x, y);
      assert (x + y)[..e] == x[..e] && (x + y)[e..] == x[e..] + y;
      DrainSplits(x[e..], y);
      var tail := Drain(x[e..]);
      var second := Drain(tail.rest + y);
      assert [x[..e]] + (tail.frames + second.frames) == ([x[..e]] + tail.frames) + second.frames;
    }
  }

  lemma {:induction false} ReceiveEqualsDrain(buffer: Bytes, chunks: seq<Bytes>)
    requires NeverMixed(buffer + Concat(chunks)) && Cut(buffer).None?
    ensures Receive(buffer, chunks) == Drain(buffer + Concat(chunks))
    decreases |chunks|
  {
    if chunks == [] {
      assert buffer + Concat(chunks) == buffer;
    } else {
      var x := buffer + chunks[0];
      var y := Concat(chunks[1..]);
      assert x + y == buffer + Concat(chunks);
      DrainSplits(x, y);
      DrainLeavesNoFrame(x);
      ReceiveEqualsDrain(Drain(x).rest, chunks[1..]);
    }
  }

  lemma {:induction false} DrainLeavesNoFrame(buffer: Bytes)
    ensures Cut(Drain(buffer).rest).None?
    decreases |buffer|
  {
    if Cut(buffer).Some? {
      DrainLeavesNoFrame(buffer[Cut(buffer).value..]);
    }
  }

  /** Where the first `\r\n\r\n` frame holds a `\n\n`, a chunk ending right
      after the latter is framed at once and whole. */
  lemma EarlyFrame(stream: Bytes, e: nat) returns (k: nat)
    requires Find(stream, CRLF) == Some(e - 4) && e <= |stream| && Find(stream[..e], LF).Some?
    ensures k < e && Drain(stream[..k]) == Drained([stream[..k]], [])
  {
    var head := stream[..e];
    var p := Find(head, LF).value;
    k := p + 2;
    assert head[e - 2] == stream[e - 4..e][2];
    var early := stream[..k];
    assert early == head[0..k] && early == stream[0..k];
    if Find(early, CRLF).Some? {
      OccursInPart(stream, CRLF, 0, k, Find(early, CRLF).value);
    }
    OccursInside(head, LF, 0, k, p);
    forall j: nat | j < p
      ensures !OccursAt(early, LF, j)
    {
      if OccursAt(early, LF, j) {
        OccursInPart(head, LF, 0, k, j);
      }
    }
    FirstIsFind(early, LF, p);
    assert early[k..] == [] && early[..k] == early;
    assert Drain(early[k..]) == Drained([], []);
  }

  lemma FirstCutSurvives(stream: Bytes, e: nat, k: nat)
    requires Find(stream, CRLF) == Some(e - 4) && e <= k <= |stream|
    ensures Cut(stream[..k]) == Some(e)
  {
    var head := stream[..k];
    assert head == stream[0..k] && stream == head + stream[k..];
    OccursInside(stream, CRLF, 0, k, e - 4);
    FindExtends(head, stream[k..], CRLF);
  }

  /** A mixed stream is cut differently when a chunk ends right after the
      `\n\n`: everything up to there is framed before the `\r\n\r\n` arrives. */
  lemma {:induction false} MixedStreamDiffers(stream: Bytes) returns (k: nat)
    requires !NeverMixed(stream)
    ensures k <= |stream|
    ensures !(Drain(stream[..k]).frames <= Drain(stream).frames)
    decreases |stream|
  {
    var e := Find(stream, CRLF).value + 4;
    if Find(stream[..e], LF).Some? {
      k := EarlyFrame(stream, e);
      assert Drain(stream).frames[0] == stream[..e];
    } else {
      var j := MixedStreamDiffers(stream[e..]);
      k := e + j;
      FirstCutSurvives(stream, e, k);
      var head := stream[..k];
      assert head[e..] == stream[e..][..j];
      assert Drain(head).frames[1..] == Drain(head[e..]).frames;
      assert Drain(stream).frames[1..] == Drain(stream[e..]).frames;
    }
  }

  lemma MixedStreamDependsOnChunks(stream: Bytes) returns (chunks: seq<Bytes>)
    requires !NeverMixed(stream)
    ensures Concat(chunks) == stream && Receive([], chunks) != Drain(stream)
  {
    var k := MixedStreamDiffers(stream);
    var a, b := stream[..k], stream[k..];
    chunks := [a, b];
    assert chunks[1..] == [b];
    assert Concat([b]) == b + Concat([]) == b;
    assert [] + a == a;
    assert Drain(a).frames <= Receive([], chunks).frames;
  }

  /** The frames of a stream are the same under every chunking exactly when no
      `\r\n\r\n`-terminated frame contains a `\n\n`. */
  lemma ChunkIndependentIffNeverMixed(stream: Bytes)
    ensures (forall chunks | Concat(chunks) == stream :: Receive([], chunks) == Drain(stream)) <==> NeverMixed(stream)
  {
    if NeverMixed(stream) {
      forall chunks | Concat(chunks) == stream
        ensures Receive([], chunks) == Drain(stream)
      {
        assert [] + Concat(chunks) == stream;
        ReceiveEqualsDrain([], chunks);
      }
    } else {
      var chunks := MixedStreamDependsOnChunks(stream);
    }
  }

  // ---------------------------------------------------------- reference split

  ghost predicate NoDelimiter(s: Bytes) {
    Find(s, CRLF).None? && Find(s, LF).None?
  }

  /** A frame that ends with a delimiter and holds none before that. */
  ghost predicate Minimal(frame: Bytes) {
    && frame != []
    && !NoDelimiter(frame)
    && NoDelimiter(frame[..|frame| - 1])
  }

  /** The reference split: cut at the first delimiter of either kind, always. */
  ghost predicate IsReferenceSplit(stream: Bytes, d: Drained) {
    && Concat(d.frames) + d.rest == stream
    && (forall f | f in d.frames :: Minimal(f))
    && NoDelimiter(d.rest)
  }

  lemma PrefixHasNoDelimiter(s: Bytes, k: nat)
    requires k <= |s| && NoDelimiter(s)
    ensures NoDelimiter(s[..k])
  {
    assert s[..k] == s[0..k];
    PartHasNoDelimiter(s, 0, k);
  }

  lemma PartHasNoDelimiter(s: Bytes, lo: nat, hi: nat)
    requires lo <= hi <= |s| && NoDelimiter(s)
    ensures NoDelimiter(s[lo..hi])
  {
    if Find(s[lo..hi], CRLF).Some? {
      OccursInPart(s, CRLF, lo, hi, Find(s[lo..hi], CRLF).value);
    }
    if Find(s[lo..hi], LF).Some? {
      OccursInPart(s, LF, lo, hi, Find(s[lo..hi], LF).value);
    }
  }

  /** There is only one reference split. */
  lemma {:induction false} ReferenceSplitIsUnique(stream: Bytes, a: Drained, b: Drained)
    requires IsReferenceSplit(stream, a) && IsReferenceSplit(stream, b)
    ensures a == b
    decreases |stream|
  {
    assert a.frames == [] ==> a.rest == stream;
    assert b.frames == [] ==> b.rest == stream;
    if a.frames == [] || b.frames == [] {
      if a.frames != [] {
        FrameShowsInStream(stream, a);
      }
      if b.frames != [] {
        FrameShowsInStream(stream, b);
      }
    } else {
      var f, g := a.frames[0], b.frames[0];
      FrameIsPrefix(stream, a);
      FrameIsPrefix(stream, b);
      if |f| < |g| {
        assert g[..|g| - 1][..|f|] == f;
        PrefixHasNoDelimiter(g[..|g| - 1], |f|);
      } else if |g| < |f| {
        assert f[..|f| - 1][..|g|] == g;
        PrefixHasNoDelimiter(f[..|f| - 1], |g|);
      }
      assert f == g;
      ReferenceSplitIsUnique(stream[|f|..], Drained(a.frames[1..], a.rest), Drained(b.frames[1..], b.rest));
    }
  }

  lemma FrameIsPrefix(stream: Bytes, d: Drained)
    requires IsReferenceSplit(stream, d) && d.frames != []
    ensures d.frames[0] <= stream && Minimal(d.frames[0])
    ensures IsReferenceSplit(stream[|d.frames[0]|..], Drained(d.frames[1..], d.rest))
  {
    assert d.frames[0] in d.frames;
    assert stream == d.frames[0] + (Concat(d.frames[1..]) + d.rest);
  }

  lemma FrameShowsInStream(stream: Bytes, d: Drained)
    requires IsReferenceSplit(stream, d) && d.frames != []
    ensures !NoDelimiter(stream)
  {
    FrameIsPrefix(stream, d);
    assert stream[..|d.frames[0]|] == d.frames[0];
    if NoDelimiter(stream) {
      PrefixHasNoDelimiter(stream, |d.frames[0]|);
    }
  }

  /** The next frame is minimal unless it is a `\r\n\r\n` frame that holds a
      `\n\n`. */
  lemma CutIsMinimal(buffer: Bytes)
    requires Cut(buffer).Some?
    ensures var e := Cut(buffer).value;
            Minimal(buffer[..e]) <==> (Find(buffer, CRLF).Some? ==> Find(buffer[..e], LF).None?)
  {
    if Find(buffer, CRLF).Some? {
      CrlfCutIsMinimal(buffer, Find(buffer, CRLF).value + 4);
    } else {
      LfCutIsMinimal(buffer, Find(buffer, LF).value + 2);
    }
  }

  lemma CrlfCutIsMinimal(buffer: Bytes, e: nat)
    requires e >= 4 && Find(buffer, CRLF) == Some(e - 4)
    ensures e <= |buffer| && (Minimal(buffer[..e]) <==> Find(buffer[..e], LF).None?)
  {
    var f, g := buffer[..e], buffer[..e - 1];
    assert f[..e - 1] == g && g == buffer[0..e - 1] && f[0..e - 1] == g;
    OccursInside(buffer, CRLF, 0, e, e - 4);
    if Find(g, CRLF).Some? {
      OccursInPart(buffer, CRLF, 0, e - 1, Find(g, CRLF).value);
    }
    if Find(g, LF).Some? {
      OccursInPart(f, LF, 0, e - 1, Find(g, LF).value);
    }
    if Find(f, LF).Some? {
      var p := Find(f, LF).value;
      LfDoesNotEndCrlf(f, p);
      OccursInside(f, LF, 0, e - 1, p);
    }
  }

  lemma LfDoesNotEndCrlf(f: Bytes, p: nat)
    requires |f| >= 4 && OccursAt(f, CRLF, |f| - 4) && OccursAt(f, LF, p)
    ensures p + 2 < |f|
  {
    assert f[p..p + 2][0] == f[p];
    assert f[|f| - 4..|f| - 4 + |CRLF|][2] == f[|f| - 2];
  }

  lemma LfCutIsMinimal(buffer: Bytes, e: nat)
    requires e >= 2 && Find(buffer, CRLF).None? && Find(buffer, LF) == Some(e - 2)
    ensures e <= |buffer| && Minimal(buffer[..e])
  {
    var f, g := buffer[..e], buffer[..e - 1];
    assert f[..e - 1] == g && g == buffer[0..e - 1];
    OccursInside(buffer, LF, 0, e, e - 2);
    if Find(g, CRLF).Some? {
      OccursInPart(buffer, CRLF, 0, e - 1, Find(g, CRLF).value);
    }
    if Find(g, LF).Some? {
      OccursInPart(buffer, LF, 0, e - 1, Find(g, LF).value);
    }
  }

  /** Draining yields the reference split exactly for streams never mixed; so
      by uniqueness the frames of such a stream are the reference frames. */
  lemma {:induction false} DrainIsReferenceIffNeverMixed(stream: Bytes)
    ensures IsReferenceSplit(stream, Drain(stream)) <==> NeverMixed(stream)
    decreases |stream|
  {
    hide Cut, Minimal, NoDelimiter, Find, NeverMixed, IsReferenceSplit;
    DrainConserves(stream);
    if Cut(stream).Some? {
      var e := Cut(stream).value;
      CutIsMinimal(stream);
      DrainIsReferenceIffNeverMixed(stream[e..]);
      ReferenceSplitStarts(stream, e, Drain(stream[e..]));
      NeverMixedStarts(stream, e);
    } else {
      NothingCutIsReference(stream);
    }
  }

  lemma NothingCutIsReference(stream: Bytes)
    requires Cut(stream).None?
    ensures IsReferenceSplit(stream, Drained([], stream)) && NeverMixed(stream)
  {
    assert Concat<Byte>([]) + stream == stream;
  }

  lemma ReferenceSplitStarts(stream: Bytes, e: nat, tail: Drained)
    requires e <= |stream|
    ensures IsReferenceSplit(stream, Drained([stream[..e]] + tail.frames, tail.rest)) <==>
              Minimal(stream[..e]) && IsReferenceSplit(stream[e..], tail)
  {
    hide Minimal, NoDelimiter;
    var head := stream[..e];
    var frames := [head] + tail.frames;
    ConcatCons(head, tail.frames);
    Associative(head, Concat(tail.frames), tail.rest);
    assert stream == head + stream[e..];
    if Concat(frames) + tail.rest == stream {
      assert stream[e..] == (head + (Concat(tail.frames) + tail.rest))[e..];
    }
    assert frames[0] == head;
    assert forall f :: f in frames <==> f == head || f in tail.frames;
  }

  lemma NeverMixedStarts(stream: Bytes, e: nat)
    requires Cut(stream) == Some(e)
    ensures NeverMixed(stream) <==>
              (Find(stream, CRLF).Some? ==> Find(stream[..e], LF).None?) && NeverMixed(stream[e..])
  {
    if Find(stream, CRLF).None? {
      assert stream[e..] == stream[e..|stream|];
      if Find(stream[e..], CRLF).Some? {
        OccursInPart(stream, CRLF, e, |stream|, Find(stream[e..], CRLF).value);
      }
    }
  }
}
