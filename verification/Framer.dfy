/** Pulling RTCM3 frames out of a growing buffer (service.py, extract_rtcm3_frames). */
module Framer {
  import opened Basics

  const SYNC: byte := 0xD3

  /** buf.find(0xD3), or the length when there is none. */
  function FindSync(b: seq<byte>): (k: nat)
    ensures k <= |b| && SYNC !in b[..k]
    ensures k < |b| ==> b[k] == SYNC
  {
    if b == [] || b[0] == SYNC then 0
    else
      var k := 1 + FindSync(b[1..]);
      assert b[..k] == [b[0]] + b[1..][..k - 1];
      k
  }

  /** Length of the frame a buffer of at least three bytes announces. */
  function FrameLength(b: seq<byte>): (n: nat)
    requires |b| >= 3
    ensures 6 <= n <= 1029
  {
    3 + ((b[1] as int) % 4 * 256 + (b[2] as int)) + 3
  }

  /** A buffer the extractor leaves alone: nothing, or the start of a frame not yet complete. */
  predicate Waiting(b: seq<byte>)
  {
    b == [] || (b[0] == 0xD3 && (|b| < 3 || |b| < 6 + b[1] as int % 4 * 256 + b[2] as int))
  }

  /** 0xD3, a length in the low ten bits of the next two bytes, that many bytes of payload, three of CRC. */
  predicate IsFrame(f: seq<byte>)
  {
    |f| >= 6 && f[0] == 0xD3 && |f| == 6 + f[1] as int % 4 * 256 + f[2] as int
  }

  predicate IsGap(g: seq<byte>)
  {
    SYNC !in g
  }

  /** (frames, what stays in the buffer) */
  function Extract(b: seq<byte>): (r: (seq<seq<byte>>, seq<byte>))
    decreases |b|
  {
    var t := b[FindSync(b)..];
    if Waiting(t) then ([], t)
    else
      var n := FrameLength(t);
      var (fs, rest) := Extract(t[n..]);
      ([t[..n]] + fs, rest)
  }

  /** A byte buffer that grows at the end and is consumed from the front. */
  class Buffer {
    var data: seq<byte>

    constructor ()
      ensures data == []
    {
      data := [];
    }

    method Extend(chunk: seq<byte>)
      modifies this
      ensures data == old(data) + chunk
    {
      data := data + chunk;
    }

    method ExtractFrames() returns (frames: seq<seq<byte>>)
      modifies this
      ensures (frames, data) == Extract(old(data))
      ensures forall f <- frames :: IsFrame(f)
    {
      OnlyFrames(data);
      frames := [];
      assert [] + Extract(data).0 == Extract(data).0;
      while true
        invariant Extract(old(data)) == (frames + Extract(data).0, Extract(data).1)
        decreases |data|
      {
        var start := FindSync(data);
        if start == |data| {
          data := [];
          assert frames + [] == frames;
          return;
        }
        ghost var before := data;
        if start > 0 {
          data := data[start..];
        }
        assert data == before[start..];
        if |data| < 3 {
          assert frames + [] == frames;
          return;
        }
        var total := FrameLength(data);
        if |data| < total {
          assert frames + [] == frames;
          return;
        }
        Assoc(frames, [data[..total]], Extract(data[total..]).0);
        frames := frames + [data[..total]];
        data := data[total..];
      }
    }
  }

  // ------------------------------------------------------------ chunk independence

  lemma {:induction false} FindSyncAppend(a: seq<byte>, b: seq<byte>)
    ensures FindSync(a + b) == if FindSync(a) < |a| then FindSync(a) else |a| + FindSync(b)
  {
    if a == [] {
      assert a + b == b;
    } else if a[0] != SYNC {
      FindSyncAppend(a[1..], b);
      assert (a + b)[1..] == a[1..] + b;
    }
  }

  lemma ExtractAfterNoise(a: seq<byte>, b: seq<byte>)
    requires IsGap(a)
    ensures Extract(a + b) == Extract(b)
  {
    FindSyncAppend(a, b);
    assert FindSync(a) == |a|;
    assert (a + b)[|a| + FindSync(b)..] == b[FindSync(b)..];
    SameFromSync(a + b, b);
  }

  lemma SameFromSync(a: seq<byte>, b: seq<byte>)
    requires a[FindSync(a)..] == b[FindSync(b)..]
    ensures Extract(a) == Extract(b)
  {
  }

  lemma ExtractFrame(f: seq<byte>, b: seq<byte>)
    requires IsFrame(f)
    ensures Extract(f + b) == ([f] + Extract(b).0, Extract(b).1)
  {
    var s := f + b;
    assert FindSync(s) == 0 && s[0..] == s;
    assert FrameLength(s) == |f| && s[..|f|] == f && s[|f|..] == b;
  }

  /** Extraction on a + b is extraction on a, then on its leftover followed by b. */
  ghost predicate Resumes(a: seq<byte>, b: seq<byte>)
  {
    var (fs, rest) := Extract(a);
    var (more, last) := Extract(rest + b);
    Extract(a + b) == (fs + more, last)
  }

  lemma ResumesAfterNoise(gap: seq<byte>, t: seq<byte>, b: seq<byte>)
    requires IsGap(gap) && Resumes(t, b)
    ensures Resumes(gap + t, b)
  {
    ExtractAfterNoise(gap, t);
    ExtractAfterNoise(gap, t + b);
    Assoc(gap, t, b);
  }

  lemma ResumesWaiting(t: seq<byte>, b: seq<byte>)
    requires Waiting(t)
    ensures Resumes(t, b)
  {
    WaitingStays(t);
    assert [] + Extract(t + b).0 == Extract(t + b).0;
  }

  lemma ResumesAfterFrame(f: seq<byte>, more: seq<byte>, b: seq<byte>)
    requires IsFrame(f) && Resumes(more, b)
    ensures Resumes(f + more, b)
  {
    ExtractFrame(f, more);
    ExtractFrame(f, more + b);
    Assoc(f, more, b);
    var (fs, rest) := Extract(more);
    Assoc([f], fs, Extract(rest + b).0);
  }

  /** Where the first frame, if any, begins and ends. */
  lemma FirstFrame(a: seq<byte>) returns (gap: seq<byte>, t: seq<byte>)
    ensures a == gap + t && IsGap(gap) && (t == [] || t[0] == SYNC)
    ensures !Waiting(t) ==> |t| >= 3 && FrameLength(t) <= |t| && IsFrame(t[..FrameLength(t)])
  {
    var k := FindSync(a);
    gap, t := a[..k], a[k..];
  }

  lemma {:induction false} ExtractResumes(a: seq<byte>, b: seq<byte>)
    ensures Resumes(a, b)
    decreases |a|
  {
    var gap, t := FirstFrame(a);
    if Waiting(t) {
      ResumesWaiting(t, b);
    } else {
      var n := FrameLength(t);
      ExtractResumes(t[n..], b);
      ResumesAfterFrame(t[..n], t[n..], b);
      assert t == t[..n] + t[n..];
    }
    ResumesAfterNoise(gap, t, b);
  }

  function Join(chunks: seq<seq<byte>>): seq<byte>
  {
    if chunks == [] then [] else chunks[0] + Join(chunks[1..])
  }

  /** Extend the buffer and extract, chunk by chunk. */
  function FeedChunks(buf: seq<byte>, chunks: seq<seq<byte>>): (seq<seq<byte>>, seq<byte>)
    decreases |chunks|
  {
    if chunks == [] then ([], buf)
    else
      var (fs, rest) := Extract(buf + chunks[0]);
      var (more, last) := FeedChunks(rest, chunks[1..]);
      (fs + more, last)
  }

  /** Main result: how a stream is cut into chunks never matters. */
  lemma {:induction false} ChunkIndependence(buf: seq<byte>, chunks: seq<seq<byte>>)
    requires Waiting(buf)
    ensures FeedChunks(buf, chunks) == Extract(buf + Join(chunks))
    decreases |chunks|
  {
    if chunks == [] {
      assert buf + [] == buf;
      WaitingStays(buf);
    } else {
      var c, tail := chunks[0], chunks[1..];
      var (fs, rest) := Extract(buf + c);
      LeavesWaiting(buf + c);
      ChunkIndependence(rest, tail);
      ExtractResumes(buf + c, Join(tail));
      Assoc(buf, c, Join(tail));
    }
  }

  lemma WaitingStays(buf: seq<byte>)
    requires Waiting(buf)
    ensures Extract(buf) == ([], buf)
  {
    assert FindSync(buf) == 0 && buf[0..] == buf;
  }

  /** Bounded memory: whatever came in, what stays is a frame start of at most 1028 bytes, or nothing. */
  lemma {:induction false} LeavesWaiting(b: seq<byte>)
    ensures Waiting(Extract(b).1) && |Extract(b).1| <= 1028
    decreases |b|
  {
    var t := b[FindSync(b)..];
    if !Waiting(t) { LeavesWaiting(t[FrameLength(t)..]); }
  }

  // --------------------------------------------------------- conservation, unique parse

  /** gap, frame, gap, frame, ..., last gap, leftover */
  datatype Parse = Parse(gaps: seq<seq<byte>>, frames: seq<seq<byte>>, lastGap: seq<byte>, rest: seq<byte>) {
    predicate WellFormed()
    {
      && |gaps| == |frames|
      && (forall g <- gaps :: IsGap(g)) && (forall f <- frames :: IsFrame(f))
      && IsGap(lastGap) && Waiting(rest)
    }

    function Text(): seq<byte>
      requires |gaps| == |frames|
      decreases |gaps|
    {
      if gaps == [] then lastGap + rest
      else gaps[0] + (frames[0] + Parse(gaps[1..], frames[1..], lastGap, rest).Text())
    }
  }

  lemma TextCons(gap: seq<byte>, f: seq<byte>, q: Parse)
    requires q.WellFormed() && IsGap(gap) && IsFrame(f)
    ensures var p := Parse([gap] + q.gaps, [f] + q.frames, q.lastGap, q.rest);
            p.WellFormed() && p.Text() == gap + (f + q.Text())
  {
    var p := Parse([gap] + q.gaps, [f] + q.frames, q.lastGap, q.rest);
    assert p.gaps[1..] == q.gaps && p.frames[1..] == q.frames;
    assert Parse(p.gaps[1..], p.frames[1..], p.lastGap, p.rest) == q;
  }

  lemma ExtractCons(gap: seq<byte>, f: seq<byte>, more: seq<byte>)
    requires IsGap(gap) && IsFrame(f)
    ensures Extract(gap + (f + more)) == ([f] + Extract(more).0, Extract(more).1)
  {
    ExtractFrame(f, more);
    ExtractAfterNoise(gap, f + more);
  }

  lemma {:induction false} OnlyFrames(b: seq<byte>)
    ensures forall f <- Extract(b).0 :: IsFrame(f)
    decreases |b|
  {
    var gap, t := FirstFrame(b);
    if !Waiting(t) {
      var n := FrameLength(t);
      OnlyFrames(t[n..]);
      assert t == t[..n] + t[n..];
      ExtractFrame(t[..n], t[n..]);
    }
    ExtractAfterNoise(gap, t);
    if Waiting(t) { WaitingStays(t); }
  }

  /** A frame spelled out: any payload of up to 1023 bytes, any six reserved bits, any CRC. */
  function Frame(payload: seq<byte>, reserved: nat, crc: seq<byte>): seq<byte>
    requires |payload| < 1024 && reserved < 64 && |crc| == 3
  {
    [0xD3, 4 * reserved + |payload| / 256, |payload| % 256] + payload + crc
  }

  /** Main result: every frame is extracted from where it stands, whatever its payload and whatever follows. */
  lemma EveryFrameIsExtracted(payload: seq<byte>, reserved: nat, crc: seq<byte>, more: seq<byte>)
    requires |payload| < 1024 && reserved < 64 && |crc| == 3
    ensures var f := Frame(payload, reserved, crc);
            Extract(f + more) == ([f] + Extract(more).0, Extract(more).1)
  {
    ExtractFrame(Frame(payload, reserved, crc), more);
  }

  /** And nothing else is: each frame extracted is spelled so. */
  lemma ExtractedIsFrame(b: seq<byte>, f: seq<byte>) returns (payload: seq<byte>, reserved: nat, crc: seq<byte>)
    requires f in Extract(b).0
    ensures |payload| < 1024 && reserved < 64 && |crc| == 3 && f == Frame(payload, reserved, crc)
  {
    OnlyFrames(b);
    payload, reserved, crc := SpellFrame(f);
  }

  lemma SpellFrame(f: seq<byte>) returns (payload: seq<byte>, reserved: nat, crc: seq<byte>)
    requires IsFrame(f)
    ensures |payload| < 1024 && reserved < 64 && |crc| == 3 && f == Frame(payload, reserved, crc)
  {
    var n := |f| - 6;
    LengthBytes(f[1] as int, f[2] as int, n);
    payload, reserved, crc := f[3..3 + n], f[1] as int / 4, f[3 + n..];
    assert |payload| == n && f == [f[0], f[1], f[2]] + payload + crc;
  }

  lemma LengthBytes(high: int, low: int, n: int)
    requires 0 <= high < 256 && 0 <= low < 256 && n == high % 4 * 256 + low
    ensures 0 <= n < 1024 && 0 <= high / 4 < 64 && 4 * (high / 4) + n / 256 == high && n % 256 == low
  {
  }

  /** Every input is such a text, of the very frames and leftover the extractor returns. */
  lemma {:induction false} EveryInputParses(b: seq<byte>) returns (p: Parse)
    ensures p.WellFormed() && p.Text() == b
    ensures Extract(b) == (p.frames, p.rest)
    decreases |b|
  {
    var gap, t := FirstFrame(b);
    if Waiting(t) {
      p := Parse([], [], gap, t);
      ExtractAfterNoise(gap, t);
      WaitingStays(t);
    } else {
      var n := FrameLength(t);
      var f, more := t[..n], t[n..];
      assert t == f + more;
      var q := EveryInputParses(more);
      TextCons(gap, f, q);
      ExtractCons(gap, f, more);
      p := Parse([gap] + q.gaps, [f] + q.frames, q.lastGap, q.rest);
    }
  }

  lemma TextTail(p: Parse) returns (q: Parse)
    requires p.WellFormed() && p.gaps != []
    ensures q.WellFormed() && |q.gaps| < |p.gaps| && q.rest == p.rest
    ensures IsGap(p.gaps[0]) && IsFrame(p.frames[0]) && p.frames == [p.frames[0]] + q.frames
    ensures p.Text() == p.gaps[0] + (p.frames[0] + q.Text())
  {
    assert p.gaps[0] in p.gaps && p.frames[0] in p.frames;
    q := Parse(p.gaps[1..], p.frames[1..], p.lastGap, p.rest);
  }

  /** Conversely, any such text is cut into exactly its frames and leftover. */
  lemma {:induction false} EveryTextIsCut(p: Parse)
    requires p.WellFormed()
    ensures Extract(p.Text()) == (p.frames, p.rest)
    decreases |p.gaps|
  {
    if p.gaps == [] {
      ExtractAfterNoise(p.lastGap, p.rest);
      WaitingStays(p.rest);
    } else {
      var q := TextTail(p);
      EveryTextIsCut(q);
      ExtractCons(p.gaps[0], p.frames[0], q.Text());
    }
  }

  /** Main result: the extractor's answer is the only reading of its input. */
  lemma UniqueParse(b: seq<byte>, frames: seq<seq<byte>>, rest: seq<byte>)
    ensures Extract(b) == (frames, rest) <==>
            exists p: Parse :: p.WellFormed() && p.Text() == b && p.frames == frames && p.rest == rest
  {
    var p := EveryInputParses(b);
    forall q: Parse | q.WellFormed() && q.Text() == b
      ensures Extract(b) == (q.frames, q.rest)
    {
      EveryTextIsCut(q);
    }
  }
}
