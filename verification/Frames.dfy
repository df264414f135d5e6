/** Frames on the stream, and the request id at the front of each, sftp/mod.rs:22-53, 70-104. */
module Frames {
  import opened Common
  import opened Wire

  const MAX_FRAME: nat := 64 * 1024 * 1024

  datatype Frame = Frame(kind: byte, payload: seq<byte>)

  function OfFrame(f: Frame): seq<byte>
    requires |f.payload| + 1 < U32_SPAN
  {
    Be4(|f.payload| + 1) + ([f.kind] + f.payload)
  }

  datatype FrameError = Ended | BadLength(len: nat)

  datatype Framed = Framed(frame: Frame, i: nat)

  function GetFrame(b: seq<byte>, i: nat): (r: Result<Framed, FrameError>)
    requires i <= |b|
    ensures r.Ok? ==> i < r.value.i <= |b|
  {
    if i + 5 > |b| then Err(Ended)
    else
      var len := FromBe4(b[i..i + 4]);
      if len == 0 || len > MAX_FRAME then Err(BadLength(len))
      else if i + 4 + len > |b| then Err(Ended)
      else Ok(Framed(Frame(b[i + 4], b[i + 5..i + 4 + len]), i + 4 + len))
  }

  /** Every frame up to the first that cannot be read. */
  function GetFrames(b: seq<byte>, i: nat): seq<Frame>
    requires i <= |b|
    decreases |b| - i
  {
    var first := GetFrame(b, i);
    if first.Err? then [] else [first.value.frame] + GetFrames(b, first.value.i)
  }

  function OfFrames(frames: seq<Frame>): seq<byte>
    requires forall i :: 0 <= i < |frames| ==> |frames[i].payload| + 1 < U32_SPAN
  {
    if frames == [] then [] else OfFrame(frames[0]) + OfFrames(frames[1..])
  }

  /** A frame that may be written reads back exactly when its payload is shorter than 64 MiB. */
  lemma FrameAt(b: seq<byte>, i: nat, f: Frame)
    requires |f.payload| + 1 < U32_SPAN && At(b, i, OfFrame(f))
    ensures GetFrame(b, i) ==
      if |f.payload| < MAX_FRAME then Ok(Framed(f, i + |OfFrame(f)|)) else Err(BadLength(|f.payload| + 1))
  {
    var len := |f.payload| + 1;
    AtJoined(b, i, Be4(len), [f.kind] + f.payload);
    AtJoined(b, i + 4, [f.kind], f.payload);
    U32At(b, i, len);
    assert b[i + 4..i + 5] == [f.kind];
  }

  lemma FramesNext(b: seq<byte>, i: nat, f: Frame, j: nat, rest: seq<Frame>, after: seq<Frame>)
    requires i <= |b| && GetFrame(b, i) == Ok(Framed(f, j)) && GetFrames(b, j) == rest + after
    ensures GetFrames(b, i) == [f] + rest + after
  {
  }

  lemma SplitFirst(b: seq<byte>, i: nat, frames: seq<Frame>) returns (j: nat)
    requires forall k :: 0 <= k < |frames| ==> |frames[k].payload| < MAX_FRAME
    requires frames != [] && At(b, i, OfFrames(frames))
    ensures j <= |b| && GetFrame(b, i) == Ok(Framed(frames[0], j))
    ensures At(b, j, OfFrames(frames[1..])) && j + |OfFrames(frames[1..])| == i + |OfFrames(frames)|
  {
    AtJoined(b, i, OfFrame(frames[0]), OfFrames(frames[1..]));
    FrameAt(b, i, frames[0]);
    j := i + |OfFrame(frames[0])|;
  }

  lemma {:induction false} FramesAt(b: seq<byte>, i: nat, frames: seq<Frame>)
    requires forall k :: 0 <= k < |frames| ==> |frames[k].payload| < MAX_FRAME
    requires At(b, i, OfFrames(frames))
    ensures GetFrames(b, i) == frames + GetFrames(b, i + |OfFrames(frames)|)
    decreases |frames|
  {
    hide OfFrame, GetFrame, At;
    if frames != [] {
      var j := SplitFirst(b, i, frames);
      FramesAt(b, j, frames[1..]);
      FramesNext(b, i, frames[0], j, frames[1..], GetFrames(b, i + |OfFrames(frames)|));
      assert frames == [frames[0]] + frames[1..];
    }
  }

  /** What was written comes back, frame for frame, and nothing else does. */
  lemma FramesRoundTrip(frames: seq<Frame>)
    requires forall k :: 0 <= k < |frames| ==> |frames[k].payload| < MAX_FRAME
    ensures GetFrames(OfFrames(frames), 0) == frames
  {
    var b := OfFrames(frames);
    assert b[0..|b|] == b;
    FramesAt(b, 0, frames);
    assert GetFrames(b, |b|) == [];
  }

  /** The writing end of a stream. */
  class Sink {
    var bytes: seq<byte>

    constructor ()
      ensures bytes == []
    {
      bytes := [];
    }

    method WriteFrame(kind: byte, payload: seq<byte>) returns (ok: bool)
      modifies this
      ensures ok <==> |payload| + 1 < U32_SPAN
      ensures bytes == if ok then old(bytes) + OfFrame(Frame(kind, payload)) else old(bytes)
    {
      var len := |payload| + 1;
      if len >= U32_SPAN {
        return false;
      }
      bytes := bytes + Be4(len);
      bytes := bytes + [kind];
      bytes := bytes + payload;
      assert old(bytes) + Be4(len) + [kind] + payload == old(bytes) + (Be4(len) + ([kind] + payload));
      ok := true;
    }
  }

  /** The reading end. */
  class Source {
    const b: seq<byte>
    var i: nat

    ghost predicate Valid()
      reads this
    {
      i <= |b|
    }

    constructor (b: seq<byte>)
      ensures Valid() && this.b == b && i == 0
    {
      this.b, i := b, 0;
    }

    /** `read_frame`; what it leaves behind when it fails is never read. */
    method ReadFrame() returns (frame: Result<Frame, FrameError>)
      requires Valid()
      modifies this
      ensures Valid() && old(i) <= i
      ensures match GetFrame(b, old(i))
        case Ok(got) => frame == Ok(got.frame) && i == got.i
        case Err(e) => frame == Err(e)
    {
      if |b| - i < 5 {
        i := |b|;
        return Err(Ended);
      }
      var head := b[i..i + 5];
      i := i + 5;
      assert head[..4] == b[old(i)..old(i) + 4];
      var len := FromBe4(head[..4]);
      if len == 0 || len > MAX_FRAME {
        return Err(BadLength(len));
      }
      if |b| - i < len - 1 {
        i := |b|;
        return Err(Ended);
      }
      var body := b[i..i + (len - 1)];
      i := i + (len - 1);
      frame := Ok(Frame(head[4], body));
    }

    /** The reader's loop: until a frame cannot be read. */
    method ReadAll() returns (frames: seq<Frame>)
      requires Valid()
      modifies this
      ensures Valid() && frames == GetFrames(b, old(i))
    {
      hide GetFrame;
      frames := [];
      while true
        invariant Valid() && frames + GetFrames(b, i) == GetFrames(b, old(i))
        decreases |b| - i
      {
        var next := ReadFrame();
        if next.Err? {
          return;
        }
        frames := frames + [next.value];
      }
    }
  }

  /** Frames through the writing end and back through the reading end. */
  method FramesThereAndBack(frames: seq<Frame>) returns (got: seq<Frame>)
    requires forall k :: 0 <= k < |frames| ==> |frames[k].payload| < MAX_FRAME
    ensures got == frames
  {
    hide OfFrame, GetFrames;
    var sink := new Sink();
    assert frames[0..] == frames;
    for k := 0 to |frames|
      invariant sink.bytes + OfFrames(frames[k..]) == OfFrames(frames)
    {
      assert frames[k..][0] == frames[k] && frames[k..][1..] == frames[k + 1..];
      var ok := sink.WriteFrame(frames[k].kind, frames[k].payload);
    }
    assert frames[|frames|..] == [] && sink.bytes + [] == sink.bytes;
    FramesRoundTrip(frames);
    var source := new Source(sink.bytes);
    got := source.ReadAll();
  }

  // ---- Ids ----

  datatype Reply = Reply(id: u32, kind: byte, body: seq<byte>)

  /** `Rx::recv`, given the frame: the id is the first four bytes of its body. */
  function Received(f: Frame): Option<Reply>
  {
    if |f.payload| < 4 then None
    else Some(Reply(FromBe4(f.payload[..4]), f.kind, f.payload[4..]))
  }

  /** The id a request goes out under is the id its reply is read under. */
  lemma IdReadsBack(id: u32, kind: byte, body: seq<byte>)
    ensures Received(Frame(kind, Be4(id) + body)) == Some(Reply(id, kind, body))
  {
    Be4Back(id);
    assert (Be4(id) + body)[..4] == Be4(id) && (Be4(id) + body)[4..] == body;
  }
}
