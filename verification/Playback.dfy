/** The A2DP playback path: SBC bytes wait in a ring buffer and are decoded only as far as the audio
    request at hand needs; what one frame yields beyond the request waits for the next request. */
module Playback {
  import opened Widths
  import opened Sequences

  type Bytes = seq<uint8>

  /** A stereo sample pair. */
  type Frame = (int16, int16)

  const SILENCE: Frame := (0, 0)
  const MAX_SBC_FRAME_SIZE := 120
  const SBC_STORAGE := (80 + 30) * 120
  const RESAMPLE_OUTPUT_FRAMES := 128 + 16

  /** What decoder and resampler put out for the last of the SBC frames fed to them so far. */
  type Codec = seq<Bytes> -> seq<Frame>

  ghost predicate Bounded(codec: Codec) {
    forall fed :: |codec(fed)| <= RESAMPLE_OUTPUT_FRAMES
  }

  /** The audio made from the SBC frames after the first `from`. */
  ghost function Audio(codec: Codec, fed: seq<Bytes>, from: nat): seq<Frame>
  {
    if |fed| <= from then [] else Audio(codec, fed[..|fed| - 1], from) + codec(fed)
  }

  lemma FedOne(codec: Codec, fed: seq<Bytes>, from: nat, chunk: Bytes)
    requires from <= |fed|
    ensures Audio(codec, fed + [chunk], from) == Audio(codec, fed, from) + codec(fed + [chunk])
    ensures Flat((fed + [chunk])[from..]) == Flat(fed[from..]) + chunk
  {
    assert (fed + [chunk])[..|fed|] == fed && (fed + [chunk])[from..] == fed[from..] + [chunk];
    FlatAppend(fed[from..], chunk);
  }

  /** Every chunk has the size of an SBC frame. */
  ghost predicate OfSize(chunks: seq<Bytes>, n: nat) {
    forall i :: 0 <= i < |chunks| ==> |chunks[i]| == n
  }

  /** One more frame is cut from the front. */
  lemma TakeOne(fed0: seq<Bytes>, fed: seq<Bytes>, was: Bytes, sbc: Bytes, n: nat)
    requires fed0 <= fed && n <= |sbc| && OfSize(fed[|fed0|..], n) && Flat(fed[|fed0|..]) + sbc == was
    ensures var more := fed + [sbc[..n]];
            fed0 <= more && OfSize(more[|fed0|..], n) && Flat(more[|fed0|..]) + sbc[n..] == was
  {
    var chunks, frame := fed[|fed0|..], sbc[..n];
    assert (fed + [frame])[|fed0|..] == chunks + [frame];
    FlatAppend(chunks, frame);
    Assoc(Flat(chunks), frame, sbc[n..]);
    assert sbc == frame + sbc[n..];
  }

  lemma TakeNone(fed: seq<Bytes>, sbc: Bytes, n: nat)
    ensures OfSize(fed[|fed|..], n) && Flat(fed[|fed|..]) + sbc == sbc
  {
  }

  function Silent(n: nat): (s: seq<Frame>)
    ensures |s| == n
  {
    seq(n, _ => SILENCE)
  }

  /** What a request holds in the end: the audio played for it, and zeros. */
  lemma Answered(b: seq<Frame>, before: seq<Frame>, done: seq<Frame>, played: seq<Frame>, n: nat)
    requires |done| <= n <= |b| && b[..n] == done + Silent(n - |done|) && played == before + done
    ensures before <= played && |played| - |before| == |done| && b[..|done|] == played[|before|..]
    ensures forall j :: |done| <= j < n ==> b[j] == (0, 0)
  {
    var silent := Silent(n - |done|);
    forall j | |done| <= j < n ensures b[j] == (0, 0) {
      assert b[j] == b[..n][j] == silent[j - |done|];
    }
    assert b[..|done|] == b[..n][..|done|] == done;
  }

  lemma NoSilence(done: seq<Frame>)
    ensures done + Silent(0) == done
  {
  }

  class Sink {
    const codec: Codec
    /** The two ring buffers. */
    var sbc: Bytes
    var decoded: seq<Frame>
    var frameSize: nat
    var requestBuffer: array<Frame>
    var requestPos: nat
    var requestFrames: nat
    /** The state of decoder and resampler: the SBC frames decoded since the start. */
    var fed: seq<Bytes>
    /** How many of them before the last reset, and since that reset: the SBC bytes accepted and the audio
        handed to the audio driver. */
    ghost var mark: nat
    ghost var accepted: Bytes
    ghost var played: seq<Frame>

    constructor (codec: Codec)
      requires Bounded(codec)
      ensures Valid() && decoded == [] && sbc == [] && accepted == [] && played == []
    {
      this.codec := codec;
      sbc, decoded, frameSize := [], [], 0;
      requestBuffer, requestPos, requestFrames := new Frame[0], 0, 0;
      fed, mark, accepted, played := [], 0, [], [];
    }

    /** Nothing is lost, doubled or reordered between the SBC bytes accepted and the audio played. */
    ghost predicate Valid()
      reads this
    {
      && Bounded(codec) && mark <= |fed|
      && |decoded| <= RESAMPLE_OUTPUT_FRAMES && |sbc| <= SBC_STORAGE
      && accepted == Flat(fed[mark..]) + sbc
      && Audio(codec, fed, mark) == played + decoded
    }

    /** The request at hand: `done` of it is filled, with what was played since `before`. */
    ghost predicate Filling(buffer: array<Frame>, n: nat, before: seq<Frame>)
      reads this, buffer
    {
      && requestBuffer == buffer && requestPos + requestFrames == n <= buffer.Length
      && played == before + buffer[..requestPos]
    }

    /** The chunks are whole SBC frames cut from the front of what was queued. */
    ghost predicate Taken(chunks: seq<Bytes>, was: Bytes)
      reads this
    {
      OfSize(chunks, frameSize) && Flat(chunks) + sbc == was
    }

    /** A media packet of numFrames SBC frames; a packet that does not fit is dropped by the ring buffer. */
    method ReceivePacket(payload: Bytes, numFrames: uint8)
      requires Valid()
      modifies this`frameSize, this`sbc, this`accepted
      ensures Valid()
      ensures numFrames > 0 ==> frameSize == |payload| / numFrames
      ensures var fits := numFrames > 0 && |old(sbc)| + |payload| <= 13200;
              sbc == (if fits then old(sbc) + payload else old(sbc))
    {
      if numFrames == 0 { return; }
      frameSize := |payload| / numFrames;
      if |sbc| + |payload| <= SBC_STORAGE {
        Assoc(Flat(fed[mark..]), sbc, payload);
        sbc, accepted := sbc + payload, accepted + payload;
      }
    }

    /** a2dp_playback_handler: the request is filled to its length; silence comes only when the decoder has
        run dry, and after all audio there is. */
    method PlaybackHandler(buffer: array<Frame>, n: uint16)
      requires Valid() && 0 < frameSize <= 120 && n <= buffer.Length
      modifies this, buffer
      ensures Valid() && mark == old(mark) && accepted == old(accepted) && old(played) <= played
      ensures var audio := |played| - |old(played)|;
              && audio <= n && buffer[..audio] == played[|old(played)|..]
              && (forall j :: audio <= j < n ==> buffer[j] == (0, 0)) && buffer[n..] == old(buffer[n..])
              && (audio < n ==> decoded == [] && |sbc| < frameSize)
      ensures old(fed) <= fed && OfSize(fed[|old(fed)|..], frameSize) && frameSize == old(frameSize)
      ensures Flat(fed[|old(fed)|..]) + sbc == old(sbc)
    {
      hide Silent, Audio, Flat, Bounded, OfSize;
      ghost var before := played;
      StartRequest(buffer, n);
      TakeNone(fed, sbc, frameSize);
      while requestFrames > 0 && |sbc| >= frameSize
        invariant Valid() && Filling(buffer, n, before) && (requestFrames > 0 ==> decoded == [])
        invariant buffer[n..] == old(buffer[n..])
        invariant mark == old(mark) && accepted == old(accepted) && frameSize == old(frameSize)
        invariant old(fed) <= fed && Taken(fed[|old(fed)|..], old(sbc))
        decreases |sbc|
      {
        TakeOne(old(fed), fed, old(sbc), sbc, frameSize);
        DecodeFrame(before);
      }
      ghost var done := buffer[..requestPos];
      if requestFrames > 0 {
        CopyFrames(requestBuffer, requestPos, Silent(requestFrames));
      }
      NoSilence(done);
      Answered(buffer[..], before, done, played, n);
    }

    /** Serves the request from the ring buffer first. */
    method StartRequest(buffer: array<Frame>, n: nat)
      requires Valid() && n <= buffer.Length
      modifies this`played, this`decoded, this`requestBuffer, this`requestPos, this`requestFrames, buffer
      ensures Valid() && Filling(buffer, n, old(played)) && (requestFrames > 0 ==> decoded == [])
      ensures buffer[n..] == old(buffer[n..])
    {
      var framesRead := Min(|decoded|, n);
      var head, tail := decoded[..framesRead], decoded[framesRead..];
      assert decoded == head + tail;
      CopyFrames(buffer, 0, head);
      Assoc(played, head, tail);
      played, decoded := played + head, tail;
      requestBuffer, requestPos, requestFrames := buffer, framesRead, n - framesRead;
      assert buffer[..framesRead] == head;
    }

    /** Takes one SBC frame from the ring buffer and decodes it. */
    method DecodeFrame(ghost before: seq<Frame>)
      requires Valid() && 0 < frameSize <= |sbc| && requestFrames > 0 && decoded == []
      requires Filling(requestBuffer, requestPos + requestFrames, before)
      modifies this`sbc, this`fed, this`played, this`decoded, this`requestPos, this`requestFrames, requestBuffer
      ensures Valid() && Filling(requestBuffer, old(requestPos + requestFrames), before)
      ensures requestBuffer[old(requestPos + requestFrames)..] == old(requestBuffer[requestPos + requestFrames..])
      ensures fed == old(fed) + [old(sbc)[..frameSize]] && sbc == old(sbc)[frameSize..]
      ensures requestFrames > 0 ==> decoded == []
    {
      var sbcFrame := sbc[..frameSize];
      FedOne(codec, fed, mark, sbcFrame);
      Assoc(Flat(fed[mark..]), sbcFrame, sbc[frameSize..]);
      assert sbc == sbcFrame + sbc[frameSize..];
      sbc, fed := sbc[frameSize..], fed + [sbcFrame];
      HandlePcmData(codec(fed), before);
    }

    /** a2dp_handle_pcm_data, with the frames as they come out of the resampler: what the request does not
        need always fits the ring buffer, which is empty while decoding goes on. */
    method HandlePcmData(output: seq<Frame>, ghost before: seq<Frame>)
      requires |output| <= 144 && requestFrames > 0 && decoded == []
      requires Filling(requestBuffer, requestPos + requestFrames, before)
      modifies this`played, this`decoded, this`requestPos, this`requestFrames, requestBuffer
      ensures Filling(requestBuffer, old(requestPos + requestFrames), before)
      ensures requestBuffer[old(requestPos + requestFrames)..] == old(requestBuffer[requestPos + requestFrames..])
      ensures played + decoded == old(played) + output && |decoded| <= RESAMPLE_OUTPUT_FRAMES
      ensures requestFrames > 0 ==> decoded == []
    {
      var framesToCopy := Min(|output|, requestFrames);
      ghost var done := requestBuffer[..requestPos];
      CopyFrames(requestBuffer, requestPos, output[..framesToCopy]);
      requestFrames, requestPos := requestFrames - framesToCopy, requestPos + framesToCopy;
      Assoc(before, done, output[..framesToCopy]);
      Assoc(played, output[..framesToCopy], output[framesToCopy..]);
      assert output == output[..framesToCopy] + output[framesToCopy..];
      played := played + output[..framesToCopy];
      var framesToStore := |output| - framesToCopy;
      if framesToStore > 0 {
        assert |decoded| + framesToStore <= RESAMPLE_OUTPUT_FRAMES;
        decoded := decoded + output[framesToCopy..];
      }
    }

    /** a2dp_media_processing_pause: both ring buffers are emptied, and what they held is never played. */
    method Reset()
      requires Valid()
      modifies this`sbc, this`decoded, this`mark, this`accepted, this`played
      ensures Valid() && sbc == [] && decoded == [] && mark == |fed| && accepted == [] && played == []
    {
      decoded, sbc := [], [];
      mark, accepted, played := |fed|, [], [];
    }
  }

  /** memcpy into the audio buffer. */
  method CopyFrames(buffer: array<Frame>, at: nat, frames: seq<Frame>)
    requires at + |frames| <= buffer.Length
    modifies buffer
    ensures buffer[..at + |frames|] == old(buffer[..at]) + frames
    ensures forall m :: at + |frames| <= m <= buffer.Length ==> buffer[m..] == old(buffer[m..])
  {
    for i := 0 to |frames|
      invariant buffer[..at + i] == old(buffer[..at]) + frames[..i]
      invariant forall m :: at + i <= m <= buffer.Length ==> buffer[m..] == old(buffer[m..])
    {
      buffer[at + i] := frames[i];
    }
  }
}
