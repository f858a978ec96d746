/**
 Conversion between mu-law payloads at 8 kHz and little-endian PCM16 at 24 kHz, and the stateful 3:1
 downsampler that accepts a PCM stream in arbitrary even chunks.
 */
module Media {
  import opened Wrappers
  import opened Mulaw
  import Base64

  const MAX_TWILIO_AUDIO_BYTES := 8_000

  datatype MediaError = InvalidBase64 | PayloadSize | IncompleteGroups | IncompleteSamples | FrameLimit

  // ---------- PCM16 packing ----------

  function UnpackSample(low: Byte, high: Byte): (sample: int)
    ensures -32768 <= sample < 32768
  {
    var unsigned := low + 256 * high;
    if unsigned >= 32768 then unsigned - 65536 else unsigned
  }

  function PackSample(sample: int): (b: seq<Byte>)
    requires -32768 <= sample < 32768
    ensures |b| == 2 && UnpackSample(b[0], b[1]) == sample
  {
    var unsigned := if sample < 0 then sample + 65536 else sample;
    [unsigned % 256, unsigned / 256]
  }

  /** The low byte comes first, and the two bytes are the sample in two's complement. */
  lemma PackIsLittleEndian(sample: int)
    requires -32768 <= sample < 32768
    ensures PackSample(sample)[0] == sample % 256
    ensures PackSample(sample)[1] == (sample / 256) % 256
  {}

  lemma UnpackIsLittleEndian(low: Byte, high: Byte)
    ensures UnpackSample(low, high) % 256 == low && (UnpackSample(low, high) / 256) % 256 == high
  {}

  function Unpack(audio: seq<Byte>): (samples: seq<int>)
    requires |audio| % 2 == 0
    ensures |samples| == |audio| / 2
  {
    seq(|audio| / 2, i requires 0 <= i < |audio| / 2 => UnpackSample(audio[2 * i], audio[2 * i + 1]))
  }

  lemma UnpackConcat(a: seq<Byte>, b: seq<Byte>)
    requires |a| % 2 == 0 && |b| % 2 == 0
    ensures Unpack(a + b) == Unpack(a) + Unpack(b)
  {}

  // ---------- Payload to PCM ----------

  function DecodedFrame(value: Byte): (b: seq<Byte>)
    ensures |b| == 6
  {
    seq(6, i requires 0 <= i < 6 => PackSample(DecodeSample(value))[i % 2])
  }

  function Upsample(mulaw: seq<Byte>): (pcm: seq<Byte>)
    ensures |pcm| == 6 * |mulaw| && |pcm| % 2 == 0
  {
    if mulaw == [] then [] else DecodedFrame(mulaw[0]) + Upsample(mulaw[1..])
  }

  function TwilioPayloadToPcm24(payload: string): Result<seq<Byte>, MediaError> {
    match Base64.Decode(payload)
    case None => Err(InvalidBase64)
    case Some(mulaw) =>
      if mulaw == [] || |mulaw| > MAX_TWILIO_AUDIO_BYTES then Err(PayloadSize) else Ok(Upsample(mulaw))
  }

  // ---------- Taking every third sample ----------

  /** Every third element, after `skip` elements have been passed over. */
  function EveryThird<T>(xs: seq<T>, skip: nat): seq<T> {
    if xs == [] then []
    else if skip == 0 then [xs[0]] + EveryThird(xs[1..], 2)
    else EveryThird(xs[1..], skip - 1)
  }

  /** How many elements are to be passed over after `n` more have been seen. */
  function SkipAfter(skip: nat, n: nat): (next: nat)
    ensures skip < 3 ==> next < 3
    decreases n
  {
    if n == 0 then skip else SkipAfter(if skip == 0 then 2 else skip - 1, n - 1)
  }

  lemma {:induction false} EveryThirdConcat<T>(a: seq<T>, b: seq<T>, skip: nat)
    ensures EveryThird(a + b, skip) == EveryThird(a, skip) + EveryThird(b, SkipAfter(skip, |a|))
  {
    if a == [] {
      assert a + b == b;
    } else {
      assert (a + b)[1..] == a[1..] + b;
      EveryThirdConcat(a[1..], b, if skip == 0 then 2 else skip - 1);
    }
  }

  /** What `EveryThird` keeps, by index. */
  lemma {:induction false} EveryThirdAt<T>(xs: seq<T>, skip: nat)
    requires skip < 3
    ensures |EveryThird(xs, skip)| == (|xs| + 2 - skip) / 3
    ensures forall k :: 0 <= k < |EveryThird(xs, skip)| ==> EveryThird(xs, skip)[k] == xs[skip + 3 * k]
  {
    if xs != [] {
      var kept := EveryThird(xs, skip);
      if skip == 0 {
        EveryThirdAt(xs[1..], 2);
        forall k | 0 <= k < |kept|
          ensures kept[k] == xs[3 * k]
        {
          if k > 0 {
            assert kept[k] == EveryThird(xs[1..], 2)[k - 1];
          }
        }
      } else {
        EveryThirdAt(xs[1..], skip - 1);
      }
    }
  }

  // ---------- PCM to payload ----------

  function EncodeAll(samples: seq<int>): (mulaw: seq<Byte>)
    ensures |mulaw| == |samples|
  {
    seq(|samples|, i requires 0 <= i < |samples| => EncodeSample(samples[i]))
  }

  lemma EncodeAllConcat(a: seq<int>, b: seq<int>)
    ensures EncodeAll(a + b) == EncodeAll(a) + EncodeAll(b)
  {}

  /** The samples at indices 0, 3, 6, ... */
  function Subsample(samples: seq<int>): (kept: seq<int>)
    ensures |kept| == (|samples| + 2) / 3
  {
    seq((|samples| + 2) / 3, k requires 0 <= k < (|samples| + 2) / 3 => samples[3 * k])
  }

  function Pcm24ToTwilioPayload(audio: seq<Byte>): Result<string, MediaError> {
    if audio == [] || |audio| % 6 != 0 then Err(IncompleteGroups)
    else
      var mulaw := EncodeAll(Subsample(Unpack(audio)));
      if |mulaw| > MAX_TWILIO_AUDIO_BYTES then Err(FrameLimit) else Ok(Base64.Encode(mulaw))
  }

  function NormaliseAll(mulaw: seq<Byte>): (n: seq<Byte>)
    ensures |n| == |mulaw|
  {
    seq(|mulaw|, i requires 0 <= i < |mulaw| => Normalised(mulaw[i]))
  }

  function DecodeAll(mulaw: seq<Byte>): (samples: seq<int>)
    ensures |samples| == |mulaw|
  {
    seq(|mulaw|, i requires 0 <= i < |mulaw| => DecodeSample(mulaw[i]))
  }

  lemma UnpackFrame(value: Byte)
    ensures Unpack(DecodedFrame(value)) == [DecodeSample(value), DecodeSample(value), DecodeSample(value)]
  {
    var pcm := PackSample(DecodeSample(value));
    var frame := DecodedFrame(value);
    assert frame[0] == frame[2] == frame[4] == pcm[0];
    assert frame[1] == frame[3] == frame[5] == pcm[1];
  }

  /** Each group of three samples carries one decoded code word three times. */
  lemma {:induction false} SubsampleUpsample(mulaw: seq<Byte>)
    ensures Subsample(Unpack(Upsample(mulaw))) == DecodeAll(mulaw)
  {
    if mulaw != [] {
      var rest := Upsample(mulaw[1..]);
      UnpackConcat(DecodedFrame(mulaw[0]), rest);
      UnpackFrame(mulaw[0]);
      SubsampleUpsample(mulaw[1..]);
      SubsampleGroup(DecodeSample(mulaw[0]), Unpack(rest));
      assert DecodeAll(mulaw) == [DecodeSample(mulaw[0])] + DecodeAll(mulaw[1..]);
    }
  }

  lemma SubsampleGroup(x: int, rest: seq<int>)
    ensures Subsample([x, x, x] + rest) == [x] + Subsample(rest)
  {}

  lemma EncodeDecodeAll(mulaw: seq<Byte>)
    ensures EncodeAll(DecodeAll(mulaw)) == NormaliseAll(mulaw)
  {
    forall i | 0 <= i < |mulaw|
      ensures EncodeAll(DecodeAll(mulaw))[i] == NormaliseAll(mulaw)[i]
    {
      CodeWordRoundTrip(mulaw[i]);
    }
  }

  lemma NormalisedIsSame(mulaw: seq<Byte>)
    ensures NormaliseAll(mulaw) == mulaw <==> 0x7F !in mulaw
  {}

  lemma SentWords(audio: seq<Byte>, mulaw: seq<Byte>)
    requires audio != [] && |audio| % 6 == 0 && |mulaw| <= MAX_TWILIO_AUDIO_BYTES
    requires EncodeAll(Subsample(Unpack(audio))) == mulaw
    ensures Pcm24ToTwilioPayload(audio) == Ok(Base64.Encode(mulaw))
  {}

  lemma WordsRoundTrip(mulaw: seq<Byte>)
    ensures EncodeAll(Subsample(Unpack(Upsample(mulaw)))) == NormaliseAll(mulaw)
  {
    SubsampleUpsample(mulaw);
    EncodeDecodeAll(mulaw);
  }

  lemma SameText(mulaw: seq<Byte>, payload: string)
    requires Base64.Decode(payload) == Some(mulaw)
    ensures Base64.Encode(NormaliseAll(mulaw)) == payload <==> Base64.Canonical(payload) && 0x7F !in mulaw
  {
    NormalisedIsSame(mulaw);
    Base64.EncodingOf(NormaliseAll(mulaw), payload);
  }

  /** The one-shot conversions undo each other on every accepted payload, up to negative zero and the
      unused bits of a non-canonical final quantum. */
  lemma PayloadRoundTrip(payload: string, mulaw: seq<Byte>, pcm: seq<Byte>)
    requires Base64.Decode(payload) == Some(mulaw)
    requires TwilioPayloadToPcm24(payload) == Ok(pcm)
    ensures |pcm| == 6 * |mulaw|
    ensures Pcm24ToTwilioPayload(pcm) == Ok(Base64.Encode(NormaliseAll(mulaw)))
    ensures Pcm24ToTwilioPayload(pcm) == Ok(payload) <==> Base64.Canonical(payload) && 0x7F !in mulaw
  {
    WordsRoundTrip(mulaw);
    SentWords(pcm, NormaliseAll(mulaw));
    SameText(mulaw, payload);
  }

  /** Which payloads are accepted: those of 1 to 8,000 octets of base64. */
  lemma PayloadsAccepted(payload: string)
    ensures TwilioPayloadToPcm24(payload) == Err(InvalidBase64) <==> Base64.Decode(payload) == None
    ensures TwilioPayloadToPcm24(payload) == Err(PayloadSize) <==>
            Base64.Decode(payload).Some? && !(1 <= |Base64.Decode(payload).value| <= 8_000)
    ensures TwilioPayloadToPcm24(payload).Ok? <==>
            Base64.Decode(payload).Some? && 1 <= |Base64.Decode(payload).value| <= 8_000
  {}

  /** Which audio is sent in one frame: whole groups of three samples, at most 8,000 of them. */
  lemma AudioAccepted(audio: seq<Byte>)
    ensures Pcm24ToTwilioPayload(audio) == Err(IncompleteGroups) <==> audio == [] || |audio| % 6 != 0
    ensures Pcm24ToTwilioPayload(audio) == Err(FrameLimit) <==> |audio| % 6 == 0 && |audio| / 6 > 8_000
    ensures Pcm24ToTwilioPayload(audio).Ok? <==> |audio| % 6 == 0 && 1 <= |audio| / 6 <= 8_000
  {}

  // ---------- The stateful downsampler ----------

  /** The code words that `audio` adds to a stream whose next kept sample is `skip` samples ahead. */
  function Downsampled(audio: seq<Byte>, skip: nat): seq<Byte>
    requires |audio| % 2 == 0
  {
    EncodeAll(EveryThird(Unpack(audio), skip))
  }

  function FrameOf(encoded: seq<Byte>): Result<Option<string>, MediaError> {
    if encoded == [] then Ok(None)
    else if |encoded| > MAX_TWILIO_AUDIO_BYTES then Err(FrameLimit)
    else Ok(Some(Base64.Encode(encoded)))
  }

  predicate WholeSamples(audio: seq<Byte>) {
    audio != [] && |audio| % 2 == 0
  }

  /** One converter call: what it returns and how many samples are then passed over. The count moves on even
      when the frame is refused for its size. */
  function ConvertFrom(audio: seq<Byte>, skip: nat): (Result<Option<string>, MediaError>, nat) {
    if !WholeSamples(audio) then (Err(IncompleteSamples), skip)
    else (FrameOf(Downsampled(audio, skip)), SkipAfter(skip, |Unpack(audio)|))
  }

  /** What one call of the converter returns, by how many samples it was given and how many it passes over first. */
  lemma ConvertedExactly(audio: seq<Byte>, skip: nat, frame: Result<Option<string>, MediaError>, next: nat)
    requires skip < 3 && (frame, next) == ConvertFrom(audio, skip)
    ensures frame == Err(IncompleteSamples) <==> audio == [] || |audio| % 2 != 0
    ensures audio != [] && |audio| % 2 == 0 ==>
      var kept := (|audio| / 2 + 2 - skip) / 3;
      && (frame == Ok(None) <==> kept == 0)
      && (frame == Err(FrameLimit) <==> kept > 8_000)
      && (1 <= kept <= 8_000 ==> frame == Ok(Some(Base64.Encode(EncodeAll(EveryThird(Unpack(audio), skip))))))
      && next < 3 && (skip + 3 * kept - next) == |audio| / 2
    ensures frame == Err(IncompleteSamples) ==> next == skip
  {
    if audio != [] && |audio| % 2 == 0 {
      EveryThirdAt(Unpack(audio), skip);
      SkipCounts(skip, |audio| / 2);
    }
  }

  lemma {:induction false} SkipCounts(skip: nat, n: nat)
    requires skip < 3
    ensures SkipAfter(skip, n) < 3 && skip + 3 * ((n + 2 - skip) / 3) - SkipAfter(skip, n) == n
    decreases n
  {
    if n > 0 {
      SkipCounts(if skip == 0 then 2 else skip - 1, n - 1);
    }
  }

  class Pcm24ToMulawConverter {
    var phase: nat

    ghost predicate Valid()
      reads this
    {
      phase < 3
    }

    /** Samples passed over before the next one is kept. */
    function Skip(): nat
      requires Valid()
      reads this
    {
      if phase == 0 then 0 else 3 - phase
    }

    constructor ()
      ensures Valid() && Skip() == 0
    {
      phase := 0;
    }

    method Convert(audio: seq<Byte>) returns (r: Result<Option<string>, MediaError>)
      requires Valid()
      modifies this
      ensures Valid()
      ensures (r, Skip()) == ConvertFrom(audio, old(Skip()))
    {
      if audio == [] || |audio| % 2 != 0 {
        return Err(IncompleteSamples);
      }
      var samples := Unpack(audio);
      var encoded: seq<Byte> := [];
      for i := 0 to |samples|
        invariant Valid() && Skip() == SkipAfter(old(Skip()), i)
        invariant encoded == EncodeAll(EveryThird(samples[..i], old(Skip())))
      {
        EncodeNext(samples, i, old(Skip()));
        if phase == 0 {
          encoded := encoded + [EncodeSample(samples[i])];
        }
        phase := (phase + 1) % 3;
      }
      assert samples[..|samples|] == samples;
      if encoded == [] {
        return Ok(None);
      }
      if |encoded| > MAX_TWILIO_AUDIO_BYTES {
        return Err(FrameLimit);
      }
      return Ok(Some(Base64.Encode(encoded)));
    }
  }

  lemma {:induction false} SkipAfterOneMore(skip: nat, n: nat)
    ensures SkipAfter(skip, n + 1) == SkipAfter(SkipAfter(skip, n), 1)
    decreases n
  {
    if n > 0 {
      SkipAfterOneMore(if skip == 0 then 2 else skip - 1, n - 1);
    }
  }

  lemma EncodeNext(samples: seq<int>, i: nat, skip: nat)
    requires i < |samples|
    ensures var s := SkipAfter(skip, i);
      && SkipAfter(skip, i + 1) == (if s == 0 then 2 else s - 1)
      && EncodeAll(EveryThird(samples[..i + 1], skip)) == EncodeAll(EveryThird(samples[..i], skip)) +
        (if s == 0 then [EncodeSample(samples[i])] else [])
  {
    var one := samples[i..i + 1];
    assert samples[..i + 1] == samples[..i] + one;
    EveryThirdConcat(samples[..i], one, skip);
    assert one[1..] == [];
    SkipAfterOneMore(skip, i);
    EncodeAllConcat(EveryThird(samples[..i], skip), EveryThird(one, SkipAfter(skip, i)));
  }

  // ---------- Whole streams ----------

  function Flatten(chunks: seq<seq<Byte>>): seq<Byte> {
    if chunks == [] then [] else chunks[0] + Flatten(chunks[1..])
  }

  /** The code words that reach the receiver from one call; None if the call raised. */
  function Received(result: Result<Option<string>, MediaError>): Option<seq<Byte>> {
    match result
    case Ok(None) => Some([])
    case Ok(Some(frame)) => Base64.Decode(frame)
    case Err(_) => None
  }

  /** The code words a receiver decodes from all frames of a chunked stream; None if some call raised. */
  function StreamOutput(chunks: seq<seq<Byte>>, skip: nat): Option<seq<Byte>> {
    if chunks == [] then Some([])
    else
      var (result, next) := ConvertFrom(chunks[0], skip);
      match (Received(result), StreamOutput(chunks[1..], next))
      case (Some(words), Some(rest)) => Some(words + rest)
      case _ => None
  }

  /** A non-empty run of whole samples that fits one outbound frame. */
  predicate AcceptableChunk(chunk: seq<Byte>, skip: nat)
    requires skip < 3
  {
    WholeSamples(chunk) && (|chunk| / 2 + 2 - skip) / 3 <= MAX_TWILIO_AUDIO_BYTES
  }

  predicate Acceptable(chunks: seq<seq<Byte>>, skip: nat)
    requires skip < 3
  {
    chunks == [] ||
    (&& AcceptableChunk(chunks[0], skip)
     && Acceptable(chunks[1..], SkipAfter(skip, |Unpack(chunks[0])|)))
  }

  /** A call succeeds exactly on acceptable chunks, and then delivers every third sample, encoded. */
  lemma ConvertFrame(chunk: seq<Byte>, skip: nat)
    requires skip < 3
    ensures Received(ConvertFrom(chunk, skip).0).Some? <==> AcceptableChunk(chunk, skip)
    ensures AcceptableChunk(chunk, skip) ==>
      Received(ConvertFrom(chunk, skip).0) == Some(Downsampled(chunk, skip))
  {
    if WholeSamples(chunk) {
      EveryThirdAt(Unpack(chunk), skip);
      Base64.DecodeEncode(Downsampled(chunk, skip));
    }
  }

  lemma DownsampledConcat(chunk: seq<Byte>, rest: seq<Byte>, skip: nat)
    requires |chunk| % 2 == 0 && |rest| % 2 == 0
    ensures Downsampled(chunk + rest, skip) ==
      Downsampled(chunk, skip) + Downsampled(rest, SkipAfter(skip, |Unpack(chunk)|))
  {
    UnpackConcat(chunk, rest);
    EveryThirdConcat(Unpack(chunk), Unpack(rest), skip);
    EncodeAllConcat(EveryThird(Unpack(chunk), skip), EveryThird(Unpack(rest), SkipAfter(skip, |Unpack(chunk)|)));
  }

  lemma StreamCons(chunks: seq<seq<Byte>>, skip: nat)
    requires skip < 3 && chunks != []
    ensures var words := Received(ConvertFrom(chunks[0], skip).0);
      var rest := StreamOutput(chunks[1..], ConvertFrom(chunks[0], skip).1);
      StreamOutput(chunks, skip) ==
        if words.Some? && rest.Some? then Some(words.value + rest.value) else None
  {}

  lemma {:induction false} FlattenEven(chunks: seq<seq<Byte>>, skip: nat)
    requires skip < 3 && Acceptable(chunks, skip)
    ensures |Flatten(chunks)| % 2 == 0
  {
    if chunks != [] {
      FlattenEven(chunks[1..], SkipAfter(skip, |Unpack(chunks[0])|));
    }
  }

  /** Only acceptable streams pass without an error. */
  lemma {:induction false} StreamAcceptable(chunks: seq<seq<Byte>>, skip: nat)
    requires skip < 3
    ensures StreamOutput(chunks, skip).Some? <==> Acceptable(chunks, skip)
  {
    if chunks != [] {
      StreamCons(chunks, skip);
      ConvertFrame(chunks[0], skip);
      if AcceptableChunk(chunks[0], skip) {
        StreamAcceptable(chunks[1..], SkipAfter(skip, |Unpack(chunks[0])|));
      }
    }
  }

  /** However an acceptable stream is cut, the receiver decodes the encoding of every third sample of the
      whole stream. */
  lemma {:induction false} StreamIsEveryThird(chunks: seq<seq<Byte>>, skip: nat)
    requires skip < 3 && Acceptable(chunks, skip)
    ensures |Flatten(chunks)| % 2 == 0
    ensures StreamOutput(chunks, skip) == Some(Downsampled(Flatten(chunks), skip))
  {
    FlattenEven(chunks, skip);
    if chunks != [] {
      var next := SkipAfter(skip, |Unpack(chunks[0])|);
      StreamCons(chunks, skip);
      ConvertFrame(chunks[0], skip);
      FlattenEven(chunks[1..], next);
      StreamIsEveryThird(chunks[1..], next);
      DownsampledConcat(chunks[0], Flatten(chunks[1..]), skip);
    }
  }

  /** Chunking invariance: two acceptable ways of cutting one stream are indistinguishable to the receiver. */
  lemma ChunkingInvariance(chunks: seq<seq<Byte>>, other: seq<seq<Byte>>, skip: nat)
    requires skip < 3 && Acceptable(chunks, skip) && Acceptable(other, skip)
    requires Flatten(chunks) == Flatten(other)
    ensures StreamOutput(chunks, skip) == StreamOutput(other, skip)
  {
    StreamIsEveryThird(chunks, skip);
    StreamIsEveryThird(other, skip);
  }

  /** A chunked stream of whole six-byte groups is received exactly as the one-shot conversion sends it. */
  lemma StreamIsOneShot(chunks: seq<seq<Byte>>)
    requires Acceptable(chunks, 0)
    requires Pcm24ToTwilioPayload(Flatten(chunks)).Ok?
    ensures StreamOutput(chunks, 0) == Base64.Decode(Pcm24ToTwilioPayload(Flatten(chunks)).value)
  {
    StreamIsEveryThird(chunks, 0);
    var samples := Unpack(Flatten(chunks));
    EveryThirdAt(samples, 0);
    assert Subsample(samples) == EveryThird(samples, 0);
    Base64.DecodeEncode(EncodeAll(Subsample(samples)));
  }
}
