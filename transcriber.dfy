/**
 * `recognize_speech_vosk`: convert the fetched voice message to a waveform,
 * check the waveform's parameters, feed it to the speech engine in chunks,
 * collect the recognised utterances, remove the temporary files and return
 * the transcript or a marker string.
 *
 * The speech engine is a black box. It is described by an `Engine` value:
 * the reply it gives to the k-th chunk it is fed (an engine that replies
 * past the end of the script says "no boundary"), and its final reply. The
 * audio conversion is described by an `Audio` value: whether `oga2wav`
 * failed, whether the exported waveform could be opened, and otherwise the
 * waveform's header and frames.
 */
module Transcriber {
  import opened Common
  import opened Text
  import opened TempFiles

  const ErrorMark: string := "❌"
  const SilenceMark: string := "🔇"

  const ModelNotLoaded: string := "❌ Модель Vosk не загружена"
  const ConversionError: string := "❌ Ошибка конвертации аудио"
  const MustBeMono: string := "❌ Аудио должно быть моно"
  const UnsupportedWidth: string := "❌ Неподдерживаемая битность аудио"
  const UnsupportedRate: string := "❌ Неподдерживаемая частота дискретизации"
  const NoSpeech: string := "🔇 Речь не распознана или тишина"

  /** The text an exception inside the recognizer is turned into. */
  function RecognitionError(reason: string): string {
    "❌ Ошибка распознавания: " + reason
  }

  /** The sample rates the engine accepts. */
  const SupportedRates: set<int> := {8000, 16000, 22050, 44100, 48000}

  /** Frames asked for by each read of the waveform. */
  const ChunkFrames: nat := 4000

  /** A result the responder shows as it is: an error or the no-speech marker. */
  predicate Marked(text: string) {
    StartsWith(text, ErrorMark) || StartsWith(text, SilenceMark)
  }

  /** The loaded speech model; `None` when loading failed or no folder was found. */
  datatype ModelHandle = ModelHandle(dir: string)

  /** One frame of the waveform: `channels * sampwidth` bytes. */
  type Frame = seq<bv8>

  datatype WavHeader = WavHeader(channels: int, sampwidth: int, rate: int)

  /** What conversion and `wave.open` give. */
  datatype Audio =
    | ConversionFailed
    | OpenFailed(reason: string)
    | Opened(header: WavHeader, frames: seq<Frame>)

  /** The engine's answer to one chunk: no utterance boundary, a boundary whose
      result may carry a `text` field, or an exception. */
  datatype Reply = NoBoundary | Boundary(text: Option<string>) | Raised(reason: string)

  /** The engine's answer to `FinalResult()`. */
  datatype FinalReply = Final(text: Option<string>) | FinalRaised(reason: string)

  datatype Engine = Engine(replies: seq<Reply>, final: FinalReply)

  /** Which of its answers the recognizer gives. */
  datatype Verdict =
    | NoModel
    | NotConverted
    | NotMono
    | BadWidth
    | BadRate
    | Failed(reason: string)  // an exception caught by the function's own `except`: from `wave.open` or the engine
    | Silence
    | Heard(transcript: string)

  /** The string the recognizer returns for each answer. */
  function Render(v: Verdict): string {
    match v
    case NoModel => ModelNotLoaded
    case NotConverted => ConversionError
    case NotMono => MustBeMono
    case BadWidth => UnsupportedWidth
    case BadRate => UnsupportedRate
    case Failed(reason) => RecognitionError(reason)
    case Silence => NoSpeech
    case Heard(transcript) => transcript
  }

  /** What the recognizer returns, and the files left in the working directory. */
  datatype Outcome = Outcome(verdict: Verdict, files: set<string>)

  function ReplyAt(replies: seq<Reply>, k: nat): Reply {
    if k < |replies| then replies[k] else NoBoundary
  }

  // ----- Chunking of the waveform -----

  /** The successive results of `readframes(size)` until one comes back empty. */
  function Chunks<T>(xs: seq<T>, size: nat): seq<seq<T>>
    requires size > 0
    decreases |xs|
  {
    if xs == [] then []
    else
      var m := Min(size, |xs|);
      [xs[..m]] + Chunks(xs[m..], size)
  }

  function Flatten<T>(xss: seq<seq<T>>): seq<T>
    decreases |xss|
  {
    if xss == [] then [] else xss[0] + Flatten(xss[1..])
  }

  /** The reads cover the waveform exactly, in order. */
  lemma {:induction false} ChunksCover<T>(xs: seq<T>, size: nat)
    requires size > 0
    ensures Flatten(Chunks(xs, size)) == xs
    decreases |xs|
  {
    if xs != [] {
      var m := Min(size, |xs|);
      ChunksCover(xs[m..], size);
      var c := Chunks(xs, size);
      assert c[1..] == Chunks(xs[m..], size);
      assert xs == xs[..m] + xs[m..];
    }
  }

  /** Every read is non-empty and asks for no more than `size` frames, and only
      the last may be short. */
  lemma {:induction false} ChunksSized<T>(xs: seq<T>, size: nat)
    requires size > 0
    ensures forall i :: 0 <= i < |Chunks(xs, size)| ==> 0 < |Chunks(xs, size)[i]| <= size
    ensures forall i :: 0 <= i < |Chunks(xs, size)| - 1 ==> |Chunks(xs, size)[i]| == size
    decreases |xs|
  {
    if xs != [] {
      var m := Min(size, |xs|);
      ChunksSized(xs[m..], size);
      var c := Chunks(xs, size);
      var rest := Chunks(xs[m..], size);
      assert c == [xs[..m]] + rest;
      forall i | 0 < i < |c| ensures c[i] == rest[i - 1] {
      }
      assert |c| > 1 ==> xs[m..] != [];
    }
  }

  /** One more read, from frame `pos` on, yields the next chunk. */
  lemma ChunksFrom<T>(xs: seq<T>, pos: nat, size: nat)
    requires size > 0 && pos < |xs|
    ensures Chunks(xs[pos..], size)
      == [xs[pos..Min(pos + size, |xs|)]] + Chunks(xs[Min(pos + size, |xs|)..], size)
  {
    var rest := xs[pos..];
    assert rest[..Min(size, |rest|)] == xs[pos..Min(pos + size, |xs|)];
    assert rest[Min(size, |rest|)..] == xs[Min(pos + size, |xs|)..];
  }

  // ----- Accumulation of the utterances -----

  /** `result.get('text', '').strip()`, kept only when non-empty. */
  function KeptText(text: Option<string>): seq<string> {
    var s := Strip(text.GetOr(""));
    if s == [] then [] else [s]
  }

  /** The effect of one chunk's reply on the list of results. */
  function Step(results: seq<string>, reply: Reply): Result<seq<string>> {
    match reply
    case NoBoundary => Ok(results)
    case Boundary(text) => Ok(results + KeptText(text))
    case Raised(reason) => Err(reason)
  }

  /** The `results` list after the first `count` chunks. */
  function Collect(replies: seq<Reply>, count: nat): Result<seq<string>> {
    if count == 0 then Ok([])
    else
      match Collect(replies, count - 1)
      case Err(reason) => Err(reason)
      case Ok(results) => Step(results, ReplyAt(replies, count - 1))
  }

  /** The `results` list once the final reply is in. */
  function Results(engine: Engine, count: nat): Result<seq<string>> {
    match Collect(engine.replies, count)
    case Err(reason) => Err(reason)
    case Ok(results) =>
      match engine.final
      case FinalRaised(reason) => Err(reason)
      case Final(text) => Ok(results + KeptText(text))
  }

  /** The replies to the first `count` chunks. */
  function Window(replies: seq<Reply>, count: nat): (w: seq<Reply>)
    ensures |w| == count && forall i :: 0 <= i < count ==> w[i] == ReplyAt(replies, i)
  {
    seq(count, i requires 0 <= i < count => ReplyAt(replies, i))
  }

  predicate RaisesNothing(replies: seq<Reply>, count: nat) {
    forall i :: 0 <= i < count ==> !ReplyAt(replies, i).Raised?
  }

  /** Reference definition: the stripped, non-empty texts of the boundary replies,
      in chunk order. */
  function Utterances(rs: seq<Reply>): seq<string>
    decreases |rs|
  {
    if rs == [] then []
    else (if rs[0].Boundary? then KeptText(rs[0].text) else []) + Utterances(rs[1..])
  }

  /** The utterances of a single reply. */
  lemma UtterancesSingle(r: Reply)
    ensures Utterances([r]) == if r.Boundary? then KeptText(r.text) else []
  {
    assert [r][1..] == [];
  }

  predicate WellFormed(results: seq<string>) {
    forall i :: 0 <= i < |results| ==> results[i] != [] && Trimmed(results[i])
  }

  lemma {:induction false} UtterancesConcat(a: seq<Reply>, b: seq<Reply>)
    ensures Utterances(a + b) == Utterances(a) + Utterances(b)
    decreases |a|
  {
    if a != [] {
      assert (a + b)[1..] == a[1..] + b;
      UtterancesConcat(a[1..], b);
    } else {
      assert a + b == b;
    }
  }

  lemma UtterancesAppend(rs: seq<Reply>, r: Reply)
    ensures Utterances(rs + [r]) == Utterances(rs) + (if r.Boundary? then KeptText(r.text) else [])
  {
    UtterancesConcat(rs, [r]);
    assert [r][1..] == [];
  }

  /** A reply that contributes nothing: no exception and no non-empty text. */
  predicate Silent(r: Reply) {
    !r.Raised? && (r.Boundary? ==> KeptText(r.text) == [])
  }

  /** Replies that each contribute nothing yield no utterances. */
  lemma {:induction false} UtterancesOfSilence(rs: seq<Reply>)
    requires forall i :: 0 <= i < |rs| ==> Silent(rs[i])
    ensures Utterances(rs) == []
    decreases |rs|
  {
    if rs != [] {
      assert Silent(rs[0]);
      UtterancesOfSilence(rs[1..]);
    }
  }

  /** Chunks fed past the end of the script add nothing. */
  lemma WindowPastScript(replies: seq<Reply>, count: nat)
    requires |replies| <= count
    ensures Utterances(Window(replies, count)) == Utterances(replies)
  {
    var w := Window(replies, count);
    assert w == replies + w[|replies|..];
    UtterancesConcat(replies, w[|replies|..]);
    assert forall i :: 0 <= i < |w[|replies|..]| ==> w[|replies|..][i] == ReplyAt(replies, |replies| + i);
    UtterancesOfSilence(w[|replies|..]);
  }

  /** Every collected utterance is stripped and non-empty. */
  lemma {:induction false} UtterancesWellFormed(rs: seq<Reply>)
    ensures WellFormed(Utterances(rs))
    decreases |rs|
  {
    if rs != [] {
      UtterancesWellFormed(rs[1..]);
    }
  }

  /** The chunk loop runs to its end exactly when no reply raises. */
  lemma {:induction false} CollectOkIffRaisesNothing(replies: seq<Reply>, count: nat)
    ensures Collect(replies, count).Ok? <==> RaisesNothing(replies, count)
    decreases count
  {
    if count > 0 {
      CollectOkIffRaisesNothing(replies, count - 1);
      assert RaisesNothing(replies, count) ==> RaisesNothing(replies, count - 1);
      assert RaisesNothing(replies, count - 1) && !ReplyAt(replies, count - 1).Raised?
        ==> RaisesNothing(replies, count);
    }
  }

  /** The chunk loop collects exactly the utterances of the replies, in chunk
      order, when no reply raises. */
  lemma {:induction false} CollectIsUtterances(replies: seq<Reply>, count: nat)
    requires RaisesNothing(replies, count)
    ensures Collect(replies, count) == Ok(Utterances(Window(replies, count)))
    decreases count
  {
    if count > 0 {
      assert RaisesNothing(replies, count - 1);
      CollectIsUtterances(replies, count - 1);
      var r := ReplyAt(replies, count - 1);
      var before := Utterances(Window(replies, count - 1));
      assert Window(replies, count) == Window(replies, count - 1) + [r];
      UtterancesAppend(Window(replies, count - 1), r);
      if r.NoBoundary? {
        assert before + [] == before;
      }
    }
  }

  /** Once a reply raises, the recognizer ends with that exception. */
  lemma {:induction false} CollectErrPersists(replies: seq<Reply>, count: nat, more: nat)
    requires Collect(replies, count).Err? && count <= more
    ensures Collect(replies, more) == Collect(replies, count)
    decreases more - count
  {
    if count < more {
      CollectErrPersists(replies, count, more - 1);
    }
  }

  /** The exception reported is the one raised by the earliest raising chunk. */
  lemma CollectRaisesLeftmost(replies: seq<Reply>, count: nat, k: nat)
    requires k < count && ReplyAt(replies, k).Raised? && RaisesNothing(replies, k)
    ensures Collect(replies, count) == Err(ReplyAt(replies, k).reason)
  {
    CollectOkIffRaisesNothing(replies, k);
    CollectErrPersists(replies, k + 1, count);
  }

  /** The complete `results` list: the utterances in chunk order, then the final
      text when it is non-empty; every element stripped and non-empty. */
  lemma ResultsInOrder(engine: Engine, count: nat)
    requires RaisesNothing(engine.replies, count) && engine.final.Final?
    ensures Results(engine, count)
      == Ok(Utterances(Window(engine.replies, count)) + KeptText(engine.final.text))
    ensures WellFormed(Results(engine, count).value)
    ensures Strip(engine.final.text.GetOr("")) != [] ==>
      Results(engine, count).value[|Results(engine, count).value| - 1] == Strip(engine.final.text.GetOr(""))
  {
    CollectIsUtterances(engine.replies, count);
    UtterancesWellFormed(Window(engine.replies, count));
  }

  /** An exception from the engine is what the recognizer ends with. */
  lemma ResultsFailOnRaise(engine: Engine, count: nat, k: nat)
    requires k < count && ReplyAt(engine.replies, k).Raised? && RaisesNothing(engine.replies, k)
    ensures Results(engine, count) == Err(ReplyAt(engine.replies, k).reason)
  {
    CollectRaisesLeftmost(engine.replies, count, k);
  }

  // ----- The transcript -----

  /** `' '.join(results).strip()`, or the no-speech marker when that is empty. */
  function Transcript(results: seq<string>): Verdict {
    var full := Strip(Join(" ", results));
    if full != [] then Heard(full) else Silence
  }

  /** With stripped non-empty elements the transcript is the plain join, empty
      exactly when there were no results (and then the no-speech marker is
      returned); stripping it again changes nothing. */
  lemma TranscriptOfResults(results: seq<string>)
    requires WellFormed(results)
    ensures results == [] <==> Transcript(results) == Silence
    ensures results != [] ==> Transcript(results) == Heard(Join(" ", results)) && Join(" ", results) != []
    ensures Transcript(results).Heard? ==> Strip(Transcript(results).transcript) == Transcript(results).transcript
  {
    JoinTrimmed(" ", results);
    StripTrimmed(Join(" ", results));
  }

  /** Every answer other than a transcript is a string carrying a marker. */
  lemma FixedResultsMarked()
    ensures forall v: Verdict :: !v.Heard? ==> Marked(Render(v))
  {
    assert ModelNotLoaded[..1] == ErrorMark;
    assert ConversionError[..1] == ErrorMark;
    assert MustBeMono[..1] == ErrorMark;
    assert UnsupportedWidth[..1] == ErrorMark;
    assert UnsupportedRate[..1] == ErrorMark;
    assert NoSpeech[..1] == SilenceMark;
    forall reason ensures Marked(RecognitionError(reason)) {
      assert RecognitionError(reason)[..1] == ErrorMark;
    }
    forall v: Verdict | !v.Heard? ensures Marked(Render(v)) {
    }
  }

  /** The answer for an opened waveform: the parameter checks in their order,
      then the recognizer over every chunk and the final result, then the transcript. */
  function Listen(header: WavHeader, frames: seq<Frame>, engine: Engine): Verdict {
    if header.channels != 1 then NotMono
    else if header.sampwidth != 2 then BadWidth
    else if header.rate !in SupportedRates then BadRate
    else
      match Results(engine, |Chunks(frames, ChunkFrames)|)
      case Err(reason) => Failed(reason)
      case Ok(results) => Transcript(results)
  }

  /** Recognition ran to its end: the one path on which the temporary files are removed. */
  predicate Finished(v: Verdict) {
    v.Heard? || v.Silence?
  }

  /** The result of `recognize_speech_vosk(oga)`, and the files left afterwards. */
  function Recognize(model: Option<ModelHandle>, oga: string, audio: Audio, engine: Engine,
                     files: set<string>, undeletable: set<string>): Outcome
  {
    if model.None? then Outcome(NoModel, files)
    else
      match audio
      case ConversionFailed => Outcome(NotConverted, files)
      case OpenFailed(reason) => Outcome(Failed(reason), files + {WavName(oga)})
      case Opened(header, frames) =>
        var v := Listen(header, frames, engine);
        var present := files + {WavName(oga)};
        Outcome(v, if Finished(v) then Cleanup(present, oga, WavName(oga), undeletable) else present)
  }

  /** Without a model the fixed string comes back whatever the audio, and no
      file is created or removed. */
  lemma RecognizeWithoutModel(oga: string, audio: Audio, engine: Engine, files: set<string>, undeletable: set<string>)
    ensures Recognize(None, oga, audio, engine, files, undeletable) == Outcome(NoModel, files)
  {
  }

  /** The temporary files are removed only when recognition has finished; on every
      other path the converted waveform, once exported, stays next to the fetched file. */
  lemma RecognizeFiles(model: Option<ModelHandle>, oga: string, audio: Audio, engine: Engine,
                       files: set<string>, undeletable: set<string>)
    ensures var out := Recognize(model, oga, audio, engine, files, undeletable);
      && (Finished(out.verdict) <==> model.Some? && audio.Opened? && Finished(Listen(audio.header, audio.frames, engine)))
      && (Finished(out.verdict) ==> out.files == Cleanup(files + {WavName(oga)}, oga, WavName(oga), undeletable))
      && (!Finished(out.verdict) ==> out.files == if model.None? || audio.ConversionFailed? then files else files + {WavName(oga)})
  {
  }

  /** The parameter checks come in a fixed order. */
  lemma ListenGate(header: WavHeader, frames: seq<Frame>, engine: Engine)
    ensures var v := Listen(header, frames, engine);
      && (header.channels != 1 ==> v == NotMono)
      && (header.channels == 1 && header.sampwidth != 2 ==> v == BadWidth)
      && (header.channels == 1 && header.sampwidth == 2 && header.rate !in SupportedRates ==> v == BadRate)
      && (header.channels == 1 && header.sampwidth == 2 && header.rate in SupportedRates ==>
            v !in {NotMono, BadWidth, BadRate})
  {
  }

  /** Past the checks, the answer is the engine's exception or the transcript of the results. */
  lemma ListenPastGate(header: WavHeader, frames: seq<Frame>, engine: Engine)
    requires header.channels == 1 && header.sampwidth == 2 && header.rate in SupportedRates
    ensures var r := Results(engine, |Chunks(frames, ChunkFrames)|);
      Listen(header, frames, engine) == if r.Ok? then Transcript(r.value) else Failed(r.reason)
  {
  }

  /** On the path past the checks with a well-behaved engine, the transcript is
      that of the utterances and the final text, and both temporary files are
      gone when their removal succeeds. */
  lemma RecognizeSuccess(model: ModelHandle, oga: string, header: WavHeader, frames: seq<Frame>,
                         engine: Engine, files: set<string>, undeletable: set<string>)
    requires header.channels == 1 && header.sampwidth == 2 && header.rate in SupportedRates
    requires RaisesNothing(engine.replies, |Chunks(frames, ChunkFrames)|) && engine.final.Final?
    requires oga !in undeletable && WavName(oga) !in undeletable
    ensures var out := Recognize(Some(model), oga, Opened(header, frames), engine, files, undeletable);
      var results := Utterances(Window(engine.replies, |Chunks(frames, ChunkFrames)|)) + KeptText(engine.final.text);
      && (results == [] <==> out.verdict == Silence)
      && (results != [] ==> out.verdict == Heard(Join(" ", results)) && Strip(Join(" ", results)) == Join(" ", results))
      && out.files == files - {oga, WavName(oga)}
  {
    var count := |Chunks(frames, ChunkFrames)|;
    var results := Utterances(Window(engine.replies, count)) + KeptText(engine.final.text);
    var out := Recognize(Some(model), oga, Opened(header, frames), engine, files, undeletable);
    assert out.verdict == Transcript(results) && WellFormed(results) by {
      ResultsInOrder(engine, count);
      ListenPastGate(header, frames, engine);
    }
    assert out.files == files - {oga, WavName(oga)} by {
      assert Finished(out.verdict);
      CleanupAfterExport(files, oga, WavName(oga), undeletable);
    }
    TranscriptOfResults(results);
  }

  /** Every result that is not a transcript of recognised speech carries a marker:
      an unmarked result is the join of a non-empty results list. */
  lemma UnmarkedIsTranscript(model: Option<ModelHandle>, oga: string, audio: Audio, engine: Engine,
                             files: set<string>, undeletable: set<string>)
    requires !Marked(Render(Recognize(model, oga, audio, engine, files, undeletable).verdict))
    ensures model.Some? && audio.Opened?
    ensures audio.header.channels == 1 && audio.header.sampwidth == 2 && audio.header.rate in SupportedRates
    ensures var r := Results(engine, |Chunks(audio.frames, ChunkFrames)|);
      r.Ok? && r.value != []
      && Recognize(model, oga, audio, engine, files, undeletable).verdict == Heard(Join(" ", r.value))
  {
    FixedResultsMarked();
    var v := Recognize(model, oga, audio, engine, files, undeletable).verdict;
    assert v.Heard?;
    var r := Results(engine, |Chunks(audio.frames, ChunkFrames)|);
    ResultsWellFormed(engine, |Chunks(audio.frames, ChunkFrames)|);
    TranscriptOfResults(r.value);
  }

  /** Whatever the engine says, the results list is well formed. */
  lemma ResultsWellFormed(engine: Engine, count: nat)
    ensures Results(engine, count).Ok? ==> WellFormed(Results(engine, count).value)
  {
    CollectWellFormed(engine.replies, count);
  }

  lemma {:induction false} CollectWellFormed(replies: seq<Reply>, count: nat)
    ensures Collect(replies, count).Ok? ==> WellFormed(Collect(replies, count).value)
    decreases count
  {
    if count > 0 {
      CollectWellFormed(replies, count - 1);
    }
  }

  // ----- The objects the recognizer works with -----

  /** `wave.open(wav, 'rb')`: a reader over the waveform's frames. */
  class WaveReader {
    const header: WavHeader
    const frames: seq<Frame>
    var pos: nat
    var closed: bool

    ghost predicate Valid()
      reads this
    {
      pos <= |frames|
    }

    constructor (header: WavHeader, frames: seq<Frame>)
      ensures Valid() && this.header == header && this.frames == frames
      ensures pos == 0 && !closed
    {
      this.header := header;
      this.frames := frames;
      pos := 0;
      closed := false;
    }

    /** `readframes(n)`: the next `n` frames, or fewer at the end of the file. */
    method ReadFrames(n: nat) returns (data: seq<Frame>)
      requires Valid() && !closed
      modifies this
      ensures Valid() && !closed
      ensures data == frames[old(pos)..Min(old(pos) + n, |frames|)]
      ensures pos == old(pos) + |data|
    {
      var end := Min(pos + n, |frames|);
      data := frames[pos..end];
      pos := end;
    }

    method Close()
      modifies this
      ensures closed && pos == old(pos)
    {
      closed := true;
    }
  }

  /** `KaldiRecognizer(model, rate)`: answers each chunk from the engine's script. */
  class Recognizer {
    const engine: Engine
    const rate: int
    var fed: nat

    constructor (engine: Engine, rate: int)
      ensures this.engine == engine && this.rate == rate && fed == 0
    {
      this.engine := engine;
      this.rate := rate;
      fed := 0;
    }

    /** `AcceptWaveform(data)` together with the `Result()` read after a boundary. */
    method AcceptWaveform(data: seq<Frame>) returns (reply: Reply)
      modifies this
      ensures reply == ReplyAt(engine.replies, old(fed)) && fed == old(fed) + 1
    {
      reply := ReplyAt(engine.replies, fed);
      fed := fed + 1;
    }

    method FinalResult() returns (reply: FinalReply)
      ensures reply == engine.final
    {
      reply := engine.final;
    }
  }

  // ----- The recognizer -----

  /** The `while True` loop: read chunks of at most 4000 frames until a read comes
      back empty, feed each to the recognizer and keep the stripped non-empty
      utterance texts. An exception from the engine ends the loop. */
  method FeedChunks(wf: WaveReader, rec: Recognizer) returns (collected: Result<seq<string>>)
    requires wf.Valid() && !wf.closed && wf.pos == 0 && rec.fed == 0
    modifies wf, rec
    ensures collected == Collect(rec.engine.replies, |Chunks(wf.frames, ChunkFrames)|)
  {
    var results: seq<string> := [];
    ghost var total := |Chunks(wf.frames, ChunkFrames)|;
    // A frame is one 16-bit mono sample here, so a read of zero frames is a read of zero bytes.
    while true
      invariant wf.Valid() && !wf.closed
      invariant total == rec.fed + |Chunks(wf.frames[wf.pos..], ChunkFrames)|
      invariant Collect(rec.engine.replies, rec.fed) == Ok(results)
      decreases |wf.frames| - wf.pos
    {
      ghost var before := wf.pos;
      var data := wf.ReadFrames(ChunkFrames);
      if |data| == 0 {
        assert wf.frames[wf.pos..] == [];
        break;
      }
      assert wf.pos == Min(before + ChunkFrames, |wf.frames|);
      ChunksFrom(wf.frames, before, ChunkFrames);
      assert |Chunks(wf.frames[before..], ChunkFrames)| == 1 + |Chunks(wf.frames[wf.pos..], ChunkFrames)|;
      ghost var prior := results;
      var reply := rec.AcceptWaveform(data);
      assert Collect(rec.engine.replies, rec.fed) == Step(prior, reply);
      match reply
      case Raised(reason) => {
        CollectErrPersists(rec.engine.replies, rec.fed, total);
        return Err(reason);
      }
      case NoBoundary => {
      }
      case Boundary(t) => {
        var s := Strip(t.GetOr(""));
        if s != [] {
          results := results + [s];
        }
        assert results == prior + KeptText(t);
      }
    }
    collected := Ok(results);
  }

  /** The recognizer of one opened file: every chunk, then the final result. */
  method RunRecognizer(wf: WaveReader, engine: Engine) returns (run: Result<seq<string>>)
    requires wf.Valid() && !wf.closed && wf.pos == 0
    modifies wf
    ensures run == Results(engine, |Chunks(wf.frames, ChunkFrames)|)
  {
    var rec := new Recognizer(engine, wf.header.rate);
    var collected := FeedChunks(wf, rec);
    if collected.Err? {
      return Err(collected.reason);
    }
    var results := collected.value;
    var last := rec.FinalResult();
    if last.FinalRaised? {
      return Err(last.reason);
    }
    var finalText := Strip(last.text.GetOr(""));
    if finalText != [] {
      results := results + [finalText];
    }
    assert results == collected.value + KeptText(last.text);
    run := Ok(results);
  }

  /** The `try` block removing both temporary files, each only if it exists; an
      exception from `os.remove` is swallowed and skips the rest. */
  method RemoveTempFiles(files: set<string>, oga: string, wav: string, undeletable: set<string>)
    returns (remaining: set<string>)
    ensures remaining == Cleanup(files, oga, wav, undeletable)
  {
    remaining := files;
    if oga in remaining {
      if oga in undeletable {
        return;
      }
      remaining := remaining - {oga};
    }
    if wav in remaining {
      if wav in undeletable {
        return;
      }
      remaining := remaining - {wav};
    }
  }

  /** `recognize_speech_vosk(oga)`; `files` is the working directory before the
      call, `remaining` after it. */
  method RecognizeSpeech(model: Option<ModelHandle>, oga: string, audio: Audio, engine: Engine,
                         files: set<string>, undeletable: set<string>)
    returns (text: string, remaining: set<string>)
    ensures var out := Recognize(model, oga, audio, engine, files, undeletable);
      text == Render(out.verdict) && remaining == out.files
  {
    if model.None? {
      return ModelNotLoaded, files;
    }
    var wav := WavName(oga);
    if audio.ConversionFailed? {
      return ConversionError, files;
    }
    remaining := files + {wav};
    if audio.OpenFailed? {
      return RecognitionError(audio.reason), remaining;
    }
    var wf := new WaveReader(audio.header, audio.frames);
    if wf.header.channels != 1 {
      wf.Close();
      return MustBeMono, remaining;
    }
    if wf.header.sampwidth != 2 {
      wf.Close();
      return UnsupportedWidth, remaining;
    }
    if wf.header.rate !in SupportedRates {
      wf.Close();
      return UnsupportedRate, remaining;
    }
    text, remaining := Transcribe(wf, oga, wav, engine, remaining, undeletable);
  }

  /** The part past the checks: the recognizer, closing the waveform, the removal
      of the temporary files and the join of the results. */
  method Transcribe(wf: WaveReader, oga: string, wav: string, engine: Engine,
                    files: set<string>, undeletable: set<string>)
    returns (text: string, remaining: set<string>)
    requires wf.Valid() && !wf.closed && wf.pos == 0
    requires wf.header.channels == 1 && wf.header.sampwidth == 2 && wf.header.rate in SupportedRates
    modifies wf
    ensures var v := Listen(wf.header, wf.frames, engine);
      text == Render(v) && remaining == if Finished(v) then Cleanup(files, oga, wav, undeletable) else files
  {
    ghost var v := Listen(wf.header, wf.frames, engine);
    var run := RunRecognizer(wf, engine);
    ListenPastGate(wf.header, wf.frames, engine);
    if run.Err? {
      assert v == Failed(run.reason);
      return RecognitionError(run.reason), files;
    }
    var results := run.value;
    assert v == Transcript(results);
    wf.Close();
    remaining := RemoveTempFiles(files, oga, wav, undeletable);
    text := Strip(Join(" ", results));
    if text == [] {
      text := NoSpeech;
      assert v == Silence;
    } else {
      assert v == Heard(text);
    }
  }
}
