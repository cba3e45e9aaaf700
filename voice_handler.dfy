/**
 * The handler for voice messages (`transcript`): placeholder message, download,
 * recognition, and the edit of the placeholder with the result. The chat
 * transport is described by the outcome of each call the handler makes:
 * whether sending the placeholder raised, whether the download succeeded and
 * whether editing the placeholder raised. The handler's result is the list of
 * transport calls it makes, in order, and the files left afterwards.
 */
module VoiceHandler {
  import opened Common
  import opened Text
  import opened TempFiles
  import opened Transcriber

  const NotLoadedReply: string := "❌ Модель не загружена. Используйте /help для инструкций."
  const Processing: string := "🔄 Обрабатываю голосовое сообщение..."
  const DownloadError: string := "❌ Ошибка при скачивании файла"
  const RecognisedPrefix: string := "✅ Распознано:\n\n📝 "

  /** The message sent when the handler's own `try` block catches an exception. */
  function HandlerError(reason: string): string {
    "❌ Произошла ошибка: " + reason
  }

  datatype Action =
    | SendMessage(chat: int, text: string)
    | EditMessage(chat: int, messageId: int, text: string)

  /** The outcome of sending the placeholder: its message id, or an exception. */
  datatype Delivery = Delivered(messageId: int) | DeliveryRaised(reason: string)

  /** `edit`: `None` when editing the placeholder succeeds, or the exception it raises. */
  datatype Transport = Transport(placeholder: Delivery, downloaded: bool, edit: Option<string>)

  datatype Handled = Handled(actions: seq<Action>, files: set<string>)

  /** How a recognizer result is shown: marked results as they are, anything else
      under the "recognised" heading. */
  function Route(text: string): (shown: string)
    ensures shown == text <==> Marked(text)
    ensures StartsWith(shown, ErrorMark) || StartsWith(shown, SilenceMark) || StartsWith(shown, "✅")
    ensures |text| <= |shown| && shown[|shown| - |text|..] == text
  {
    if Marked(text) then text
    else
      assert (RecognisedPrefix + text)[..1] == "✅";
      RecognisedPrefix + text
  }

  /** Editing the placeholder; an exception there is caught and reported in a new message. */
  function Edit(chat: int, messageId: int, text: string, failure: Option<string>): seq<Action> {
    [EditMessage(chat, messageId, text)]
      + (if failure.Some? then [SendMessage(chat, HandlerError(failure.value))] else [])
  }

  /** `transcript(message)` for a voice message with id `fileId` in chat `chat`. */
  function HandleVoice(chat: int, fileId: string, model: Option<ModelHandle>, transport: Transport,
                       audio: Audio, engine: Engine, files: set<string>, undeletable: set<string>): Handled
  {
    if model.None? then Handled([SendMessage(chat, NotLoadedReply)], files)
    else
      var placeholder := SendMessage(chat, Processing);
      match transport.placeholder
      case DeliveryRaised(reason) => Handled([placeholder, SendMessage(chat, HandlerError(reason))], files)
      case Delivered(messageId) =>
        if !transport.downloaded then
          Handled([placeholder] + Edit(chat, messageId, DownloadError, transport.edit), files)
        else
          var oga := DownloadName(fileId);
          var out := Recognize(model, oga, audio, engine, files + {oga}, undeletable);
          Handled([placeholder] + Edit(chat, messageId, Route(Render(out.verdict)), transport.edit), out.files)
  }

  /** Without a model the handler answers with one message and stops before the
      download: nothing is fetched and no file is created. */
  lemma HandleWithoutModel(chat: int, fileId: string, transport: Transport, audio: Audio, engine: Engine,
                           files: set<string>, undeletable: set<string>)
    ensures HandleVoice(chat, fileId, None, transport, audio, engine, files, undeletable)
      == Handled([SendMessage(chat, NotLoadedReply)], files)
  {
  }

  /** A failed download turns the placeholder into the download error and the
      handler returns: recognition does not run, so no file is created or removed,
      and the only further call is the report of a raising edit. */
  lemma HandleDownloadFailure(chat: int, fileId: string, model: ModelHandle, messageId: int,
                              edit: Option<string>, audio: Audio, engine: Engine,
                              files: set<string>, undeletable: set<string>)
    ensures var h := HandleVoice(chat, fileId, Some(model), Transport(Delivered(messageId), false, edit),
                                 audio, engine, files, undeletable);
      h == Handled([SendMessage(chat, Processing), EditMessage(chat, messageId, DownloadError)]
                     + (if edit.Some? then [SendMessage(chat, HandlerError(edit.value))] else []),
                   files)
  {
  }

  /** The handler's own `except`: when sending the placeholder raises, the error is
      reported in a new message carrying the error mark, and nothing is fetched or
      recognised, whatever the download, the audio and the engine would have done. */
  lemma HandleReportsFailure(chat: int, fileId: string, model: ModelHandle, reason: string,
                             downloaded: bool, edit: Option<string>, audio: Audio, engine: Engine,
                             files: set<string>, undeletable: set<string>)
    ensures HandleVoice(chat, fileId, Some(model), Transport(DeliveryRaised(reason), downloaded, edit),
                        audio, engine, files, undeletable)
      == Handled([SendMessage(chat, Processing), SendMessage(chat, HandlerError(reason))], files)
    ensures StartsWith(HandlerError(reason), ErrorMark)
  {
    assert HandlerError(reason)[..1] == ErrorMark;
  }

  /** When editing the placeholder raises, on the download-error path and on the
      recognised path alike, the handler makes the calls it makes when the edit
      succeeds, then reports the error in a new message; the files are the same. */
  lemma HandleReportsEditFailure(chat: int, fileId: string, model: ModelHandle, messageId: int,
                                 downloaded: bool, failure: string, audio: Audio, engine: Engine,
                                 files: set<string>, undeletable: set<string>)
    ensures var ok := HandleVoice(chat, fileId, Some(model), Transport(Delivered(messageId), downloaded, None),
                                  audio, engine, files, undeletable);
      var h := HandleVoice(chat, fileId, Some(model), Transport(Delivered(messageId), downloaded, Some(failure)),
                           audio, engine, files, undeletable);
      h.actions == ok.actions + [SendMessage(chat, HandlerError(failure))] && h.files == ok.files
  {
  }

  /** After a successful download the placeholder shows the recognizer's result:
      a marked result verbatim, any other one, which is then the join of the
      recognised utterances, under the heading. */
  lemma HandleShowsResult(chat: int, fileId: string, model: ModelHandle, messageId: int,
                          edit: Option<string>, audio: Audio, engine: Engine,
                          files: set<string>, undeletable: set<string>)
    ensures var h := HandleVoice(chat, fileId, Some(model), Transport(Delivered(messageId), true, edit),
                                 audio, engine, files, undeletable);
      var oga := DownloadName(fileId);
      var out := Recognize(Some(model), oga, audio, engine, files + {oga}, undeletable);
      var text := Render(out.verdict);
      && h.files == out.files
      && h.actions[0] == SendMessage(chat, Processing)
      && (Marked(text) ==> h.actions[1] == EditMessage(chat, messageId, text))
      && (!Marked(text) ==>
            h.actions[1] == EditMessage(chat, messageId, RecognisedPrefix + text)
            && audio.Opened?
            && var r := Results(engine, |Chunks(audio.frames, ChunkFrames)|);
               r.Ok? && r.value != [] && text == Join(" ", r.value))
  {
    var oga := DownloadName(fileId);
    var out := Recognize(Some(model), oga, audio, engine, files + {oga}, undeletable);
    if !Marked(Render(out.verdict)) {
      UnmarkedIsTranscript(Some(model), oga, audio, engine, files + {oga}, undeletable);
    }
  }

  /** With a delivered placeholder, a successful download and a working edit, the
      handler makes exactly two calls and leaves what the recognizer leaves. */
  lemma HandleAfterDownload(chat: int, fileId: string, model: ModelHandle, messageId: int,
                            audio: Audio, engine: Engine, files: set<string>, undeletable: set<string>)
    ensures var oga := DownloadName(fileId);
      var out := Recognize(Some(model), oga, audio, engine, files + {oga}, undeletable);
      HandleVoice(chat, fileId, Some(model), Transport(Delivered(messageId), true, None),
                  audio, engine, files, undeletable)
        == Handled([SendMessage(chat, Processing), EditMessage(chat, messageId, Route(Render(out.verdict)))], out.files)
  {
  }

  /** A mono 16-bit 16 kHz recording in which the engine hears one utterance
      `heard` (stripped, non-empty, not starting with a marker — "hello world",
      say) ends with that text under the heading, and both temporary files are
      removed. */
  lemma HandleHeard(chat: int, fileId: string, model: ModelHandle, messageId: int,
                    frames: seq<Frame>, heard: string, files: set<string>)
    requires frames != [] && !Contains(fileId, OgaExt)
    requires heard != [] && Trimmed(heard) && !Marked(heard)
    ensures HandleVoice(chat, fileId, Some(model), Transport(Delivered(messageId), true, None),
                        Opened(WavHeader(1, 2, 16000), frames),
                        Engine([Boundary(Some(heard))], Final(None)), files, {})
      == Handled([SendMessage(chat, Processing), EditMessage(chat, messageId, RecognisedPrefix + heard)],
                 files - {DownloadName(fileId), "voice_" + fileId + WavExt})
  {
    HearsDownload(model, fileId, frames, heard, files);
    HandleShowsHeard(chat, fileId, model, messageId, Opened(WavHeader(1, 2, 16000), frames),
                     Engine([Boundary(Some(heard))], Final(None)), files, {}, heard);
  }

  /** A recognised transcript that carries no marker is shown under the heading,
      and the handler leaves what the recognizer leaves. */
  lemma HandleShowsHeard(chat: int, fileId: string, model: ModelHandle, messageId: int,
                        audio: Audio, engine: Engine, files: set<string>, undeletable: set<string>, heard: string)
    requires Recognize(Some(model), DownloadName(fileId), audio, engine, files + {DownloadName(fileId)}, undeletable).verdict == Heard(heard)
    requires !Marked(heard)
    ensures HandleVoice(chat, fileId, Some(model), Transport(Delivered(messageId), true, None),
                        audio, engine, files, undeletable)
      == Handled([SendMessage(chat, Processing), EditMessage(chat, messageId, RecognisedPrefix + heard)],
                 Recognize(Some(model), DownloadName(fileId), audio, engine, files + {DownloadName(fileId)}, undeletable).files)
  {
    HandleAfterDownload(chat, fileId, model, messageId, audio, engine, files, undeletable);
    assert Route(heard) == RecognisedPrefix + heard;
  }

  /** Recognition of the downloaded file in that scenario. */
  lemma HearsDownload(model: ModelHandle, fileId: string, frames: seq<Frame>, heard: string, files: set<string>)
    requires frames != [] && !Contains(fileId, OgaExt)
    requires heard != [] && Trimmed(heard)
    ensures var oga := DownloadName(fileId);
      Recognize(Some(model), oga, Opened(WavHeader(1, 2, 16000), frames),
                Engine([Boundary(Some(heard))], Final(None)), files + {oga}, {})
      == Outcome(Heard(heard), files - {oga, "voice_" + fileId + WavExt})
  {
    var oga := DownloadName(fileId);
    Hears(model, oga, frames, heard, files + {oga});
    WavNameOfDownload(fileId);
    assert (files + {oga}) - {oga, WavName(oga)} == files - {oga, WavName(oga)};
  }

  /** "hello world" is such an utterance. */
  lemma HelloWorldIsPlainText()
    ensures "hello world" != [] && Trimmed("hello world") && !Marked("hello world")
  {
    assert "hello world"[..1] != ErrorMark && "hello world"[..1] != SilenceMark;
  }

  lemma Hears(model: ModelHandle, oga: string, frames: seq<Frame>, heard: string, files: set<string>)
    requires frames != [] && heard != [] && Trimmed(heard)
    ensures Recognize(Some(model), oga, Opened(WavHeader(1, 2, 16000), frames),
                      Engine([Boundary(Some(heard))], Final(None)), files, {})
      == Outcome(Heard(heard), files - {oga, WavName(oga)})
  {
    var engine := Engine([Boundary(Some(heard))], Final(None));
    var wav := WavName(oga);
    assert Results(engine, |Chunks(frames, ChunkFrames)|) == Ok([heard]) by {
      HeardResults(frames, heard);
    }
    assert Transcript([heard]) == Heard(heard) by {
      TranscriptOfResults([heard]);
    }
    assert Cleanup(files + {wav}, oga, wav, {}) == files - {oga, wav} by {
      CleanupAfterExport(files, oga, wav, {});
    }
    ListenPastGate(WavHeader(1, 2, 16000), frames, engine);
  }

  lemma HeardResults(frames: seq<Frame>, heard: string)
    requires frames != [] && heard != [] && Trimmed(heard)
    ensures Results(Engine([Boundary(Some(heard))], Final(None)), |Chunks(frames, ChunkFrames)|)
      == Ok([heard])
  {
    var engine := Engine([Boundary(Some(heard))], Final(None));
    var count := |Chunks(frames, ChunkFrames)|;
    assert count >= 1;
    assert Utterances(engine.replies) == [heard] by {
      UtterancesSingle(Boundary(Some(heard)));
      StripTrimmed(heard);
    }
    WindowPastScript(engine.replies, count);
    assert RaisesNothing(engine.replies, count);
    assert KeptText(None) == [] by {
      assert Strip("") == [];
    }
    ResultsInOrder(engine, count);
    assert [heard] + [] == [heard];
  }

  /** A recording in which the engine hears nothing ends with the no-speech marker
      shown as it is. */
  lemma HandleSilence(chat: int, fileId: string, model: ModelHandle, messageId: int, rate: int,
                      frames: seq<Frame>, replies: seq<Reply>, last: Option<string>,
                      files: set<string>, undeletable: set<string>)
    requires rate in SupportedRates
    requires forall i :: 0 <= i < |replies| ==> Silent(replies[i])
    requires Strip(last.GetOr("")) == []
    ensures HandleVoice(chat, fileId, Some(model), Transport(Delivered(messageId), true, None),
                        Opened(WavHeader(1, 2, rate), frames), Engine(replies, Final(last)), files, undeletable).actions
      == [SendMessage(chat, Processing), EditMessage(chat, messageId, NoSpeech)]
  {
    var oga := DownloadName(fileId);
    var engine := Engine(replies, Final(last));
    var audio := Opened(WavHeader(1, 2, rate), frames);
    HearsSilence(model, oga, rate, frames, replies, last, files + {oga}, undeletable);
    HandleAfterDownload(chat, fileId, model, messageId, audio, engine, files, undeletable);
    FixedResultsMarked();
  }

  lemma HearsSilence(model: ModelHandle, oga: string, rate: int, frames: seq<Frame>, replies: seq<Reply>,
                     last: Option<string>, files: set<string>, undeletable: set<string>)
    requires rate in SupportedRates
    requires forall i :: 0 <= i < |replies| ==> Silent(replies[i])
    requires Strip(last.GetOr("")) == []
    ensures Recognize(Some(model), oga, Opened(WavHeader(1, 2, rate), frames), Engine(replies, Final(last)),
                      files, undeletable).verdict == Silence
  {
    var engine := Engine(replies, Final(last));
    var count := |Chunks(frames, ChunkFrames)|;
    var w := Window(replies, count);
    assert forall i :: 0 <= i < |w| ==> Silent(w[i]);
    UtterancesOfSilence(w);
    assert RaisesNothing(replies, count);
    ResultsInOrder(engine, count);
    assert Results(engine, count) == Ok([]);
    ListenPastGate(WavHeader(1, 2, rate), frames, engine);
    TranscriptOfResults([]);
  }
}
