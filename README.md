# Voice-to-text Telegram bot: decision and text-handling core

This project models the core of `TeleBot2.py`, a Telegram bot that turns voice
messages into text with the offline Vosk speech engine, and proves properties of
that model. The Telegram transport, the audio conversion and the speech engine
are third-party libraries. They are described by the outcomes they can produce,
and the model covers the deterministic choices the bot makes around them.

- `ModelDiscovery`: `find_vosk_model`. The start-up search scans the
  working directory's listing in order and returns the first directory whose
  lower-cased name contains `vosk-model`, or nothing. It is a `for` loop with an
  early return, proved against its contract.
- `TempFiles`: the two temporary file names. `download_file` writes
  `voice_<id>.oga`, and `oga2wav` exports to the input name with every `.oga`
  replaced by `.wav`. It also models the best-effort removal of both files. The
  working directory is a set of names. A name whose `os.remove` raises is listed
  in an `undeletable` set. Such an exception is swallowed and skips the removal
  still to come.
- `Text`: the Python string builtins the bot relies on: `strip()`, `lower()`,
  substring `in`, `startswith`, `replace` and `' '.join`.
- `Transcriber`: `recognize_speech_vosk`.
  - The conversion outcome and the opened waveform are an `Audio` value. The
    waveform is a header `(channels, sampwidth, rate)` and a sequence of frames.
  - The engine is an `Engine` value: the reply it gives to each chunk it is fed
    (no boundary, a boundary with an optional `text` field, or an exception),
    and its final reply.
  - `Recognize` is the reference function: the verdict, rendered as the returned
    string, and the files left afterwards.
  - `RecognizeSpeech` is the imperative version. It uses a `WaveReader` and a
    `Recognizer` object, the `while True` chunk loop (`FeedChunks`) and the
    removal `try` block (`RemoveTempFiles`). It is proved equal to
    `Recognize`.
- `VoiceHandler`: `transcript`, the handler for voice messages.
  - `HandleVoice` gives the list of transport calls the handler makes, in
    order, and the files left.
  - The transport is described by whether sending the placeholder raised,
    whether the download succeeded, and whether editing the placeholder raised.

The temporary files are removed only on the path that gets past the parameter
checks and through the engine without an exception (TeleBot2.py:127-136). After
a failed check, a failed `wave.open` or an exception from the engine, the
fetched `.oga` file and the exported `.wav` file stay in the working directory
(`Transcriber.RecognizeFiles`).

## Model

| member | source | states |
|---|---|---|
| ModelDiscovery.FindModel | TeleBot2.py:27-33 | The result is `None` exactly when no entry is a directory whose lower-cased name contains `vosk-model`; otherwise it is the name of a qualifying entry with no qualifying entry before it in listing order |
| ModelDiscovery.ModelDirIffMarker | TeleBot2.py:31 | The match ignores case: an entry qualifies exactly when it is a directory whose name spells `vosk-model` at some offset in any mix of ASCII upper and lower case (KELVIN SIGN counting as `k`) |
| ModelDiscovery.OccursIffMarkerAt | TeleBot2.py:31 | The lower-cased name holds `vosk-model` at an offset exactly when the name spells it there in any case |
| Text.Strip | TeleBot2.py:117 | `strip()` leaves no whitespace at either end and never lengthens its input |
| Text.StripRemovesSpaces | TeleBot2.py:117 | `strip()` keeps one contiguous part of its input, and everything it drops before and after that part is whitespace |
| Text.StripEmptyIffAllSpace | TeleBot2.py:117-118 | A stripped text is empty exactly when the original is all whitespace, so only such texts are skipped |
| Text.StripTrimmed | TeleBot2.py:139 | A string with no outer whitespace is left unchanged by `strip()` |
| Text.StripIdempotent | TeleBot2.py:139 | Stripping twice gives the same as stripping once |
| Text.Lower | TeleBot2.py:31 | `lower()` keeps the length, maps every ASCII capital to its lower-case letter and KELVIN SIGN to `k`, and leaves every other character unchanged |
| Text.ReplaceAbsent | TeleBot2.py:59 | `replace` returns its input unchanged when the pattern does not occur in it |
| Text.ReplaceKeepsLength | TeleBot2.py:59 | Replacing a pattern by a string of the same length keeps the length, the empty pattern included |
| Text.ReplaceFromSkips | TeleBot2.py:59 | Over a stretch where no occurrence of the pattern starts, `replace` copies its input |
| Text.ReplaceFromCopies | TeleBot2.py:59 | A prefix of the output that avoids the first character of the replacement was copied from the input at the same position |
| Text.OccursAtShift | TeleBot2.py:59 | An occurrence in `x + y` that starts at or after the end of `x` is an occurrence in `y` |
| Text.JoinTrimmed | TeleBot2.py:139 | Joining non-empty strings that have no outer whitespace gives a string with no outer whitespace, which is empty exactly when there was nothing to join |
| TempFiles.DownloadNameStartsNoOga | TeleBot2.py:157 | When the file id contains no `.oga`, no `.oga` starts inside `voice_<id>`, even across the end of the id |
| TempFiles.WavNameOfDownload | TeleBot2.py:59 | For a file id without `.oga`, the waveform name of `voice_<id>.oga` (line 157) is `voice_<id>.wav` |
| TempFiles.WavNameOfPlainName | TeleBot2.py:59 | A name without `.oga` is its own waveform name |
| TempFiles.WavNameLength | TeleBot2.py:59 | The waveform name is as long as the name it came from |
| TempFiles.NoOgaFrom | TeleBot2.py:59 | What the replacement produces from any offset contains no `.oga`, not even one formed across a replaced occurrence |
| TempFiles.WavNameHasNoOga | TeleBot2.py:59 | Every `.oga` is replaced, so none is left in the waveform name |
| TempFiles.Cleanup | TeleBot2.py:129-136 | The removal only takes names away, and only the two temporary files |
| TempFiles.CleanupRemovesBoth | TeleBot2.py:130-134 | When both removals succeed, neither temporary file is left and nothing else changes |
| TempFiles.CleanupAfterExport | TeleBot2.py:129-136 | The waveform created by the conversion is removed along with the fetched file |
| TempFiles.CleanupStopsAtFirstFailure | TeleBot2.py:130-136 | If removing the fetched file raises, the waveform is not removed either |
| Transcriber.ChunksCover | TeleBot2.py:110-113 | The successive reads cover the waveform exactly and in order |
| Transcriber.ChunksSized | TeleBot2.py:111 | Every read that is fed to the engine is non-empty and asks for at most 4000 frames, and only the last read may be short |
| Transcriber.ChunksFrom | TeleBot2.py:111 | One more read from the current position yields the next chunk and leaves the rest of the chunking |
| Transcriber.UtterancesConcat | TeleBot2.py:115-119 | The utterances of two runs of replies put one after the other are the utterances of the first run followed by those of the second |
| Transcriber.UtterancesAppend | TeleBot2.py:115-119 | One more reply appends its kept text, if it is a boundary, to the utterances so far |
| Transcriber.UtterancesSingle | TeleBot2.py:115-119 | A single reply contributes its kept text exactly when it is a boundary |
| Transcriber.UtterancesWellFormed | TeleBot2.py:116-119 | Every collected utterance is stripped and non-empty |
| Transcriber.UtterancesOfSilence | TeleBot2.py:115-119 | Replies that raise nothing and carry no non-empty text yield no utterances |
| Transcriber.WindowPastScript | TeleBot2.py:110-119 | Chunks fed beyond the engine's scripted replies add nothing |
| Transcriber.CollectOkIffRaisesNothing | TeleBot2.py:110-119 | The chunk loop runs to its end exactly when no reply raises |
| Transcriber.CollectIsUtterances | TeleBot2.py:107-119 | Without an exception, the loop collects exactly the stripped non-empty texts of the boundary replies, in chunk order |
| Transcriber.CollectErrPersists | TeleBot2.py:115-116 | Once a reply raises, the recognizer ends with that exception whatever follows |
| Transcriber.CollectRaisesLeftmost | TeleBot2.py:115-116 | The exception reported is the one raised by the earliest raising chunk |
| Transcriber.ResultsInOrder | TeleBot2.py:107-125 | The complete `results` list is the utterances in chunk order followed by the final text when that is non-empty, every element is stripped and non-empty, and a non-empty final text comes last |
| Transcriber.ResultsFailOnRaise | TeleBot2.py:115-125 | An exception from the engine at some chunk, with none before it, is what the recognizer ends with |
| Transcriber.ResultsWellFormed | TeleBot2.py:107-125 | Whatever the engine says, a completed `results` list has only stripped, non-empty elements |
| Transcriber.CollectWellFormed | TeleBot2.py:107-119 | Whatever the engine says, the list the loop collects has only stripped, non-empty elements |
| Transcriber.TranscriptOfResults | TeleBot2.py:139-144 | With stripped non-empty elements, the no-speech marker is returned exactly when `results` is empty; otherwise the transcript is the plain space-join, and stripping it again changes nothing |
| Transcriber.FixedResultsMarked | TeleBot2.py:78-148 | Every returned string other than a transcript starts with the error mark or the no-speech mark |
| Transcriber.RecognizeWithoutModel | TeleBot2.py:78-79 | Without a model the fixed "model not loaded" string comes back whatever the audio, and no file is created or removed |
| Transcriber.RecognizeFiles | TeleBot2.py:81-136 | The temporary files go through the removal exactly when recognition ran to its end; the waveform otherwise stays next to the fetched file once it has been exported, and nothing changes without a model or when the conversion failed |
| Transcriber.ListenGate | TeleBot2.py:91-101 | The checks come in order: channels other than 1 give the mono error; then a sample width other than 2 gives the bit-depth error; then a rate outside {8000, 16000, 22050, 44100, 48000} gives the rate error; past them, none of these errors comes back |
| Transcriber.ListenPastGate | TeleBot2.py:103-144 | Past the checks, the answer is the engine's exception or the transcript of the complete results list |
| Transcriber.RecognizeSuccess | TeleBot2.py:103-144 | With a well-behaved engine past the checks, the marker is returned exactly when nothing was heard; otherwise the answer is the space-join of the utterances and the final text, already stripped; both temporary files are gone when their removal succeeds |
| Transcriber.UnmarkedIsTranscript | TeleBot2.py:76-148 | A returned string without a marker means a model was loaded, the audio opened, the checks passed and the engine produced a non-empty results list whose join is that string |
| Transcriber.WaveReader.ReadFrames | TeleBot2.py:111 | `readframes(n)` returns the next `n` frames, or fewer at the end of the file, and advances past them |
| Transcriber.Recognizer.AcceptWaveform | TeleBot2.py:115-116 | Each chunk fed gets the engine's next reply |
| Transcriber.FeedChunks | TeleBot2.py:110-119 | The `while True` loop yields the engine's exception or the collected utterances of all reads of the waveform |
| Transcriber.RunRecognizer | TeleBot2.py:104-125 | The recognizer over every chunk, followed by the final result, gives the complete results list or the exception |
| Transcriber.RemoveTempFiles | TeleBot2.py:129-136 | The removal block leaves exactly what the removal model says |
| Transcriber.Transcribe | TeleBot2.py:103-144 | Past the checks, the returned string is the rendering of `Listen`, and the files left are the removal's result exactly when recognition finished |
| Transcriber.RecognizeSpeech | TeleBot2.py:76-148 | The returned string is the rendered verdict of `Recognize`, and the files left are those `Recognize` gives, on every path |
| VoiceHandler.Route | TeleBot2.py:260-264 | A result is shown unchanged exactly when it starts with an error or no-speech mark; what is shown always starts with one of those marks or with the heading's mark, and always ends with the result |
| VoiceHandler.HandleWithoutModel | TeleBot2.py:240-243 | Without a model the handler sends one "not loaded" message and stops before the download, touching no file |
| VoiceHandler.HandleDownloadFailure | TeleBot2.py:250-254 | A failed download makes exactly the placeholder send and its edit to the download error, plus the error report when that edit raises, and then returns; recognition does not run and no file changes |
| VoiceHandler.HandleReportsFailure | TeleBot2.py:245-268 | When sending the placeholder raises, the handler sends exactly one more message, the error under the error mark, never fetches or recognises anything, and leaves the files as they were |
| VoiceHandler.HandleReportsEditFailure | TeleBot2.py:252-268 | When editing the placeholder raises, on the download-error path and on the recognised path, the calls are those of a successful edit followed by the error report, and the files are the same |
| VoiceHandler.HandleShowsResult | TeleBot2.py:257-264 | After a download the placeholder shows a marked result as it is; any other result is shown under the heading and is the join of a non-empty results list |
| VoiceHandler.HandleAfterDownload | TeleBot2.py:245-264 | With a delivered placeholder, a download and a working edit, the handler makes exactly two calls and leaves what the recognizer leaves |
| VoiceHandler.HandleShowsHeard | TeleBot2.py:260-264 | A transcript without a marker is shown under the heading, and the handler leaves what the recognizer leaves |
| VoiceHandler.HandleHeard | TeleBot2.py:237-264 | For a mono 16-bit 16 kHz recording in which the engine hears one plain utterance, the placeholder ends up showing that utterance under the heading, and both temporary files are removed |
| VoiceHandler.HearsDownload | TeleBot2.py:76-144 | In that scenario, the message written as `voice_<id>.oga` is recognised as the utterance, and `voice_<id>.oga` and `voice_<id>.wav` are both removed |
| VoiceHandler.Hears | TeleBot2.py:103-144 | A single boundary reply with a stripped non-empty text yields that text as the transcript |
| VoiceHandler.HeardResults | TeleBot2.py:107-125 | A single boundary reply with a stripped non-empty text and an empty final result give a results list holding just that text |
| VoiceHandler.HelloWorldIsPlainText | TeleBot2.py:260 | "hello world" is non-empty, has no outer whitespace and carries no marker |
| VoiceHandler.HandleSilence | TeleBot2.py:141-144 | A recording in which nothing is heard ends with the no-speech marker shown as it is |
| VoiceHandler.HearsSilence | TeleBot2.py:139-144 | Replies that contribute nothing and an empty final text give the no-speech verdict |

## Left out

- Telegram transport (`send_message`, `edit_message_text`, `get_file`, `download_file`, `polling`): network I/O, modelled only as the outcome of each call (delivered or raised, downloaded or not, edited or raised).
- The `/start`, `/status`, `/help` and text-message handlers: fixed texts that vary on whether a model was loaded and, for `/status`, on the model folder's name (TeleBot2.py:207), plus `/start`'s best-effort sticker send that ignores a missing file (TeleBot2.py:192-196); message I/O with no decision logic beyond that choice.
- The sticker download and the reading of `token.txt` at import time: network and file I/O.
- Loading the speech model (`init_vosk_model`, `vosk.Model`): foreign code; the loaded model is an optional handle, `None` when no folder was found or loading raised.
- The pydub decoding, resampling and export inside `oga2wav`: foreign code; the conversion is an outcome that either failed or produced a waveform.
- Speech inference, `SetWords` and the JSON parsing of the engine's output: foreign code; each reply is modelled as "no boundary", "boundary with an optional `text` field" or an exception.
- Exceptions from `KaldiRecognizer(...)`, `SetWords`, the header getters and `readframes`: not modelled; only `wave.open` and the engine's replies can raise in the model.
- A download or export that writes a partial file before raising: the model assumes a failed step creates no file.
- Exception message texts: `str(e)` is a `reason` string parameter.
- Logging and `print` calls, and the `__main__` banner.
- `TeleBot.py`: a separate greeting script with no logic to model.
- The byte contents of frames: a frame is a sequence of bytes, but with the checks passed it is one 16-bit mono sample, so a read of zero frames is a read of zero bytes.
- Text.Lower: models `str.lower()` only for the ASCII capitals and KELVIN SIGN and leaves every other character unchanged, because no other character lower-cases to a letter of `vosk-model`, so the model-folder test is unaffected.
- Text.IsSpace: fixes Python's whitespace set by code point, as listed in the predicate; it is not derived from a Unicode database.
- The working directory is a set of names: file contents, and the overwrite when the waveform name equals the fetched name, are not modelled.
