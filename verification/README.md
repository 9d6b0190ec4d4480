# Chunked transcription and translation, modelled in Dafny

This project models the core of a small audio transcription and translation
app. `transcribe_custom` cuts the normalized audio into consecutive
10-second chunks. It sends each chunk, in order, to a speech recognizer and
then sends the recognized text to a translator. The recognized texts are
appended to a running transcript, and their translations to a running
translation, with no separator. A chunk that the recognizer rejects with
`RequestError` or `UnknownValueError` is skipped. The project also models
how the app turns a language name chosen from a list back into its code.

Modules:

- `Sequences` (sequences.dfy): `Flatten`, which joins a list of pieces in order, as repeated `+=` does.
- `Segmentation` (segmentation.dfy): the audio is a `seq<T>` of one-millisecond units. `ChunkStarts` is `range(0, len(audio), 10000)`. `Slice` is `audio[i:i + 10000]`. `Chunks` is the list comprehension that builds the chunk list.
- `Pipeline` (pipeline.dfy): the two services are fields of a `Config` value, as uninterpreted functions. The recognizer answers `Recognized(text)`, `RequestError(message)` or `UnknownValueError`. The translator answers `Translated(text)` or `TranslationFailed`. `Process` is the specification of the loop over chunks. `TranscribeCustom` is the method with the loop itself, proved equal to `Process` and to an independent description: the filtered list of recognized texts, joined.
- `Languages` (languages.dfy): the registry is a sequence of (code, name) entries in dictionary order. `IndexOf` is `list.index`. `Lookup` is `languages[code]`. `CodeOf` is `list(languages.keys())[language_options.index(name)]`.

Behaviour of the code worth noting:

- Chunk texts are joined with no separator, as app.py:38-39 do.
- A translator failure is not caught by either `except` clause (app.py:41-44). It therefore ends the whole call, which the model returns as `Aborted(k)` for chunk `k`. It does not skip just that chunk.
- The last chunk is kept whatever its length. A zero-length chunk never arises, because `range` stops below the length.

## Model

| member | source | states |
|---|---|---|
| Segmentation.ChunkStarts | app.py:22 | `range(start, stop, 10000)` has ⌈(stop − start) / 10000⌉ offsets; offset k is start + 10000·k, and every offset is below stop |
| Segmentation.Slice | app.py:22 | a slice that runs past the end of the audio is cut back: its length is min(end, len) − start (0 if that is not positive), and its element j is audio[start + j] |
| Segmentation.Chunks | app.py:21-22 | the audio gives ⌈len / 10000⌉ chunks; empty audio gives no chunks |
| Segmentation.ChunkSpan | app.py:22 | chunk k is exactly audio[10000·k .. min(10000·(k+1), len)] and starts inside the audio, so chunks are in playback order and do not overlap |
| Segmentation.ChunkSizes | app.py:21-22 | every chunk but the last holds exactly 10000 units; every chunk holds 1 to 10000 units; the last holds len − 10000·k |
| Segmentation.FlattenChunksPrefix | app.py:22 | the first k chunks joined equal the first min(10000·k, len) units of the audio |
| Segmentation.FlattenChunks | app.py:22 | all chunks joined in order give back the audio exactly |
| Segmentation.TwentyFiveSeconds | app.py:21-22 | 25 000 ms of audio gives three chunks, of 10 000, 10 000 and 5 000 ms |
| Pipeline.Process | app.py:24-44 | an abort always names one of the chunks that were processed |
| Pipeline.RecognizedTexts | app.py:36-38 | the reference definition: the texts the recognizer accepted, in chunk order; its contract only bounds their number by the number of chunks |
| Pipeline.SkipRejectedChunk | app.py:35-44 | a chunk the recognizer rejects with `RequestError` or `UnknownValueError` leaves both accumulators and the outcome unchanged |
| Pipeline.AbortPropagates | app.py:35-44 | once a translation has failed, later chunks do not change the outcome: the failure ends the call |
| Pipeline.ProcessCompletes | app.py:24-45 | with `Sequences.Flatten` as the join that repeated `+=` performs and `Translations` as the reference list of the translator's answers, one per recognized text: the call completes exactly when the translator accepts every recognized text; the transcript is then the recognized texts joined in chunk order, and the translation is their translations joined in the same order, so both draw on the same chunks |
| Pipeline.AbortedAtFirstFailure | app.py:35-44 | an abort at chunk k means chunk k was recognized, its translation failed, and every earlier chunk was processed without an abort |
| Pipeline.AllRejected | app.py:24-45 | if the recognizer rejects every chunk, the call still returns, with two empty strings |
| Pipeline.TranscribeCustom | app.py:11-45 | the loop's result equals `Process` over the chunks of the audio. It completes exactly when every recognized text is translated, and then returns the joined texts and the joined translations. Empty audio returns two empty strings |
| Languages.IndexOf | app.py:68 | `index` finds the first position that holds the name, or reports that the name is absent (where the list method raises `ValueError`) |
| Languages.Lookup | app.py:55 | a dictionary lookup finds a name exactly when the code is a key, and the name it finds is stored under that code |
| Languages.CodeOf | app.py:68-69 | built from `Names` (`list(languages.values())`, app.py:56) and `Codes` (`list(languages.keys())`, app.py:68): the chosen code is the key at the first position whose name equals the selected name; there is no code exactly when the name is not offered |
| Languages.CodeOfRoundTrip | app.py:55-69 | for a name offered in the list, the chosen code exists and `languages[code]` is that name |

## Left out

- The Streamlit interface (app.py:49-81): title, uploader, select boxes, button and displayed results. It is presentation only. The check that a file was uploaded (app.py:62, 80-81) is part of it.
- File I/O: saving the upload to a temporary file (app.py:64-65), and exporting each chunk to `chunk.wav` and reading it back for the recognizer (app.py:28-33). Chunks are held in memory instead, and the recognizer receives the chunk itself.
- Audio decoding and resampling to mono 16 kHz (app.py:15-17). This is a foreign library doing signal processing. The normalized audio is an opaque sequence whose length is its duration in milliseconds.
- The speech-recognition and translation network clients (app.py:12, 18, 36-37). They are uninterpreted functions in `Config`. This makes them deterministic functions of their inputs, so two identical chunks get the same answer. Exceptions other than `RequestError` and `UnknownValueError` are not modelled, apart from translation failure.
- Sub-millisecond rounding in the audio library. The library rounds the frame count to whole milliseconds for `len(audio)` and converts milliseconds to frames when slicing, so the last slice can be off by less than 1 ms either way. The model counts whole milliseconds, so `Segmentation.FlattenChunks` holds at millisecond granularity only.
- The `print` diagnostics for skipped chunks (app.py:42, 44). They are logging only.
- The contents of the language registry (app.py:55). The registry is a parameter. Its keys are assumed distinct wherever a lemma needs it, as they are in a dictionary.
- The `DEVICE` line (app.py:5). It refers to `torch`, which is never imported, so it is unrelated to the pipeline.
