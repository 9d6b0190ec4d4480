/**
 * The chunked transcribe-and-translate pipeline: every chunk, in order, goes
 * to the speech recognizer and then to the translator, and the results are
 * appended to a running transcript and a running translation.
 */
module Pipeline {
  import opened Sequences
  import opened Segmentation

  /** What the speech recognizer answers for one chunk. */
  datatype Recognition =
    | Recognized(text: string)
    | RequestError(message: string)  // the service could not be reached
    | UnknownValueError              // no confident transcription of the chunk

  /** What the translator answers for one text. */
  datatype Translation = Translated(text: string) | TranslationFailed

  /**
   * The configuration of one call: the two language codes and the two
   * external services, which are uninterpreted functions of their inputs.
   */
  datatype Config<!T> = Config(
    srcLang: string,
    tarLang: string,
    recognize: (seq<T>, string) -> Recognition,
    translate: (string, string) -> Translation)

  /**
   * The result of a call: the two accumulated strings, or an abort at the
   * chunk whose translation failed (that failure is not caught, so it ends
   * the whole call and no strings are returned).
   */
  datatype Outcome = Completed(transcription: string, translation: string) | Aborted(chunk: nat)

  /**
   * The state after processing `chunks` in order, from empty accumulators,
   * skipping every chunk the recognizer rejects.
   */
  function Process<T>(cfg: Config<T>, chunks: seq<seq<T>>): (r: Outcome)
    ensures r.Aborted? ==> r.chunk < |chunks|
    decreases |chunks|
  {
    if chunks == [] then Completed("", "")
    else
      var k := |chunks| - 1;
      match Process(cfg, chunks[..k])
      case Aborted(j) => Aborted(j)
      case Completed(transcription, translation) =>
        match cfg.recognize(chunks[k], cfg.srcLang)
        case Recognized(text) =>
          (match cfg.translate(text, cfg.tarLang)
           case Translated(t) => Completed(transcription + text, translation + t)
           case TranslationFailed => Aborted(k))
        case RequestError(_) => Completed(transcription, translation)
        case UnknownValueError => Completed(transcription, translation)
  }

  /** The recognized texts of the chunks the recognizer accepted, in chunk order. */
  function RecognizedTexts<T>(cfg: Config<T>, chunks: seq<seq<T>>): (r: seq<string>)
    ensures |r| <= |chunks|
  {
    if chunks == [] then []
    else
      var rest := RecognizedTexts(cfg, chunks[1..]);
      match cfg.recognize(chunks[0], cfg.srcLang)
      case Recognized(text) => [text] + rest
      case _ => rest
  }

  /** The translator accepts every one of `texts`. */
  predicate TranslatorAccepts<T>(cfg: Config<T>, texts: seq<string>)
  {
    forall i :: 0 <= i < |texts| ==> cfg.translate(texts[i], cfg.tarLang).Translated?
  }

  /** The translation of each of `texts`, position by position. */
  function Translations<T>(cfg: Config<T>, texts: seq<string>): seq<string>
    requires TranslatorAccepts(cfg, texts)
  {
    seq(|texts|, i requires 0 <= i < |texts| => cfg.translate(texts[i], cfg.tarLang).text)
  }

  /** Adding one chunk at the end adds its text, if it was recognized, at the end. */
  lemma {:induction false} RecognizedTextsSnoc<T>(cfg: Config<T>, chunks: seq<seq<T>>, c: seq<T>)
    ensures RecognizedTexts(cfg, chunks + [c]) ==
      RecognizedTexts(cfg, chunks) +
      (match cfg.recognize(c, cfg.srcLang) case Recognized(text) => [text] case _ => [])
  {
    if chunks != [] {
      assert (chunks + [c])[1..] == chunks[1..] + [c];
      RecognizedTextsSnoc(cfg, chunks[1..], c);
    } else {
      assert [] + [c] == [c];
      assert [c][1..] == [];
    }
  }

  /** A rejected chunk leaves both accumulators as they were and processing goes on. */
  lemma SkipRejectedChunk<T>(cfg: Config<T>, chunks: seq<seq<T>>, c: seq<T>)
    requires !cfg.recognize(c, cfg.srcLang).Recognized?
    ensures Process(cfg, chunks + [c]) == Process(cfg, chunks)
  {
  }

  /**
   * Processing completes exactly when the translator accepts every
   * recognized text; the transcript is then the recognized texts joined in
   * chunk order and the translation is their translations joined in the
   * same order, so both draw on the same chunks.
   */
  lemma {:induction false} ProcessCompletes<T>(cfg: Config<T>, chunks: seq<seq<T>>)
    ensures Process(cfg, chunks).Completed? <==> TranslatorAccepts(cfg, RecognizedTexts(cfg, chunks))
    ensures Process(cfg, chunks).Completed? ==>
      Process(cfg, chunks).transcription == Flatten(RecognizedTexts(cfg, chunks)) &&
      Process(cfg, chunks).translation == Flatten(Translations(cfg, RecognizedTexts(cfg, chunks)))
    decreases |chunks|
  {
    if chunks != [] {
      var k := |chunks| - 1;
      var init, c := chunks[..k], chunks[k];
      assert chunks == init + [c];
      ProcessCompletes(cfg, init);
      RecognizedTextsSnoc(cfg, init, c);
      var texts := RecognizedTexts(cfg, init);
      match cfg.recognize(c, cfg.srcLang)
      case Recognized(text) =>
        assert RecognizedTexts(cfg, chunks) == texts + [text];
        FlattenSnoc(texts, text);
        if TranslatorAccepts(cfg, texts + [text]) {
          assert TranslatorAccepts(cfg, texts);
          var ts := Translations(cfg, texts);
          var t := cfg.translate(text, cfg.tarLang).text;
          assert Translations(cfg, texts + [text]) == ts + [t];
          FlattenSnoc(ts, t);
        } else if TranslatorAccepts(cfg, texts) {
          assert !cfg.translate(text, cfg.tarLang).Translated?;
        } else {
          var i :| 0 <= i < |texts| && !cfg.translate(texts[i], cfg.tarLang).Translated?;
          assert (texts + [text])[i] == texts[i];
        }
      case _ =>
        assert texts + [] == texts;
        assert RecognizedTexts(cfg, chunks) == texts;
        assert Process(cfg, chunks) == Process(cfg, init);
    }
  }

  /**
   * An abort names the first chunk whose recognized text the translator
   * fails on: every chunk before it went through.
   */
  lemma {:induction false} AbortedAtFirstFailure<T>(cfg: Config<T>, chunks: seq<seq<T>>)
    requires Process(cfg, chunks).Aborted?
    ensures var k := Process(cfg, chunks).chunk;
      && Process(cfg, chunks[..k]).Completed?
      && cfg.recognize(chunks[k], cfg.srcLang).Recognized?
      && cfg.translate(cfg.recognize(chunks[k], cfg.srcLang).text, cfg.tarLang) == TranslationFailed
    decreases |chunks|
  {
    var n := |chunks| - 1;
    var init := chunks[..n];
    if Process(cfg, init).Aborted? {
      AbortedAtFirstFailure(cfg, init);
      var k := Process(cfg, init).chunk;
      assert init[..k] == chunks[..k];
      assert init[k] == chunks[k];
    }
  }

  /** When the recognizer rejects every chunk, both strings come back empty and nothing aborts. */
  lemma AllRejected<T>(cfg: Config<T>, chunks: seq<seq<T>>)
    requires forall k :: 0 <= k < |chunks| ==> !cfg.recognize(chunks[k], cfg.srcLang).Recognized?
    ensures Process(cfg, chunks) == Completed("", "")
  {
  }

  /**
   * `transcribe_custom`: cut the audio into chunks, then recognize and
   * translate chunk by chunk, appending to the two accumulators and
   * skipping chunks the recognizer rejects.
   */
  method TranscribeCustom<T>(audio: seq<T>, cfg: Config<T>) returns (r: Outcome)
    ensures r == Process(cfg, Chunks(audio))
    ensures r.Completed? <==> TranslatorAccepts(cfg, RecognizedTexts(cfg, Chunks(audio)))
    ensures r.Completed? ==>
      r.transcription == Flatten(RecognizedTexts(cfg, Chunks(audio))) &&
      r.translation == Flatten(Translations(cfg, RecognizedTexts(cfg, Chunks(audio))))
    ensures |audio| == 0 ==> r == Completed("", "")
  {
    var chunks := Chunks(audio);
    var transcription, translation := "", "";
    for i := 0 to |chunks|
      invariant Process(cfg, chunks[..i]) == Completed(transcription, translation)
    {
      assert chunks[..i + 1][..i] == chunks[..i];
      match cfg.recognize(chunks[i], cfg.srcLang)
      case Recognized(text) =>
        var t := cfg.translate(text, cfg.tarLang);
        if t.TranslationFailed? {
          r := Aborted(i);
          AbortPropagates(cfg, chunks, i + 1);
          ProcessCompletes(cfg, chunks);
          return;
        }
        transcription := transcription + text;
        translation := translation + t.text;
      case RequestError(_) =>
        // skipped: the source only prints a diagnostic
      case UnknownValueError =>
        // skipped: the source only prints a diagnostic
    }
    assert chunks[..|chunks|] == chunks;
    r := Completed(transcription, translation);
    ProcessCompletes(cfg, chunks);
  }

  /** Once processing has aborted, later chunks do not change the outcome. */
  lemma {:induction false} AbortPropagates<T>(cfg: Config<T>, chunks: seq<seq<T>>, i: nat)
    requires i <= |chunks|
    requires Process(cfg, chunks[..i]).Aborted?
    ensures Process(cfg, chunks) == Process(cfg, chunks[..i])
    decreases |chunks| - i
  {
    if i < |chunks| {
      assert chunks[..i + 1][..i] == chunks[..i];
      AbortPropagates(cfg, chunks, i + 1);
    } else {
      assert chunks[..i] == chunks;
    }
  }
}
