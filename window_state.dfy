/**
 * The state of the application window that its event handlers read and
 * write, and the change each handler makes to it, written as functions.
 * The class `Gui.TranslationApp` makes the same changes in place.
 */
module WindowState {
  import opened Options
  import opened Text
  import opened Sorting
  import opened LanguageCodes
  import opened GuiLogic
  import Translator

  /**
   * What the handlers read and write: the single-flight flag, the text and
   * the listed names of the two language boxes, the two text areas, whether
   * the translate button is enabled, whether the three output buttons (copy,
   * clear, save) are enabled, and the two labels.
   */
  datatype AppState = AppState(
    isTranslating: bool,
    sourceLang: string,
    targetLang: string,
    sourceChoices: seq<string>,
    targetChoices: seq<string>,
    inputText: string,
    outputText: string,
    translateEnabled: bool,
    outputActionsEnabled: bool,
    countLabel: CountLabel,
    progressText: string)

  /**
   * What every handler keeps: both boxes list names in ascending order, the
   * target box never lists "Auto Detect", the translate button is
   * disabled while a translation runs, the output buttons are enabled exactly
   * when the output area holds text, and the progress label shows one of the
   * four messages.
   */
  predicate ValidState(s: AppState) {
    && Sorted(s.sourceChoices)
    && Sorted(s.targetChoices)
    && AutoDetect !in s.targetChoices
    && (s.isTranslating ==> !s.translateEnabled)
    && (s.outputActionsEnabled <==> s.outputText != [])
    && s.progressText in ProgressMessages
  }

  /** Python's truth test on an optional string: present and not empty. */
  predicate Truthy(x: Option<string>) {
    x.Some? && x.value != []
  }

  /**
   * The window as `__init__` builds it: idle, translating from the sentinel
   * into Spanish, both boxes listing every name they may, both text areas
   * empty, the translate button enabled and the output buttons disabled.
   */
  function InitialState(): (s: AppState)
    ensures ValidState(s)
    ensures !s.isTranslating && s.translateEnabled && !s.outputActionsEnabled
    ensures s.inputText == [] && s.outputText == []
    ensures s.sourceLang == AutoDetect && s.sourceLang in s.sourceChoices
    ensures s.targetLang == "Spanish" && s.targetLang in s.targetChoices
    ensures forall x :: x in s.sourceChoices <==> x in Names(Languages)
    ensures forall x :: x in s.targetChoices <==> x in Names(Languages) && x != AutoDetect
  {
    StartingNamesListed();
    AppState(false, AutoDetect, "Spanish", AllNames(), TargetNames(), [], [],
             true, false, Initial, ProgressMessages[0])
  }

  /**
   * `on_text_change`: the label follows the input text, and the translate
   * button is enabled exactly when the input is not blank and no translation
   * runs. Nothing else changes.
   */
  function TextChanged(s: AppState): (r: AppState)
    ensures r.translateEnabled <==> !IsBlank(s.inputText) && !s.isTranslating
    ensures r.countLabel == CountLabelFor(s.inputText)
    ensures r == s.(translateEnabled := r.translateEnabled, countLabel := r.countLabel)
    ensures ValidState(s) ==> ValidState(r)
  {
    StripEmptyIffBlank(s.inputText);
    var charCount := |Strip(s.inputText)|;
    s.(countLabel := CountLabelFor(s.inputText), translateEnabled := charCount > 0 && !s.isTranslating)
  }

  /** The input area holding `text`; nothing else changes. */
  function WithInput(s: AppState, text: string): (r: AppState)
    ensures r.inputText == text && r == s.(inputText := text)
    ensures ValidState(s) ==> ValidState(r)
  {
    s.(inputText := text)
  }

  /** A key typed into the input area: the new text, then `on_text_change`. */
  function InputEdited(s: AppState, text: string): (r: AppState)
    ensures r.inputText == text
    ensures r.translateEnabled <==> !IsBlank(text) && !s.isTranslating
    ensures r.countLabel.Ready? <==> IsBlank(text)
    ensures r.countLabel == CountLabelFor(text)
    ensures r == s.(inputText := text, translateEnabled := r.translateEnabled, countLabel := r.countLabel)
    ensures ValidState(s) ==> ValidState(r)
  {
    TextChanged(WithInput(s, text))
  }

  /**
   * `on_language_change`: a target of "Auto Detect" is replaced by
   * "English"; any other state is left as it is.
   */
  function LanguageChanged(s: AppState): (r: AppState)
    ensures r.targetLang != AutoDetect
    ensures s.targetLang == AutoDetect ==> r.targetLang == DefaultName
    ensures s.targetLang != AutoDetect ==> r == s
    ensures r == s.(targetLang := r.targetLang)
    ensures ValidState(s) ==> ValidState(r)
  {
    if s.targetLang == AutoDetect then s.(targetLang := DefaultName) else s
  }

  /** A name picked from the source list, then `on_language_change`. */
  function SourceSelected(s: AppState, name: string): (r: AppState)
    requires name in s.sourceChoices
    ensures r.sourceLang == name && r.targetLang != AutoDetect
    ensures s.targetLang != AutoDetect ==> r == s.(sourceLang := name)
    ensures s.targetLang == AutoDetect ==> r == s.(sourceLang := name, targetLang := DefaultName)
    ensures ValidState(s) ==> ValidState(r)
  {
    LanguageChanged(s.(sourceLang := name))
  }

  /** A name picked from the target list, then `on_language_change`. */
  function TargetSelected(s: AppState, name: string): (r: AppState)
    requires name in s.targetChoices
    ensures r.targetLang != AutoDetect
    ensures name != AutoDetect ==> r.targetLang == name
    ensures r == s.(targetLang := if name == AutoDetect then DefaultName else name)
    ensures ValidState(s) ==> ValidState(r)
  {
    LanguageChanged(s.(targetLang := name))
  }

  /**
   * `on_source_lang_search`: the source box lists the names containing the
   * lower-cased text of the box (all names when that text is empty), and a
   * name equal to it once lower-cased replaces it; `SourceSearchLists` and
   * `SourceSearchCanonical` state both.
   */
  function SourceSearched(s: AppState): (r: AppState)
    ensures r == s.(sourceChoices := r.sourceChoices, sourceLang := r.sourceLang)
    ensures ValidState(s) ==> ValidState(r)
  {
    SourceBoxSet(s, Search(AllNames(), s.sourceLang))
  }

  /** The text of the source box replaced by `text`, as typing does. */
  function WithSourceText(s: AppState, text: string): (r: AppState)
    ensures r == s.(sourceLang := text)
    ensures ValidState(s) ==> ValidState(r)
  {
    s.(sourceLang := text)
  }

  /** The source box showing what a search handler produced. */
  function SourceBoxSet(s: AppState, found: SearchResult): (r: AppState)
    ensures r == s.(sourceChoices := found.choices, sourceLang := found.chosen)
    ensures ValidState(s) && Sorted(found.choices) ==> ValidState(r)
  {
    s.(sourceChoices := found.choices, sourceLang := found.chosen)
  }

  /**
   * `on_target_lang_search`: as the source search, over the names other than
   * "Auto Detect", so the target box never lists the sentinel.
   */
  function TargetSearched(s: AppState): (r: AppState)
    ensures r == s.(targetChoices := r.targetChoices, targetLang := r.targetLang)
    ensures ValidState(s) ==> ValidState(r)
  {
    TargetBoxSet(s, Search(TargetNames(), s.targetLang))
  }

  /** The text of the target box replaced by `text`, as typing does. */
  function WithTargetText(s: AppState, text: string): (r: AppState)
    ensures r == s.(targetLang := text)
    ensures ValidState(s) ==> ValidState(r)
  {
    s.(targetLang := text)
  }

  /** The target box showing what a search handler produced. */
  function TargetBoxSet(s: AppState, found: SearchResult): (r: AppState)
    ensures r == s.(targetChoices := found.choices, targetLang := found.chosen)
    ensures ValidState(s) && Sorted(found.choices) && AutoDetect !in found.choices ==> ValidState(r)
  {
    s.(targetChoices := found.choices, targetLang := found.chosen)
  }

  /**
   * After a source search the box lists exactly the registry names that
   * contain the lower-cased query, or all of them for an empty query.
   */
  lemma SourceSearchLists(s: AppState)
    ensures var q := Lower(s.sourceLang);
      forall x :: x in SourceSearched(s).sourceChoices <==>
        x in Names(Languages) && (q == [] || Contains(Lower(x), q))
    ensures Distinct(SourceSearched(s).sourceChoices)
  {
    AllNamesOnce();
  }

  /**
   * A source search replaces the query by the registry name it equals once
   * lower-cased, and leaves it alone when no name does.
   */
  lemma SourceSearchCanonical(s: AppState)
    ensures var q := Lower(s.sourceLang);
      q != [] && (exists x | x in Names(Languages) :: Lower(x) == q) ==>
        SourceSearched(s).sourceLang in Names(Languages) && Lower(SourceSearched(s).sourceLang) == q
    ensures (forall x | x in Names(Languages) :: Lower(x) != Lower(s.sourceLang)) ==>
      SourceSearched(s).sourceLang == s.sourceLang
  {
    var found := Search(AllNames(), s.sourceLang);
    SearchChoosesMatch(AllNames(), s.sourceLang);
    assert SourceSearched(s).sourceLang == found.chosen;
  }

  /**
   * After a target search the box lists exactly the registry names other
   * than "Auto Detect" that contain the lower-cased query.
   */
  lemma TargetSearchLists(s: AppState)
    ensures var q := Lower(s.targetLang);
      forall x :: x in TargetSearched(s).targetChoices <==>
        x in Names(Languages) && x != AutoDetect && (q == [] || Contains(Lower(x), q))
    ensures Distinct(TargetSearched(s).targetChoices)
  {
  }

  /**
   * A target search replaces the query by the name other than "Auto Detect"
   * it equals once lower-cased, and leaves it alone when no such name does.
   */
  lemma TargetSearchCanonical(s: AppState)
    ensures var q := Lower(s.targetLang);
      q != [] && (exists x | x in Names(Languages) && x != AutoDetect :: Lower(x) == q) ==>
        && TargetSearched(s).targetLang in Names(Languages)
        && TargetSearched(s).targetLang != AutoDetect
        && Lower(TargetSearched(s).targetLang) == q
    ensures (forall x | x in Names(Languages) && x != AutoDetect :: Lower(x) != Lower(s.targetLang)) ==>
      TargetSearched(s).targetLang == s.targetLang
  {
    var found := Search(TargetNames(), s.targetLang);
    SearchChoosesMatch(TargetNames(), s.targetLang);
    assert TargetSearched(s).targetLang == found.chosen;
  }

  /**
   * `clear_output`: the output area is emptied and the copy, clear and save
   * buttons are disabled.
   */
  function OutputCleared(s: AppState): (r: AppState)
    ensures r.outputText == [] && !r.outputActionsEnabled
    ensures r == s.(outputText := r.outputText, outputActionsEnabled := r.outputActionsEnabled)
    ensures ValidState(s) ==> ValidState(r)
  {
    s.(outputText := [], outputActionsEnabled := false)
  }

  /**
   * The second half of `swap_languages`: when the output holds more than
   * whitespace, the stripped output becomes the input and the output is
   * cleared; otherwise nothing changes.
   */
  function OutputMovedToInput(s: AppState): (r: AppState)
    ensures !IsBlank(s.outputText) ==>
      r == s.(inputText := Strip(s.outputText), outputText := [], outputActionsEnabled := false)
    ensures IsBlank(s.outputText) ==> r == s
    ensures ValidState(s) ==> ValidState(r)
  {
    StripEmptyIffBlank(s.outputText);
    var output := Strip(s.outputText);
    if output != [] then OutputCleared(WithInput(s, output)) else s
  }

  /** The first half of `swap_languages`: the two names change places. */
  function NamesExchanged(s: AppState): (r: AppState)
    ensures r.sourceLang == s.targetLang && r.targetLang == s.sourceLang
    ensures r == s.(sourceLang := s.targetLang, targetLang := s.sourceLang)
    ensures ValidState(s) ==> ValidState(r)
  {
    s.(sourceLang := s.targetLang, targetLang := s.sourceLang)
  }

  /**
   * `swap_languages`: nothing happens while the source is "Auto Detect".
   * Otherwise the two names are exchanged and the output moves to the input.
   * The label and the translate button are not updated.
   */
  function Swapped(s: AppState): (r: AppState)
    ensures s.sourceLang == AutoDetect ==> r == s
    ensures s.sourceLang != AutoDetect ==> r.sourceLang == s.targetLang && r.targetLang == s.sourceLang
    ensures s.sourceLang != AutoDetect && !IsBlank(s.outputText) ==>
      r.inputText == Strip(s.outputText) && r.outputText == [] && !r.outputActionsEnabled
    ensures IsBlank(s.outputText) ==>
      r.inputText == s.inputText && r.outputText == s.outputText && r.outputActionsEnabled == s.outputActionsEnabled
    ensures r.isTranslating == s.isTranslating && r.translateEnabled == s.translateEnabled
    ensures r.countLabel == s.countLabel && r.progressText == s.progressText
    ensures r.sourceChoices == s.sourceChoices && r.targetChoices == s.targetChoices
    ensures ValidState(s) ==> ValidState(r)
  {
    if s.sourceLang == AutoDetect then s
    else OutputMovedToInput(NamesExchanged(s))
  }

  /** The flag raised and the translate button disabled. */
  function FlagRaised(s: AppState): (r: AppState)
    ensures r.isTranslating && !r.translateEnabled
    ensures r == s.(isTranslating := true, translateEnabled := false)
    ensures ValidState(s) ==> ValidState(r)
  {
    s.(isTranslating := true, translateEnabled := false)
  }

  /**
   * `start_translation`, with the first step of `animate_progress_text`
   * that it calls: the flag is raised, the translate button disabled, and
   * the progress label moves on by one message.
   */
  function TranslationStarted(s: AppState): (r: AppState)
    ensures r.isTranslating && !r.translateEnabled
    ensures r.progressText == NextProgressText(s.progressText)
    ensures r == s.(isTranslating := true, translateEnabled := false, progressText := r.progressText)
    ensures ValidState(s) ==> ValidState(r)
  {
    ProgressAdvanced(FlagRaised(s))
  }

  /**
   * `animate_progress_text`: while a translation runs the label moves on by
   * one message; once it is over, nothing happens.
   */
  function ProgressAdvanced(s: AppState): (r: AppState)
    ensures !s.isTranslating ==> r == s
    ensures s.isTranslating ==> r == s.(progressText := NextProgressText(s.progressText))
    ensures ValidState(s) ==> ValidState(r)
  {
    if s.isTranslating then s.(progressText := NextProgressText(s.progressText)) else s
  }

  /**
   * The first part of `translation_complete`: the flag is lowered and the
   * translate button enabled; a non-empty error leaves the output alone,
   * and otherwise a non-empty translation fills the output area and
   * enables the output buttons.
   */
  function ReplyShown(s: AppState, translated: Option<string>, error: Option<string>): (r: AppState)
    ensures !r.isTranslating && r.translateEnabled
    ensures Truthy(error) || !Truthy(translated) ==>
      r == s.(isTranslating := false, translateEnabled := true)
    ensures !Truthy(error) && Truthy(translated) ==>
      r == s.(isTranslating := false, translateEnabled := true,
              outputText := translated.value, outputActionsEnabled := true)
    ensures ValidState(s) ==> ValidState(r)
  {
    var idle := s.(isTranslating := false, translateEnabled := true);
    if Truthy(error) then idle
    else if Truthy(translated) then idle.(outputText := translated.value, outputActionsEnabled := true)
    else idle
  }

  /**
   * `translation_complete(translated_text, error)`: the flag is lowered; a
   * non-empty error wins and leaves the output alone; otherwise a non-empty
   * translation fills the output area and enables the output buttons; then
   * `on_text_change` sets the label and the translate button.
   */
  function Completed(s: AppState, translated: Option<string>, error: Option<string>): (r: AppState)
    ensures !r.isTranslating
    ensures r.translateEnabled <==> !IsBlank(s.inputText)
    ensures r.countLabel == CountLabelFor(s.inputText)
    ensures Truthy(error) || !Truthy(translated) ==>
      r.outputText == s.outputText && r.outputActionsEnabled == s.outputActionsEnabled
    ensures !Truthy(error) && Truthy(translated) ==>
      r.outputText == translated.value && r.outputActionsEnabled
    ensures r.inputText == s.inputText && r.sourceLang == s.sourceLang && r.targetLang == s.targetLang
    ensures r.sourceChoices == s.sourceChoices && r.targetChoices == s.targetChoices
    ensures r.progressText == s.progressText
    ensures ValidState(s) ==> ValidState(r)
  {
    TextChanged(ReplyShown(s, translated, error))
  }

  /** What pressing the translate button asks for. */
  datatype TranslateStart =
    | Busy                                                // a translation already runs
    | EmptyInput                                          // the warning about empty input
    | Started(text: string, source: string, target: string)  // a request to the service

  /**
   * The checks of the `translate_text` handler: nothing while a translation
   * runs, a warning on blank input, and otherwise a request with the stripped
   * input and the codes of the two names.
   */
  function TranslateRequest(s: AppState): (q: TranslateStart)
    ensures q.Busy? <==> s.isTranslating
    ensures q.EmptyInput? <==> !s.isTranslating && IsBlank(s.inputText)
    ensures q.Started? ==>
      && q.text == Strip(s.inputText) && !IsBlank(q.text)
      && q.source == GetLanguageCode(s.sourceLang) && q.target == GetLanguageCode(s.targetLang)
  {
    StripEmptyIffBlank(s.inputText);
    var text := Strip(s.inputText);
    if s.isTranslating then Busy
    else if text == [] then EmptyInput
    else
      assert !IsBlank(text) by { assert !IsSpace(text[0]); }
      Started(text, GetLanguageCode(s.sourceLang), GetLanguageCode(s.targetLang))
  }

  /** The state after the translate button: started when a request goes out, else unchanged. */
  function TranslatePressed(s: AppState): (r: AppState)
    ensures TranslateRequest(s).Started? ==> r == TranslationStarted(s)
    ensures !TranslateRequest(s).Started? ==> r == s
    ensures ValidState(s) ==> ValidState(r)
  {
    if TranslateRequest(s).Started? then TranslationStarted(s) else s
  }

  /**
   * A press of the translate button followed, when it starts a request, by
   * the service's reply and `translation_complete` on that reply.
   */
  function TranslationCycle(s: AppState, backend: Translator.Outcome<Option<Translator.Translated>>): (r: AppState)
    ensures !TranslateRequest(s).Started? ==> r == s
    ensures TranslateRequest(s).Started? ==> !r.isTranslating
    ensures ValidState(s) ==> ValidState(r)
  {
    match TranslateRequest(s)
    case Started(text, source, target) =>
      var reply := Translator.TranslateText(text, source, target, backend);
      Completed(TranslationStarted(s), reply.value, reply.error)
    case _ => s
  }

  /** What the save button produces. */
  datatype SaveOutcome =
    | NothingToSave             // the warning about an empty output
    | FileText(contents: string)  // the text written to the chosen file

  /**
   * `save_translation`: a warning when the output is blank; otherwise the
   * saved layout of the two names, the stripped input and the stripped output.
   */
  function SaveRequest(s: AppState): (o: SaveOutcome)
    ensures o.NothingToSave? <==> IsBlank(s.outputText)
    ensures o.FileText? && '\n' !in s.sourceLang && '\n' !in s.targetLang ==>
      Lines(o.contents) ==
        ["Phrase Bridge Translation", Rule(), "",
         "Source Language: " + s.sourceLang, "Target Language: " + s.targetLang, "",
         "Original Text:"] + Lines(Strip(s.inputText)) + ["", "Translation:"] + Lines(Strip(s.outputText)) + [""]
  {
    StripEmptyIffBlank(s.outputText);
    var translation := Strip(s.outputText);
    if translation == [] then NothingToSave
    else
      var contents := SaveFileText(s.sourceLang, s.targetLang, Strip(s.inputText), translation);
      assert '\n' !in s.sourceLang && '\n' !in s.targetLang ==>
        Lines(contents) ==
          ["Phrase Bridge Translation", Rule(), "",
           "Source Language: " + s.sourceLang, "Target Language: " + s.targetLang, "",
           "Original Text:"] + Lines(Strip(s.inputText)) + ["", "Translation:"] + Lines(translation) + [""]
      by {
        if '\n' !in s.sourceLang && '\n' !in s.targetLang {
          SaveFileLines(s.sourceLang, s.targetLang, Strip(s.inputText), translation);
        }
      }
      FileText(contents)
  }

  // Properties of the window.

  /**
   * At most one request is in flight: once a request starts, every further
   * press of the button is refused until `translation_complete`, and neither
   * the progress animation nor any other handler lowers the flag.
   */
  lemma SingleFlight(s: AppState, text: string, name: string)
    requires TranslateRequest(s).Started?
    ensures var t := TranslatePressed(s);
      && t.isTranslating
      && TranslateRequest(t) == Busy
      && TranslateRequest(ProgressAdvanced(t)) == Busy
      && TranslateRequest(InputEdited(t, text)) == Busy
      && TranslateRequest(Swapped(t)) == Busy
      && TranslateRequest(TextChanged(t)) == Busy
      && !TextChanged(t).translateEnabled
  {
  }

  /** A request that goes out never comes back with the empty-text error. */
  lemma StartedRequestIsNotEmpty(s: AppState, backend: Translator.Outcome<Option<Translator.Translated>>)
    requires TranslateRequest(s).Started?
    ensures var q := TranslateRequest(s);
      Translator.TranslateText(q.text, q.source, q.target, backend).error != Some(Translator.EmptyTextError)
  {
    var q := TranslateRequest(s);
    if |q.text| > Translator.MaxChars {
      assert Translator.TooLongError[0] == 'T' != Translator.EmptyTextError[0];
    } else if !Translator.CallsBackend(q.text, q.source, q.target) {
    } else {
      Translator.BackendErrorsAreNotValidationErrors(backend);
    }
  }

  /**
   * With the same registry name, other than "Auto Detect", on both sides,
   * the request carries the same code twice, and that code is not "auto".
   */
  lemma SameLanguageRequest(s: AppState)
    requires !s.isTranslating && !IsBlank(s.inputText)
    requires s.sourceLang == s.targetLang && s.sourceLang in Names(Languages) && s.sourceLang != AutoDetect
    ensures var q := TranslateRequest(s);
      q.Started? && q.source == q.target && q.source != AutoCode
  {
    OnlySentinelIsAuto(s.sourceLang);
  }

  /**
   * Translating a text between a language and itself completes with the
   * stripped input as the translation and no error, whatever the service
   * would have answered.
   */
  lemma SameLanguageCompletes(s: AppState, backend: Translator.Outcome<Option<Translator.Translated>>)
    requires !s.isTranslating && !IsBlank(s.inputText) && |Strip(s.inputText)| <= Translator.MaxChars
    requires s.sourceLang == s.targetLang && s.sourceLang in Names(Languages) && s.sourceLang != AutoDetect
    ensures TranslationCycle(s, backend) == Completed(TranslationStarted(s), Some(Strip(s.inputText)), None)
  {
    SameLanguageRequest(s);
    var q := TranslateRequest(s);
    assert q.text != [] by { assert !IsBlank(q.text); }
    assert Translator.TranslateText(q.text, q.source, q.target, backend) == Translator.Reply(Some(q.text), None);
  }

  /** ... so the output area shows the stripped input and its buttons are enabled. */
  lemma SameLanguageShowsInput(s: AppState, backend: Translator.Outcome<Option<Translator.Translated>>)
    requires !s.isTranslating && !IsBlank(s.inputText) && |Strip(s.inputText)| <= Translator.MaxChars
    requires s.sourceLang == s.targetLang && s.sourceLang in Names(Languages) && s.sourceLang != AutoDetect
    ensures TranslationCycle(s, backend).outputText == Strip(s.inputText)
    ensures TranslationCycle(s, backend).outputActionsEnabled
  {
    SameLanguageCompletes(s, backend);
    StripEmptyIffBlank(s.inputText);
  }

  /**
   * Swapping twice brings both names back; the texts move at most once,
   * because the first swap that moves them also empties the output.
   */
  lemma {:induction false} SwapTwice(s: AppState)
    requires s.sourceLang != AutoDetect && s.targetLang != AutoDetect
    ensures var r := Swapped(Swapped(s));
      && r.sourceLang == s.sourceLang && r.targetLang == s.targetLang
      && r == Swapped(s).(sourceLang := s.sourceLang, targetLang := s.targetLang)
  {
    var t := Swapped(s);
    assert IsBlank(t.outputText) by {
      if !IsBlank(s.outputText) {
        assert t.outputText == [];
      }
    }
  }

  /** While a translation runs, four steps of the animation bring the label back. */
  lemma ProgressReturnsAfterFour(s: AppState)
    requires ValidState(s) && s.isTranslating
    ensures ProgressAdvanced(ProgressAdvanced(ProgressAdvanced(ProgressAdvanced(s)))) == s
  {
    var k :| 0 <= k < |ProgressMessages| && ProgressMessages[k] == s.progressText;
    ProgressCycles(k);
  }

  /**
   * After a reply the translate button is enabled exactly when the input
   * is not blank, whatever the reply was.
   */
  lemma ButtonAfterReply(s: AppState, backend: Translator.Outcome<Option<Translator.Translated>>)
    requires TranslateRequest(s).Started?
    ensures TranslationCycle(s, backend).translateEnabled
  {
  }
}
