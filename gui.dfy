/**
 * The application window as an object whose handlers update its fields in
 * place. Each handler is proved to make the change that the function of the
 * same name in `WindowState` describes, and to keep `WindowState.ValidState`.
 */
module Gui {
  import opened Options
  import opened Text
  import opened LanguageCodes
  import opened GuiLogic
  import opened WindowState
  import Translator

  class TranslationApp {
    var isTranslating: bool
    var sourceLang: string
    var targetLang: string
    var sourceChoices: seq<string>
    var targetChoices: seq<string>
    var inputText: string
    var outputText: string
    var translateEnabled: bool
    var outputActionsEnabled: bool
    var countLabel: CountLabel
    var progressText: string

    /** The fields, as one value. */
    function State(): AppState
      reads this
    {
      AppState(isTranslating, sourceLang, targetLang, sourceChoices, targetChoices,
               inputText, outputText, translateEnabled, outputActionsEnabled, countLabel, progressText)
    }

    predicate Valid()
      reads this
    {
      ValidState(State())
    }

    /** `__init__`, without the widgets. */
    constructor ()
      ensures State() == InitialState() && Valid()
    {
      isTranslating := false;
      sourceLang := AutoDetect;
      targetLang := "Spanish";
      sourceChoices := GetLanguageNames();
      targetChoices := WithoutAutoDetect(GetLanguageNames());
      inputText := [];
      outputText := [];
      translateEnabled := true;
      outputActionsEnabled := false;
      countLabel := Initial;
      progressText := ProgressMessages[0];
    }

    method OnTextChange()
      requires Valid()
      modifies this
      ensures Valid() && State() == TextChanged(old(State()))
    {
      ghost var after := TextChanged(State());
      var text := Strip(inputText);
      var charCount := |text|;
      countLabel := CountLabelFor(inputText);
      translateEnabled := charCount > 0 && !isTranslating;
      assert State() == after;
    }

    /** The user replaces the input text; the key release runs `on_text_change`. */
    method EditInput(text: string)
      requires Valid()
      modifies this
      ensures Valid() && State() == InputEdited(old(State()), text)
    {
      ghost var edited := WithInput(State(), text);
      inputText := text;
      assert State() == edited;
      OnTextChange();
    }

    /** `clear_input`: the input box is emptied and `on_text_change` runs. */
    method ClearInput()
      requires Valid()
      modifies this
      ensures Valid() && State() == InputEdited(old(State()), [])
    {
      EditInput([]);
    }

    /**
     * `paste_text`, given what the clipboard holds: a non-empty clipboard
     * replaces the input text, and an empty one changes nothing.
     */
    method PasteText(clipboard: string)
      requires Valid()
      modifies this
      ensures Valid()
      ensures clipboard != [] ==> State() == InputEdited(old(State()), clipboard)
      ensures clipboard == [] ==> State() == old(State())
    {
      if clipboard != [] {
        EditInput(clipboard);
      }
    }

    method OnLanguageChange()
      requires Valid()
      modifies this
      ensures Valid() && State() == LanguageChanged(old(State()))
    {
      ghost var after := LanguageChanged(State());
      if targetLang == AutoDetect {
        targetLang := DefaultName;
      }
      assert State() == after;
    }

    /** The user picks a name from the source list. */
    method SelectSourceLang(name: string)
      requires Valid() && name in sourceChoices
      modifies this
      ensures Valid() && State() == SourceSelected(old(State()), name)
    {
      ghost var picked := State().(sourceLang := name);
      assert ValidState(picked);
      sourceLang := name;
      assert State() == picked;
      OnLanguageChange();
    }

    /** The user picks a name from the target list. */
    method SelectTargetLang(name: string)
      requires Valid() && name in targetChoices
      modifies this
      ensures Valid() && State() == TargetSelected(old(State()), name)
    {
      ghost var picked := State().(targetLang := name);
      assert ValidState(picked);
      targetLang := name;
      assert State() == picked;
      OnLanguageChange();
    }

    method OnSourceLangSearch()
      requires Valid()
      modifies this
      ensures Valid() && State() == SourceSearched(old(State()))
    {
      var allLanguages := GetLanguageNames();
      assert allLanguages == AllNames();
      var result := SearchNames(allLanguages, sourceLang);
      ShowSourceSearch(result);
    }

    /** Puts the list and the text a search produced into the source box. */
    method ShowSourceSearch(found: SearchResult)
      modifies this
      ensures State() == SourceBoxSet(old(State()), found)
    {
      sourceChoices := found.choices;
      sourceLang := found.chosen;
    }

    method OnTargetLangSearch()
      requires Valid()
      modifies this
      ensures Valid() && State() == TargetSearched(old(State()))
    {
      var names := GetLanguageNames();
      assert names == AllNames();
      var allLanguages := WithoutAutoDetect(names);
      assert allLanguages == TargetNames();
      var result := SearchNames(allLanguages, targetLang);
      ShowTargetSearch(result);
    }

    /** Puts the list and the text a search produced into the target box. */
    method ShowTargetSearch(found: SearchResult)
      modifies this
      ensures State() == TargetBoxSet(old(State()), found)
    {
      targetChoices := found.choices;
      targetLang := found.chosen;
    }

    /** The user types into the source box; the key release runs the search. */
    method TypeSourceLang(text: string)
      requires Valid()
      modifies this
      ensures Valid() && State() == SourceSearched(WithSourceText(old(State()), text))
    {
      ghost var typed := WithSourceText(State(), text);
      sourceLang := text;
      assert State() == typed;
      OnSourceLangSearch();
    }

    /** The user types into the target box; the key release runs the search. */
    method TypeTargetLang(text: string)
      requires Valid()
      modifies this
      ensures Valid() && State() == TargetSearched(WithTargetText(old(State()), text))
    {
      ghost var typed := WithTargetText(State(), text);
      targetLang := text;
      assert State() == typed;
      OnTargetLangSearch();
    }

    method ClearOutput()
      requires Valid()
      modifies this
      ensures Valid() && State() == OutputCleared(old(State()))
    {
      ghost var after := OutputCleared(State());
      outputText := [];
      outputActionsEnabled := false;
      assert State() == after;
    }

    method SwapLanguages()
      requires Valid()
      modifies this
      ensures Valid() && State() == Swapped(old(State()))
    {
      var source := sourceLang;
      var target := targetLang;
      if source == AutoDetect {
        return;
      }
      ghost var exchanged := NamesExchanged(State());
      sourceLang := target;
      targetLang := source;
      assert State() == exchanged;
      var output := Strip(outputText);
      StripEmptyIffBlank(outputText);
      if output != [] {
        ghost var moved := WithInput(exchanged, output);
        inputText := output;
        assert State() == moved;
        ClearOutput();
      }
    }

    method AnimateProgressText()
      requires Valid()
      modifies this
      ensures Valid() && State() == ProgressAdvanced(old(State()))
    {
      ghost var after := ProgressAdvanced(State());
      if !isTranslating {
        return;
      }
      progressText := ProgressMessages[NextProgressIndex(progressText)];
      assert State() == after;
    }

    method StartTranslation()
      requires Valid()
      modifies this
      ensures Valid() && State() == TranslationStarted(old(State()))
    {
      ghost var busy := FlagRaised(State());
      isTranslating := true;
      translateEnabled := false;
      assert State() == busy;
      AnimateProgressText();
    }

    /**
     * The `translate_text` handler, up to the point where the worker would
     * take the request: it returns the request it starts, if any.
     */
    method TranslateText() returns (request: TranslateStart)
      requires Valid()
      modifies this
      ensures request == TranslateRequest(old(State()))
      ensures Valid() && State() == TranslatePressed(old(State()))
    {
      if isTranslating {
        return Busy;
      }
      var text := Strip(inputText);
      if text == [] {
        return EmptyInput;
      }
      var source := GetLanguageCode(sourceLang);
      var target := GetLanguageCode(targetLang);
      StartTranslation();
      request := Started(text, source, target);
    }

    method TranslationComplete(translated: Option<string>, error: Option<string>)
      requires Valid()
      modifies this
      ensures Valid() && State() == Completed(old(State()), translated, error)
    {
      ghost var shown := ReplyShown(State(), translated, error);
      isTranslating := false;
      translateEnabled := true;
      if error.Some? && error.value != [] {
      } else if translated.Some? && translated.value != [] {
        outputText := translated.value;
        outputActionsEnabled := true;
      }
      assert State() == shown;
      OnTextChange();
    }

    /**
     * A press of the translate button with the worker run to its end at
     * once: the service's reply to the request goes to `translation_complete`.
     */
    method TranslateWith(backend: Translator.Outcome<Option<Translator.Translated>>)
      requires Valid()
      modifies this
      ensures Valid() && State() == TranslationCycle(old(State()), backend)
    {
      var request := TranslateText();
      if request.Started? {
        var reply := Translator.TranslateText(request.text, request.source, request.target, backend);
        TranslationComplete(reply.value, reply.error);
      }
    }

    /** `save_translation`, up to the text it writes; the fields do not change. */
    method SaveTranslation() returns (outcome: SaveOutcome)
      ensures outcome.NothingToSave? <==> IsBlank(outputText)
      ensures outcome.FileText? ==>
        outcome.contents == SaveFileText(sourceLang, targetLang, Strip(inputText), Strip(outputText))
    {
      var translation := Strip(outputText);
      StripEmptyIffBlank(outputText);
      if translation == [] {
        return NothingToSave;
      }
      var sourceText := Strip(inputText);
      outcome := FileText(SaveFileText(sourceLang, targetLang, sourceText, translation));
    }
  }
}
