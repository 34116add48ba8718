# Phrase Bridge, modelled in Dafny

Phrase Bridge is a desktop translator. A window takes text and a pair of
languages and sends the text to a translation backend, and the translation
comes back into the window. This project models its three core pieces.

- **The language registry** (`language_codes.dfy`): the table of 76
  display names and codes, with the sentinel "Auto Detect" ↦ "auto" first.
  It also has the three lookups: the sorted name list, name to code with
  the fallback "en", and code to name with the fallback "English".
  The table is proved well formed: no name and no code occurs twice. On it,
  both lookups are proved to be inverse to each other.
- **The translation service** (`translator.dfy`): the checks a request
  passes before the backend is called. These are a blank text, the
  5000-character limit, and same-language identity. The model also turns
  every exception the backend can raise into the message the service
  reports, and covers language detection and the availability probe. The
  backend is a parameter: an `Outcome` that either returns a value or raises
  a `Failure`.
- **The window**: its pure logic is in `gui_logic.dfy`. That covers:
  - the character-count bands;
  - the language search that narrows and canonicalises a language box;
  - the four-message progress animation;
  - the layout of a saved translation.

  Each event handler's change to the window state is a function in
  `window_state.dfy`, with the invariant every handler keeps. The class
  `Gui.TranslationApp` in `gui.dfy` holds the same state in fields. Its
  methods update those fields in place, and each is proved to make exactly
  the change its function describes.

Supporting modules:

- `text.dfy` models the parts of Python's `str` the code relies on:
  `strip`, `lower`, `in`, `split` for counting words, `str(n)`, and string
  ordering.
- `sorting.dfy` models `sorted()` as the unique ascending permutation.
- `option.dfy` holds `Option`.

Where the documented design of the system and the code differ, the model follows
the code:

- **A result's text can be `None`.** `translate_text` returns the `text`
  attribute of the backend's result, which may be `None`. The reply is then
  neither a translation nor an error. `Translator.ExactlyOneOfPair` excludes
  only that case.
- **The saved file's layout.** It starts with the title line
  "Phrase Bridge Translation", then a rule of 31 `=` characters and a blank
  line, and it ends with a newline (`GuiLogic.SaveFileText`,
  `GuiLogic.HeadLines`).
- **A target of "auto" is only avoided, not enforced.** The target box
  never lists "Auto Detect", and `on_language_change` turns a selected
  "Auto Detect" into "English". The boxes accept typed text, though, and
  `translate_text` maps whatever the target box holds through
  `get_language_code`. So a target code of "auto" is excluded only by the
  lists, not by a check. `WindowState.ValidState` therefore constrains the
  lists, not the typed text.
- **`get_language_name` takes the first matching entry.** It scans the
  table in declaration order and returns the first entry with the code.
  Codes are in fact unique (`LanguageCodes.LanguagesWellFormed`), so
  "first" and "only" agree.

## Model

| member | source | states |
|---|---|---|
| LanguageCodes.LanguagesWellFormed | language_codes.py:7-84 | no two registry entries share a display name or a code |
| LanguageCodes.LanguagesHead | language_codes.py:7-10 | the registry has 76 entries; the first three are ("Auto Detect", "auto"), ("English", "en") and ("Spanish", "es") |
| LanguageCodes.WellFormedOfRows | language_codes.py:7-84 | rows that are internally repetition-free and pairwise disjoint flatten to a registry with unique names and unique codes |
| LanguageCodes.FirstIndex | language_codes.py:99-101 | the position found is the first occurrence of the key, and there is none exactly when the key is absent |
| LanguageCodes.FirstIndexOfDistinct | language_codes.py:99-101 | in a repetition-free list the first occurrence of an element is its own position |
| LanguageCodes.CodeIn | language_codes.py:92-94 | a known name yields a code paired with it in the table; an unknown name yields "en" |
| LanguageCodes.NameIn | language_codes.py:97-102 | a known code yields the name of the first entry carrying it; an unknown code yields "English" |
| LanguageCodes.CodeInEntry | language_codes.py:92-94 | with unique names, each name maps to the code of its own entry |
| LanguageCodes.NameInEntry | language_codes.py:97-102 | with unique codes, each code maps to the name of its own entry |
| LanguageCodes.NameCodeRoundTrip | language_codes.py:92-102 | in a well-formed table, name → code → name is the identity on names |
| LanguageCodes.CodeNameRoundTrip | language_codes.py:92-102 | with unique names, code → name → code is the identity on codes |
| LanguageCodes.GetLanguageNames | language_codes.py:87-89 | the name list is in ascending order and is a permutation of the registry's keys |
| LanguageCodes.GetLanguageNamesIsSortedKeys | language_codes.py:87-89 | the name list is the only ascending permutation of the keys; it has all 76 names once each, "Auto Detect" included |
| LanguageCodes.GetLanguageCode | language_codes.py:92-94 | a registry name gets a code paired with it; anything else gets "en" |
| LanguageCodes.GetLanguageName | language_codes.py:97-102 | a registry code gets the name of the first entry with that code; anything else gets "English" |
| LanguageCodes.GetLanguageCodeOfKey | language_codes.py:92-94 | every registry name gets the code of its own entry |
| LanguageCodes.GetLanguageNameOfCode | language_codes.py:97-102 | every registry code gets the name of its own entry |
| LanguageCodes.LanguageNameRoundTrip | language_codes.py:92-102 | for every registry name, the name of its code is the name itself |
| LanguageCodes.LanguageCodeRoundTrip | language_codes.py:92-102 | for every registry code, the code of its name is the code itself |
| LanguageCodes.OnlySentinelIsAuto | language_codes.py:8 | no registry name other than "Auto Detect" has the code "auto" |
| LanguageCodes.FallbacksAgree | language_codes.py:94 | the two fallbacks name each other, so code of name of code of any string equals its code |
| Sorting.Insert | language_codes.py:89 | inserting into an ascending list gives an ascending list holding one more copy of the element |
| Sorting.Sort | language_codes.py:89 | `sorted()` yields an ascending permutation of its argument |
| Sorting.SortedUnique | language_codes.py:89 | two ascending permutations of the same strings are equal, so the result of `sorted()` is determined |
| Sorting.DistinctIffSingleCounts | language_codes.py:7-84 | a list has no repetitions exactly when each element occurs once in its multiset |
| Sorting.DistinctPermutation | language_codes.py:89 | a permutation of a repetition-free list is repetition-free and of the same length |
| Text.SpaceCharacters | gui.py:480 | space, tab, newline and carriage return are whitespace to `strip()`; no printable ASCII character is |
| Text.StripLeft | gui.py:480 | the result is a suffix of the input, the dropped prefix is whitespace, and the result does not start with whitespace |
| Text.StripRight | gui.py:480 | the result is a prefix of the input, the dropped suffix is whitespace, and the result does not end with whitespace |
| Text.Strip | gui.py:480 | the stripped text is no longer than the input and neither starts nor ends with whitespace |
| Text.StripDropsBlanks | gui.py:480 | the stripped text is a slice of the input with only whitespace before and after it |
| Text.StripEmptyIffBlank | translator.py:33-34 | `not text.strip()` holds exactly when the text is blank |
| Text.Lower | translator.py:61 | lower-casing keeps the length of the text |
| Text.LowerChars | translator.py:61 | each capital letter becomes its small letter, every other character stays, and no capital is left |
| Text.LowerLacks | translator.py:61-67 | a character absent from a message, as itself and as its capital, is absent from the lower-cased message |
| Text.Contains | gui.py:524 | every string contains itself and the empty string, and nothing longer than itself |
| Text.AbsentCharNotContained | translator.py:62-67 | a pattern holding a character the text lacks does not occur in it |
| Text.LowerIdempotent | translator.py:61 | lower-casing twice is lower-casing once |
| Text.LessEqFirst | language_codes.py:89 | the empty string comes first, and otherwise ordered strings have ordered first characters |
| Text.LessEqPrefix | language_codes.py:89 | a string comes before every string it is a prefix of |
| Text.LessEqReflexive | language_codes.py:89 | string ordering is reflexive |
| Text.LessEqTotal | language_codes.py:89 | any two strings are ordered one way or the other |
| Text.LessEqAntisymmetric | language_codes.py:89 | strings ordered both ways are equal |
| Text.LessEqTransitive | language_codes.py:89 | string ordering is transitive |
| Text.DecimalString | translator.py:38 | `str(n)` is a non-empty string of digits with no leading zero, and its digits read back as `n` |
| Text.WordCount | gui.py:482 | the number of words is at most the number of characters |
| Text.WordCountZeroIffBlank | gui.py:482 | text has no words exactly when it is blank |
| Translator.Diagnose | translator.py:60-69 | the generic handler's class of a message, each class characterised by which substrings the lower-cased message contains, in priority order 429/too many requests, then 403/forbidden, then service unavailable |
| Translator.FailureMessage | translator.py:54-69 | a connection error reports the network message and a timeout the timeout message; an HTTP error reports its message after the service-error prefix; any other error reports the rate-limit, access-denied or unavailable message by its diagnosis, and an unrecognised one its message after the failure prefix; no such message is empty or equal to a validation message |
| Translator.BackendReply | translator.py:45-69 | a raised failure gives no text and its message; a returned result gives its text and no error; a returned `None` raises an attribute error that the generic handler reports after the failure prefix |
| Translator.NoneAttributeMessage | translator.py:52 | the message of the attribute error raised by reading an attribute of `None` names that attribute |
| Translator.NoneTextIsUnrecognised | translator.py:52-69 | the attribute error of a `None` result matches none of the rate-limit, access-denied or unavailable markers |
| Translator.RateLimitReported | translator.py:60-63 | a request that reaches the backend and meets an error whose lower-cased message contains "429" reports the rate-limit message |
| Translator.TranslateText | translator.py:19-69 | blank text gives the empty-text error; a longer-than-5000 text gives the length error; the same non-"auto" language on both sides returns the text unchanged; every other request is the backend's reply |
| Translator.DetectLanguage | translator.py:71-89 | blank text gives the no-text error; a raised failure gives the detection-failed prefix plus its message; a returned detection gives its language; a returned `None` gives the detection-failed prefix plus the attribute error's message |
| Translator.IsServiceAvailable | translator.py:100-112 | the service is reported available only when the probe returned |
| Translator.BackendCalledOnlyWhenNeeded | translator.py:33-42 | a request that fails a check or is an identity gets the same reply whatever the backend would do |
| Translator.BackendCalledWhenNeeded | translator.py:45-57 | a request that passes the checks and is not an identity does get the backend's connection and timeout messages |
| Translator.LengthLimitInclusive | translator.py:37-38 | for non-blank text, the length error occurs exactly when the unstripped text has more than 5000 characters |
| Translator.BackendErrorsAreNotValidationErrors | translator.py:54-69 | no backend error reads like the empty-text or the length error |
| Translator.ExactlyOneOfPair | translator.py:19-69 | every reply has exactly one of a translation and an error, unless the backend's result has no text |
| Translator.ErrorMessagesNonEmpty | translator.py:19-89 | every error that translation or detection reports is a non-empty message |
| Translator.DiagnosisIgnoresCase | translator.py:61 | the classification of a message does not depend on its letter case |
| Translator.DiagnosisPriority | translator.py:61-67 | "429" always means rate limit; "forbidden" means access denied unless a rate-limit marker is present; "service unavailable" is never unrecognised |
| Translator.AvailabilityMatchesProbe | translator.py:100-112 | the service is available exactly when translating "test" from "en" to "es" would come back without an error |
| GuiLogic.CountLabelFor | gui.py:478-504 | the label is "Ready" exactly for blank input; otherwise it counts the stripped characters and at least one word, in the band over 4500, over 4000 up to 4500, or 1 to 4000 |
| GuiLogic.CountBandsMonotone | gui.py:485-504 | more stripped text never moves the label to a lower band |
| GuiLogic.Keep | gui.py:217 | a list comprehension keeps exactly the elements that pass the test, keeps ascending order, and keeps a list without repetitions free of them |
| GuiLogic.KeepCounts | gui.py:217 | every kept element occurs as often as in the input, and no other element occurs |
| GuiLogic.WithoutAutoDetect | gui.py:217 | the target names are exactly the given names other than "Auto Detect", still ascending, and without repetitions when the given names have none |
| GuiLogic.MatchingNames | gui.py:524 | the filtered names are exactly those whose lower-cased form contains the query, still ascending, and without repetitions when the given names have none |
| GuiLogic.FirstExactMatch | gui.py:528-531 | the result is the first name equal to the query once lower-cased, and there is none exactly when no name is |
| GuiLogic.FindExactMatch | gui.py:528-531 | the loop that stops at the first exact match finds the same name as `FirstExactMatch` |
| GuiLogic.SearchNames | gui.py:518-552 | the search computes the list and the text that `Search` specifies |
| GuiLogic.AllNames | gui.py:191 | the source box lists the registry's names in ascending order |
| GuiLogic.AllNamesOnce | gui.py:191 | the source box lists each of the 76 registry names exactly once: its multiset is the registry's names |
| GuiLogic.TargetNames | gui.py:218 | the target box lists the registry's names other than "Auto Detect", in ascending order, each once |
| GuiLogic.Search | gui.py:518-552 | an empty query lists all names and keeps the text; otherwise the list is exactly the names containing the lower-cased query, ascending and without repetitions when the names are, and the first name equal to the query once lower-cased replaces the text |
| GuiLogic.SearchChoosesMatch | gui.py:527-531 | when some name equals the query once lower-cased, the text becomes such a name; when none does, the text stays |
| GuiLogic.ChosenIsListed | gui.py:524-531 | a name the search leaves in the box is among the names it lists |
| GuiLogic.ProgressMessagesDistinct | gui.py:791-796 | there are four progress messages, all different |
| GuiLogic.NextProgressIndex | gui.py:798-803 | the next message index is one past the current message's index, wrapping after four; an unknown text restarts at 0 |
| GuiLogic.NextProgressText | gui.py:791-805 | the progress label always shows one of the four messages |
| GuiLogic.ProgressCycles | gui.py:791-805 | each step shows the next message, and four steps return to the starting message |
| GuiLogic.Rule | gui.py:732 | the line under the title is 31 equals signs |
| GuiLogic.OneLine | gui.py:731-736 | text without a newline is a single line |
| GuiLogic.LinesOfJoin | gui.py:731-736 | the lines of a + newline + b are the lines of a followed by the lines of b |
| GuiLogic.AppendLine | gui.py:731-736 | writing one more newline-free line appends it to the lines |
| GuiLogic.HeadingsAreLines | gui.py:731-735 | the fixed headings and the two language lines contain no newline |
| GuiLogic.HeadLines | gui.py:731-735 | the file's head is seven lines: title, rule, blank, two languages, blank, original heading |
| GuiLogic.SaveFileText | gui.py:731-736 | the saved text opens with the title line and closes with the translation followed by a newline |
| GuiLogic.SaveFileLines | gui.py:731-736 | the saved file is, line by line, title, rule, blank, source language, target language, blank, "Original Text:", the original's lines, blank, "Translation:", the translation's lines, and a final empty piece after the last newline |
| WindowState.InitialState | gui.py:187-353 | the initial window is idle, from "Auto Detect" into "Spanish", both lists complete (the target without the sentinel), both areas empty, translate enabled, output buttons disabled, and it satisfies the window invariant |
| WindowState.TextChanged | gui.py:478-510 | the translate button is enabled exactly when the input is not blank and no translation runs; the label follows the input; nothing else changes; the invariant is kept |
| WindowState.WithInput | gui.py:571-572 | replacing the input text changes only the input text and keeps the invariant |
| WindowState.InputEdited | gui.py:455-456 | an edit followed by `on_text_change` leaves the new text in place, sets the button and the count label (`CountLabelFor` of the text) from it, changes nothing else, and keeps the invariant |
| WindowState.LanguageChanged | gui.py:512-516 | a target of "Auto Detect" becomes "English", anything else is unchanged, and only the target changes |
| WindowState.SourceSelected | gui.py:459-460 | picking a source name sets it; a target of "Auto Detect" becomes "English", any other target stays, and nothing else changes |
| WindowState.TargetSelected | gui.py:459-460 | picking a target name sets it, with "Auto Detect" replaced by "English", and nothing else changes |
| WindowState.SourceSearched | gui.py:518-534 | the source search changes only the source box's list and text, and keeps the invariant |
| WindowState.SourceSearchLists | gui.py:518-534 | after a source search the box lists exactly the registry names containing the lower-cased query, or all of them for an empty query, each once |
| WindowState.SourceSearchCanonical | gui.py:527-531 | a source query equal to a registry name once lower-cased is replaced by that name; otherwise the text stays |
| WindowState.TargetSearched | gui.py:536-552 | the target search changes only the target box's list and text, and keeps the invariant, so the sentinel is never listed |
| WindowState.TargetSearchLists | gui.py:536-552 | after a target search the box lists exactly the registry names other than "Auto Detect" containing the lower-cased query, each once |
| WindowState.TargetSearchCanonical | gui.py:545-549 | a target query equal to a name other than "Auto Detect" once lower-cased is replaced by that name; otherwise the text stays |
| WindowState.OutputCleared | gui.py:617-626 | clearing empties the output area and disables the output buttons, and nothing else |
| WindowState.OutputMovedToInput | gui.py:567-573 | a non-blank output moves, stripped, into the input and the output is cleared; a blank output changes nothing |
| WindowState.NamesExchanged | gui.py:563-564 | the two language names change places |
| WindowState.Swapped | gui.py:554-573 | nothing happens while the source is "Auto Detect"; otherwise the names swap and a non-blank output moves to the input; flag, button, label, progress and lists are untouched |
| WindowState.FlagRaised | gui.py:777-778 | the single-flight flag is raised and the translate button disabled |
| WindowState.TranslationStarted | gui.py:775-784 | starting raises the flag, disables the button, and moves the progress label on one message |
| WindowState.ProgressAdvanced | gui.py:786-807 | while translating, the label moves to the next message; otherwise nothing changes |
| WindowState.ReplyShown | gui.py:809-829 | the flag drops and the button is enabled; a non-empty error leaves the output alone; otherwise a non-empty translation fills the output and enables its buttons |
| WindowState.Completed | gui.py:809-843 | after completion no translation runs, the button is enabled exactly when the input is not blank, and the output shows a non-empty translation unless an error was reported |
| WindowState.TranslateRequest | gui.py:742-753 | pressing translate is refused exactly while busy, warns exactly on blank input, and otherwise sends the stripped input with the codes of the two names |
| WindowState.TranslatePressed | gui.py:742-756 | the window is started when a request goes out, and unchanged otherwise |
| WindowState.TranslationCycle | gui.py:742-843 | a press followed by the service's reply leaves the window idle whenever a request went out, and unchanged when none did |
| WindowState.SaveRequest | gui.py:709-736 | save warns exactly when the output is blank; otherwise the file has, line by line, the saved layout of the two names, the stripped input and the stripped output |
| WindowState.SingleFlight | gui.py:744-745 | once a request starts, further presses are refused, and neither the animation nor editing, swapping or `on_text_change` lowers the flag or re-enables the button |
| WindowState.StartedRequestIsNotEmpty | gui.py:747-750 | a request the window sends never comes back with the empty-text error |
| WindowState.SameLanguageRequest | gui.py:752-753 | the same registry name other than "Auto Detect" on both sides gives a request with one code twice, not "auto" |
| WindowState.SameLanguageCompletes | gui.py:742-843 | such a request completes with the stripped input as translation and no error, whatever the backend |
| WindowState.SameLanguageShowsInput | gui.py:819-829 | so the output area shows the stripped input and its buttons are enabled |
| WindowState.SwapTwice | gui.py:554-573 | swapping twice restores both names, and the texts move at most once |
| WindowState.ProgressReturnsAfterFour | gui.py:786-807 | while translating, four animation steps bring the label back to where it was |
| WindowState.ButtonAfterReply | gui.py:843 | after any reply to a started request, the translate button is enabled, since the input was not blank |
| Gui.TranslationApp.constructor | gui.py:16-35 | the new window's fields are the initial state, which satisfies the invariant |
| Gui.TranslationApp.OnTextChange | gui.py:478-510 | the fields change as `TextChanged` describes, keeping the invariant |
| Gui.TranslationApp.EditInput | gui.py:455 | the fields change as `InputEdited` describes |
| Gui.TranslationApp.ClearInput | gui.py:611-615 | clearing the input is an edit to the empty text |
| Gui.TranslationApp.PasteText | gui.py:575-597 | a non-empty clipboard replaces the input as an edit would; an empty one changes nothing |
| Gui.TranslationApp.OnLanguageChange | gui.py:512-516 | the fields change as `LanguageChanged` describes |
| Gui.TranslationApp.SelectSourceLang | gui.py:459 | the fields change as `SourceSelected` describes |
| Gui.TranslationApp.SelectTargetLang | gui.py:460 | the fields change as `TargetSelected` describes |
| Gui.TranslationApp.OnSourceLangSearch | gui.py:518-534 | the fields change as `SourceSearched` describes |
| Gui.TranslationApp.OnTargetLangSearch | gui.py:536-552 | the fields change as `TargetSearched` describes |
| Gui.TranslationApp.TypeSourceLang | gui.py:463 | typing into the source box then searching changes the fields as `SourceSearched` describes |
| Gui.TranslationApp.TypeTargetLang | gui.py:464 | typing into the target box then searching changes the fields as `TargetSearched` describes |
| Gui.TranslationApp.ClearOutput | gui.py:617-626 | the fields change as `OutputCleared` describes |
| Gui.TranslationApp.SwapLanguages | gui.py:554-573 | the fields change as `Swapped` describes |
| Gui.TranslationApp.AnimateProgressText | gui.py:786-807 | the fields change as `ProgressAdvanced` describes |
| Gui.TranslationApp.StartTranslation | gui.py:775-784 | the fields change as `TranslationStarted` describes |
| Gui.TranslationApp.TranslateText | gui.py:742-756 | returns the request `TranslateRequest` specifies, and the fields change as `TranslatePressed` describes |
| Gui.TranslationApp.TranslationComplete | gui.py:809-843 | the fields change as `Completed` describes |
| Gui.TranslationApp.TranslateWith | gui.py:742-773 | a press with the worker run to its end changes the fields as `TranslationCycle` describes |
| Gui.TranslationApp.SaveTranslation | gui.py:709-736 | warns exactly when the output is blank, and otherwise returns the saved layout of the current fields |

## Left out

- Widgets, styles, colours, fonts, window geometry, emoji and the label texts' foreground colours: the count label is modelled by its band and its numbers, not by its rendered string.
- The status bar (`update_status`), the statistics line, `flash_success_feedback`, message boxes and the paste highlight: they only display, and change no modelled state.
- `copy_translation`, `show_copy_confirmation` and `copy_shortcut_handler`: they write to the system clipboard and change no modelled state.
- `enhanced_paste`, `global_paste_handler` and `clear_focus`: keyboard routing and focus. Only `paste_text`, which both paste handlers run, is modelled.
- Gui.TranslationApp.PasteText: the clipboard's contents are a parameter. The failure of the clipboard read, which shows an error box, is not modelled.
- The file dialog and the file write in `save_translation`: only the text written is modelled (`SaveFileText`). A cancelled dialog and a failed write are not modelled.
- Threads and `root.after` scheduling: `TranslateWith` runs the worker to completion at once. The worker's outer `except`, which passes `str(e)` as the error, is not modelled, because `translate_text` catches every exception itself.
- The repeated rescheduling of `animate_progress_text` every 800 ms: each step is modelled, not the timer.
- The translation backend and the `requests` exception hierarchy: a call is an `Outcome` parameter, and the three named exception types are the `Failure` cases.
- `get_supported_languages`: it returns the backend library's own language dictionary, which is not part of this model.
- `check_service_availability` at startup: it runs `is_service_available` on a thread and only reports on the status bar. `IsServiceAvailable` is modelled.
- `main.py`: it only creates the window and starts the event loop.
- Translator.TranslateText: the default arguments of `translate_text` (`source_lang="auto"`, `target_lang="en"`) are not modelled; both languages are always parameters, as every caller in the core passes all three arguments.
- Text.Lower: lower-cases ASCII letters only, not the whole of Unicode as Python's `str.lower()` does.
- The trailing newline that Tk's text widget adds to `get("1.0", END)`: it is whitespace, and every use strips it, so the model stores the text without it.
- `setup_window`, `configure_styles`, `create_widgets` and `setup_layout`, beyond the initial values of the modelled state.
