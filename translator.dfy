/**
 * The translation service: request validation in front of the translation
 * backend, and the mapping of everything the backend can do to a
 * (translated text, error message) pair.
 *
 * The backend itself is not modelled. Each operation takes as a parameter
 * the outcome the backend call would have, so a result that does not depend
 * on that parameter is a result reached without calling the backend.
 */
module Translator {
  import opened Options
  import opened Text

  /** The character limit on the text of one request. */
  const MaxChars := 5000

  /** The failures a backend call can raise, grouped by the handler that catches them. */
  datatype Failure =
    | ConnectionError(message: string)
    | Timeout(message: string)
    | HTTPError(message: string)
    | OtherError(message: string)

  /** What a backend call does: return a value, or raise. */
  datatype Outcome<T> = Returned(value: T) | Raised(failure: Failure)

  /** The object the backend's `translate` returns; its `text` may be `None`. */
  datatype Translated = Translated(text: Option<string>)

  /** The object the backend's `detect` returns; its `lang` may be `None`. */
  datatype Detection = Detection(lang: Option<string>)

  /** The pair every operation returns: a value and an error message. */
  datatype Reply = Reply(value: Option<string>, error: Option<string>)

  const EmptyTextError := "Please enter text to translate"
  /** The length error, with the limit written out in decimal. */
  const TooLongError := "Text too long. Maximum " + DecimalString(MaxChars) + " characters allowed."
  const NetworkError := "Network error: Please check your internet connection"
  const TimeoutError := "Translation timeout: Please try again"
  const HTTPErrorPrefix := "Translation service error: "
  const RateLimitError := "Rate limit exceeded: Please wait a moment and try again"
  const AccessDeniedError := "Translation service access denied: Please check your connection"
  const UnavailableError := "Translation service temporarily unavailable"
  const FailedPrefix := "Translation failed: "
  const NoDetectionTextError := "No text provided for language detection"
  const DetectionFailedPrefix := "Language detection failed: "

  /** The message of the exception raised by reading `attribute` of `None`; it names the attribute. */
  function NoneAttributeMessage(attribute: string): (r: string)
    ensures Contains(r, attribute)
  {
    var head := "'NoneType' object has no attribute '";
    var r := head + attribute + "'";
    assert OccursAt(r, attribute, |head|) by {
      assert r[|head|..|head| + |attribute|] == attribute;
    }
    r
  }

  /** What the lower-cased text of an unclassified exception reveals about it. */
  datatype Diagnosis = RateLimited | AccessDenied | Unavailable | Unrecognised

  /**
   * The generic exception handler's classification, tried in this order on
   * the lower-cased message: "429" or "too many requests", then "403" or
   * "forbidden", then "service unavailable".
   */
  function Diagnose(message: string): (d: Diagnosis)
    ensures var m := Lower(message);
      && (d == RateLimited <==> Contains(m, "429") || Contains(m, "too many requests"))
      && (d == AccessDenied <==>
            !Contains(m, "429") && !Contains(m, "too many requests")
            && (Contains(m, "403") || Contains(m, "forbidden")))
      && (d == Unavailable <==>
            !Contains(m, "429") && !Contains(m, "too many requests")
            && !Contains(m, "403") && !Contains(m, "forbidden")
            && Contains(m, "service unavailable"))
  {
    var m := Lower(message);
    if Contains(m, "429") || Contains(m, "too many requests") then RateLimited
    else if Contains(m, "403") || Contains(m, "forbidden") then AccessDenied
    else if Contains(m, "service unavailable") then Unavailable
    else Unrecognised
  }

  /** The error message `translate_text` reports for a failure of the backend call. */
  function FailureMessage(f: Failure): (r: string)
    ensures f.ConnectionError? ==> r == NetworkError
    ensures f.Timeout? ==> r == TimeoutError
    ensures f.HTTPError? ==> r == HTTPErrorPrefix + f.message
    ensures f.OtherError? && Diagnose(f.message) == RateLimited ==> r == RateLimitError
    ensures f.OtherError? && Diagnose(f.message) == AccessDenied ==> r == AccessDeniedError
    ensures f.OtherError? && Diagnose(f.message) == Unavailable ==> r == UnavailableError
    ensures f.OtherError? && Diagnose(f.message) == Unrecognised ==> r == FailedPrefix + f.message
    ensures r != "" && r != EmptyTextError && r != TooLongError
  {
    match f
    case ConnectionError(_) => NetworkError
    case Timeout(_) => TimeoutError
    case HTTPError(m) =>
      assert (HTTPErrorPrefix + m)[1] == 'r' != EmptyTextError[1];
      assert (HTTPErrorPrefix + m)[1] == 'r' != TooLongError[1];
      HTTPErrorPrefix + m
    case OtherError(m) =>
      match Diagnose(m)
      case RateLimited => RateLimitError
      case AccessDenied => AccessDeniedError
      case Unavailable => UnavailableError
      case Unrecognised =>
        assert (FailedPrefix + m)[1] == 'r' != EmptyTextError[1];
        assert (FailedPrefix + m)[1] == 'r' != TooLongError[1];
        FailedPrefix + m
  }

  /** `if not text or not text.strip()`: the request has nothing to translate. */
  predicate NothingToTranslate(text: string) {
    text == [] || Strip(text) == []
  }

  /** The requests that reach the backend: they pass both checks and are not identities. */
  predicate CallsBackend(text: string, source: string, target: string) {
    !IsBlank(text) && |text| <= MaxChars && !(source == target && source != "auto")
  }

  /**
   * The reply of `translate_text` once the backend has been called: the text
   * of the returned result, or the message for what was raised. Reading the
   * text of a `None` result raises an attribute error, which the generic
   * handler does not recognise, so it is reported as a failure.
   */
  function BackendReply(backend: Outcome<Option<Translated>>): (r: Reply)
    ensures backend.Raised? ==> r == Reply(None, Some(FailureMessage(backend.failure)))
    ensures backend.Returned? && backend.value.Some? ==> r == Reply(backend.value.value.text, None)
    ensures backend == Returned(None) ==> r == Reply(None, Some(FailedPrefix + NoneAttributeMessage("text")))
  {
    NoneTextIsUnrecognised();
    match backend
    case Returned(Some(result)) => Reply(result.text, None)
    case Returned(None) => Reply(None, Some(FailureMessage(OtherError(NoneAttributeMessage("text")))))
    case Raised(f) => Reply(None, Some(FailureMessage(f)))
  }

  /**
   * `translate_text(text, source_lang, target_lang)`: the checks in order,
   * then the backend call.
   */
  function TranslateText(text: string, source: string, target: string,
                         backend: Outcome<Option<Translated>>): (r: Reply)
    ensures IsBlank(text) ==> r == Reply(None, Some(EmptyTextError))
    ensures !IsBlank(text) && |text| > MaxChars ==> r == Reply(None, Some(TooLongError))
    ensures !IsBlank(text) && |text| <= MaxChars && source == target && source != "auto" ==>
      r == Reply(Some(text), None)
    ensures CallsBackend(text, source, target) ==> r == BackendReply(backend)
  {
    StripEmptyIffBlank(text);
    if NothingToTranslate(text) then Reply(None, Some(EmptyTextError))
    else if |text| > MaxChars then Reply(None, Some(TooLongError))
    else if source == target && source != "auto" then Reply(Some(text), None)
    else BackendReply(backend)
  }

  /** `detect_language(text)`. */
  function DetectLanguage(text: string, backend: Outcome<Option<Detection>>): (r: Reply)
    ensures IsBlank(text) ==> r == Reply(None, Some(NoDetectionTextError))
    ensures !IsBlank(text) && backend.Raised? ==>
      r == Reply(None, Some(DetectionFailedPrefix + backend.failure.message))
    ensures !IsBlank(text) && backend.Returned? && backend.value.Some? ==>
      r == Reply(backend.value.value.lang, None)
    ensures !IsBlank(text) && backend == Returned(None) ==>
      r == Reply(None, Some(DetectionFailedPrefix + NoneAttributeMessage("lang")))
  {
    StripEmptyIffBlank(text);
    if NothingToTranslate(text) then Reply(None, Some(NoDetectionTextError))
    else
      match backend
      case Returned(Some(detection)) => Reply(detection.lang, None)
      case Returned(None) => Reply(None, Some(DetectionFailedPrefix + NoneAttributeMessage("lang")))
      case Raised(f) => Reply(None, Some(DetectionFailedPrefix + f.message))
  }

  /**
   * `is_service_available()`: the outcome of translating "test" from "en"
   * to "es"; any exception means the service is not available.
   */
  function IsServiceAvailable(probe: Outcome<Option<Translated>>): (r: bool)
    ensures r ==> probe.Returned?
  {
    match probe
    case Returned(result) => result.Some?
    case Raised(_) => false
  }

  // Properties of the service.

  /**
   * The message of reading `text` of `None` holds none of the markers the
   * generic handler looks for: no "4", and no "m", "f" or "v", which
   * "too many requests", "forbidden" and "service unavailable" need.
   */
  lemma NoneTextIsUnrecognised()
    ensures Diagnose(NoneAttributeMessage("text")) == Unrecognised
  {
    var m := Lower(NoneAttributeMessage("text"));
    NoneTextLowerLacks();
    AbsentCharNotContained(m, "429", 0);
    AbsentCharNotContained(m, "403", 0);
    AbsentCharNotContained(m, "too many requests", 4);
    AbsentCharNotContained(m, "forbidden", 0);
    AbsentCharNotContained(m, "service unavailable", 3);
  }

  /** The lower-cased message of reading `text` of `None` lacks "4", "m", "f" and "v". */
  lemma NoneTextLowerLacks()
    ensures var m := Lower(NoneAttributeMessage("text"));
      '4' !in m && 'm' !in m && 'f' !in m && 'v' !in m
  {
    var s := NoneAttributeMessage("text");
    NoneTextSmallLetters();
    NoneTextCapitals();
    LowerLacks(s, '4');
    LowerLacks(s, 'm');
    LowerLacks(s, 'f');
    LowerLacks(s, 'v');
  }

  /** The message of reading `text` of `None` holds no "4", "m", "f" or "v"... */
  lemma NoneTextSmallLetters()
    ensures var s := NoneAttributeMessage("text");
      forall i | 0 <= i < |s| :: s[i] != '4' && s[i] != 'm' && s[i] != 'f' && s[i] != 'v'
  {
    assert NoneAttributeMessage("text") == "'NoneType' object has no attribute 'text'";
  }

  /** ... and no "M", "F" or "V". */
  lemma NoneTextCapitals()
    ensures var s := NoneAttributeMessage("text");
      forall i | 0 <= i < |s| :: s[i] != 'M' && s[i] != 'F' && s[i] != 'V'
  {
    assert NoneAttributeMessage("text") == "'NoneType' object has no attribute 'text'";
  }

  /**
   * A request that reaches the backend and fails with a message that,
   * lower-cased, holds "429" is reported as a rate limit.
   */
  lemma RateLimitReported(text: string, source: string, target: string, message: string)
    requires CallsBackend(text, source, target) && Contains(Lower(message), "429")
    ensures TranslateText(text, source, target, Raised(OtherError(message))).error == Some(RateLimitError)
  {
  }

  /**
   * Only requests that pass both checks and are not identities depend on
   * the backend; every other request is answered without calling it.
   */
  lemma BackendCalledOnlyWhenNeeded(text: string, source: string, target: string,
                                    b1: Outcome<Option<Translated>>, b2: Outcome<Option<Translated>>)
    requires !CallsBackend(text, source, target)
    ensures TranslateText(text, source, target, b1) == TranslateText(text, source, target, b2)
  {
  }

  /** Every request that passes the checks and is not an identity does depend on the backend. */
  lemma BackendCalledWhenNeeded(text: string, source: string, target: string)
    requires CallsBackend(text, source, target)
    ensures TranslateText(text, source, target, Raised(ConnectionError(""))).error == Some(NetworkError)
    ensures TranslateText(text, source, target, Raised(Timeout(""))).error == Some(TimeoutError)
  {
  }

  /**
   * A text of exactly 5000 characters passes the length check; the length is
   * that of the text as given, surrounding whitespace included.
   */
  lemma LengthLimitInclusive(text: string, source: string, target: string,
                             backend: Outcome<Option<Translated>>)
    requires !IsBlank(text)
    ensures TranslateText(text, source, target, backend).error == Some(TooLongError) <==> |text| > MaxChars
  {
  }

  /**
   * Backend errors never read like a validation error, so the reply tells
   * the two kinds apart.
   */
  lemma BackendErrorsAreNotValidationErrors(backend: Outcome<Option<Translated>>)
    ensures var r := BackendReply(backend);
      r.error.Some? ==> r.error.value != EmptyTextError && r.error.value != TooLongError
  {
  }

  /**
   * Every request gets exactly one of a translation and an error, unless the
   * backend returns a result whose text is `None`.
   */
  lemma ExactlyOneOfPair(text: string, source: string, target: string,
                         backend: Outcome<Option<Translated>>)
    requires backend != Returned(Some(Translated(None)))
    ensures var r := TranslateText(text, source, target, backend);
      r.value.Some? != r.error.Some?
  {
    if CallsBackend(text, source, target) {
      match backend
      case Returned(Some(result)) =>
        assert result.text.Some?;
      case Returned(None) =>
      case Raised(f) =>
    }
  }

  /** No reply carries an empty error message. */
  lemma ErrorMessagesNonEmpty(text: string, source: string, target: string,
                              backend: Outcome<Option<Translated>>,
                              detector: Outcome<Option<Detection>>)
    ensures var r := TranslateText(text, source, target, backend);
      r.error.Some? ==> |r.error.value| > 0
    ensures var r := DetectLanguage(text, detector);
      r.error.Some? ==> |r.error.value| > 0
  {
  }

  /**
   * The classification of a generic exception ignores the case of its
   * message, while the fallback message keeps the message as raised.
   */
  lemma DiagnosisIgnoresCase(message: string)
    ensures Diagnose(Lower(message)) == Diagnose(message)
  {
    LowerIdempotent(message);
  }

  /** The rate-limit test wins over the access test, which wins over the availability test. */
  lemma DiagnosisPriority(message: string)
    ensures Contains(Lower(message), "429") ==> Diagnose(message) == RateLimited
    ensures (Contains(Lower(message), "forbidden") && !Contains(Lower(message), "too many requests")
             && !Contains(Lower(message), "429")) ==> Diagnose(message) == AccessDenied
    ensures Contains(Lower(message), "service unavailable") ==> Diagnose(message) != Unrecognised
  {
  }

  /**
   * The service is available exactly when the probe request, sent through
   * `translate_text`, would come back without an error.
   */
  lemma AvailabilityMatchesProbe(probe: Outcome<Option<Translated>>)
    ensures IsServiceAvailable(probe) <==> TranslateText("test", "en", "es", probe).error.None?
  {
    assert !IsBlank("test") by { assert !IsSpace("test"[0]); }
  }
}
