/**
 * The slide position stored per class and how a reader turns the stored
 * text back into `{lessonId, slideIndex}` (functions/api/slide.js, the SSE
 * snapshot and the plain GET). The stored text is represented by what
 * `JSON.parse` makes of it, with "parse throws" as its own variant.
 */
module SlideStore {
  import opened Js

  /** The current position of one class: `{lessonId, slideIndex}`. */
  datatype SlideState = SlideState(lessonId: string, slideIndex: int)

  const DefaultLesson: string := "lesson1"
  const DefaultState: SlideState := SlideState(DefaultLesson, 0)

  /**
   * The stored text for a class, classified by the outcome of `JSON.parse`.
   * A record keeps only the two properties read back; a `lessonId` that is
   * not a string is represented as `None`.
   */
  datatype StoredValue =
    | Blank                                             // "": falsy, never parsed
    | JsonNull                                          // "null": reading a property of it throws
    | JsonNumber(n: int)                                // a bare number such as "3"
    | JsonRecord(lessonId: Option<string>, slideIndex: JsValue)
    | JsonOther                                         // a JSON string, boolean or array
    | NotJson(asNumber: Option<int>)                    // JSON.parse throws; Number(text), None for NaN

  /**
   * The record the update handler writes: `JSON.stringify({lessonId, slideIndex})`.
   * A reader resolves it back to the position written, whichever resolution it uses.
   */
  function Stored(s: SlideState): (v: StoredValue)
    ensures s.lessonId != "" ==> ResolveAsWritten(Some(v)) == s && Resolve(Some(v)) == s
  {
    JsonRecord(Some(s.lessonId), Num(s.slideIndex))
  }

  /** The overrides a structured record applies on top of the defaults. */
  function FromRecord(lessonId: Option<string>, slideIndex: JsValue): SlideState
  {
    SlideState(
      if lessonId.Some? && lessonId.value != "" then lessonId.value else DefaultLesson,
      if slideIndex.Num? then slideIndex.n else 0)
  }

  /**
   * The resolution exactly as slide.js writes it. A bare number parses
   * successfully, has neither property, and so resolves to the defaults:
   * the `Number(stored)` fallback runs only when `JSON.parse` throws.
   */
  function ResolveAsWritten(stored: Option<StoredValue>): (s: SlideState)
    ensures stored.None? || stored == Some(Blank) ==> s == DefaultState
    ensures s.lessonId != DefaultLesson ==>
              stored.Some? && stored.value.JsonRecord? && stored.value.lessonId == Some(s.lessonId)
    ensures s.slideIndex != 0 ==>
              stored.Some? &&
              ((stored.value.JsonRecord? && stored.value.slideIndex == Num(s.slideIndex)) ||
               stored.value == NotJson(Some(s.slideIndex)))
  {
    match stored
    case None => DefaultState
    case Some(v) =>
      match v
      case Blank => DefaultState
      case JsonNull => DefaultState
      case JsonNumber(_) => DefaultState
      case JsonRecord(l, i) => FromRecord(l, i)
      case JsonOther => DefaultState
      case NotJson(num) => if num.Some? then SlideState(DefaultLesson, num.value) else DefaultState
  }

  /**
   * The resolution with the legacy format honoured: a stored bare number is
   * the slide index of the default lesson. Every other stored value
   * resolves as in `ResolveAsWritten`.
   */
  function Resolve(stored: Option<StoredValue>): (s: SlideState)
    ensures stored.None? || stored == Some(Blank) ==> s == DefaultState
    ensures s.lessonId != DefaultLesson ==>
              stored.Some? && stored.value.JsonRecord? && stored.value.lessonId == Some(s.lessonId)
    ensures s.slideIndex != 0 ==>
              stored.Some? &&
              ((stored.value.JsonRecord? && stored.value.slideIndex == Num(s.slideIndex)) ||
               stored.value == NotJson(Some(s.slideIndex)) ||
               stored.value == JsonNumber(s.slideIndex))
    ensures forall n :: stored == Some(JsonNumber(n)) ==> s == SlideState(DefaultLesson, n)
  {
    match stored
    case Some(JsonNumber(n)) => SlideState(DefaultLesson, n)
    case _ => ResolveAsWritten(stored)
  }

  /**
   * `s` takes from `stored` what a reader must take: a record's numeric
   * `slideIndex` and its non-empty string `lessonId`, each on its own, and
   * `Number(text)` when parsing throws and the text is a number. A record
   * whose `lessonId` is empty or missing keeps the default lesson.
   */
  predicate ReadsStored(stored: Option<StoredValue>, s: SlideState)
  {
    && (stored.Some? && stored.value.JsonRecord? && stored.value.slideIndex.Num? ==>
          s.slideIndex == stored.value.slideIndex.n)
    && (stored.Some? && stored.value.JsonRecord? && stored.value.lessonId.Some? &&
        stored.value.lessonId.value != "" ==>
          s.lessonId == stored.value.lessonId.value)
    && (stored.Some? && stored.value.NotJson? && stored.value.asNumber.Some? ==>
          s == SlideState(DefaultLesson, stored.value.asNumber.value))
    && (stored.Some? && stored.value.JsonRecord? &&
        (stored.value.lessonId.None? || stored.value.lessonId.value == "") ==>
          s.lessonId == DefaultLesson)
  }

  /** Both resolutions read what is stored, on every stored value. */
  lemma ResolveReads(stored: Option<StoredValue>)
    ensures ReadsStored(stored, ResolveAsWritten(stored))
    ensures ReadsStored(stored, Resolve(stored))
  {
  }

  /** The two resolutions differ only on a stored bare number. */
  lemma ResolveAgreesExceptLegacy(stored: Option<StoredValue>)
    ensures (stored.Some? && stored.value.JsonNumber?) || Resolve(stored) == ResolveAsWritten(stored)
  {
  }

  /** The value "3" written by the legacy format resolves to slide 0 as written, slide 3 corrected. */
  lemma LegacyNumberIgnoredAsWritten()
    ensures ResolveAsWritten(Some(JsonNumber(3))) == SlideState("lesson1", 0)
    ensures Resolve(Some(JsonNumber(3))) == SlideState("lesson1", 3)
  {
  }
}
