/**
 * Slide and lesson discovery of functions/api/lessons.js. Whether a file
 * exists is learnt by HEAD requests, modelled as the oracle `fetch` from a
 * URL to the outcome of the request; `encodeURIComponent` is the oracle
 * `encode`, `None` where it throws. The batches of concurrent checks are
 * run one after another, which yields the same lists because
 * `Promise.allSettled` keeps the order of its inputs.
 */
module Lessons {
  import opened Js

  const MaxSlidesPerLesson: nat := 30
  const SlideBatchSize: nat := 10
  const MaxLessons: nat := 50
  const LessonBatchSize: nat := 10

  /** The file-name stem of every slide image. */
  const Marker: string := "슬라이드"

  /** The outcome of one HEAD request: a response, or a thrown network error. */
  datatype Probe = Responded(ok: bool) | Failed

  predicate Succeeded(p: Probe)
  {
    p.Responded? && p.ok
  }

  /** The `{ exists, url }` object of `checkSlideExists`. */
  datatype SlideCheck = SlideCheck(found: bool, url: string)

  // -----------------------------------------------------------------------
  // One slide

  /**
   * The four candidate URLs of slide `n`, in the order they are tried:
   * `.JPG`, encoded `.JPG`, `.jpg`, encoded `.jpg`. `None` when an
   * encoding throws, which rejects the whole check.
   */
  function Candidates(base: string, lessonId: string, n: nat, encode: string -> Option<string>)
    : (c: Option<seq<string>>)
    ensures c.None? <==> encode(Marker + NatText(n) + ".JPG").None? || encode(Marker + NatText(n) + ".jpg").None?
    ensures c.Some? ==> |c.value| == 4
    ensures c.Some? ==> c.value[0] == base + "/slides/" + lessonId + "/" + Marker + NatText(n) + ".JPG"
  {
    var upper := Marker + NatText(n) + ".JPG";
    var lower := Marker + NatText(n) + ".jpg";
    var dir := base + "/slides/" + lessonId + "/";
    match (encode(upper), encode(lower))
    case (Some(u), Some(l)) => Some([dir + upper, dir + u, dir + lower, dir + l])
    case _ => None
  }

  /**
   * The candidates are, in order: the plain `.JPG` path, its encoded form,
   * the plain `.jpg` path and its encoded form, all under
   * `<base>/slides/<lessonId>/`.
   */
  lemma CandidatePaths(base: string, lessonId: string, n: nat, encode: string -> Option<string>)
    requires Candidates(base, lessonId, n, encode).Some?
    ensures var c := Candidates(base, lessonId, n, encode).value;
            var dir := base + "/slides/" + lessonId + "/";
            c == [dir + Marker + NatText(n) + ".JPG", dir + encode(Marker + NatText(n) + ".JPG").value,
                  dir + Marker + NatText(n) + ".jpg", dir + encode(Marker + NatText(n) + ".jpg").value]
  {
    var upper, lower := Marker + NatText(n) + ".JPG", Marker + NatText(n) + ".jpg";
    var dir := base + "/slides/" + lessonId + "/";
    assert dir + upper == dir + Marker + NatText(n) + ".JPG";
    assert dir + lower == dir + Marker + NatText(n) + ".jpg";
  }

  /** The position of the first candidate whose request succeeds, `|c|` when none does. */
  function FirstOk(c: seq<string>, fetch: string -> Probe): (k: nat)
    ensures k <= |c|
    ensures forall j :: 0 <= j < k ==> !Succeeded(fetch(c[j]))
    ensures k < |c| ==> Succeeded(fetch(c[k]))
  {
    if c == [] then 0
    else if Succeeded(fetch(c[0])) then 0
    else 1 + FirstOk(c[1..], fetch)
  }

  /** Whether `checkSlideExists` reports slide `n` of `lessonId` as present. */
  predicate SlideFound(base: string, lessonId: string, n: nat, fetch: string -> Probe,
                       encode: string -> Option<string>)
  {
    var c := Candidates(base, lessonId, n, encode);
    c.Some? && FirstOk(c.value, fetch) < |c.value|
  }

  /**
   * `checkSlideExists`: try the candidates in order and stop at the first
   * success. A request that throws counts as a failure and the next
   * candidate is tried. `r` is `None` when the check itself rejects;
   * `probed` lists the requests made, in order.
   */
  method CheckSlideExists(base: string, lessonId: string, n: nat, fetch: string -> Probe,
                          encode: string -> Option<string>)
    returns (r: Option<SlideCheck>, ghost probed: seq<string>)
    ensures Candidates(base, lessonId, n, encode).None? ==> r.None? && probed == []
    ensures Candidates(base, lessonId, n, encode).Some? ==>
              var c := Candidates(base, lessonId, n, encode).value;
              var k := FirstOk(c, fetch);
              r.Some? &&
              (k < |c| ==> r.value == SlideCheck(true, c[k]) && probed == c[..k + 1]) &&
              (k == |c| ==> r.value == SlideCheck(false, c[0]) && probed == c)
    ensures r.Some? ==> (r.value.found <==> SlideFound(base, lessonId, n, fetch, encode))
    ensures |probed| <= 4
  {
    probed := [];
    var c := Candidates(base, lessonId, n, encode);
    if c.None? {
      r := None;
      return;
    }
    var candidates := c.value;
    var k := 0;
    while k < |candidates|
      invariant 0 <= k <= |candidates|
      invariant forall j :: 0 <= j < k ==> !Succeeded(fetch(candidates[j]))
      invariant probed == candidates[..k]
    {
      probed := probed + [candidates[k]];
      if Succeeded(fetch(candidates[k])) {
        assert candidates[..k + 1] == candidates[..k] + [candidates[k]];
        r := Some(SlideCheck(true, candidates[k]));
        return;
      }
      k := k + 1;
    }
    r := Some(SlideCheck(false, candidates[0]));
  }

  // -----------------------------------------------------------------------
  // Slide paths and their sort key

  /** The path pushed for a found slide: `slides/<lessonId>/슬라이드<n>.JPG`. */
  function SlidePath(lessonId: string, n: nat): (p: string)
    ensures "slides/" + lessonId + "/" <= p
    ensures |p| >= 4 && p[|p| - 4..] == ".JPG"
  {
    "slides/" + lessonId + "/" + Marker + NatText(n) + ".JPG"
  }

  /** The length of the run of digits at the start of `s`. */
  function DigitRun(s: string): (d: nat)
    ensures d <= |s| && AllDigits(s[..d])
    ensures d < |s| ==> !IsDigit(s[d])
  {
    if s == [] || !IsDigit(s[0]) then 0
    else
      var d := 1 + DigitRun(s[1..]);
      assert s[..d] == [s[0]] + s[1..][..d - 1];
      d
  }

  /**
   * A match of `/슬라이드(\d+)\.JPG/` that starts at the first character of
   * `s`, with its group read by `parseInt`. The digit run is greedy, and
   * giving back digits cannot help because a digit is not a `.`.
   */
  function MatchAt(s: string): (r: Option<nat>)
    ensures r.Some? ==> |s| > |Marker| + 4 && Marker <= s
  {
    if Marker <= s then
      var t := s[|Marker|..];
      var d := DigitRun(t);
      if d > 0 && ".JPG" <= t[d..] then Some(DigitsValue(t[..d])) else None
    else None
  }

  /** The number of the leftmost match of the pattern in `s`. */
  function SlideNumberOf(s: string): (r: Option<nat>)
    ensures r.Some? ==> Contains(s, Marker)
  {
    if MatchAt(s).Some? then MatchAt(s)
    else if s == [] then None
    else SlideNumberOf(s[1..])
  }

  /**
   * The value the comparator subtracts: the number of the leftmost match.
   * The 0 for a path without a match never reaches the comparator, since
   * every pushed path has one (`SlidePathHasNumber`).
   */
  function SortKey(path: string): (k: nat)
    ensures SlideNumberOf(path).Some? ==> k == SlideNumberOf(path).value
  {
    match SlideNumberOf(path)
    case Some(n) => n
    case None => 0
  }

  lemma {:induction false} SkipPrefix(p: string, rest: string)
    requires '슬' !in p
    ensures SlideNumberOf(p + rest) == SlideNumberOf(rest)
  {
    if p != [] {
      assert (p + rest)[0] == p[0] != Marker[0];
      assert (p + rest)[1..] == p[1..] + rest;
      SkipPrefix(p[1..], rest);
    } else {
      assert p + rest == rest;
    }
  }

  lemma {:induction false} MatchSurvivesPrefix(p: string, rest: string)
    requires MatchAt(rest).Some?
    ensures SlideNumberOf(p + rest).Some?
  {
    if p == [] {
      assert p + rest == rest;
    } else if MatchAt(p + rest).None? {
      assert (p + rest)[1..] == p[1..] + rest;
      MatchSurvivesPrefix(p[1..], rest);
    }
  }

  lemma {:induction false} DigitRunAppend(ds: string, tail: string)
    requires AllDigits(ds) && tail != [] && !IsDigit(tail[0])
    ensures DigitRun(ds + tail) == |ds|
  {
    if ds == [] {
      assert ds + tail == tail;
    } else {
      assert (ds + tail)[0] == ds[0];
      assert (ds + tail)[1..] == ds[1..] + tail;
      DigitRunAppend(ds[1..], tail);
    }
  }

  lemma DigitRunOfText(n: nat)
    ensures DigitRun(NatText(n) + ".JPG") == |NatText(n)|
  {
    NatTextRoundTrip(n);
    DigitRunAppend(NatText(n), ".JPG");
  }

  lemma MatchAtSlideName(n: nat)
    ensures MatchAt(Marker + NatText(n) + ".JPG") == Some(n)
  {
    var s := Marker + NatText(n) + ".JPG";
    var t := s[|Marker|..];
    assert t == NatText(n) + ".JPG";
    DigitRunOfText(n);
    NatTextRoundTrip(n);
    assert t[..|NatText(n)|] == NatText(n);
    assert t[|NatText(n)|..] == ".JPG";
  }

  /** `s` starts with the marker, then digits up to index `k`, then `.JPG`. */
  predicate MatchEndsAt(s: string, k: int)
  {
    |Marker| < k && k + 4 <= |s| && Marker <= s && AllDigits(s[|Marker|..k]) && s[k..k + 4] == ".JPG"
  }

  /**
   * What `MatchAt` finds, stated without its greedy digit run: a match is
   * the marker, at least one digit and `.JPG`, and its value is the
   * value of those digits; and whenever the text has that shape, that is
   * the match found.
   */
  lemma MatchAtMeaning(s: string)
    ensures MatchAt(s).Some? ==>
              exists k :: MatchEndsAt(s, k) && MatchAt(s).value == DigitsValue(s[|Marker|..k])
    ensures forall k :: MatchEndsAt(s, k) ==> MatchAt(s) == Some(DigitsValue(s[|Marker|..k]))
  {
    if Marker <= s {
      var t := s[|Marker|..];
      var d := DigitRun(t);
      if MatchAt(s).Some? {
        var k := |Marker| + d;
        assert s[|Marker|..k] == t[..d];
        assert s[k..k + 4] == t[d..][..4];
        assert MatchEndsAt(s, k);
      }
      forall k | MatchEndsAt(s, k)
        ensures MatchAt(s) == Some(DigitsValue(s[|Marker|..k]))
      {
        var ds := s[|Marker|..k];
        var tail := t[k - |Marker|..];
        assert t == ds + tail;
        assert tail[0] == s[k] == '.';
        DigitRunAppend(ds, tail);
        assert t[..d] == ds;
        assert t[d..][..4] == s[k..k + 4];
      }
    }
  }

  /** A non-digit ends a run of digits, whatever follows it. */
  lemma {:induction false} DigitRunStops(a: string, b: string)
    requires b != [] && !IsDigit(b[0])
    ensures DigitRun(a + b) == DigitRun(a)
  {
    if a == [] {
      assert a + b == b;
    } else {
      assert (a + b)[0] == a[0];
      if IsDigit(a[0]) {
        assert (a + b)[1..] == a[1..] + b;
        DigitRunStops(a[1..], b);
      }
    }
  }

  /**
   * A match cannot run across a `/`: the marker, the digits and `.JPG`
   * contain none. So a `/` after `x` neither creates nor changes a match
   * that starts at the front of `x`.
   */
  lemma MatchAtSlash(x: string, rest: string)
    ensures MatchAt(x + "/" + rest) == MatchAt(x)
  {
    var s := x + "/" + rest;
    if |x| < |Marker| {
      assert s[|x|] == '/' != Marker[|x|];
    } else {
      assert s[..|Marker|] == x[..|Marker|];
      if Marker <= x {
        var a := x[|Marker|..];
        var tail := "/" + rest;
        assert s[|Marker|..] == a + tail;
        DigitRunStops(a, tail);
        var d := DigitRun(a);
        assert (a + tail)[..d] == a[..d];
        assert (a + tail)[d..] == a[d..] + tail;
        if |a[d..]| >= 4 {
          assert (a[d..] + tail)[..4] == a[d..][..4];
        } else {
          assert (a[d..] + tail)[|a[d..]|] == '/';
        }
      }
    }
  }

  /** The leftmost match in `x + "/" + rest` is the one in `x` if there is one, else the one in `rest`. */
  lemma {:induction false} SlideNumberOfSlash(x: string, rest: string)
    ensures SlideNumberOf(x + "/" + rest) ==
            if SlideNumberOf(x).Some? then SlideNumberOf(x) else SlideNumberOf(rest)
    decreases |x|
  {
    MatchAtSlash(x, rest);
    if x == [] {
      assert x + "/" + rest == "/" + rest;
      assert ("/" + rest)[1..] == rest;
    } else if MatchAt(x).None? {
      assert (x + "/" + rest)[1..] == x[1..] + "/" + rest;
      SlideNumberOfSlash(x[1..], rest);
    }
  }

  /**
   * The sort key read back from the path of slide `n` is `n`, unless the
   * lesson id itself holds a match of the pattern; then it is that match's
   * number, the same for every slide of the lesson.
   */
  lemma SlidePathNumber(lessonId: string, n: nat)
    ensures SlideNumberOf(lessonId).None? ==> SlideNumberOf(SlidePath(lessonId, n)) == Some(n)
    ensures SlideNumberOf(lessonId).Some? ==> SlideNumberOf(SlidePath(lessonId, n)) == SlideNumberOf(lessonId)
    ensures SortKey(SlidePath(lessonId, n)) == if SlideNumberOf(lessonId).Some? then SlideNumberOf(lessonId).value else n
  {
    var name := Marker + NatText(n) + ".JPG";
    assert SlidePath(lessonId, n) == "slides/" + (lessonId + "/" + name);
    SkipPrefix("slides/", lessonId + "/" + name);
    SlideNumberOfSlash(lessonId, name);
    MatchAtSlideName(n);
  }

  /**
   * Every slide path has a match, whatever the lesson id, so `match(...)[1]`
   * never throws inside the comparator.
   */
  lemma SlidePathHasNumber(lessonId: string, n: nat)
    ensures SlideNumberOf(SlidePath(lessonId, n)).Some?
  {
    var p := "slides/" + lessonId + "/";
    assert SlidePath(lessonId, n) == p + (Marker + NatText(n) + ".JPG");
    MatchAtSlideName(n);
    MatchSurvivesPrefix(p, Marker + NatText(n) + ".JPG");
  }

  // -----------------------------------------------------------------------
  // slides.sort((a, b) => numA - numB)

  predicate SortedBy(s: seq<string>, key: string -> nat)
  {
    forall i, j :: 0 <= i < j < |s| ==> key(s[i]) <= key(s[j])
  }

  /** `x` placed after every element of `s` whose key is not greater than its own. */
  function Insert(x: string, s: seq<string>, key: string -> nat): (r: seq<string>)
    ensures multiset(r) == multiset(s) + multiset{x}
  {
    if s == [] then [x]
    else if key(x) < key(s[0]) then [x] + s
    else
      assert s == [s[0]] + s[1..];
      [s[0]] + Insert(x, s[1..], key)
  }

  /** Every element of a sorted sequence has a key at least that of its head. */
  lemma InsertKeepsLowerBound(x: string, s: seq<string>, key: string -> nat, low: nat)
    requires forall k :: 0 <= k < |s| ==> low <= key(s[k])
    requires low <= key(x)
    ensures forall k :: 0 <= k < |Insert(x, s, key)| ==> low <= key(Insert(x, s, key)[k])
  {
    var r := Insert(x, s, key);
    forall k | 0 <= k < |r| ensures low <= key(r[k]) {
      assert r[k] in multiset(r);
      if r[k] != x {
        assert r[k] in multiset(s);
      }
    }
  }

  /** Inserting into a sequence in key order keeps it in key order. */
  lemma {:induction false} InsertSorted(x: string, s: seq<string>, key: string -> nat)
    requires SortedBy(s, key)
    ensures SortedBy(Insert(x, s, key), key)
  {
    if s != [] && key(x) >= key(s[0]) {
      InsertSorted(x, s[1..], key);
      InsertKeepsLowerBound(x, s[1..], key, key(s[0]));
      var rest := Insert(x, s[1..], key);
      var r := [s[0]] + rest;
      forall i, j | 0 <= i < j < |r| ensures key(r[i]) <= key(r[j]) {
        assert r[0] == s[0] && r[j] == rest[j - 1];
        if i > 0 {
          assert r[i] == rest[i - 1];
        }
      }
    }
  }

  /** An insertion sort by `key`. */
  function SortBy(s: seq<string>, key: string -> nat): (r: seq<string>)
    ensures multiset(r) == multiset(s)
    ensures SortedBy(r, key)
  {
    if s == [] then []
    else
      assert s == s[..|s| - 1] + [s[|s| - 1]];
      var sorted := SortBy(s[..|s| - 1], key);
      InsertSorted(s[|s| - 1], sorted, key);
      Insert(s[|s| - 1], sorted, key)
  }

  lemma {:induction false} InsertAfterAll(x: string, s: seq<string>, key: string -> nat)
    requires forall i :: 0 <= i < |s| ==> key(s[i]) <= key(x)
    ensures Insert(x, s, key) == s + [x]
  {
    if s != [] {
      InsertAfterAll(x, s[1..], key);
    }
  }

  /** Sorting a sequence that is already in key order leaves it as it is. */
  lemma {:induction false} SortedUnchanged(s: seq<string>, key: string -> nat)
    requires SortedBy(s, key)
    ensures SortBy(s, key) == s
  {
    if s != [] {
      var front, x := s[..|s| - 1], s[|s| - 1];
      assert SortedBy(front, key) by {
        forall i, j | 0 <= i < j < |front| ensures key(front[i]) <= key(front[j]) {
          assert front[i] == s[i] && front[j] == s[j];
        }
      }
      SortedUnchanged(front, key);
      assert forall i :: 0 <= i < |front| ==> key(front[i]) <= key(x) by {
        forall i | 0 <= i < |front| ensures key(front[i]) <= key(x) {
          assert front[i] == s[i];
        }
      }
      InsertAfterAll(x, front, key);
      assert front + [x] == s;
      assert SortBy(s, key) == Insert(x, SortBy(front, key), key);
    }
  }

  /**
   * `slides.sort((a, b) => numA - numB)`, with an insertion sort standing
   * for the engine's `Array.prototype.sort`.
   */
  function SortBySlideNumber(s: seq<string>): (r: seq<string>)
    ensures multiset(r) == multiset(s)
    ensures SortedBy(r, SortKey)
  {
    SortBy(s, SortKey)
  }

  // -----------------------------------------------------------------------
  // findSlidesForLesson

  /** The paths of the slides in `1..m` that are found, in ascending order of number. */
  function SlidesUpTo(base: string, lessonId: string, m: nat, fetch: string -> Probe,
                      encode: string -> Option<string>): seq<string>
  {
    if m == 0 then []
    else
      var prev := SlidesUpTo(base, lessonId, m - 1, fetch, encode);
      if SlideFound(base, lessonId, m, fetch, encode) then prev + [SlidePath(lessonId, m)] else prev
  }

  predicate StrictlyAscending(slides: seq<string>)
  {
    forall a, b :: 0 <= a < b < |slides| ==> SortKey(slides[a]) < SortKey(slides[b])
  }

  /** The outcome recorded for one slide number of a batch. */
  datatype SlideOutcome = SlideOutcome(num: nat, found: bool)

  /**
   * One batch of `findSlidesForLesson`: the numbers `first`, `first + 1`,
   * ... are checked until ten have been or the next exceeds `maxSlides`;
   * a check that rejects is recorded as absent.
   */
  method CheckSlideBatch(base: string, lessonId: string, first: nat, maxSlides: nat,
                         fetch: string -> Probe, encode: string -> Option<string>)
    returns (results: seq<SlideOutcome>)
    ensures |results| <= SlideBatchSize && (|results| > 0 ==> first + |results| - 1 <= maxSlides)
    ensures |results| == SlideBatchSize || first + |results| > maxSlides
    ensures forall t :: 0 <= t < |results| ==>
              results[t] == SlideOutcome(first + t, SlideFound(base, lessonId, first + t, fetch, encode))
  {
    results := [];
    var j := 0;
    while j < SlideBatchSize && first + j <= maxSlides
      invariant 0 <= j <= SlideBatchSize && (j > 0 ==> first + j - 1 <= maxSlides)
      invariant |results| == j
      invariant forall t :: 0 <= t < j ==>
                  results[t] == SlideOutcome(first + t, SlideFound(base, lessonId, first + t, fetch, encode))
    {
      var slideNum := first + j;
      var r, _ := CheckSlideExists(base, lessonId, slideNum, fetch, encode);
      results := results + [SlideOutcome(slideNum, r.Some? && r.value.found)];
      j := j + 1;
    }
  }

  /**
   * The loop over a batch's results: the path of each found slide is
   * pushed, in batch order. After the batch of slides `first`, `first + 1`,
   * ..., the list is the found list up to the batch's last slide.
   */
  method PushFound(base: string, lessonId: string, first: nat, results: seq<SlideOutcome>,
                   slides: seq<string>, fetch: string -> Probe, encode: string -> Option<string>)
    returns (slides': seq<string>)
    requires first >= 1 && slides == SlidesUpTo(base, lessonId, first - 1, fetch, encode)
    requires forall t :: 0 <= t < |results| ==>
               results[t] == SlideOutcome(first + t, SlideFound(base, lessonId, first + t, fetch, encode))
    ensures slides' == SlidesUpTo(base, lessonId, first - 1 + |results|, fetch, encode)
  {
    slides' := slides;
    var t := 0;
    ghost var n: nat := first - 1;
    while t < |results|
      invariant 0 <= t <= |results| && n == first - 1 + t
      invariant slides' == SlidesUpTo(base, lessonId, n, fetch, encode)
    {
      n := n + 1;
      assert results[t] == SlideOutcome(n, SlideFound(base, lessonId, n, fetch, encode));
      if results[t].found {
        slides' := slides' + [SlidePath(lessonId, results[t].num)];
      }
      t := t + 1;
    }
  }

  /**
   * `findSlidesForLesson`: every number in `1..maxSlides` is checked once,
   * in batches of at most ten consecutive numbers starting at `starts`, with no
   * early stop. The found paths are then sorted by their slide number.
   */
  method FindSlidesForLesson(base: string, lessonId: string, maxSlides: nat, fetch: string -> Probe,
                             encode: string -> Option<string>)
    returns (slides: seq<string>, ghost starts: seq<nat>, ghost checked: seq<nat>)
    ensures slides == SortBySlideNumber(SlidesUpTo(base, lessonId, maxSlides, fetch, encode))
    ensures slides == SlidesUpTo(base, lessonId, maxSlides, fetch, encode)
    ensures forall k :: 0 <= k < |starts| ==> starts[k] == 1 + SlideBatchSize * k && starts[k] <= maxSlides
    ensures 1 + SlideBatchSize * |starts| > maxSlides
    ensures |checked| == maxSlides && forall k :: 0 <= k < |checked| ==> checked[k] == k + 1
  {
    slides, starts, checked := [], [], [];
    ghost var done: nat := 0;
    var i := 1;
    while i <= maxSlides
      invariant i == 1 + SlideBatchSize * |starts|
      invariant forall k :: 0 <= k < |starts| ==> starts[k] == 1 + SlideBatchSize * k && starts[k] <= maxSlides
      invariant done <= maxSlides
      invariant i <= maxSlides ==> done == i - 1
      invariant i > maxSlides ==> done == maxSlides
      invariant |checked| == done && forall k :: 0 <= k < done ==> checked[k] == k + 1
      invariant slides == SlidesUpTo(base, lessonId, done, fetch, encode)
    {
      var results := CheckSlideBatch(base, lessonId, i, maxSlides, fetch, encode);
      slides := PushFound(base, lessonId, i, results, slides, fetch, encode);
      starts := starts + [i];
      checked := checked + seq(|results|, t => i + t);
      done := done + |results|;
      i := i + SlideBatchSize;
    }
    SortKeepsFoundOrder(base, lessonId, maxSlides, fetch, encode);
    if |slides| > 0 {
      slides := SortBySlideNumber(slides);
    }
  }

  /** The slide list up to `m` holds the path of `n` exactly when `n` lies in `1..m` and the check found it. */
  lemma {:induction false} SlidesUpToMembers(base: string, lessonId: string, m: nat, fetch: string -> Probe,
                                             encode: string -> Option<string>)
    ensures forall n: nat :: SlidePath(lessonId, n) in SlidesUpTo(base, lessonId, m, fetch, encode) <==>
              1 <= n <= m && SlideFound(base, lessonId, n, fetch, encode)
  {
    if m > 0 {
      SlidesUpToMembers(base, lessonId, m - 1, fetch, encode);
      forall n: nat ensures SlidePath(lessonId, n) == SlidePath(lessonId, m) ==> n == m {
        SlidePathInjective(lessonId, n, m);
      }
    }
  }

  /** Strictly ascending sort keys, all in `1..m`. */
  predicate AscendingUpTo(slides: seq<string>, m: nat)
  {
    (forall k :: 0 <= k < |slides| ==> 1 <= SortKey(slides[k]) <= m) && StrictlyAscending(slides)
  }

  lemma AscendingAppend(prev: seq<string>, path: string, m: nat)
    requires m > 0 && AscendingUpTo(prev, m - 1) && SortKey(path) == m
    ensures AscendingUpTo(prev, m) && AscendingUpTo(prev + [path], m)
  {
    var slides := prev + [path];
    assert forall k :: 0 <= k < |prev| ==> slides[k] == prev[k];
    assert slides[|prev|] == path;
  }

  /** Without a match in the lesson id, the slide list is strictly ascending by its numbers, all in `1..m`. */
  lemma {:induction false} SlidesUpToAscending(base: string, lessonId: string, m: nat, fetch: string -> Probe,
                                               encode: string -> Option<string>)
    requires SlideNumberOf(lessonId).None?
    ensures AscendingUpTo(SlidesUpTo(base, lessonId, m, fetch, encode), m)
  {
    if m > 0 {
      SlidesUpToAscending(base, lessonId, m - 1, fetch, encode);
      SlidePathNumber(lessonId, m);
      AscendingAppend(SlidesUpTo(base, lessonId, m - 1, fetch, encode), SlidePath(lessonId, m), m);
    }
  }

  /** With a match in the lesson id, every path of the slide list reads back that match's number. */
  lemma {:induction false} SlidesUpToSameKey(base: string, lessonId: string, m: nat, fetch: string -> Probe,
                                             encode: string -> Option<string>)
    requires SlideNumberOf(lessonId).Some?
    ensures forall path :: path in SlidesUpTo(base, lessonId, m, fetch, encode) ==>
              SortKey(path) == SlideNumberOf(lessonId).value
  {
    if m > 0 {
      SlidesUpToSameKey(base, lessonId, m - 1, fetch, encode);
      SlidePathNumber(lessonId, m);
    }
  }

  /**
   * The slide list up to `m` holds the path of `n` exactly when `n` lies
   * in `1..m` and the check found it. When the lesson id holds no match of
   * the pattern, it is strictly ascending by the number read back from each
   * path, every one of which lies in `1..m`; otherwise every path reads
   * back the lesson id's own number.
   */
  lemma SlidesUpToFacts(base: string, lessonId: string, m: nat, fetch: string -> Probe,
                        encode: string -> Option<string>)
    ensures forall n: nat :: SlidePath(lessonId, n) in SlidesUpTo(base, lessonId, m, fetch, encode) <==>
              1 <= n <= m && SlideFound(base, lessonId, n, fetch, encode)
    ensures var slides := SlidesUpTo(base, lessonId, m, fetch, encode);
            SlideNumberOf(lessonId).None? ==>
              (forall k :: 0 <= k < |slides| ==> 1 <= SortKey(slides[k]) <= m) && StrictlyAscending(slides)
    ensures var slides := SlidesUpTo(base, lessonId, m, fetch, encode);
            SlideNumberOf(lessonId).Some? ==>
              forall k :: 0 <= k < |slides| ==> SortKey(slides[k]) == SlideNumberOf(lessonId).value
  {
    SlidesUpToMembers(base, lessonId, m, fetch, encode);
    if SlideNumberOf(lessonId).None? {
      SlidesUpToAscending(base, lessonId, m, fetch, encode);
    } else {
      SlidesUpToSameKey(base, lessonId, m, fetch, encode);
    }
  }

  /**
   * Sorting leaves the found paths in the order they were pushed, for every
   * lesson id: their keys ascend, or are all equal when the lesson id holds
   * a match of its own.
   */
  lemma SortKeepsFoundOrder(base: string, lessonId: string, m: nat, fetch: string -> Probe,
                            encode: string -> Option<string>)
    ensures SortBySlideNumber(SlidesUpTo(base, lessonId, m, fetch, encode)) ==
            SlidesUpTo(base, lessonId, m, fetch, encode)
  {
    var slides := SlidesUpTo(base, lessonId, m, fetch, encode);
    if SlideNumberOf(lessonId).None? {
      SlidesUpToAscending(base, lessonId, m, fetch, encode);
    } else {
      SlidesUpToSameKey(base, lessonId, m, fetch, encode);
    }
    forall i, j | 0 <= i < j < |slides| ensures (SortKey)(slides[i]) <= (SortKey)(slides[j]) {
      assert slides[i] in slides && slides[j] in slides;
    }
    SortedUnchanged(slides, SortKey);
  }

  /** At most one path per slide number checked: the list up to `m` has at most `m` entries. */
  lemma {:induction false} SlidesUpToLength(base: string, lessonId: string, m: nat, fetch: string -> Probe,
                                            encode: string -> Option<string>)
    ensures |SlidesUpTo(base, lessonId, m, fetch, encode)| <= m
  {
    if m > 0 {
      SlidesUpToLength(base, lessonId, m - 1, fetch, encode);
    }
  }

  /** A slide path names exactly one slide number, whatever the lesson id. */
  lemma SlidePathInjective(lessonId: string, m: nat, n: nat)
    ensures SlidePath(lessonId, m) == SlidePath(lessonId, n) ==> m == n
  {
    if SlidePath(lessonId, m) == SlidePath(lessonId, n) {
      var p := "slides/" + lessonId + "/" + Marker;
      var a := NatText(m) + ".JPG";
      var b := NatText(n) + ".JPG";
      assert SlidePath(lessonId, m) == p + a && SlidePath(lessonId, n) == p + b;
      assert a == (p + a)[|p|..] && b == (p + b)[|p|..];
      assert NatText(m) == a[..|a| - 4] && NatText(n) == b[..|b| - 4];
      NatTextInjective(m, n);
    }
  }

  // -----------------------------------------------------------------------
  // findAllLessons

  /** The id of lesson `k`: `lesson<k>`. */
  function LessonId(k: nat): string
  {
    "lesson" + NatText(k)
  }

  /** `checkLessonExists`: a lesson exists when its first slide does. */
  predicate LessonFound(base: string, k: nat, fetch: string -> Probe, encode: string -> Option<string>)
  {
    SlideFound(base, LessonId(k), 1, fetch, encode)
  }

  /** The ids of the lessons in `1..m` that exist, ascending. */
  function LessonsUpTo(base: string, m: nat, fetch: string -> Probe, encode: string -> Option<string>)
    : seq<string>
  {
    if m == 0 then []
    else
      var prev := LessonsUpTo(base, m - 1, fetch, encode);
      if LessonFound(base, m, fetch, encode) then prev + [LessonId(m)] else prev
  }

  lemma LessonsStep(base: string, m: nat, fetch: string -> Probe, encode: string -> Option<string>)
    requires m > 0
    ensures LessonsUpTo(base, m, fetch, encode) ==
            LessonsUpTo(base, m - 1, fetch, encode) +
            (if LessonFound(base, m, fetch, encode) then [LessonId(m)] else [])
  {
  }

  /** At most one id per lesson number checked: the list up to `m` has at most `m` entries. */
  lemma {:induction false} LessonsUpToLength(base: string, m: nat, fetch: string -> Probe,
                                             encode: string -> Option<string>)
    ensures |LessonsUpTo(base, m, fetch, encode)| <= m
  {
    if m > 0 {
      LessonsUpToLength(base, m - 1, fetch, encode);
    }
  }

  /**
   * One batch of `findAllLessons`: lessons `first`, `first + 1`, ... are
   * checked until ten have been or the next exceeds `maxLessons`.
   */
  method CheckLessonBatch(base: string, first: nat, maxLessons: nat,
                          fetch: string -> Probe, encode: string -> Option<string>)
    returns (results: seq<(string, bool)>)
    ensures |results| <= LessonBatchSize && (|results| > 0 ==> first + |results| - 1 <= maxLessons)
    ensures |results| == LessonBatchSize || first + |results| > maxLessons
    ensures forall t :: 0 <= t < |results| ==>
              results[t] == (LessonId(first + t), LessonFound(base, first + t, fetch, encode))
  {
    results := [];
    var j := 0;
    while j < LessonBatchSize && first + j <= maxLessons
      invariant 0 <= j <= LessonBatchSize && (j > 0 ==> first + j - 1 <= maxLessons)
      invariant |results| == j
      invariant forall t :: 0 <= t < j ==>
                  results[t] == (LessonId(first + t), LessonFound(base, first + t, fetch, encode))
    {
      var lessonId := LessonId(first + j);
      var r, _ := CheckSlideExists(base, lessonId, 1, fetch, encode);
      results := results + [(lessonId, r.Some? && r.value.found)];
      j := j + 1;
    }
  }

  /** Pushing lesson `n`'s outcome onto the list up to `n - 1` gives the list up to `n`. */
  lemma LessonsPush(base: string, n: nat, fetch: string -> Probe, encode: string -> Option<string>,
                    lessons: seq<string>, r: (string, bool))
    requires n > 0 && lessons == LessonsUpTo(base, n - 1, fetch, encode)
    requires r == (LessonId(n), LessonFound(base, n, fetch, encode))
    ensures (if r.1 then lessons + [r.0] else lessons) == LessonsUpTo(base, n, fetch, encode)
  {
    LessonsStep(base, n, fetch, encode);
  }

  /**
   * The loop over a batch's results: each lesson found is pushed, in batch
   * order. After the batch of lessons `first`, `first + 1`, ..., the list is
   * the found list up to the batch's last lesson.
   */
  method PushLessons(base: string, first: nat, results: seq<(string, bool)>, lessons: seq<string>,
                     fetch: string -> Probe, encode: string -> Option<string>)
    returns (lessons': seq<string>)
    requires first >= 1 && lessons == LessonsUpTo(base, first - 1, fetch, encode)
    requires forall t :: 0 <= t < |results| ==>
               results[t] == (LessonId(first + t), LessonFound(base, first + t, fetch, encode))
    ensures lessons' == LessonsUpTo(base, first - 1 + |results|, fetch, encode)
  {
    lessons' := lessons;
    var t := 0;
    ghost var n: nat := first - 1;
    while t < |results|
      invariant 0 <= t <= |results| && n == first - 1 + t
      invariant lessons' == LessonsUpTo(base, n, fetch, encode)
    {
      n := n + 1;
      LessonsPush(base, n, fetch, encode, lessons', results[t]);
      if results[t].1 {
        lessons' := lessons' + [results[t].0];
      }
      t := t + 1;
    }
  }

  /**
   * `findAllLessons`: lesson ids `lesson1..lesson<maxLessons>` are checked
   * in batches of at most ten, with no early stop, and the existing ones
   * are kept in order.
   */
  method FindAllLessons(base: string, maxLessons: nat, fetch: string -> Probe,
                        encode: string -> Option<string>)
    returns (lessons: seq<string>, ghost starts: seq<nat>, ghost checked: seq<nat>)
    ensures lessons == LessonsUpTo(base, maxLessons, fetch, encode)
    ensures forall k :: 0 <= k < |starts| ==> starts[k] == 1 + LessonBatchSize * k && starts[k] <= maxLessons
    ensures 1 + LessonBatchSize * |starts| > maxLessons
    ensures |checked| == maxLessons && forall k :: 0 <= k < |checked| ==> checked[k] == k + 1
  {
    lessons, starts, checked := [], [], [];
    ghost var done: nat := 0;
    var i := 1;
    while i <= maxLessons
      invariant i == 1 + LessonBatchSize * |starts|
      invariant forall k :: 0 <= k < |starts| ==> starts[k] == 1 + LessonBatchSize * k && starts[k] <= maxLessons
      invariant done <= maxLessons
      invariant i <= maxLessons ==> done == i - 1
      invariant i > maxLessons ==> done == maxLessons
      invariant |checked| == done && forall k :: 0 <= k < done ==> checked[k] == k + 1
      invariant lessons == LessonsUpTo(base, done, fetch, encode)
    {
      var results := CheckLessonBatch(base, i, maxLessons, fetch, encode);
      lessons := PushLessons(base, i, results, lessons, fetch, encode);
      starts := starts + [i];
      checked := checked + seq(|results|, t => i + t);
      done := done + |results|;
      i := i + LessonBatchSize;
    }
  }

  /**
   * The lesson list contains `lesson<k>` exactly when `k` lies in
   * `1..maxLessons` and slide 1 of that lesson is found; ids are listed in
   * ascending order of `k`, so none appears twice.
   */
  lemma {:induction false} LessonListContents(base: string, m: nat, fetch: string -> Probe,
                                              encode: string -> Option<string>, k: nat)
    ensures LessonId(k) in LessonsUpTo(base, m, fetch, encode) <==>
              1 <= k <= m && LessonFound(base, k, fetch, encode)
  {
    if m > 0 {
      LessonListContents(base, m - 1, fetch, encode, k);
      NatTextInjective(k, m);
      assert LessonId(k) == LessonId(m) ==> NatText(k) == NatText(m) by {
        if LessonId(k) == LessonId(m) {
          assert NatText(k) == LessonId(k)[6..];
        }
      }
    }
  }

  // -----------------------------------------------------------------------
  // onRequestGet

  datatype CatalogReply = SlideList(lessonId: string, slides: seq<string>) | LessonList(lessons: seq<string>)

  /**
   * `onRequestGet`: with a non-empty `lessonId` parameter, the slide list
   * of that lesson (up to 30 slides); otherwise the list of lessons among
   * `lesson1..lesson50`. `base` is the origin of the request.
   */
  method HandleCatalog(base: string, lessonId: Option<string>, fetch: string -> Probe,
                       encode: string -> Option<string>)
    returns (reply: CatalogReply)
    ensures lessonId.Some? && lessonId.value != "" ==>
              reply == SlideList(lessonId.value,
                SortBySlideNumber(SlidesUpTo(base, lessonId.value, MaxSlidesPerLesson, fetch, encode)))
    ensures !(lessonId.Some? && lessonId.value != "") ==>
              reply == LessonList(LessonsUpTo(base, MaxLessons, fetch, encode))
    ensures reply.SlideList? ==> |reply.slides| <= MaxSlidesPerLesson
    ensures reply.LessonList? ==> |reply.lessons| <= MaxLessons
  {
    if lessonId.Some? && lessonId.value != "" {
      var slides, _, _ := FindSlidesForLesson(base, lessonId.value, MaxSlidesPerLesson, fetch, encode);
      SlidesUpToLength(base, lessonId.value, MaxSlidesPerLesson, fetch, encode);
      reply := SlideList(lessonId.value, slides);
    } else {
      var lessons, _, _ := FindAllLessons(base, MaxLessons, fetch, encode);
      LessonsUpToLength(base, MaxLessons, fetch, encode);
      reply := LessonList(lessons);
    }
  }
}
