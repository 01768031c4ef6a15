/**
 * The understanding check of functions/api/understanding.js: a student
 * marks a slide as understood or not, and the teacher reads the counts.
 * One record per slide lives in the key-value store, modelled as a map
 * from the record key to the record. Ids are strings; the empty string
 * stands for a missing or falsy id.
 */
module Understanding {
  import opened Js

  /** The stored record: two objects from student id to the time of the answer. */
  datatype UnderstandingData = UnderstandingData(
    classId: string,
    lessonId: string,
    slideIndex: JsValue,
    understood: map<string, int>,
    notUnderstood: map<string, int>,
    lastUpdated: int)

  type Store = map<string, UnderstandingData>

  /** `lessonId || "default"`. */
  function LessonPart(lessonId: string): (r: string)
    ensures r != ""
    ensures lessonId != "" ==> r == lessonId
  {
    if lessonId != "" then lessonId else "default"
  }

  /** `understanding:<classId>:<lessonId or "default">:<slideIndex>`, from the text of each part. */
  function RecordKey(classId: string, lessonId: string, slideText: string): (key: string)
    ensures "understanding:" + classId + ":" <= key
    ensures |key| > |slideText| && key[|key| - |slideText| - 1..] == ":" + slideText
  {
    "understanding:" + classId + ":" + LessonPart(lessonId) + ":" + slideText
  }

  /** No student is in both objects. */
  predicate Disjoint(d: UnderstandingData)
  {
    d.understood.Keys !! d.notUnderstood.Keys
  }

  // -----------------------------------------------------------------------
  // POST

  /**
   * The `forEach` over `Object.keys(m)` that deletes the key equal to
   * `studentId`.
   */
  method DeleteStudent(m: map<string, int>, studentId: string) returns (r: map<string, int>)
    ensures r == m - {studentId}
    ensures studentId !in r && forall x :: x != studentId ==> (x in r <==> x in m)
  {
    r := m;
    var keys := m.Keys;
    while keys != {}
      invariant keys <= m.Keys
      invariant r.Keys <= m.Keys && forall x :: x in r ==> r[x] == m[x]
      invariant forall x :: x in m && x !in keys ==> (x in r <==> x != studentId)
      invariant forall x :: x in keys ==> x in r
      decreases |keys|
    {
      var key :| key in keys;
      if key == studentId {
        r := r - {key};
      }
      keys := keys - {key};
    }
  }

  /** The record after the answer of `studentId`: out of both objects, then into the one `understood` selects. */
  function Recorded(d: UnderstandingData, studentId: string, understood: JsValue, now: int): (r: UnderstandingData)
    ensures r.classId == d.classId && r.lessonId == d.lessonId && r.slideIndex == d.slideIndex
    ensures r.lastUpdated == now
    ensures Truthy(understood) ==> studentId in r.understood && studentId !in r.notUnderstood
    ensures !Truthy(understood) ==> studentId in r.notUnderstood && studentId !in r.understood
  {
    var u := d.understood - {studentId};
    var n := d.notUnderstood - {studentId};
    if Truthy(understood)
    then d.(understood := u[studentId := now], notUnderstood := n, lastUpdated := now)
    else d.(understood := u, notUnderstood := n[studentId := now], lastUpdated := now)
  }

  /** An answer leaves every other student's entries as they were. */
  lemma RecordedKeepsOthers(d: UnderstandingData, studentId: string, understood: JsValue, now: int, x: string)
    requires x != studentId
    ensures var r := Recorded(d, studentId, understood, now);
            (x in r.understood <==> x in d.understood) && (x in r.notUnderstood <==> x in d.notUnderstood) &&
            (x in d.understood ==> r.understood[x] == d.understood[x]) &&
            (x in d.notUnderstood ==> r.notUnderstood[x] == d.notUnderstood[x])
  {
  }

  /** No student ever ends up in both objects. */
  lemma RecordedKeepsDisjoint(d: UnderstandingData, studentId: string, understood: JsValue, now: int)
    requires Disjoint(d)
    ensures Disjoint(Recorded(d, studentId, understood, now))
  {
  }

  datatype SubmitReply = Submitted | SubmitRejected

  /** The record under `key`, or the empty record a first answer starts from. */
  function StoredOrFresh(store: Store, key: string, classId: string, lessonId: string, slideIndex: JsValue,
                         now: int): (d: UnderstandingData)
  {
    if key in store then store[key]
    else UnderstandingData(classId, LessonPart(lessonId), slideIndex, map[], map[], now)
  }

  /** The record an answer starts from: the stored one, or a record of this slide with no students in it. */
  lemma StoredOrFreshFacts(store: Store, key: string, classId: string, lessonId: string, slideIndex: JsValue,
                           now: int)
    ensures key in store ==> StoredOrFresh(store, key, classId, lessonId, slideIndex, now) == store[key]
    ensures var d := StoredOrFresh(store, key, classId, lessonId, slideIndex, now);
            key !in store ==>
              StatsOf(d) == Stats(0, 0, 0, 0) && Disjoint(d) &&
              d.classId == classId && d.lessonId == LessonPart(lessonId) && d.slideIndex == slideIndex
  {
  }

  /**
   * `onRequestPost`: rejected unless `classId` and `studentId` are given
   * and `slideIndex` and `understood` are defined. Otherwise the slide's
   * record (a fresh one when absent) records the answer and is written
   * back under the slide's key; no other key changes.
   */
  method Submit(store: Store, classId: string, studentId: string, slideIndex: JsValue, lessonId: string,
                understood: JsValue, now: int)
    returns (reply: SubmitReply, store': Store)
    ensures reply == SubmitRejected <==>
              classId == "" || studentId == "" || slideIndex.Undefined? || understood.Undefined?
    ensures reply == SubmitRejected ==> store' == store
    ensures reply == Submitted ==>
              var key := RecordKey(classId, lessonId, ToStr(slideIndex));
              store' == store[key := Recorded(StoredOrFresh(store, key, classId, lessonId, slideIndex, now),
                                              studentId, understood, now)]
  {
    if classId == "" || studentId == "" || slideIndex.Undefined? || understood.Undefined? {
      return SubmitRejected, store;
    }
    var key := RecordKey(classId, lessonId, ToStr(slideIndex));
    var data;
    if key in store {
      data := store[key];
    } else {
      data := UnderstandingData(classId, LessonPart(lessonId), slideIndex, map[], map[], now);
    }
    ghost var before := StoredOrFresh(store, key, classId, lessonId, slideIndex, now);
    assert data == before;
    var understoodMap := DeleteStudent(data.understood, studentId);
    var notUnderstoodMap := DeleteStudent(data.notUnderstood, studentId);
    if Truthy(understood) {
      understoodMap := understoodMap[studentId := now];
    } else {
      notUnderstoodMap := notUnderstoodMap[studentId := now];
    }
    data := data.(understood := understoodMap, notUnderstood := notUnderstoodMap, lastUpdated := now);
    assert data == Recorded(before, studentId, understood, now);
    store' := store[key := data];
    reply := Submitted;
    assert store' == store[key := Recorded(before, studentId, understood, now)];
  }

  // -----------------------------------------------------------------------
  // GET

  /** Multiplying by a non-negative factor keeps the order. */
  lemma MulMonotone(a: int, b: int, c: nat)
    requires a <= b
    ensures a * c <= b * c
  {
    assert b * c - a * c == (b - a) * c;
  }

  /**
   * `(200 * u + t) / (2 * t)` is `100 * u / t` rounded to the nearest
   * integer, halves up, and so lies between 0 and 100.
   */
  lemma {:induction false} RoundedPercent(u: nat, t: nat)
    requires 0 < t && u <= t
    ensures var p := (200 * u + t) / (2 * t);
            0 <= p <= 100 && 200 * u - t < 2 * p * t <= 200 * u + t &&
            (u == 0 ==> p == 0) && (u == t ==> p == 100)
  {
    var p := (200 * u + t) / (2 * t);
    var r := (200 * u + t) % (2 * t);
    assert 200 * u + t == 2 * t * p + r && 0 <= r < 2 * t;
    assert p * (2 * t) == 2 * p * t;
    if p > 100 {
      MulMonotone(101, p, 2 * t);
      assert false;
    }
    if u == 0 && p > 0 {
      MulMonotone(1, p, 2 * t);
      assert false;
    }
    if u == t && p < 100 {
      MulMonotone(p, 99, 2 * t);
      assert false;
    }
  }

  /** `Math.round(u / t * 100)`, halves rounded up, and 0 when `t` is 0. */
  function Percentage(u: nat, t: nat): (p: nat)
    requires u <= t
    ensures p <= 100
    ensures t == 0 ==> p == 0
    ensures t > 0 ==> 200 * u - t < 2 * p * t <= 200 * u + t
    ensures u == 0 ==> p == 0
    ensures t > 0 && u == t ==> p == 100
  {
    if t > 0 then RoundedPercent(u, t); (200 * u + t) / (2 * t) else 0
  }

  datatype Stats = Stats(understood: nat, notUnderstood: nat, total: nat, percentage: nat)

  /** The counts of a record; the record's object sizes. */
  function StatsOf(d: UnderstandingData): (s: Stats)
    ensures s.understood == |d.understood| && s.notUnderstood == |d.notUnderstood|
    ensures s.total == s.understood + s.notUnderstood
    ensures s.percentage == Percentage(s.understood, s.total)
    ensures s.percentage <= 100 && (s.total == 0 ==> s.percentage == 0)
  {
    var u := |d.understood|;
    var n := |d.notUnderstood|;
    Stats(u, n, u + n, Percentage(u, u + n))
  }

  datatype StatsReply =
    | StatsMissingClassId
    | StatsMissingSlideIndex
    | NoRecord(stats: Stats)
    | SlideStats(stats: Stats, slideText: string, lessonId: string)

  /**
   * `onRequestGet`: 400 without `classId`, 400 without `slideIndex`, all
   * zeros when the slide has no record, and the record's counts otherwise.
   * `slideIndex` is `None` when the query parameter is absent.
   */
  function Statistics(store: Store, classId: string, lessonId: string, slideIndex: Option<string>): (r: StatsReply)
    ensures r.StatsMissingClassId? <==> classId == ""
    ensures r.StatsMissingSlideIndex? <==> classId != "" && slideIndex.None?
    ensures r.NoRecord? <==>
              classId != "" && slideIndex.Some? && RecordKey(classId, lessonId, slideIndex.value) !in store
    ensures r.NoRecord? ==> r.stats == Stats(0, 0, 0, 0)
    ensures r.SlideStats? ==>
              var d := store[RecordKey(classId, lessonId, slideIndex.value)];
              r.stats.understood == |d.understood| && r.stats.notUnderstood == |d.notUnderstood| &&
              r.stats.total == |d.understood| + |d.notUnderstood| && r.stats.percentage <= 100 &&
              r.slideText == slideIndex.value && r.lessonId == d.lessonId && r.stats == StatsOf(d)
  {
    if classId == "" then StatsMissingClassId
    else if slideIndex.None? then StatsMissingSlideIndex
    else
      var key := RecordKey(classId, lessonId, slideIndex.value);
      if key !in store then NoRecord(Stats(0, 0, 0, 0))
      else SlideStats(StatsOf(store[key]), slideIndex.value, store[key].lessonId)
  }

  /**
   * A statistics query for the text of slide `n`, right after a submit of
   * slide number `n` was written, reads the record that submit wrote: the
   * answering student is counted, in the object `understood` selects.
   */
  lemma SubmitThenStatistics(store: Store, classId: string, lessonId: string, n: int, studentId: string,
                             understood: JsValue, now: int)
    requires classId != ""
    ensures var key := RecordKey(classId, lessonId, ToStr(Num(n)));
            var d := Recorded(StoredOrFresh(store, key, classId, lessonId, Num(n), now), studentId, understood, now);
            var r := Statistics(store[key := d], classId, lessonId, Some(IntText(n)));
            r.SlideStats? && r.stats == StatsOf(d) && r.stats.total >= 1 &&
            (Truthy(understood) ==> r.stats.understood >= 1) &&
            (!Truthy(understood) ==> r.stats.notUnderstood >= 1)
  {
    var key := RecordKey(classId, lessonId, ToStr(Num(n)));
    assert key == RecordKey(classId, lessonId, IntText(n));
    var d := Recorded(StoredOrFresh(store, key, classId, lessonId, Num(n), now), studentId, understood, now);
    if Truthy(understood) {
      assert {studentId} <= d.understood.Keys;
    } else {
      assert {studentId} <= d.notUnderstood.Keys;
    }
  }

  /** Removing a key shrinks a map by one exactly when the key was present. */
  lemma MapRemoveSize(m: map<string, int>, k: string)
    ensures |m - {k}| == |m| - (if k in m then 1 else 0)
  {
    if k in m {
      assert m.Keys == (m - {k}).Keys + {k};
    } else {
      assert m - {k} == m;
    }
  }

  /**
   * The statistics right after a submit: the answering student is counted
   * once, and the total grows by one exactly when the student had not
   * answered this slide before.
   */
  lemma {:induction false} StatsAfterRecorded(d: UnderstandingData, studentId: string, understood: JsValue, now: int)
    requires Disjoint(d)
    ensures var before := StatsOf(d);
            var after := StatsOf(Recorded(d, studentId, understood, now));
            after.total == before.total +
              (if studentId in d.understood || studentId in d.notUnderstood then 0 else 1)
  {
    MapRemoveSize(d.understood, studentId);
    MapRemoveSize(d.notUnderstood, studentId);
  }
}
