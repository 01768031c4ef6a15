/**
 * Quiz bookkeeping of functions/api/quiz.js over the key-value store,
 * modelled as two maps: quiz records under `quiz:<classId>:<quizId>` and
 * the active list of a class under `quiz:active:<classId>`. Ids are
 * strings; the empty string stands for a missing or falsy id.
 */
module Quiz {
  import opened Js

  /** One stored answer: `{ answer, timestamp }`. */
  datatype AnswerEntry = AnswerEntry(answer: JsValue, timestamp: int)

  /** The quiz record, `quizData`. `kind` is the `type` property. */
  datatype QuizData = QuizData(
    quizId: string,
    question: JsValue,
    options: JsValue,
    kind: JsValue,
    slideIndex: JsValue,
    createdAt: int,
    active: bool,
    answers: map<string, AnswerEntry>)

  datatype QuizKey = QuizKey(classId: string, quizId: string)

  datatype QuizStore = QuizStore(records: map<QuizKey, QuizData>, activeLists: map<string, seq<string>>)

  /** The active list of a class: the stored array, or `[]` when absent. */
  function ActiveList(store: QuizStore, classId: string): seq<string>
  {
    if classId in store.activeLists then store.activeLists[classId] else []
  }

  // -----------------------------------------------------------------------
  // POST ?action=create

  datatype CreateReply = Created(quiz: QuizData) | CreateRejected

  /**
   * The record a create request builds: active, no answers, and the
   * defaults `options || []`, `type || "multiple"`, `slideIndex || null`.
   */
  function NewQuiz(quizId: string, question: JsValue, options: JsValue, kind: JsValue,
                   slideIndex: JsValue, now: int): (q: QuizData)
    ensures q.quizId == quizId && q.question == question && q.createdAt == now
    ensures q.active && q.answers == map[]
    ensures q.options == (if Truthy(options) then options else Arr([]))
    ensures q.kind == (if Truthy(kind) then kind else Str("multiple"))
    ensures q.slideIndex == (if Truthy(slideIndex) then slideIndex else Null)
  {
    QuizData(quizId, question, Or(options, Arr([])), Or(kind, Str("multiple")), Or(slideIndex, Null),
             now, true, map[])
  }

  /**
   * Create: rejected unless `classId`, `quizId` and `question` are all
   * truthy. Otherwise the record is written (replacing any earlier one with
   * the same key) and `quizId` is appended to the class's active list only
   * when it is not already there.
   */
  method Create(store: QuizStore, classId: string, quizId: string, question: JsValue, options: JsValue,
                kind: JsValue, slideIndex: JsValue, now: int)
    returns (reply: CreateReply, store': QuizStore)
    ensures reply.CreateRejected? <==> classId == "" || quizId == "" || !Truthy(question)
    ensures reply.CreateRejected? ==> store' == store
    ensures reply.Created? ==>
              var q := NewQuiz(quizId, question, options, kind, slideIndex, now);
              reply.quiz == q &&
              store'.records == store.records[QuizKey(classId, quizId) := q] &&
              (quizId in ActiveList(store, classId) ==> store'.activeLists == store.activeLists) &&
              (quizId !in ActiveList(store, classId) ==>
                 store'.activeLists == store.activeLists[classId := ActiveList(store, classId) + [quizId]])
    ensures reply.Created? ==>
              quizId in ActiveList(store', classId) &&
              multiset(ActiveList(store', classId))[quizId] ==
                (if quizId in ActiveList(store, classId) then multiset(ActiveList(store, classId))[quizId] else 1)
  {
    if classId == "" || quizId == "" || !Truthy(question) {
      return CreateRejected, store;
    }
    var quiz := NewQuiz(quizId, question, options, kind, slideIndex, now);
    store' := store.(records := store.records[QuizKey(classId, quizId) := quiz]);
    var quizzes := ActiveList(store, classId);
    if quizId !in quizzes {
      quizzes := quizzes + [quizId];
      store' := store'.(activeLists := store'.activeLists[classId := quizzes]);
    }
    reply := Created(quiz);
  }

  // -----------------------------------------------------------------------
  // POST ?action=answer

  datatype AnswerReply = Answered | AnswerRejected | QuizMissing | QuizInactive

  /**
   * Answer: rejected when an id is missing or `answer` is undefined; 404
   * when the quiz record is missing; rejected when the quiz is no longer
   * active. Otherwise the student's entry is replaced by the new answer and
   * nothing else changes.
   */
  method Answer(store: QuizStore, classId: string, quizId: string, studentId: string, answer: JsValue,
                now: int)
    returns (reply: AnswerReply, store': QuizStore)
    ensures reply == AnswerRejected <==> classId == "" || quizId == "" || studentId == "" || answer.Undefined?
    ensures reply == QuizMissing <==> reply != AnswerRejected && QuizKey(classId, quizId) !in store.records
    ensures reply == QuizInactive <==>
              reply != AnswerRejected && QuizKey(classId, quizId) in store.records &&
              !store.records[QuizKey(classId, quizId)].active
    ensures reply != Answered ==> store' == store
    ensures reply == Answered ==>
              var key := QuizKey(classId, quizId);
              var q := store.records[key];
              store'.activeLists == store.activeLists &&
              store'.records == store.records[key := q.(answers := q.answers[studentId := AnswerEntry(answer, now)])]
  {
    if classId == "" || quizId == "" || studentId == "" || answer.Undefined? {
      return AnswerRejected, store;
    }
    var key := QuizKey(classId, quizId);
    if key !in store.records {
      return QuizMissing, store;
    }
    var quizData := store.records[key];
    if !quizData.active {
      return QuizInactive, store;
    }
    quizData := quizData.(answers := quizData.answers[studentId := AnswerEntry(answer, now)]);
    store' := store.(records := store.records[key := quizData]);
    reply := Answered;
  }

  // -----------------------------------------------------------------------
  // GET ?quizId=...: the tally

  /** The key an answer is counted under: `answer.join(",")` for arrays, `String(answer)` otherwise. */
  function AnswerKey(v: JsValue): (key: string)
    ensures key == ToStr(v)
    ensures v.Str? ==> key == v.s
  {
    if v.Arr? then Join(v, ",") else ToStr(v)
  }

  /** The students among `done` whose answer is counted under `key`. */
  ghost function StudentsWith(answers: map<string, AnswerEntry>, done: set<string>, key: string): set<string>
  {
    set s | s in done && s in answers && AnswerKey(answers[s].answer) == key
  }

  /** The sum of the values of a map of counts. */
  ghost function SumValues(m: map<string, nat>): nat
    decreases |m.Keys|
  {
    if m == map[] then 0
    else
      var k :| k in m;
      m[k] + SumValues(m - {k})
  }

  /** The sum does not depend on which key is taken out first. */
  lemma {:induction false} SumRemove(m: map<string, nat>, k: string)
    requires k in m
    ensures SumValues(m) == m[k] + SumValues(m - {k})
    decreases |m.Keys|
  {
    var j :| j in m && SumValues(m) == m[j] + SumValues(m - {j});
    if j != k {
      assert |(m - {j}).Keys| < |m.Keys| by {
        assert (m - {j}).Keys < m.Keys;
      }
      SumRemove(m - {j}, k);
      assert |(m - {k}).Keys| < |m.Keys| by {
        assert (m - {k}).Keys < m.Keys;
      }
      SumRemove(m - {k}, j);
      assert m - {j} - {k} == m - {k} - {j};
    }
  }

  /** Raising one count by one raises the sum by one. */
  lemma SumIncrement(m: map<string, nat>, k: string)
    ensures SumValues(m[k := (if k in m then m[k] else 0) + 1]) == SumValues(m) + 1
  {
    var m' := m[k := (if k in m then m[k] else 0) + 1];
    SumRemove(m', k);
    assert m' - {k} == m - {k};
    if k in m {
      SumRemove(m, k);
    } else {
      assert m - {k} == m;
    }
  }

  /** `counts` is the tally of the answers of the students in `done`. */
  ghost predicate TallyOf(answers: map<string, AnswerEntry>, done: set<string>, counts: map<string, nat>)
  {
    && counts.Keys == (set s | s in done && s in answers :: AnswerKey(answers[s].answer))
    && forall key :: key in counts ==> counts[key] == |StudentsWith(answers, done, key)|
  }

  /** Counting one more student keeps the tally exact. */
  lemma TallyStep(answers: map<string, AnswerEntry>, done: set<string>, counts: map<string, nat>, s: string)
    requires s in answers && s !in done && TallyOf(answers, done, counts)
    ensures var key := AnswerKey(answers[s].answer);
            TallyOf(answers, done + {s}, counts[key := (if key in counts then counts[key] else 0) + 1])
  {
    var key := AnswerKey(answers[s].answer);
    var counts' := counts[key := (if key in counts then counts[key] else 0) + 1];
    assert StudentsWith(answers, done + {s}, key) == StudentsWith(answers, done, key) + {s};
    if key !in counts {
      forall t | t in done && t in answers
        ensures AnswerKey(answers[t].answer) != key
      {
        assert AnswerKey(answers[t].answer) in counts.Keys;
      }
      assert StudentsWith(answers, done, key) == {};
    }
    forall other | other in counts' && other != key
      ensures counts'[other] == |StudentsWith(answers, done + {s}, other)|
    {
      assert StudentsWith(answers, done + {s}, other) == StudentsWith(answers, done, other);
    }
  }

  /**
   * The loop over `Object.values(quizData.answers)`: every stored answer is
   * counted once, under its answer key. `total` is the number of answers,
   * the count of a key is the number of students whose answer has that
   * key, only keys that occur are present, and the counts add up to the
   * total.
   */
  method Tally(answers: map<string, AnswerEntry>) returns (total: nat, counts: map<string, nat>)
    ensures total == |answers|
    ensures TallyOf(answers, answers.Keys, counts)
    ensures SumValues(counts) == total
  {
    total, counts := 0, map[];
    var counted: set<string> := {};
    while counted != answers.Keys
      invariant counted <= answers.Keys
      invariant total == |counted|
      invariant TallyOf(answers, counted, counts)
      invariant SumValues(counts) == total
      decreases |answers.Keys - counted|
    {
      var s :| s in answers.Keys - counted;
      var key := AnswerKey(answers[s].answer);
      SumIncrement(counts, key);
      TallyStep(answers, counted, counts, s);
      counts := counts[key := (if key in counts then counts[key] else 0) + 1];
      total := total + 1;
      counted := counted + {s};
    }
  }

  // -----------------------------------------------------------------------
  // GET without quizId: the active listing

  /** One entry of the active listing. */
  datatype QuizSummary = QuizSummary(quizId: string, question: JsValue, kind: JsValue, slideIndex: JsValue,
                                     answerCount: nat)

  function Summary(q: QuizData, quizId: string): QuizSummary
  {
    QuizSummary(quizId, q.question, q.kind, q.slideIndex, |q.answers|)
  }

  /** Whether the listing shows `quizId`: its record exists and is active. */
  predicate Listed(records: map<QuizKey, QuizData>, classId: string, quizId: string)
  {
    QuizKey(classId, quizId) in records && records[QuizKey(classId, quizId)].active
  }

  /** The summaries of the listed quizzes among `ids`, in the order of `ids`. */
  function ActiveSummaries(records: map<QuizKey, QuizData>, classId: string, ids: seq<string>): seq<QuizSummary>
  {
    if ids == [] then []
    else
      var prev := ActiveSummaries(records, classId, ids[..|ids| - 1]);
      var qId := ids[|ids| - 1];
      if Listed(records, classId, qId) then prev + [Summary(records[QuizKey(classId, qId)], qId)] else prev
  }

  /**
   * The loop over the active list: a summary for each id whose record
   * exists and is still active, in list order.
   */
  method ListActive(store: QuizStore, classId: string) returns (quizzes: seq<QuizSummary>)
    ensures quizzes == ActiveSummaries(store.records, classId, ActiveList(store, classId))
  {
    var quizIds := ActiveList(store, classId);
    quizzes := [];
    var i := 0;
    while i < |quizIds|
      invariant 0 <= i <= |quizIds|
      invariant quizzes == ActiveSummaries(store.records, classId, quizIds[..i])
    {
      var qId := quizIds[i];
      assert quizIds[..i + 1][..i] == quizIds[..i];
      var key := QuizKey(classId, qId);
      if key in store.records {
        var quizData := store.records[key];
        if quizData.active {
          quizzes := quizzes + [Summary(quizData, qId)];
        }
      }
      i := i + 1;
    }
    assert quizIds[..|quizIds|] == quizIds;
  }

  /**
   * Every summary of the listing belongs to an id of the list whose record
   * exists and is active and carries that record's fields and its number
   * of answers; and every such id of the list is shown.
   */
  lemma {:induction false} ActiveSummariesFacts(records: map<QuizKey, QuizData>, classId: string, ids: seq<string>)
    ensures forall k :: 0 <= k < |ActiveSummaries(records, classId, ids)| ==>
              var e := ActiveSummaries(records, classId, ids)[k];
              e.quizId in ids && Listed(records, classId, e.quizId) &&
              e == Summary(records[QuizKey(classId, e.quizId)], e.quizId)
    ensures forall q :: q in ids && Listed(records, classId, q) ==>
              Summary(records[QuizKey(classId, q)], q) in ActiveSummaries(records, classId, ids)
  {
    if ids != [] {
      var front := ids[..|ids| - 1];
      ActiveSummariesFacts(records, classId, front);
      assert ids == front + [ids[|ids| - 1]];
    }
  }

  datatype GetReply =
    | MissingClassId
    | QuizNotFound
    | QuizResults(quiz: QuizData, totalAnswers: nat, answerCounts: map<string, nat>, options: JsValue)
    | ActiveQuizzes(quizzes: seq<QuizSummary>)

  /**
   * `onRequestGet`: the tally of one quiz when `quizId` is given, the
   * active listing of the class otherwise.
   */
  method HandleGet(store: QuizStore, classId: string, quizId: string) returns (reply: GetReply)
    ensures classId == "" <==> reply.MissingClassId?
    ensures classId != "" && quizId != "" ==>
              (QuizKey(classId, quizId) !in store.records <==> reply.QuizNotFound?)
    ensures reply.QuizResults? ==>
              quizId != "" && QuizKey(classId, quizId) in store.records &&
              var q := store.records[QuizKey(classId, quizId)];
              reply.quiz == q && reply.options == q.options && reply.totalAnswers == |q.answers| &&
              TallyOf(q.answers, q.answers.Keys, reply.answerCounts) &&
              SumValues(reply.answerCounts) == reply.totalAnswers
    ensures classId != "" && quizId != "" && QuizKey(classId, quizId) in store.records ==> reply.QuizResults?
    ensures classId != "" && quizId == "" ==>
              reply == ActiveQuizzes(ActiveSummaries(store.records, classId, ActiveList(store, classId)))
  {
    if classId == "" {
      return MissingClassId;
    }
    if quizId != "" {
      var key := QuizKey(classId, quizId);
      if key !in store.records {
        return QuizNotFound;
      }
      var quizData := store.records[key];
      var total, counts := Tally(quizData.answers);
      reply := QuizResults(quizData, total, counts, quizData.options);
    } else {
      var quizzes := ListActive(store, classId);
      reply := ActiveQuizzes(quizzes);
    }
  }

  // -----------------------------------------------------------------------
  // DELETE: close a quiz

  /** `quizIds.filter(id => id !== quizId)`. */
  function Without(ids: seq<string>, quizId: string): (r: seq<string>)
    ensures |r| <= |ids|
  {
    if ids == [] then []
    else (if ids[0] != quizId then [ids[0]] else []) + Without(ids[1..], quizId)
  }

  /** The filter keeps exactly the other ids. */
  lemma {:induction false} WithoutMembers(ids: seq<string>, quizId: string, x: string)
    ensures x in Without(ids, quizId) <==> x in ids && x != quizId
  {
    if ids != [] {
      WithoutMembers(ids[1..], quizId, x);
      assert ids == [ids[0]] + ids[1..];
    }
  }

  /** The filter works piecewise, so the other ids keep their relative order. */
  lemma {:induction false} WithoutAppend(a: seq<string>, b: seq<string>, quizId: string)
    ensures Without(a + b, quizId) == Without(a, quizId) + Without(b, quizId)
  {
    if a != [] {
      WithoutAppend(a[1..], b, quizId);
      assert (a + b)[1..] == a[1..] + b;
    } else {
      assert a + b == b;
    }
  }

  /** An id that is not in the list leaves the list as it is. */
  lemma {:induction false} WithoutAbsent(ids: seq<string>, quizId: string)
    requires quizId !in ids
    ensures Without(ids, quizId) == ids
  {
    if ids != [] {
      WithoutAbsent(ids[1..], quizId);
      assert ids == [ids[0]] + ids[1..];
    }
  }

  datatype CloseReply = Closed | CloseRejected

  /**
   * `onRequestDelete`: rejected unless both ids are given. Otherwise an
   * existing record is marked inactive (its answers stay), and an existing
   * active list loses every occurrence of `quizId`.
   */
  method Close(store: QuizStore, classId: string, quizId: string) returns (reply: CloseReply, store': QuizStore)
    ensures reply == CloseRejected <==> classId == "" || quizId == ""
    ensures reply == CloseRejected ==> store' == store
    ensures reply == Closed ==>
              var key := QuizKey(classId, quizId);
              (key in store.records ==>
                 store'.records == store.records[key := store.records[key].(active := false)]) &&
              (key !in store.records ==> store'.records == store.records) &&
              (classId in store.activeLists ==>
                 store'.activeLists == store.activeLists[classId := Without(store.activeLists[classId], quizId)]) &&
              (classId !in store.activeLists ==> store'.activeLists == store.activeLists)
  {
    if classId == "" || quizId == "" {
      return CloseRejected, store;
    }
    store' := store;
    var key := QuizKey(classId, quizId);
    if key in store.records {
      var quizData := store.records[key];
      quizData := quizData.(active := false);
      store' := store'.(records := store'.records[key := quizData]);
    }
    if classId in store.activeLists {
      var quizIds := store.activeLists[classId];
      var filtered := Without(quizIds, quizId);
      store' := store'.(activeLists := store'.activeLists[classId := filtered]);
    }
    reply := Closed;
  }

  /**
   * A class's quiz lifecycle: create, answer, create again (no duplicate in
   * the active list), close (the quiz leaves the list and the listing, its
   * answers stay), then a late answer is refused as inactive.
   */
  method QuizLifecycle()
  {
    var store := QuizStore(map[], map[]);
    var created, answered, closed;
    created, store := Create(store, "c1", "q1", Str("2+2?"), Null, Undefined, Num(0), 100);
    assert created.Created? && created.quiz.slideIndex == Null && created.quiz.kind == Str("multiple");
    answered, store := Answer(store, "c1", "q1", "s1", Str("4"), 101);
    assert answered == Answered;
    created, store := Create(store, "c1", "q1", Str("2+2?"), Null, Undefined, Num(0), 102);
    assert ActiveList(store, "c1") == ["q1"];
    closed, store := Close(store, "c1", "q1");
    assert ActiveList(store, "c1") == [];
    var listing := HandleGet(store, "c1", "");
    assert listing == ActiveQuizzes([]);
    answered, store := Answer(store, "c1", "q1", "s2", Str("5"), 103);
    assert answered == QuizInactive;
  }
}
