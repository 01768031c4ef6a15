/**
 * The request handlers of functions/api/slide.js over the registry and a
 * store modelled as a map from class id to the stored value: routing of a
 * GET, the plain state read, the opening of an SSE connection with its
 * snapshot, and the update (validation, store write, broadcast).
 */
module SlideApi {
  import opened Js
  import opened SlideStore
  import opened Sse
  import opened SlideRegistry

  type Store = map<string, StoredValue>

  // -----------------------------------------------------------------------
  // GET

  /** The query of a GET; `None` for a parameter or header that is absent. */
  datatype GetQuery = GetQuery(
    classId: Option<string>,
    students: Option<string>,
    sse: Option<string>,
    accept: Option<string>)

  datatype GetRoute =
    | MissingClassId                  // 400
    | CountStudents(classId: string)  // { count }
    | OpenStream(classId: string)     // text/event-stream
    | ReadState(classId: string)      // { lessonId, slideIndex }

  /** Which branch of `onRequestGet` serves a query. */
  function Route(q: GetQuery): (r: GetRoute)
    ensures r.MissingClassId? <==> q.classId.None? || q.classId.value == ""
    ensures !r.MissingClassId? ==> r.classId == q.classId.value
    ensures r.CountStudents? <==> !r.MissingClassId? && q.students == Some("true")
    ensures r.OpenStream? <==>
              !r.MissingClassId? && q.students != Some("true") &&
              (q.sse == Some("true") || (q.accept.Some? && Contains(q.accept.value, "text/event-stream")))
  {
    if q.classId.None? || q.classId.value == "" then MissingClassId
    else if q.students == Some("true") then CountStudents(q.classId.value)
    else if q.sse == Some("true") || (q.accept.Some? && q.accept.value != "" && Contains(q.accept.value, "text/event-stream"))
    then OpenStream(q.classId.value)
    else ReadState(q.classId.value)
  }

  datatype StateReply = State(state: SlideState) | StoreFailed

  /**
   * The plain GET: the resolved state of the class, or a server error when
   * the store read fails.
   */
  function ReadCurrentState(store: Store, classId: string, readOk: bool): (r: StateReply)
    ensures !readOk <==> r.StoreFailed?
    ensures readOk && classId !in store ==> r == State(DefaultState)
    ensures readOk && classId in store ==> r == State(Resolve(Some(store[classId])))
    ensures readOk && !(classId in store && store[classId].JsonNumber?) ==>
              r == State(ResolveAsWritten(Get(store, classId)))
  {
    if readOk then State(Resolve(Get(store, classId))) else StoreFailed
  }

  /**
   * `start(controller)` of the SSE stream: register the connection, then
   * enqueue a snapshot of the stored state; a failed store read skips the
   * snapshot.
   */
  method Subscribe(reg: Registry, store: Store, classId: string, h: Handle, now: int, readOk: bool)
    returns (conn: Connection, snapshot: Option<Frame>)
    modifies reg
    ensures reg.clients == Added(old(reg.clients), classId, h)
    ensures h in Members(reg.clients, classId)
    ensures readOk ==> snapshot == Some(Data(Resolve(Get(store, classId))))
    ensures readOk && !(classId in store && store[classId].JsonNumber?) ==>
              snapshot == Some(Data(ResolveAsWritten(Get(store, classId))))
    ensures !readOk ==> snapshot.None?
    ensures fresh(conn) && conn.classId == classId && conn.handle == h
    ensures conn.lastHeartbeat == now && conn.heartbeatRunning && conn.watchdogRunning && !conn.closed
  {
    reg.AddClient(classId, h);
    snapshot := if readOk then Some(Data(Resolve(Get(store, classId)))) else None;
    conn := new Connection(classId, h, now);
  }

  // -----------------------------------------------------------------------
  // POST

  /** The three properties destructured from the request body. */
  datatype UpdateBody = UpdateBody(classId: JsValue, lessonId: JsValue, slideIndex: JsValue)

  datatype UpdateError = BadClassId | BadLessonId | BadSlideIndex

  predicate NonEmptyString(v: JsValue)
  {
    v.Str? && v.s != ""
  }

  /**
   * The validation chain of `onRequestPost`, in its order: `classId`, then
   * `lessonId` (each a non-empty string), then `slideIndex` (a number that
   * is not negative).
   */
  function ValidateUpdate(body: UpdateBody): (r: Result<(string, SlideState), UpdateError>)
    ensures r == Err(BadClassId) <==> !NonEmptyString(body.classId)
    ensures r == Err(BadLessonId) <==> NonEmptyString(body.classId) && !NonEmptyString(body.lessonId)
    ensures r == Err(BadSlideIndex) <==>
              NonEmptyString(body.classId) && NonEmptyString(body.lessonId) &&
              !(body.slideIndex.Num? && body.slideIndex.n >= 0)
    ensures r.Ok? ==>
              body.classId == Str(r.value.0) && r.value.0 != "" &&
              body.lessonId == Str(r.value.1.lessonId) && r.value.1.lessonId != "" &&
              body.slideIndex == Num(r.value.1.slideIndex) && r.value.1.slideIndex >= 0
  {
    if !NonEmptyString(body.classId) then Err(BadClassId)
    else if !NonEmptyString(body.lessonId) then Err(BadLessonId)
    else if !(body.slideIndex.Num? && body.slideIndex.n >= 0) then Err(BadSlideIndex)
    else Ok((body.classId.s, SlideState(body.lessonId.s, body.slideIndex.n)))
  }

  /** An externally visible step of an update, in the order it happens. */
  datatype Effect = Put(classId: string, value: StoredValue) | Push(classId: string, state: SlideState)

  datatype UpdateReply = Updated(state: SlideState) | Rejected(error: UpdateError) | ServerError

  /**
   * `onRequestPost`: validate, write `{lessonId, slideIndex}` to the store,
   * then broadcast the same pair. `body` is `None` when the request body is
   * not JSON; `writeOk` is false when the store write throws. A rejected or
   * failed request writes nothing and broadcasts nothing.
   */
  method HandleUpdate(reg: Registry, store: Store, body: Option<UpdateBody>, writeOk: bool,
                      enqueueOk: Handle -> bool)
    returns (reply: UpdateReply, store': Store, effects: seq<Effect>, delivered: set<Handle>)
    modifies reg
    ensures body.None? ==>
              reply == ServerError && store' == store && effects == [] && reg.clients == old(reg.clients)
    ensures body.Some? && ValidateUpdate(body.value).Err? ==>
              reply == Rejected(ValidateUpdate(body.value).error) &&
              store' == store && effects == [] && reg.clients == old(reg.clients)
    ensures body.Some? && ValidateUpdate(body.value).Ok? && !writeOk ==>
              reply == ServerError && store' == store && effects == [] && reg.clients == old(reg.clients)
    ensures body.Some? && ValidateUpdate(body.value).Ok? && writeOk ==>
              var (classId, state) := ValidateUpdate(body.value).value;
              reply == Updated(state) &&
              store' == store[classId := Stored(state)] &&
              effects == [Put(classId, Stored(state)), Push(classId, state)] &&
              reg.clients == Pruned(old(reg.clients), classId, enqueueOk) &&
              delivered == (set g | g in Members(old(reg.clients), classId) && enqueueOk(g)) &&
              Resolve(Get(store', classId)) == state
    ensures reply.Updated? <==> effects != []
  {
    store', effects, delivered := store, [], {};
    if body.None? {
      reply := ServerError;
      return;
    }
    var v := ValidateUpdate(body.value);
    if v.Err? {
      reply := Rejected(v.error);
      return;
    }
    var (classId, state) := v.value;
    if !writeOk {
      reply := ServerError;
      return;
    }
    store' := store[classId := Stored(state)];
    effects := effects + [Put(classId, Stored(state))];
    var message;
    message, delivered := reg.Broadcast(classId, state, enqueueOk);
    effects := effects + [Push(classId, state)];
    reply := Updated(state);
  }

  /**
   * The worked example of a class with no stored state: a new viewer gets
   * the defaults, and an update to lesson2/3 reaches that viewer while it
   * stays registered, and no longer reaches it once it has disconnected.
   */
  method RoomExample()
  {
    var reg := new Registry();
    var viewer := Handle(1);
    var conn, snapshot := Subscribe(reg, map[], "roomA", viewer, 0, true);
    assert snapshot == Some(Data(SlideState("lesson1", 0)));

    var body := UpdateBody(Str("roomA"), Str("lesson2"), Num(3));
    var reply, store, effects, delivered := HandleUpdate(reg, map[], Some(body), true, g => true);
    assert reply == Updated(SlideState("lesson2", 3));
    assert viewer in delivered;

    conn.Cleanup(reg);
    assert viewer !in Members(reg.clients, "roomA");
    reply, store, effects, delivered := HandleUpdate(reg, store, Some(body), true, g => true);
    assert viewer !in delivered;
  }
}
