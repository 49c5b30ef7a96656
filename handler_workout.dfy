/**
 * The workout HTTP handlers. Each handler is a method over the store that
 * returns the reply it writes. The caller's identity comes from the request
 * context that the authentication middleware filled in. The decoded JSON body
 * and the query parameters are inputs, and each store failure is an
 * injectable delivery, flag or fault.
 */
module WorkoutHandler {
  import opened Wrappers
  import opened Http
  import opened Model
  import opened Report
  import opened Repository
  import Jwt
  import Strconv
  import Dates

  /** One line item of a request body. */
  datatype ExerciseInput = ExerciseInput(exerciseId: int, sets: int, reps: int, weight: int, notes: string)

  /** A workout request body; Create ignores the id. */
  datatype WorkoutInput = WorkoutInput(
    id: int,
    name: string,
    description: string,
    scheduledFor: int,
    exercises: seq<ExerciseInput>)

  function Line(e: ExerciseInput): WorkoutExercise {
    LineItem(e.exerciseId, e.sets, e.reps, e.weight, e.notes)
  }

  /** The line items a request body describes, in request order. */
  function Lines(es: seq<ExerciseInput>): (r: seq<WorkoutExercise>)
    ensures |r| == |es|
    ensures forall k :: 0 <= k < |es| ==> r[k] == Line(es[k])
  {
    if es == [] then [] else Lines(es[..|es| - 1]) + [Line(es[|es| - 1])]
  }

  /**
   * The line items of an update body, written into a slice of the body's
   * length position by position.
   */
  method MakeLines(es: seq<ExerciseInput>) returns (r: seq<WorkoutExercise>)
    ensures r == Lines(es)
  {
    var fill := new WorkoutExercise[|es|](_ => LineItem(0, 0, 0, 0, ""));
    for i := 0 to |es|
      modifies fill
      invariant forall k :: 0 <= k < i ==> fill[k] == Line(es[k])
    {
      fill[i] := Line(es[i]);
    }
    r := fill[..];
  }

  /** The caller, as the handlers read it from the request context. */
  function Caller(ctx: Jwt.Context): Jwt.Lookup {
    Jwt.GetUserIDFromContext(ctx)
  }

  /** The stored workout id exists and belongs to user. */
  predicate OwnedBy(workouts: map<int, WorkoutRow>, id: int, user: int) {
    id in workouts && workouts[id].userId == user
  }

  /**
   * Create: builds the workout for the caller from the body, appending the
   * line items one by one in request order, and stores it. The reply is 201
   * exactly when the caller is known, the body decoded and the transaction
   * committed; the stored rows are then exactly the new workout and its
   * items, and no other workout's items change.
   */
  method Create(store: WorkoutStore, ctx: Jwt.Context, body: Result<WorkoutInput, string>, now: int, fault: Fault)
    returns (reply: Reply, w: Workout?)
    requires store.Valid()
    modifies store
    ensures store.Valid()
    ensures Caller(ctx).err.Some? ==> reply == Reply(StatusUnauthorized, "Unauthorized")
    ensures Caller(ctx).err.None? && body.Failure? ==> reply == Reply(StatusBadRequest, body.error)
    ensures Caller(ctx).err.None? && body.Success? && Aborts(fault, 1 + |body.value.exercises|) ==>
      reply == Reply(StatusInternalServerError, "Failed to create workout")
    ensures reply == Reply(StatusCreated, "") <==>
      Caller(ctx).err.None? && body.Success? && !Aborts(fault, 1 + |body.value.exercises|)
    ensures reply != Reply(StatusCreated, "") ==>
      store.workouts == old(store.workouts) && store.items == old(store.items)
    ensures reply == Reply(StatusCreated, "") ==>
      && w != null && fresh(w)
      && w.Fields() == Header(w.id, Caller(ctx).userId, body.value.name, body.value.description,
                              body.value.scheduledFor, now, now)
      && w.exercises == Lines(body.value.exercises)
      && w.id !in old(store.workouts)
      && store.workouts == old(store.workouts)[w.id := RowOf(w.Fields())]
      && ItemsOf(store.items, w.id) == Inserted(w.exercises, w.id, old(store.nextItemId))
      && (forall x :: x != w.id ==> ItemsOf(store.items, x) == ItemsOf(old(store.items), x))
  {
    w := null;
    var caller := Caller(ctx);
    if caller.err.Some? {
      return Reply(StatusUnauthorized, "Unauthorized"), null;
    }
    if body.Failure? {
      return Reply(StatusBadRequest, body.error), null;
    }
    var input := body.value;
    w := new Workout.New(caller.userId, input.name, input.description, input.scheduledFor, now);
    for i := 0 to |input.exercises|
      modifies w
      invariant w.Fields() == Header(0, caller.userId, input.name, input.description, input.scheduledFor, now, now)
      invariant w.exercises == Lines(input.exercises[..i])
    {
      var e := input.exercises[i];
      assert input.exercises[..i + 1][..i] == input.exercises[..i];
      w.AddExercise(e.exerciseId, e.sets, e.reps, e.weight, e.notes);
    }
    assert input.exercises[..|input.exercises|] == input.exercises;
    var ok := store.Create(w, fault);
    if !ok {
      return Reply(StatusInternalServerError, "Failed to create workout"), w;
    }
    reply := Reply(StatusCreated, "");
  }

  /**
   * GetByID (not routed): a malformed id is 400 and a failed query 404; a
   * missing workout, or a result set cut off before its first row, comes
   * back from the store as no workout and no error, and is written as a 200
   * with a JSON null.
   */
  method GetByID(store: WorkoutStore, idParam: string, lookup: Delivery) returns (reply: Reply, w: Workout?)
    requires store.Valid()
    ensures Strconv.Atoi(idParam).None? ==> reply == Reply(StatusBadRequest, "Invalid workout ID") && w == null
    ensures Strconv.Atoi(idParam).Some? && lookup.QueryError? ==>
      reply == Reply(StatusNotFound, "Workout not found") && w == null
    ensures Strconv.Atoi(idParam).Some? && !lookup.QueryError? ==>
      && reply == Reply(StatusOK, "")
      && (w == null <==> Strconv.Atoi(idParam).value !in store.workouts || lookup == CutAfter(0))
      && (w != null ==> w.Fields() == HeaderOf(Strconv.Atoi(idParam).value, store.workouts[Strconv.Atoi(idParam).value]))
      && (w != null ==> w.exercises == Fetched(ItemsOf(store.items, Strconv.Atoi(idParam).value))
                                         [..Arrived(lookup, |ItemsOf(store.items, Strconv.Atoi(idParam).value)|)])
  {
    var id := Strconv.Atoi(idParam);
    if id.None? {
      return Reply(StatusBadRequest, "Invalid workout ID"), null;
    }
    var err;
    w, err := store.GetByID(id.value, lookup);
    if err {
      return Reply(StatusNotFound, "Workout not found"), null;
    }
    reply := Reply(StatusOK, "");
  }

  /**
   * GetByUser: the caller's workouts, newest scheduled first, without their
   * line items; a result set cut off part way is written as a 200 over the
   * rows that arrived.
   */
  method GetByUser(store: WorkoutStore, ctx: Jwt.Context, query: Delivery) returns (reply: Reply, ws: seq<Workout>)
    requires store.Valid()
    ensures Caller(ctx).err.Some? ==> reply == Reply(StatusUnauthorized, "Unauthorized")
    ensures Caller(ctx).err.None? && query.QueryError? ==>
      reply == Reply(StatusInternalServerError, "Failed to fetch workouts")
    ensures reply != Reply(StatusOK, "") ==> ws == []
    ensures Caller(ctx).err.None? && !query.QueryError? ==>
      reply == Reply(StatusOK, "") && store.Listed(ws, Caller(ctx).userId, query)
  {
    var caller := Caller(ctx);
    if caller.err.Some? {
      return Reply(StatusUnauthorized, "Unauthorized"), [];
    }
    var err;
    ws, err := store.GetByUserID(caller.userId, query);
    if err {
      return Reply(StatusInternalServerError, "Failed to fetch workouts"), [];
    }
    reply := Reply(StatusOK, "");
  }

  /**
   * Update: fetches the workout named by the body, checks that the caller
   * owns it, overwrites name, description, schedule and line items from the
   * body and saves it. The updated-at time is written back unchanged. The
   * store changes only when the caller owns the workout; a workout that does
   * not exist, or whose lookup was cut off before its first row, is
   * dereferenced and panics.
   */
  method Update(store: WorkoutStore, ctx: Jwt.Context, body: Result<WorkoutInput, string>,
                lookup: Delivery, fault: Fault)
    returns (reply: Reply, w: Workout?)
    requires store.Valid()
    modifies store
    ensures store.Valid()
    ensures Caller(ctx).err.Some? ==> reply == Reply(StatusUnauthorized, "Unauthorized")
    ensures Caller(ctx).err.None? && body.Failure? ==> reply == Reply(StatusBadRequest, body.error)
    ensures Caller(ctx).err.None? && body.Success? && lookup.QueryError? ==>
      reply == Reply(StatusNotFound, "Workout not found")
    ensures (Caller(ctx).err.None? && body.Success? && !lookup.QueryError? &&
             (body.value.id !in old(store.workouts) || lookup == CutAfter(0))) ==>
      reply == Panic
    ensures (Caller(ctx).err.None? && body.Success? && lookup.Fetches() && body.value.id in old(store.workouts) &&
             old(store.workouts)[body.value.id].userId != Caller(ctx).userId) ==>
      reply == Reply(StatusUnauthorized, "Unauthorized")
    ensures (Caller(ctx).err.None? && body.Success? && lookup.Fetches() &&
             OwnedBy(old(store.workouts), body.value.id, Caller(ctx).userId) &&
             Aborts(fault, 2 + |body.value.exercises|)) ==>
      reply == Reply(StatusInternalServerError, "Failed to update workout")
    ensures reply == Reply(StatusOK, "") <==>
      && Caller(ctx).err.None? && body.Success? && lookup.Fetches()
      && OwnedBy(old(store.workouts), body.value.id, Caller(ctx).userId)
      && !Aborts(fault, 2 + |body.value.exercises|)
    // no change to the store unless the caller owns the workout
    ensures store.workouts != old(store.workouts) || store.items != old(store.items) ==>
      Caller(ctx).err.None? && body.Success? && OwnedBy(old(store.workouts), body.value.id, Caller(ctx).userId)
    ensures reply != Reply(StatusOK, "") ==> store.workouts == old(store.workouts) && store.items == old(store.items)
    ensures reply == Reply(StatusOK, "") ==>
      && store.workouts == old(store.workouts)[body.value.id := old(store.workouts)[body.value.id].(
           name := body.value.name, description := body.value.description, scheduledFor := body.value.scheduledFor)]
      && ItemsOf(store.items, body.value.id) == Inserted(Lines(body.value.exercises), body.value.id, old(store.nextItemId))
      && (forall x :: x != body.value.id ==> ItemsOf(store.items, x) == ItemsOf(old(store.items), x))
      && w != null && w.exercises == Lines(body.value.exercises)
  {
    w := null;
    var caller := Caller(ctx);
    if caller.err.Some? {
      return Reply(StatusUnauthorized, "Unauthorized"), null;
    }
    if body.Failure? {
      return Reply(StatusBadRequest, body.error), null;
    }
    var input := body.value;
    var err;
    w, err := store.GetByID(input.id, lookup);
    if err {
      return Reply(StatusNotFound, "Workout not found"), null;
    }
    if w == null {
      // workout.UserID on a nil pointer
      return Panic, null;
    }
    if w.userId != caller.userId {
      return Reply(StatusUnauthorized, "Unauthorized"), w;
    }
    reply := Save(store, w, input, fault);
  }

  /**
   * The owner's half of Update: the fetched workout takes the body's name,
   * description, schedule and line items, and the store saves it. The stored
   * row keeps its updated-at time, since the fetched value is written back.
   */
  method Save(store: WorkoutStore, w: Workout, input: WorkoutInput, fault: Fault) returns (reply: Reply)
    requires store.Valid()
    requires input.id in store.workouts && w.Fields() == HeaderOf(input.id, store.workouts[input.id])
    modifies store, w
    ensures store.Valid()
    ensures w.exercises == Lines(input.exercises)
    ensures reply == Reply(StatusOK, "") <==> !Aborts(fault, 2 + |input.exercises|)
    ensures reply != Reply(StatusOK, "") ==>
      reply == Reply(StatusInternalServerError, "Failed to update workout") &&
      store.workouts == old(store.workouts) && store.items == old(store.items)
    ensures reply == Reply(StatusOK, "") ==>
      && store.workouts == old(store.workouts)[input.id := old(store.workouts)[input.id].(
           name := input.name, description := input.description, scheduledFor := input.scheduledFor)]
      && ItemsOf(store.items, input.id) == Inserted(Lines(input.exercises), input.id, old(store.nextItemId))
      && (forall x :: x != input.id ==> ItemsOf(store.items, x) == ItemsOf(old(store.items), x))
  {
    ghost var row := store.workouts[input.id];
    w.name, w.description, w.scheduledFor := input.name, input.description, input.scheduledFor;
    w.exercises := MakeLines(input.exercises);
    assert w.id == input.id && w.updatedAt == row.updatedAt;
    var ok := store.Update(w, fault);
    if !ok {
      return Reply(StatusInternalServerError, "Failed to update workout");
    }
    ghost var expected := old(store.workouts)[input.id := row.(
      name := input.name, description := input.description, scheduledFor := input.scheduledFor)];
    assert store.workouts.Keys == expected.Keys;
    assert forall id :: id in expected ==> store.workouts[id] == expected[id];
    reply := Reply(StatusOK, "");
  }

  /**
   * Delete: the id comes from the query string; the workout is fetched to
   * check its owner and then removed. The store changes only when the caller
   * owns the workout; a workout that does not exist, or whose lookup was cut
   * off before its first row, panics.
   */
  method Delete(store: WorkoutStore, ctx: Jwt.Context, idParam: string, lookup: Delivery, deleteFails: bool)
    returns (reply: Reply)
    requires store.Valid()
    modifies store
    ensures store.Valid()
    ensures Caller(ctx).err.Some? ==> reply == Reply(StatusUnauthorized, "Unauthorized")
    ensures Caller(ctx).err.None? && Strconv.Atoi(idParam).None? ==> reply == Reply(StatusBadRequest, "Invalid workout ID")
    ensures Caller(ctx).err.None? && Strconv.Atoi(idParam).Some? && lookup.QueryError? ==>
      reply == Reply(StatusNotFound, "Workout not found")
    ensures (Caller(ctx).err.None? && Strconv.Atoi(idParam).Some? && !lookup.QueryError? &&
             (Strconv.Atoi(idParam).value !in old(store.workouts) || lookup == CutAfter(0))) ==>
      reply == Panic
    ensures (Caller(ctx).err.None? && Strconv.Atoi(idParam).Some? && lookup.Fetches() &&
             Strconv.Atoi(idParam).value in old(store.workouts) &&
             old(store.workouts)[Strconv.Atoi(idParam).value].userId != Caller(ctx).userId) ==>
      reply == Reply(StatusUnauthorized, "Unauthorized")
    ensures (Caller(ctx).err.None? && Strconv.Atoi(idParam).Some? && lookup.Fetches() &&
             OwnedBy(old(store.workouts), Strconv.Atoi(idParam).value, Caller(ctx).userId) && deleteFails) ==>
      reply == Reply(StatusInternalServerError, "Failed to delete workout")
    ensures reply == Reply(StatusNoContent, "") <==>
      && Caller(ctx).err.None? && Strconv.Atoi(idParam).Some? && lookup.Fetches()
      && OwnedBy(old(store.workouts), Strconv.Atoi(idParam).value, Caller(ctx).userId)
      && !deleteFails
    // no change to the store unless the caller owns the workout
    ensures store.workouts != old(store.workouts) || store.items != old(store.items) ==>
      Caller(ctx).err.None? && Strconv.Atoi(idParam).Some? &&
      OwnedBy(old(store.workouts), Strconv.Atoi(idParam).value, Caller(ctx).userId)
    ensures reply != Reply(StatusNoContent, "") ==> store.workouts == old(store.workouts) && store.items == old(store.items)
    ensures reply == Reply(StatusNoContent, "") ==>
      store.workouts == old(store.workouts) - {Strconv.Atoi(idParam).value} &&
      store.items == Without(old(store.items), Strconv.Atoi(idParam).value)
  {
    var caller := Caller(ctx);
    if caller.err.Some? {
      return Reply(StatusUnauthorized, "Unauthorized");
    }
    var id := Strconv.Atoi(idParam);
    if id.None? {
      return Reply(StatusBadRequest, "Invalid workout ID");
    }
    var w, err := store.GetByID(id.value, lookup);
    if err {
      return Reply(StatusNotFound, "Workout not found");
    }
    if w == null {
      // workout.UserID on a nil pointer
      return Panic;
    }
    if w.userId != caller.userId {
      return Reply(StatusUnauthorized, "Unauthorized");
    }
    var ok := store.Delete(id.value, deleteFails);
    if !ok {
      return Reply(StatusInternalServerError, "Failed to delete workout");
    }
    reply := Reply(StatusNoContent, "");
  }

  /**
   * GenerateReport: the caller's report over the two query dates. Every
   * store error, bad dates included, is written as a 500; a result set cut
   * off part way is summarized over the rows that arrived.
   */
  method GenerateReport(store: WorkoutStore, ctx: Jwt.Context, startDate: string, endDate: string, query: Delivery)
    returns (reply: Reply, report: Option<Report>)
    requires store.Valid()
    ensures Caller(ctx).err.Some? ==> reply == Reply(StatusUnauthorized, "Unauthorized") && report == None
    ensures Caller(ctx).err.None? ==>
      (reply == Reply(StatusOK, "") <==>
        Dates.ParseDate(startDate).Some? && Dates.ParseDate(endDate).Some? && !query.QueryError?)
    ensures Caller(ctx).err.None? && reply != Reply(StatusOK, "") ==>
      reply == Reply(StatusInternalServerError, "Failed to generate report") && report == None
    ensures reply == Reply(StatusOK, "") ==>
      && report.Some?
      && var rows := ReportRows(store.workouts, store.items, Caller(ctx).userId,
                                Dates.ParseDate(startDate).value, Dates.ParseDate(endDate).value);
         Summarizes(report.value, startDate, endDate, rows[..Arrived(query, |rows|)])
  {
    var caller := Caller(ctx);
    if caller.err.Some? {
      return Reply(StatusUnauthorized, "Unauthorized"), None;
    }
    var r := store.GenerateReport(caller.userId, startDate, endDate, query);
    if r.Failure? {
      return Reply(StatusInternalServerError, "Failed to generate report"), None;
    }
    reply, report := Reply(StatusOK, ""), Some(r.value);
  }
}
