/**
 * The workout aggregate: a Workout object that owns an ordered list of
 * WorkoutExercise line items.  Timestamps and scheduled dates are whole
 * seconds; a weight is a whole number.
 */
module Model {

  /** One line item; also the shape of a row of the `workout_exercises` table. */
  datatype WorkoutExercise = WorkoutExercise(
    id: int,
    workoutId: int,
    exerciseId: int,
    sets: int,
    reps: int,
    weight: int,
    notes: string)

  /** A line item as a client describes it: no id and no owning workout yet. */
  function LineItem(exerciseId: int, sets: int, reps: int, weight: int, notes: string): (e: WorkoutExercise)
    ensures e.id == 0 && e.workoutId == 0
    ensures e.exerciseId == exerciseId && e.sets == sets && e.reps == reps
    ensures e.weight == weight && e.notes == notes
  {
    WorkoutExercise(0, 0, exerciseId, sets, reps, weight, notes)
  }

  /** Every scalar field of a workout, i.e. everything except its line items. */
  datatype Header = Header(
    id: int,
    userId: int,
    name: string,
    description: string,
    scheduledFor: int,
    createdAt: int,
    updatedAt: int)

  class Workout {
    var id: int
    var userId: int
    var name: string
    var description: string
    var scheduledFor: int
    var exercises: seq<WorkoutExercise>
    var createdAt: int
    var updatedAt: int

    function Fields(): Header
      reads this
    {
      Header(id, userId, name, description, scheduledFor, createdAt, updatedAt)
    }

    /**
     * NewWorkout.  Both timestamps are the clock reading `now`; the id stays
     * 0 until the store assigns one.
     */
    constructor New(userId: int, name: string, description: string, scheduledFor: int, now: int)
      ensures Fields() == Header(0, userId, name, description, scheduledFor, now, now)
      ensures exercises == []
    {
      this.id := 0;
      this.userId := userId;
      this.name := name;
      this.description := description;
      this.scheduledFor := scheduledFor;
      this.exercises := [];
      this.createdAt := now;
      this.updatedAt := now;
    }

    /** The zero value `&Workout{}`, filled in field by field by a row scan. */
    constructor Zero()
      ensures Fields() == Header(0, 0, "", "", 0, 0, 0)
      ensures exercises == []
    {
      this.id := 0;
      this.userId := 0;
      this.name := "";
      this.description := "";
      this.scheduledFor := 0;
      this.exercises := [];
      this.createdAt := 0;
      this.updatedAt := 0;
    }

    /** Reading a row's workout columns into this object's scalar fields. */
    method Scan(h: Header)
      modifies this
      ensures Fields() == h && exercises == old(exercises)
    {
      id, userId, name, description := h.id, h.userId, h.name, h.description;
      scheduledFor, createdAt, updatedAt := h.scheduledFor, h.createdAt, h.updatedAt;
    }

    /**
     * Appends one line item in place: the list grows by exactly one, the old
     * items are a prefix of the new list, and nothing else changes.
     */
    method AddExercise(exerciseId: int, sets: int, reps: int, weight: int, notes: string)
      modifies this
      ensures exercises == old(exercises) + [LineItem(exerciseId, sets, reps, weight, notes)]
      ensures |exercises| == |old(exercises)| + 1
      ensures exercises[..|old(exercises)|] == old(exercises)
      ensures Fields() == old(Fields())
    {
      exercises := exercises + [LineItem(exerciseId, sets, reps, weight, notes)];
    }
  }
}
