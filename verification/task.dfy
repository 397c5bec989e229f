/** The task record of the to-do list (model/Task.kt). */
module TaskModel {

  datatype Option<+T> = None | Some(value: T)

  /** Kotlin's `Int`: a signed 32-bit integer. Ids are only ever compared. */
  newtype Int32 = x: int | -0x8000_0000 <= x < 0x8000_0000

  /** `java.util.Date`, reduced to its millisecond timestamp; no operation reads it. */
  type Timestamp = int

  /**
   * An immutable task. Every field is a `val`; a changed task is a new value
   * built by `copy`. `photoPath` is absent until a photo is attached.
   */
  datatype Task = Task(
    id: Int32,
    title: string,
    description: string,
    dueDate: Timestamp,
    isCompleted: bool,
    photoPath: Option<string>)

  /** `task.copy(photoPath = path)`: only the photo path changes. */
  function WithPhoto(t: Task, path: string): (r: Task)
    ensures r.photoPath == Some(path)
    ensures r.id == t.id && r.title == t.title && r.description == t.description
    ensures r.dueDate == t.dueDate && r.isCompleted == t.isCompleted
    ensures r != t <==> t.photoPath != Some(path)
  {
    t.(photoPath := Some(path))
  }

  /** Equality of the data class is structural: all six fields agree. */
  lemma TaskEquality(a: Task, b: Task)
    ensures a == b <==>
      a.id == b.id && a.title == b.title && a.description == b.description &&
      a.dueDate == b.dueDate && a.isCompleted == b.isCompleted && a.photoPath == b.photoPath
  {
  }
}
