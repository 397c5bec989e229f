/**
 * The two task values the screen (MainActivity.kt) builds before handing them
 * to the store: a new task from the "+" button, and the task saved by the edit
 * dialog.
 */
module MainScreen {
  import opened TaskModel
  import opened TaskList

  const NewTaskTitle: string := "Nowe Zadanie"
  const NewTaskDescription: string := "Opis nowego zadania"

  /**
   * The task the "+" button adds. The id (a hash of a random UUID) and the
   * current date come from the platform and are parameters here.
   */
  function NewTask(id: Int32, now: Timestamp): (r: Task)
    ensures r.id == id && r.dueDate == now
    ensures r.title == NewTaskTitle && r.description == NewTaskDescription
    ensures !r.isCompleted && r.photoPath == None
  {
    Task(id, NewTaskTitle, NewTaskDescription, now, false, None)
  }

  /** Saving the edit dialog: `task.copy(title = title, description = description)`. */
  function EditSave(t: Task, title: string, description: string): (r: Task)
    ensures r.title == title && r.description == description
    ensures r.id == t.id && r.dueDate == t.dueDate
    ensures r.isCompleted == t.isCompleted && r.photoPath == t.photoPath
  {
    t.(title := title, description := description)
  }

  /**
   * Saving an edit of a stored task changes that task's title and description in
   * place: when ids are unique, the list is the old one with position `i` edited,
   * the ids in order are unchanged, and no task becomes completed.
   */
  lemma EditSaveInPlace(s: seq<Task>, i: nat, title: string, description: string)
    requires UniqueIds(s) && i < |s|
    ensures var r := ReplaceById(s, EditSave(s[i], title, description));
      r == s[i := EditSave(s[i], title, description)] &&
      Ids(r) == Ids(s) &&
      (NoneCompleted(s) ==> NoneCompleted(r))
  {
    var u := EditSave(s[i], title, description);
    ReplaceByIdUnique(s, u, i);
    ReplaceByIdKeepsIds(s, u);
    if NoneCompleted(s) {
      OperationsKeepNoneCompleted(s, u, u.id, "");
    }
  }
}
