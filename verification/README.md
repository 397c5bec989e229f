# To-do list task store, in Dafny

This project models the core of a small Android to-do list app written in Kotlin.

- **Task** is an immutable record: id, title, description, due date, completion flag and an optional photo path.
- **TaskViewModel** holds one observable list of tasks, which starts empty. It has four operations. `addTask` appends. `updateTask` replaces every task with the same id. `removeTask` filters out an id. `updateTaskPhotoPath` sets the photo path on every task with an id. Each operation assigns the observable value exactly once, so an observer receives one new list per call.
- The main screen builds a new task with the "+" button. Its edit dialog saves a copy of the task with a new title and description.

Files:

- `task.dfy` (module `TaskModel`): the `Task` datatype, `Option`, the 32-bit `Int32` id type and the photo-path copy.
- `task_list.dfy` (module `TaskList`): the pure list functions behind the operations (`ReplaceById`, `RemoveById`, `SetPhoto`) and their lemmas. The lemmas cover position by position effect, ids kept, no-op when the id is absent, idempotence, order preservation, add-then-remove, unique ids and completion flags.
- `view_model.dfy`: module `ViewModel` holds the class `TaskViewModel`. It has a `tasks: seq<Task>` field and a ghost `history` of every value published. Each method's postcondition equates the new list with the pure function and appends exactly one entry to `history`. Module `StoreScenarios` replays the store's unit-test scenarios against the class.
- `main_screen.dfy` (module `MainScreen`): the new task made by the "+" button and the edit-dialog save.

The declared `Task` class in `model/Task.kt` has five fields and no `photoPath`. However, `TaskViewModel.kt:28` copies a task with `photoPath = ...`, the tests build six-argument tasks ending in `null`, and `MainActivity.kt:49-55` builds a task without naming it. The model therefore gives `Task` a sixth field, `photoPath: Option<string>`, which defaults to `None` in a new task. This field is not declared in Task.kt.

The code has no operation that completes a task, and nothing in it keeps ids unique within the store. No operation sets `isCompleted`, and `addTask` does not check for a duplicate id. Uniqueness is stated as a predicate, `UniqueIds`. The model proves which operations preserve it and exactly when `addTask` does.

## Model

| member | source | states |
|---|---|---|
| `TaskModel.TaskEquality` | app/src/main/java/com/example/todolistapp/model/Task.kt:6-12 | Two tasks are equal exactly when all six fields are equal (data-class structural equality) |
| `TaskModel.WithPhoto` | app/src/main/java/com/example/todolistapp/viewmodel/TaskViewModel.kt:28 | The copy has `photoPath == Some(path)` and every other field of the original; it differs from the original exactly when the original did not already hold that path |
| `TaskList.ReplaceById` | app/src/main/java/com/example/todolistapp/viewmodel/TaskViewModel.kt:16-20 | Mapping over the list keeps its length |
| `TaskList.ReplaceByIdAt` | app/src/main/java/com/example/todolistapp/viewmodel/TaskViewModel.kt:17-19 | At every index, a task whose id equals the update's id becomes exactly the update, and any other task is unchanged |
| `TaskList.ReplaceByIdKeepsIds` | app/src/main/java/com/example/todolistapp/viewmodel/TaskViewModel.kt:16-20 | The sequence of ids, in order, is the same before and after an update (no reordering) |
| `TaskList.ReplaceByIdAbsent` | app/src/main/java/com/example/todolistapp/viewmodel/TaskViewModel.kt:17-19 | No task has the update's id if and only if the update leaves the list identical and the update is not in it |
| `TaskList.ReplaceByIdIdempotent` | app/src/main/java/com/example/todolistapp/viewmodel/TaskViewModel.kt:16-20 | Updating twice with the same task gives the same list as updating once |
| `TaskList.ReplaceByIdUnique` | app/src/main/java/com/example/todolistapp/viewmodel/TaskViewModel.kt:16-20 | With unique ids, updating the task at position i is the single-position update `s[i := u]` |
| `TaskList.RemoveById` | app/src/main/java/com/example/todolistapp/viewmodel/TaskViewModel.kt:22-24 | Filtering never makes the list longer |
| `TaskList.RemoveByIdConcat` | app/src/main/java/com/example/todolistapp/viewmodel/TaskViewModel.kt:23 | Removing from `a + b` is removing from `a` followed by removing from `b`, so the surviving tasks keep their relative order |
| `TaskList.RemoveByIdMembers` | app/src/main/java/com/example/todolistapp/viewmodel/TaskViewModel.kt:23 | A task is in the result exactly when it was in the list and its id differs from the removed id |
| `TaskList.RemoveByIdGone` | app/src/main/java/com/example/todolistapp/viewmodel/TaskViewModel.kt:23 | No task with the removed id remains |
| `TaskList.RemoveByIdLength` | app/src/main/java/com/example/todolistapp/viewmodel/TaskViewModel.kt:23 | The length drops by exactly the number of tasks carrying the removed id |
| `TaskList.RemoveByIdAbsent` | app/src/main/java/com/example/todolistapp/viewmodel/TaskViewModel.kt:22-24 | The list comes back identical if and only if no task has the removed id |
| `TaskList.RemoveByIdIdempotent` | app/src/main/java/com/example/todolistapp/viewmodel/TaskViewModel.kt:22-24 | Removing an id twice gives the same list as removing it once |
| `TaskList.AddThenRemove` | app/src/main/java/com/example/todolistapp/viewmodel/TaskViewModel.kt:12-24 | If the new task's id is absent, appending it and then removing its id restores the original list |
| `TaskList.RemoveByIdUnique` | app/src/main/java/com/example/todolistapp/viewmodel/TaskViewModel.kt:22-24 | With unique ids, removing the id at position i drops exactly that position: `s[..i] + s[i+1..]` |
| `TaskList.SetPhoto` | app/src/main/java/com/example/todolistapp/viewmodel/TaskViewModel.kt:26-30 | Mapping over the list keeps its length |
| `TaskList.SetPhotoAt` | app/src/main/java/com/example/todolistapp/viewmodel/TaskViewModel.kt:27-29 | At every index, a task with the given id becomes its photo-path copy, and any other task is unchanged |
| `TaskList.SetPhotoFields` | app/src/main/java/com/example/todolistapp/viewmodel/TaskViewModel.kt:26-30 | At every index, id, title, description, due date and completion flag are kept; the photo path becomes `Some(path)` on matching tasks and is kept on the others |
| `TaskList.SetPhotoKeepsIds` | app/src/main/java/com/example/todolistapp/viewmodel/TaskViewModel.kt:26-30 | The sequence of ids, in order, is unchanged |
| `TaskList.SetPhotoAbsent` | app/src/main/java/com/example/todolistapp/viewmodel/TaskViewModel.kt:27-29 | With no task of that id, the list comes back identical |
| `TaskList.SetPhotoIdempotent` | app/src/main/java/com/example/todolistapp/viewmodel/TaskViewModel.kt:26-30 | Setting the same photo path twice gives the same list as setting it once |
| `TaskList.OperationsKeepUniqueIds` | app/src/main/java/com/example/todolistapp/viewmodel/TaskViewModel.kt:12-30 | Update, remove and set-photo keep ids unique; append keeps them unique exactly when the new id is absent (append does no duplicate check) |
| `TaskList.OperationsKeepNoneCompleted` | app/src/main/java/com/example/todolistapp/viewmodel/TaskViewModel.kt:12-30 | If no stored task is completed and the task given to add or update is not, then no task is completed after any of the four operations; the store itself never sets the flag |
| `MainScreen.NewTask` | app/src/main/java/com/example/todolistapp/MainActivity.kt:49-55 | A new task has the caller's id and date, the fixed title "Nowe Zadanie" and description "Opis nowego zadania", is not completed and has no photo |
| `MainScreen.EditSave` | app/src/main/java/com/example/todolistapp/MainActivity.kt:194 | The saved copy has the new title and description and keeps the id, due date, completion flag and photo path |
| `MainScreen.EditSaveInPlace` | app/src/main/java/com/example/todolistapp/MainActivity.kt:69-70 | With unique ids, saving an edit of the task at position i and passing it to `updateTask` changes only position i, keeps the ids in order and marks no task completed |
| `ViewModel.TaskViewModel.constructor` | app/src/main/java/com/example/todolistapp/viewmodel/TaskViewModel.kt:9 | The list starts empty, and the first published value is `[]` |
| `ViewModel.TaskViewModel.Snapshot` | app/src/main/java/com/example/todolistapp/viewmodel/TaskViewModel.kt:10 | Reading gives the current list, which is the last value published |
| `ViewModel.TaskViewModel.AddTask` | app/src/main/java/com/example/todolistapp/viewmodel/TaskViewModel.kt:12-14 | The new list is the old list plus the task at the end, and exactly one value (that list) is published |
| `ViewModel.TaskViewModel.UpdateTask` | app/src/main/java/com/example/todolistapp/viewmodel/TaskViewModel.kt:16-20 | The new list is `ReplaceById` of the old one, with the same length and ids; exactly one value is published |
| `ViewModel.TaskViewModel.RemoveTask` | app/src/main/java/com/example/todolistapp/viewmodel/TaskViewModel.kt:22-24 | The new list is `RemoveById` of the old one, has no task with the id, and is shorter by the number of matches; exactly one value is published |
| `ViewModel.TaskViewModel.UpdateTaskPhotoPath` | app/src/main/java/com/example/todolistapp/viewmodel/TaskViewModel.kt:26-30 | The new list is `SetPhoto` of the old one, with the same length and ids; exactly one value is published |
| `StoreScenarios.AddOne` | app/src/test/java/com/example/todolistapp/viewmodel/TaskViewModelTest.kt:28-39 | An observer on a fresh store sees exactly `[]` and then `[task]` |
| `StoreScenarios.AddThenRemoveOne` | app/src/test/java/com/example/todolistapp/viewmodel/TaskViewModelTest.kt:41-64 | Add then remove by the same id publishes exactly `[]`, `[task]`, `[]` |
| `StoreScenarios.AddThenUpdateTitle` | app/src/test/java/com/example/todolistapp/viewmodel/TaskViewModelTest.kt:66-79 | Add then update with a retitled copy publishes three values, the last being `[copy]` |
| `StoreScenarios.AddThenAttachPhoto` | app/src/test/java/com/example/todolistapp/viewmodel/TaskViewModelTest.kt:81-94 | Add then set a photo path publishes three values, the last being the task with that photo path |

## Left out

- Notification channel setup and delivery (`createNotificationChannel`, `sendPushNotification`) and the permission checks and requests in MainActivity.kt are Android platform I/O. They are not modelled.
- The Compose UI (`TaskList`, `TaskItem`, `EditTaskDialog`, the dialog's remembered state, `DefaultPreview`) is rendering and gesture routing. Only the value the dialog saves (`EditSave`) and the task the "+" button builds (`NewTask`) are modelled.
- Id generation with `UUID.randomUUID().hashCode()` is random and a foreign call. Ids are caller-supplied 32-bit integers with no uniqueness guarantee.
- `java.util.Date` is reduced to an integer timestamp supplied by the caller. No operation reads or changes it.
- LiveData, observers, the main-thread executor and the test's mocking and dispatchers are not modelled. They are replaced by the ghost `history` of published values, which assumes a single observer registered from the start. The `?.` null guard on the list is never triggered, because the list starts as `emptyList()` and every assignment is non-null, so the list is a plain sequence.
- Completing a task and camera/photo-file storage do not exist in the code. Only the path string handed to `updateTaskPhotoPath` is modelled.
