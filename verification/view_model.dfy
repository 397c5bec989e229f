/**
 * The task store (viewmodel/TaskViewModel.kt): one observable list of tasks,
 * starting empty, that each operation replaces with a new list exactly once.
 */
module ViewModel {
  import opened TaskModel
  import opened TaskList

  class TaskViewModel {
    /** The current value of the observable list. */
    var tasks: seq<Task>
    /**
     * Every value an observer registered from the start has been sent: the
     * initial empty list, then one entry per assignment.
     */
    ghost var history: seq<seq<Task>>

    ghost predicate Valid()
      reads this
    {
      |history| > 0 && history[0] == [] && history[|history| - 1] == tasks
    }

    /** The list starts empty, and that empty list is the first value observed. */
    constructor ()
      ensures Valid()
      ensures tasks == [] && history == [[]]
    {
      tasks := [];
      history := [[]];
    }

    /** Reading the published list. */
    method Snapshot() returns (snapshot: seq<Task>)
      requires Valid()
      ensures snapshot == tasks && snapshot == history[|history| - 1]
    {
      snapshot := tasks;
    }

    /** `addTask`: append at the end, with no duplicate-id check. */
    method AddTask(task: Task)
      requires Valid()
      modifies this
      ensures Valid()
      ensures tasks == old(tasks) + [task]
      ensures history == old(history) + [tasks]
    {
      tasks := tasks + [task];
      history := history + [tasks];
    }

    /** `updateTask`: every task with the same id becomes `updatedTask`, in place. */
    method UpdateTask(updatedTask: Task)
      requires Valid()
      modifies this
      ensures Valid()
      ensures tasks == ReplaceById(old(tasks), updatedTask)
      ensures |tasks| == |old(tasks)| && Ids(tasks) == Ids(old(tasks))
      ensures history == old(history) + [tasks]
    {
      ReplaceByIdKeepsIds(tasks, updatedTask);
      tasks := ReplaceById(tasks, updatedTask);
      history := history + [tasks];
    }

    /** `removeTask`: keep only the tasks whose id differs from `taskId`. */
    method RemoveTask(taskId: Int32)
      requires Valid()
      modifies this
      ensures Valid()
      ensures tasks == RemoveById(old(tasks), taskId)
      ensures !HasId(tasks, taskId) && |tasks| == |old(tasks)| - CountId(old(tasks), taskId)
      ensures history == old(history) + [tasks]
    {
      RemoveByIdGone(tasks, taskId);
      RemoveByIdLength(tasks, taskId);
      tasks := RemoveById(tasks, taskId);
      history := history + [tasks];
    }

    /** `updateTaskPhotoPath`: set the photo path of every task with id `taskId`. */
    method UpdateTaskPhotoPath(taskId: Int32, photoPath: string)
      requires Valid()
      modifies this
      ensures Valid()
      ensures tasks == SetPhoto(old(tasks), taskId, photoPath)
      ensures |tasks| == |old(tasks)| && Ids(tasks) == Ids(old(tasks))
      ensures history == old(history) + [tasks]
    {
      SetPhotoKeepsIds(tasks, taskId, photoPath);
      tasks := SetPhoto(tasks, taskId, photoPath);
      history := history + [tasks];
    }
  }
}

/**
 * The observer scenarios of the store's tests (TaskViewModelTest.kt): an
 * observer registered on a fresh store, then two or three operations, and the
 * sequence of lists it receives.
 */
module StoreScenarios {
  import opened TaskModel
  import opened TaskList
  import opened ViewModel

  /** Add one task: the observer sees the empty list, then the one-task list. */
  method AddOne(task: Task) returns (vm: TaskViewModel)
    ensures vm.Valid() && vm.history == [[], [task]] && vm.tasks == [task]
  {
    vm := new TaskViewModel();
    vm.AddTask(task);
    assert vm.tasks == [task];
  }

  /** Add then remove by the same id: three values, the last one empty again. */
  method AddThenRemoveOne(task: Task) returns (vm: TaskViewModel)
    ensures vm.Valid() && vm.history == [[], [task], []] && vm.tasks == []
  {
    vm := new TaskViewModel();
    vm.AddTask(task);
    assert vm.tasks == [] + [task] == [task];
    assert vm.history == [[], [task]];
    AddThenRemove([], task);
    vm.RemoveTask(task.id);
  }

  /** Add then update with a copy under a new title: the last value holds the copy. */
  method AddThenUpdateTitle(task: Task, title: string) returns (vm: TaskViewModel)
    ensures vm.Valid() && vm.history == [[], [task], [task.(title := title)]]
  {
    vm := new TaskViewModel();
    vm.AddTask(task);
    assert vm.tasks == [task] && vm.history == [[], [task]];
    var updated := task.(title := title);
    ReplaceByIdUnique([task], updated, 0);
    vm.UpdateTask(updated);
    assert vm.tasks == [updated];
  }

  /** Add then attach a photo: the last value holds the task with that photo path. */
  method AddThenAttachPhoto(task: Task, path: string) returns (vm: TaskViewModel)
    ensures vm.Valid() && vm.history == [[], [task], [WithPhoto(task, path)]]
  {
    vm := new TaskViewModel();
    vm.AddTask(task);
    assert vm.tasks == [task] && vm.history == [[], [task]];
    SetPhotoAt([task], task.id, path, 0);
    vm.UpdateTaskPhotoPath(task.id, path);
    assert vm.tasks == [WithPhoto(task, path)];
  }
}
