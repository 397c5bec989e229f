/**
 * The pure list transformations behind the four operations of the task store
 * (viewmodel/TaskViewModel.kt): `plus`, `map` by id and `filter` by id over
 * the list of tasks, with their properties.
 */
module TaskList {
  import opened TaskModel

  /** The ids of the tasks, in list order. */
  function Ids(s: seq<Task>): seq<Int32> {
    seq(|s|, i requires 0 <= i < |s| => s[i].id)
  }

  /** Some task in the list has id `k`. */
  predicate HasId(s: seq<Task>, k: Int32) {
    exists i :: 0 <= i < |s| && s[i].id == k
  }

  /** How many tasks in the list have id `k`. */
  function CountId(s: seq<Task>, k: Int32): nat {
    if s == [] then 0 else (if s[0].id == k then 1 else 0) + CountId(s[1..], k)
  }

  /** No two tasks in the list share an id. The store itself never checks this. */
  predicate UniqueIds(s: seq<Task>) {
    forall i, j :: 0 <= i < j < |s| ==> s[i].id != s[j].id
  }

  /** No task in the list is marked completed. */
  predicate NoneCompleted(s: seq<Task>) {
    forall i :: 0 <= i < |s| ==> !s[i].isCompleted
  }

  // ---------------------------------------------------------------------------
  // updateTask: map each task with the given id to the replacement

  function ReplaceById(s: seq<Task>, u: Task): (r: seq<Task>)
    ensures |r| == |s|
  {
    if s == [] then [] else [if s[0].id == u.id then u else s[0]] + ReplaceById(s[1..], u)
  }

  /** Position by position: a task with the replacement's id becomes it, any other stays. */
  lemma {:induction false} ReplaceByIdAt(s: seq<Task>, u: Task, i: nat)
    requires i < |s|
    ensures ReplaceById(s, u)[i] == (if s[i].id == u.id then u else s[i])
  {
    if i > 0 {
      ReplaceByIdAt(s[1..], u, i - 1);
    }
  }

  /** Replacing keeps the id at every position (so it keeps `UniqueIds` too). */
  lemma ReplaceByIdKeepsIds(s: seq<Task>, u: Task)
    ensures Ids(ReplaceById(s, u)) == Ids(s)
  {
    forall i | 0 <= i < |s| ensures ReplaceById(s, u)[i].id == s[i].id {
      ReplaceByIdAt(s, u, i);
    }
  }

  /** Without a task of that id the list comes back identical. */
  lemma {:induction false} ReplaceByIdAbsent(s: seq<Task>, u: Task)
    ensures !HasId(s, u.id) <==> ReplaceById(s, u) == s && u !in s
  {
    var r := ReplaceById(s, u);
    if !HasId(s, u.id) {
      forall i | 0 <= i < |s| ensures r[i] == s[i] {
        ReplaceByIdAt(s, u, i);
      }
    } else {
      var i :| 0 <= i < |s| && s[i].id == u.id;
      ReplaceByIdAt(s, u, i);
      assert r[i] == u;
    }
  }

  /** Replacing twice with the same task is replacing once. */
  lemma {:induction false} ReplaceByIdIdempotent(s: seq<Task>, u: Task)
    ensures ReplaceById(ReplaceById(s, u), u) == ReplaceById(s, u)
  {
    var r := ReplaceById(s, u);
    forall i | 0 <= i < |s| ensures ReplaceById(r, u)[i] == r[i] {
      ReplaceByIdAt(s, u, i);
      ReplaceByIdAt(r, u, i);
    }
  }

  /** With unique ids, replacing the task at position `i` is a single-position update. */
  lemma ReplaceByIdUnique(s: seq<Task>, u: Task, i: nat)
    requires UniqueIds(s) && i < |s| && s[i].id == u.id
    ensures ReplaceById(s, u) == s[i := u]
  {
    forall j | 0 <= j < |s| ensures ReplaceById(s, u)[j] == s[i := u][j] {
      ReplaceByIdAt(s, u, j);
    }
  }

  // ---------------------------------------------------------------------------
  // removeTask: keep the tasks whose id differs from the given one

  function RemoveById(s: seq<Task>, k: Int32): (r: seq<Task>)
    ensures |r| <= |s|
  {
    if s == [] then [] else (if s[0].id == k then [] else [s[0]]) + RemoveById(s[1..], k)
  }

  /** Filtering distributes over concatenation: the survivors keep their relative order. */
  lemma {:induction false} RemoveByIdConcat(a: seq<Task>, b: seq<Task>, k: Int32)
    ensures RemoveById(a + b, k) == RemoveById(a, k) + RemoveById(b, k)
  {
    if a == [] {
      assert a + b == b;
    } else {
      assert (a + b)[0] == a[0];
      assert (a + b)[1..] == a[1..] + b;
      RemoveByIdConcat(a[1..], b, k);
    }
  }

  /** A task survives exactly when it was in the list and its id differs. */
  lemma {:induction false} RemoveByIdMembers(s: seq<Task>, k: Int32, x: Task)
    ensures x in RemoveById(s, k) <==> x in s && x.id != k
  {
    if s != [] {
      RemoveByIdMembers(s[1..], k, x);
      assert x in s <==> x == s[0] || x in s[1..];
    }
  }

  /** No task with the removed id is left. */
  lemma {:induction false} RemoveByIdGone(s: seq<Task>, k: Int32)
    ensures !HasId(RemoveById(s, k), k)
  {
    var r := RemoveById(s, k);
    forall i | 0 <= i < |r| ensures r[i].id != k {
      RemoveByIdMembers(s, k, r[i]);
    }
  }

  /** The list shrinks by the number of tasks carrying the removed id. */
  lemma {:induction false} RemoveByIdLength(s: seq<Task>, k: Int32)
    ensures |RemoveById(s, k)| == |s| - CountId(s, k)
  {
    if s != [] {
      RemoveByIdLength(s[1..], k);
    }
  }

  /** `CountId` is zero exactly when no task has the id. */
  lemma {:induction false} CountIdZero(s: seq<Task>, k: Int32)
    ensures CountId(s, k) == 0 <==> !HasId(s, k)
  {
    if s != [] {
      CountIdZero(s[1..], k);
      if HasId(s[1..], k) {
        var i :| 0 <= i < |s[1..]| && s[1..][i].id == k;
        assert s[i + 1].id == k;
      }
      if HasId(s, k) && s[0].id != k {
        var i :| 0 <= i < |s| && s[i].id == k;
        assert s[1..][i - 1].id == k;
      }
    }
  }

  /** Removing an absent id leaves the list identical, and only then. */
  lemma {:induction false} RemoveByIdAbsent(s: seq<Task>, k: Int32)
    ensures RemoveById(s, k) == s <==> !HasId(s, k)
  {
    RemoveByIdLength(s, k);
    CountIdZero(s, k);
    if !HasId(s, k) {
      RemoveByIdUnchanged(s, k);
    }
  }

  lemma {:induction false} RemoveByIdUnchanged(s: seq<Task>, k: Int32)
    requires !HasId(s, k)
    ensures RemoveById(s, k) == s
  {
    if s != [] {
      assert s[0].id != k;
      forall i | 0 <= i < |s[1..]| ensures s[1..][i].id != k {
        assert s[1..][i] == s[i + 1];
      }
      RemoveByIdUnchanged(s[1..], k);
    }
  }

  /** Removing twice is removing once. */
  lemma RemoveByIdIdempotent(s: seq<Task>, k: Int32)
    ensures RemoveById(RemoveById(s, k), k) == RemoveById(s, k)
  {
    RemoveByIdGone(s, k);
    RemoveByIdUnchanged(RemoveById(s, k), k);
  }

  /** Adding a task under a fresh id and then removing that id restores the list. */
  lemma AddThenRemove(s: seq<Task>, t: Task)
    requires !HasId(s, t.id)
    ensures RemoveById(s + [t], t.id) == s
  {
    RemoveByIdConcat(s, [t], t.id);
    RemoveByIdUnchanged(s, t.id);
  }

  /** With unique ids, the id at position `i` occurs neither before nor after it. */
  lemma UniqueIdsElsewhere(s: seq<Task>, i: nat)
    requires UniqueIds(s) && i < |s|
    ensures !HasId(s[..i], s[i].id) && !HasId(s[i + 1..], s[i].id)
  {
    forall j | 0 <= j < i ensures s[..i][j].id != s[i].id {
      assert s[..i][j] == s[j];
    }
    var post := s[i + 1..];
    forall j | 0 <= j < |post| ensures post[j].id != s[i].id {
      assert post[j] == s[i + 1 + j];
    }
  }

  /** Removing an id that occurs only at position `i` drops exactly that position. */
  lemma RemoveByIdSingle(s: seq<Task>, k: Int32, i: nat)
    requires i < |s| && s[i].id == k && !HasId(s[..i], k) && !HasId(s[i + 1..], k)
    ensures RemoveById(s, k) == s[..i] + s[i + 1..]
  {
    var pre, mid, post := s[..i], [s[i]], s[i + 1..];
    RemoveByIdUnchanged(pre, k);
    RemoveByIdUnchanged(post, k);
    assert RemoveById(mid, k) == [] by {
      assert mid[1..] == [];
    }
    assert s == pre + (mid + post);
    RemoveByIdConcat(pre, mid + post, k);
    RemoveByIdConcat(mid, post, k);
  }

  /** With unique ids, removing the id of position `i` drops exactly that position. */
  lemma RemoveByIdUnique(s: seq<Task>, k: Int32, i: nat)
    requires UniqueIds(s) && i < |s| && s[i].id == k
    ensures RemoveById(s, k) == s[..i] + s[i + 1..]
  {
    UniqueIdsElsewhere(s, i);
    RemoveByIdSingle(s, k, i);
  }

  /** Removing never introduces a shared id. */
  lemma {:induction false} RemoveByIdKeepsUnique(s: seq<Task>, k: Int32)
    requires UniqueIds(s)
    ensures UniqueIds(RemoveById(s, k))
  {
    if s != [] {
      var tail := s[1..];
      assert UniqueIds(tail) by {
        forall i, j | 0 <= i < j < |tail| ensures tail[i].id != tail[j].id {
          assert tail[i] == s[i + 1] && tail[j] == s[j + 1];
        }
      }
      RemoveByIdKeepsUnique(tail, k);
      var rt := RemoveById(tail, k);
      if s[0].id != k {
        forall j | 0 <= j < |rt| ensures rt[j].id != s[0].id {
          RemoveByIdMembers(tail, k, rt[j]);
          var m :| 0 <= m < |tail| && tail[m] == rt[j];
          assert tail[m] == s[m + 1];
        }
        var r := [s[0]] + rt;
        forall i, j | 0 <= i < j < |r| ensures r[i].id != r[j].id {
          if i > 0 {
            assert r[i] == rt[i - 1] && r[j] == rt[j - 1];
          }
        }
      }
    }
  }

  // ---------------------------------------------------------------------------
  // updateTaskPhotoPath: set the photo path on each task with the given id

  function SetPhoto(s: seq<Task>, k: Int32, path: string): (r: seq<Task>)
    ensures |r| == |s|
  {
    if s == [] then [] else [if s[0].id == k then WithPhoto(s[0], path) else s[0]] + SetPhoto(s[1..], k, path)
  }

  /** Position by position: a matching task gets the path, any other stays. */
  lemma {:induction false} SetPhotoAt(s: seq<Task>, k: Int32, path: string, i: nat)
    requires i < |s|
    ensures SetPhoto(s, k, path)[i] == (if s[i].id == k then WithPhoto(s[i], path) else s[i])
  {
    if i > 0 {
      SetPhotoAt(s[1..], k, path, i - 1);
    }
  }

  /** Only the photo path of matching tasks changes; ids and every other field are kept. */
  lemma SetPhotoFields(s: seq<Task>, k: Int32, path: string, i: nat)
    requires i < |s|
    ensures var t := SetPhoto(s, k, path)[i];
      t.id == s[i].id && t.title == s[i].title && t.description == s[i].description &&
      t.dueDate == s[i].dueDate && t.isCompleted == s[i].isCompleted &&
      t.photoPath == (if s[i].id == k then Some(path) else s[i].photoPath)
  {
    SetPhotoAt(s, k, path, i);
  }

  /** Setting a photo keeps the id at every position. */
  lemma SetPhotoKeepsIds(s: seq<Task>, k: Int32, path: string)
    ensures Ids(SetPhoto(s, k, path)) == Ids(s)
  {
    forall i | 0 <= i < |s| ensures SetPhoto(s, k, path)[i].id == s[i].id {
      SetPhotoAt(s, k, path, i);
    }
  }

  /** Without a task of that id the list comes back identical. */
  lemma {:induction false} SetPhotoAbsent(s: seq<Task>, k: Int32, path: string)
    requires !HasId(s, k)
    ensures SetPhoto(s, k, path) == s
  {
    forall i | 0 <= i < |s| ensures SetPhoto(s, k, path)[i] == s[i] {
      SetPhotoAt(s, k, path, i);
    }
  }

  /** Setting the same photo path twice is setting it once. */
  lemma {:induction false} SetPhotoIdempotent(s: seq<Task>, k: Int32, path: string)
    ensures SetPhoto(SetPhoto(s, k, path), k, path) == SetPhoto(s, k, path)
  {
    var r := SetPhoto(s, k, path);
    forall i | 0 <= i < |s| ensures SetPhoto(r, k, path)[i] == r[i] {
      SetPhotoAt(s, k, path, i);
      SetPhotoAt(r, k, path, i);
    }
  }

  // ---------------------------------------------------------------------------
  // Invariants across all four operations

  /** `UniqueIds` survives every operation, and `addTask` keeps it exactly when the id is fresh. */
  lemma OperationsKeepUniqueIds(s: seq<Task>, t: Task, k: Int32, path: string)
    requires UniqueIds(s)
    ensures UniqueIds(s + [t]) <==> !HasId(s, t.id)
    ensures UniqueIds(ReplaceById(s, t))
    ensures UniqueIds(RemoveById(s, k))
    ensures UniqueIds(SetPhoto(s, k, path))
  {
    var a := s + [t];
    if !HasId(s, t.id) {
      forall i, j | 0 <= i < j < |a| ensures a[i].id != a[j].id {
        if j == |s| {
          assert a[i] == s[i];
        }
      }
    } else {
      var i :| 0 <= i < |s| && s[i].id == t.id;
      assert a[i].id == a[|s|].id;
    }
    ReplaceByIdKeepsIds(s, t);
    var r := ReplaceById(s, t);
    forall i, j | 0 <= i < j < |r| ensures r[i].id != r[j].id {
      assert Ids(r)[i] == Ids(s)[i] && Ids(r)[j] == Ids(s)[j];
    }
    RemoveByIdKeepsUnique(s, k);
    SetPhotoKeepsIds(s, k, path);
    var p := SetPhoto(s, k, path);
    forall i, j | 0 <= i < j < |p| ensures p[i].id != p[j].id {
      assert Ids(p)[i] == Ids(s)[i] && Ids(p)[j] == Ids(s)[j];
    }
  }

  /**
   * No operation marks a task completed: if no stored task is completed and the
   * task handed to add or update is not, none is completed afterwards.
   */
  lemma OperationsKeepNoneCompleted(s: seq<Task>, t: Task, k: Int32, path: string)
    requires NoneCompleted(s) && !t.isCompleted
    ensures NoneCompleted(s + [t])
    ensures NoneCompleted(ReplaceById(s, t))
    ensures NoneCompleted(RemoveById(s, k))
    ensures NoneCompleted(SetPhoto(s, k, path))
  {
    var a := s + [t];
    assert forall i :: 0 <= i < |s| ==> a[i] == s[i];
    forall i | 0 <= i < |s| ensures !ReplaceById(s, t)[i].isCompleted {
      ReplaceByIdAt(s, t, i);
    }
    var r := RemoveById(s, k);
    forall i | 0 <= i < |r| ensures !r[i].isCompleted {
      RemoveByIdMembers(s, k, r[i]);
    }
    forall i | 0 <= i < |s| ensures !SetPhoto(s, k, path)[i].isCompleted {
      SetPhotoAt(s, k, path, i);
    }
  }
}
