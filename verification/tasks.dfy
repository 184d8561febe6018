/**
 * The task list page: tasks stored as a list under one storage key, added
 * at the end, toggled and deleted by id, and summarised as completed and
 * pending counts.
 */
module Tasks {
  import opened Maybe
  import opened Text

  datatype Task = Task(id: int, text: string, completed: bool)

  /** `addTask()` with the input box holding `input` and the clock giving
      `id`: blank input is refused; otherwise one open task with the trimmed
      text is appended. */
  function AddTask(tasks: seq<Task>, input: string, id: int): (r: seq<Task>)
    ensures AllSpace(input) ==> r == tasks
    ensures !AllSpace(input) ==>
      && |r| == |tasks| + 1
      && r[..|tasks|] == tasks
      && r[|tasks|].id == id && !r[|tasks|].completed
      && r[|tasks|].text == Trim(input) && |r[|tasks|].text| > 0
  {
    var text := Trim(input);
    if text == "" then tasks
    else
      var r := tasks + [Task(id, text, false)];
      assert r[..|tasks|] == tasks;
      r
  }

  /** `tasks.findIndex(task => task.id === id)`. */
  function FindIndex(tasks: seq<Task>, id: int): (r: Option<nat>)
    ensures r.None? <==> forall i :: 0 <= i < |tasks| ==> tasks[i].id != id
    ensures r.Some? ==> r.value < |tasks| && tasks[r.value].id == id
    ensures r.Some? ==> forall i :: 0 <= i < r.value ==> tasks[i].id != id
  {
    if |tasks| == 0 then None
    else if tasks[0].id == id then Some(0)
    else match FindIndex(tasks[1..], id)
      case None => None
      case Some(k) => Some(k + 1)
  }

  /** `toggleTaskComplete(id)`: the first task with that id flips its
      `completed` flag; an absent id changes nothing. */
  function ToggleTaskComplete(tasks: seq<Task>, id: int): (r: seq<Task>)
    ensures |r| == |tasks|
    ensures forall i :: 0 <= i < |tasks| ==> r[i].id == tasks[i].id && r[i].text == tasks[i].text
    ensures (forall i :: 0 <= i < |tasks| ==> tasks[i].id != id) ==> r == tasks
    ensures forall k :: 0 <= k < |tasks| && tasks[k].id == id && (forall i :: 0 <= i < k ==> tasks[i].id != id) ==>
      && r[k].completed == !tasks[k].completed
      && forall i :: 0 <= i < |tasks| && i != k ==> r[i] == tasks[i]
  {
    match FindIndex(tasks, id)
    case None => tasks
    case Some(k) =>
      var r := tasks[k := tasks[k].(completed := !tasks[k].completed)];
      assert forall k' :: 0 <= k' < |tasks| && tasks[k'].id == id && (forall i :: 0 <= i < k' ==> tasks[i].id != id) ==> k' == k;
      r
  }

  /** `deleteTask(id)`: every task with that id is removed; the others
      keep their order. */
  function DeleteTask(tasks: seq<Task>, id: int): (r: seq<Task>)
    ensures |r| <= |tasks|
  {
    if |tasks| == 0 then []
    else DeleteTask(tasks[..|tasks| - 1], id) + (if tasks[|tasks| - 1].id != id then [tasks[|tasks| - 1]] else [])
  }

  /** A delete keeps exactly the tasks that do not carry the id, and it
      shortens the list exactly when some task carries the id. */
  lemma DeleteTaskKeeps(tasks: seq<Task>, id: int)
    ensures forall t :: t in DeleteTask(tasks, id) <==> t in tasks && t.id != id
    ensures |DeleteTask(tasks, id)| == |tasks| <==> forall i :: 0 <= i < |tasks| ==> tasks[i].id != id
  {
    forall t
      ensures t in DeleteTask(tasks, id) <==> t in tasks && t.id != id
    {
      DeleteMember(tasks, id, t);
    }
    DeleteLength(tasks, id);
  }

  lemma {:induction false} DeleteMember(tasks: seq<Task>, id: int, t: Task)
    ensures t in DeleteTask(tasks, id) <==> t in tasks && t.id != id
  {
    if |tasks| > 0 {
      var n := |tasks| - 1;
      var init, last := tasks[..n], tasks[n];
      DeleteMember(init, id, t);
      DeleteLast(tasks, id);
      assert tasks == init + [last];
    }
  }

  lemma {:induction false} DeleteLength(tasks: seq<Task>, id: int)
    ensures |DeleteTask(tasks, id)| == |tasks| <==> forall i :: 0 <= i < |tasks| ==> tasks[i].id != id
  {
    if |tasks| > 0 {
      var n := |tasks| - 1;
      var init := tasks[..n];
      DeleteLength(init, id);
      DeleteLast(tasks, id);
      if (forall i :: 0 <= i < |tasks| ==> tasks[i].id != id) {
        assert forall i :: 0 <= i < n ==> init[i].id != id;
      } else if tasks[n].id != id {
        var i :| 0 <= i < |tasks| && tasks[i].id == id;
        assert init[i] == tasks[i];
      }
    }
  }

  /** What `updateStats()` displays. */
  datatype Stats = Stats(completed: nat, pending: nat)

  function CountCompleted(tasks: seq<Task>): nat {
    if |tasks| == 0 then 0
    else CountCompleted(tasks[..|tasks| - 1]) + (if tasks[|tasks| - 1].completed then 1 else 0)
  }

  /** `updateStats()`: the completed count is the number of positions that
      hold a completed task; pending is the rest of the list. */
  function UpdateStats(tasks: seq<Task>): (s: Stats)
    ensures s.completed + s.pending == |tasks|
    ensures s.completed == |set i | 0 <= i < |tasks| && tasks[i].completed|
  {
    CompletedPositions(tasks);
    var c := CountCompleted(tasks);
    Stats(c, |tasks| - c)
  }

  lemma {:induction false} CompletedPositions(tasks: seq<Task>)
    ensures CountCompleted(tasks) == |set i | 0 <= i < |tasks| && tasks[i].completed|
    ensures CountCompleted(tasks) <= |tasks|
  {
    if |tasks| > 0 {
      var n := |tasks| - 1;
      var init := tasks[..n];
      CompletedPositions(init);
      var before := set i | 0 <= i < n && init[i].completed;
      var after := set i | 0 <= i < |tasks| && tasks[i].completed;
      var added: set<int> := if tasks[n].completed then {n} else {};
      forall i
        ensures i in after <==> i in before || i in added
      {
        if 0 <= i < n {
          assert init[i] == tasks[i];
        }
      }
      assert after == before + added;
      assert n !in before;
    }
  }

  // ----- properties of the operations -----

  lemma {:induction false} CountAppend(tasks: seq<Task>, t: Task)
    ensures CountCompleted(tasks + [t]) == CountCompleted(tasks) + (if t.completed then 1 else 0)
  {
    assert (tasks + [t])[..|tasks|] == tasks;
  }

  lemma {:induction false} CountUpdate(tasks: seq<Task>, k: nat, t: Task)
    requires k < |tasks|
    ensures CountCompleted(tasks[k := t]) ==
      CountCompleted(tasks) - (if tasks[k].completed then 1 else 0) + (if t.completed then 1 else 0)
  {
    var n := |tasks| - 1;
    var u := tasks[k := t];
    if k < n {
      assert u[..n] == tasks[..n][k := t];
      CountUpdate(tasks[..n], k, t);
    } else {
      assert u[..n] == tasks[..n];
    }
  }

  /** Adding a task adds one pending task and no completed one. */
  lemma AddTaskStats(tasks: seq<Task>, input: string, id: int)
    requires !AllSpace(input)
    ensures UpdateStats(AddTask(tasks, input, id)) == Stats(UpdateStats(tasks).completed, UpdateStats(tasks).pending + 1)
  {
    CountAppend(tasks, Task(id, Trim(input), false));
  }

  /** Toggling an id that is present moves exactly one task between the
      completed and the pending count. */
  lemma ToggleStats(tasks: seq<Task>, id: int)
    requires exists i :: 0 <= i < |tasks| && tasks[i].id == id
    ensures var before, after := UpdateStats(tasks), UpdateStats(ToggleTaskComplete(tasks, id));
      || (after.completed == before.completed + 1 && after.pending + 1 == before.pending)
      || (after.completed + 1 == before.completed && after.pending == before.pending + 1)
  {
    var k := FindIndex(tasks, id).value;
    CountUpdate(tasks, k, tasks[k].(completed := !tasks[k].completed));
    CompletedPositions(tasks);
  }

  /** Toggling the same id twice gives back the original list. */
  lemma ToggleTwice(tasks: seq<Task>, id: int)
    ensures ToggleTaskComplete(ToggleTaskComplete(tasks, id), id) == tasks
  {
    var once := ToggleTaskComplete(tasks, id);
    match FindIndex(tasks, id)
    case None =>
    case Some(k) =>
      assert FindIndex(once, id) == Some(k);
  }

  /** Deleting distributes over concatenation: the tasks that remain keep
      their relative order. */
  lemma {:induction false} DeleteConcat(a: seq<Task>, b: seq<Task>, id: int)
    ensures DeleteTask(a + b, id) == DeleteTask(a, id) + DeleteTask(b, id)
  {
    if |b| > 0 {
      var n := |b| - 1;
      var ab := a + b;
      DeleteConcat(a, b[..n], id);
      assert ab[..|ab| - 1] == a + b[..n];
      assert ab[|ab| - 1] == b[n];
      DeleteLast(ab, id);
      DeleteLast(b, id);
      var tail := if b[n].id != id then [b[n]] else [];
      var da, db := DeleteTask(a, id), DeleteTask(b[..n], id);
      assert DeleteTask(ab, id) == (da + db) + tail;
      assert DeleteTask(b, id) == db + tail;
      assert (da + db) + tail == da + (db + tail);
    } else {
      assert a + b == a;
    }
  }

  lemma DeleteLast(tasks: seq<Task>, id: int)
    requires |tasks| > 0
    ensures var n := |tasks| - 1;
      DeleteTask(tasks, id) == DeleteTask(tasks[..n], id) + (if tasks[n].id != id then [tasks[n]] else [])
  {
  }

  /** Deleting an id no task carries leaves the list as it is. */
  lemma {:induction false} DeleteAbsent(tasks: seq<Task>, id: int)
    requires forall i :: 0 <= i < |tasks| ==> tasks[i].id != id
    ensures DeleteTask(tasks, id) == tasks
  {
    if |tasks| > 0 {
      DeleteAbsent(tasks[..|tasks| - 1], id);
    }
  }

  /** Deleting twice is deleting once. */
  lemma DeleteTwice(tasks: seq<Task>, id: int)
    ensures DeleteTask(DeleteTask(tasks, id), id) == DeleteTask(tasks, id)
  {
    var once := DeleteTask(tasks, id);
    DeleteTaskKeeps(tasks, id);
    assert forall i :: 0 <= i < |once| ==> once[i].id != id by {
      forall i | 0 <= i < |once| ensures once[i].id != id {
        assert once[i] in once;
      }
    }
    DeleteAbsent(once, id);
  }

  /** After a delete the counts are those of the positions of the original
      list whose task does not carry the id. */
  lemma DeleteStats(tasks: seq<Task>, id: int)
    ensures var after := UpdateStats(DeleteTask(tasks, id));
      && after.completed == |set i | 0 <= i < |tasks| && tasks[i].id != id && tasks[i].completed|
      && after.pending == |set i | 0 <= i < |tasks| && tasks[i].id != id && !tasks[i].completed|
  {
    DeleteKeeps(tasks, id, true);
    DeleteKeeps(tasks, id, false);
    assert KeptPositions(tasks, id, true) == set i | 0 <= i < |tasks| && tasks[i].id != id && tasks[i].completed;
    assert KeptPositions(tasks, id, false) == set i | 0 <= i < |tasks| && tasks[i].id != id && !tasks[i].completed;
  }

  /** The tasks a delete keeps whose `completed` flag is `done`, counted by
      position in the original list. */
  lemma {:induction false} DeleteKeeps(tasks: seq<Task>, id: int, done: bool)
    ensures var kept := DeleteTask(tasks, id); var c := CountCompleted(kept);
      (if done then c else |kept| - c) == |KeptPositions(tasks, id, done)|
  {
    if |tasks| > 0 {
      var n := |tasks| - 1;
      var last := tasks[n];
      var kept := DeleteTask(tasks[..n], id);
      var all := DeleteTask(tasks, id);
      DeleteKeeps(tasks[..n], id, done);
      DeleteLast(tasks, id);
      KeptPositionsLast(tasks, id, done);
      if last.id != id {
        assert all == kept + [last];
        CountAppend(kept, last);
      } else {
        assert all == kept;
      }
    } else {
      assert KeptPositions(tasks, id, done) == {};
    }
  }

  ghost function KeptPositions(tasks: seq<Task>, id: int, done: bool): set<nat> {
    set i | 0 <= i < |tasks| && tasks[i].id != id && tasks[i].completed == done
  }

  lemma KeptPositionsLast(tasks: seq<Task>, id: int, done: bool)
    requires |tasks| > 0
    ensures var n := |tasks| - 1;
      |KeptPositions(tasks, id, done)| ==
        |KeptPositions(tasks[..n], id, done)| + (if tasks[n].id != id && tasks[n].completed == done then 1 else 0)
  {
    var n := |tasks| - 1;
    var init := tasks[..n];
    var before := KeptPositions(init, id, done);
    var after := KeptPositions(tasks, id, done);
    var added: set<nat> := if tasks[n].id != id && tasks[n].completed == done then {n} else {};
    forall i: nat
      ensures i in after <==> i in before || i in added
    {
      if i < n {
        assert init[i] == tasks[i];
      }
    }
    assert after == before + added;
    assert n !in before;
  }
}
