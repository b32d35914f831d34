/**
 * The task tracker page of `pages/index.tsx` as a store: the task and memo lists the page holds,
 * their mirrors in the `tasks` and `memos` slots of local storage, the two backup slots, the
 * entry form, and the log of toasts shown. Each handler replaces what it changes and nothing else.
 */
module HomePage {
  import opened Wrappers
  import opened Records
  import opened Board

  class Home {
    var tasks: seq<Task>
    var memos: seq<Memo>
    /** The `tasks` and `memos` slots of local storage, written whenever the lists change. */
    var storedTasks: seq<Task>
    var storedMemos: seq<Memo>
    /** The `backupTasks` and `backupMemos` slots. */
    var backupTasks: Slot<Task>
    var backupMemos: Slot<Memo>
    var form: Form
    var notices: seq<Notice>

    /** Local storage mirrors the lists. */
    ghost predicate Valid()
      reads this
    {
      storedTasks == tasks && storedMemos == memos
    }

    /** The page loads its lists from the `tasks` and `memos` slots, or starts empty when a slot holds nothing. */
    constructor (savedTasks: Option<seq<Task>>, savedMemos: Option<seq<Memo>>, taskBackup: Slot<Task>, memoBackup: Slot<Memo>)
      ensures Valid()
      ensures tasks == (if savedTasks.Some? then savedTasks.value else [])
      ensures memos == (if savedMemos.Some? then savedMemos.value else [])
      ensures backupTasks == taskBackup && backupMemos == memoBackup
      ensures form == InitialForm && notices == []
    {
      tasks := if savedTasks.Some? then savedTasks.value else [];
      memos := if savedMemos.Some? then savedMemos.value else [];
      storedTasks := if savedTasks.Some? then savedTasks.value else [];
      storedMemos := if savedMemos.Some? then savedMemos.value else [];
      backupTasks := taskBackup;
      backupMemos := memoBackup;
      form := InitialForm;
      notices := [];
    }

    /** The inputs' change handlers: the form now holds what the user typed. */
    method Fill(f: Form)
      requires Valid()
      modifies this`form
      ensures Valid() && form == f
    {
      form := f;
    }

    /**
     * `handleAddTask`: nothing without a title; a memo is appended to the memos and backed up;
     * nothing without a deadline; otherwise the task built from the form is appended, backed up,
     * and the form cleared. `id` is the clock reading `Date.now()`.
     */
    method AddTask(id: int)
      requires Valid()
      modifies this
      ensures Valid() && notices == old(notices)
      ensures old(form.title) == "" ==> unchanged(this)
      ensures old(form.title) != "" && old(form.category) == Note ==>
        && memos == old(memos) + [Memo(id, old(form.title))]
        && backupMemos == Array(memos)
        && form == old(form).(title := "")
        && tasks == old(tasks) && backupTasks == old(backupTasks)
      ensures old(form.title) != "" && old(form.category) != Note && old(form.deadline) == "" ==> unchanged(this)
      ensures old(form.title) != "" && old(form.category) != Note && old(form.deadline) != "" ==>
        && tasks == old(tasks) + [NewTask(old(form), id)]
        && backupTasks == Array(tasks)
        && form == ClearedForm(old(form))
        && memos == old(memos) && backupMemos == old(backupMemos)
    {
      if form.title == "" {
        return;
      }
      if form.category == Note {
        var updated := memos + [Memo(id, form.title)];
        memos := updated;
        storedMemos := updated;
        backupMemos := Array(updated);
        form := form.(title := "");
        return;
      }
      if form.deadline == "" {
        return;
      }
      var updated := tasks + [NewTask(form, id)];
      tasks := updated;
      storedTasks := updated;
      backupTasks := Array(updated);
      form := ClearedForm(form);
    }

    /** `handleDeleteTask`: every task with the id goes, the rest keep their order. */
    method DeleteTask(id: int)
      requires Valid()
      modifies this`tasks, this`storedTasks, this`notices
      ensures Valid()
      ensures tasks == WithoutTask(old(tasks), id)
      ensures notices == old(notices) + [Success("完全削除しました")]
    {
      tasks := WithoutTask(tasks, id);
      storedTasks := tasks;
      notices := notices + [Success("完全削除しました")];
    }

    /** `handleDeleteMemo`: every memo with the id goes, the rest keep their order. */
    method DeleteMemo(id: int)
      requires Valid()
      modifies this`memos, this`storedMemos, this`notices
      ensures Valid()
      ensures memos == WithoutMemo(old(memos), id)
      ensures notices == old(notices) + [Success("完全削除しました")]
    {
      memos := WithoutMemo(memos, id);
      storedMemos := memos;
      notices := notices + [Success("完全削除しました")];
    }

    /**
     * `handleRestoreBackup`: each list independently takes its backup when that parses as an
     * array; a backup that fails to parse adds an error toast; the success toast always follows.
     */
    method RestoreBackup()
      requires Valid()
      modifies this`tasks, this`memos, this`storedTasks, this`storedMemos, this`notices
      ensures Valid()
      ensures tasks == Restored(old(tasks), backupTasks)
      ensures memos == Restored(old(memos), backupMemos)
      ensures notices == old(notices) + RestoreNotices(backupTasks, backupMemos)
    {
      if backupTasks != Empty {
        if backupTasks.Corrupt? {
          notices := notices + [Failure("タスク復元に失敗しました")];
        } else if backupTasks.Array? {
          tasks := backupTasks.items;
          storedTasks := tasks;
        }
      }
      if backupMemos != Empty {
        if backupMemos.Corrupt? {
          notices := notices + [Failure("メモ復元に失敗しました")];
        } else if backupMemos.Array? {
          memos := backupMemos.items;
          storedMemos := memos;
        }
      }
      notices := notices + [Success("データ復元しました")];
    }

    /** `handleToggleComplete`: the tasks with the id change completion, everything else stays. */
    method ToggleComplete(id: int)
      requires Valid()
      modifies this`tasks, this`storedTasks
      ensures Valid()
      ensures tasks == Toggled(old(tasks), id)
    {
      tasks := Toggled(tasks, id);
      storedTasks := tasks;
    }

    /** The work list the page renders. */
    function Visible(): (v: seq<Task>)
      reads this
      ensures forall t :: t in v <==> t in tasks && t.category == Work
    {
      VisibleTasksSpec(tasks);
      VisibleTasks(tasks)
    }
  }
}
