/**
 * The task page of `app/page.tsx`: the same store of tasks, memos, backups and form as the
 * older page, but a new task that is not a work task is also sent to the calendar save route
 * when the user is signed in. The page waits for the route's answer while other actions go on;
 * the answer decides the toast, and an answer the page cannot read stops the handler before
 * the form is cleared.
 */
module AppPage {
  import opened Wrappers
  import opened CivilTime
  import opened Records
  import opened Board
  import CalendarSave

  /** The page asks the calendar to record the task: a signed-in user, and any category but work. */
  predicate ShouldSync(signedIn: bool, c: Category): (b: bool)
    ensures b ==> signedIn
    ensures b && c != Note ==> CalendarSave.ColorId(Label(c)) != "1"
    ensures signedIn && !b ==> CalendarSave.ColorId(Label(c)) == "1"
  {
    CategoryColour(c);
    signedIn && c != Work
  }

  /** The clock time of a timed task, midnight when the time input is empty. */
  function ClockOrMidnight(startTime: string): (c: string)
    ensures c != ""
    ensures startTime == "" ==> c == "00:00"
    ensures startTime != "" ==> c == startTime
  {
    if startTime == "" then "00:00" else startTime
  }

  /** `resolvedStart`: the bare deadline for an all-day task, the deadline and clock time joined by `T` otherwise. */
  function ResolvedStart(f: Form): (s: string)
    ensures f.deadline != "" ==> s != ""
    ensures f.isAllDay ==> s == f.deadline
    ensures !f.isAllDay ==> |s| > |f.deadline| && s[..|f.deadline|] == f.deadline && s[|f.deadline|] == 'T'
    ensures !f.isAllDay ==> s[|f.deadline| + 1..] == ClockOrMidnight(f.startTime) != ""
  {
    if f.isAllDay then f.deadline else f.deadline + "T" + ClockOrMidnight(f.startTime)
  }

  /** The JSON body the page posts to the calendar save route, as the route reads it. */
  function Request(f: Form): (r: CalendarSave.Fields)
    ensures r.task == f.title && r.category == Label(f.category)
    ensures r.isAllDay == f.isAllDay && r.days == Some(f.days) && r.duration == Some(f.duration)
    ensures r.startDate == ResolvedStart(f)
  {
    CalendarSave.Fields(f.title, ResolvedStart(f), Some(f.duration), Label(f.category), f.isAllDay, Some(f.days))
  }

  /**
   * The toast for the route's answer: success for a 2xx status, the route's error text or a
   * fixed message otherwise. `None` when the answer is not JSON, so `res.json()` throws.
   */
  function ReplyNotice(r: CalendarSave.Response): (n: Option<Notice>)
    ensures n.None? <==> r.payload.Unhandled?
    ensures n.Some? ==> (n.value.Success? <==> 200 <= r.status < 300)
    ensures n.Some? && n.value.Success? ==> n.value.text == "登録完了しました"
    ensures n.Some? && n.value.Failure? && r.payload.Error? && r.payload.error != "" ==> n.value.text == r.payload.error
    ensures n.Some? && n.value.Failure? && !(r.payload.Error? && r.payload.error != "") ==>
      n.value.text == "Googleカレンダー登録に失敗しました"
  {
    if r.payload.Unhandled? then None
    else if 200 <= r.status < 300 then Some(Success("登録完了しました"))
    else if r.payload.Error? && r.payload.error != "" then Some(Failure(r.payload.error))
    else Some(Failure("Googleカレンダー登録に失敗しました"))
  }

  /** Every category has a label the route can see, and only work and memo fall back to the default colour. */
  lemma CategoryColour(c: Category)
    ensures Label(c) != ""
    ensures CalendarSave.ColorId(Label(c)) == "1" <==> IsSpecial(c)
  {
    assert Label(Work) !in CalendarSave.CategoryColors by {
      assert Label(Work) == "業務";
    }
    assert Label(Note) !in CalendarSave.CategoryColors by {
      assert Label(Note) == "メモ";
    }
  }

  /** The route reads the start the page meant: the deadline at midnight for all-day tasks or an empty time, else at the chosen time. */
  lemma StartAsChosen(f: Form, d: Date)
    requires ParseDate(f.deadline) == Some(d)
    ensures f.isAllDay || f.startTime == "" ==>
      CalendarSave.Start(Request(f)) == CalendarSave.At(LocalDateTime(d, 0, 0, 0))
    ensures !f.isAllDay && ParseClock(f.startTime).Some? ==>
      var c := ParseClock(f.startTime).value;
      CalendarSave.Start(Request(f)) == CalendarSave.At(LocalDateTime(d, c.0, c.1, c.2))
  {
    if f.isAllDay {
      MidnightOfDate(f.deadline);
    } else if f.startTime == "" {
      assert ParseClock("00:00") == Some((0, 0, 0));
      ParseLocalJoin(f.deadline, "00:00");
    } else if ParseClock(f.startTime).Some? {
      ParseLocalJoin(f.deadline, f.startTime);
    }
  }

  /** The route fails to build an event for the page's request exactly when an all-day task's deadline is not a date. */
  lemma EventBuilt(f: Form)
    ensures CalendarSave.BuildEvent(Request(f)).None? <==> f.isAllDay && ParseDate(f.deadline).None?
  {
    if f.isAllDay {
      MidnightOfDate(f.deadline);
    }
  }

  /**
   * What the user sees when a task with a title and a deadline is sent: the route's 401 error
   * without a token; no toast, and no reset, when the route throws; otherwise success exactly
   * when the calendar takes the event, and the route's error when it does not. The route's
   * parameter check never rejects such a request.
   */
  lemma SyncOutcome(f: Form, authorized: bool, accepts: bool)
    requires f.title != "" && f.deadline != ""
    ensures var r := CalendarSave.Post(authorized, CalendarSave.Json(Request(f)), accepts).response;
      && r.status != 400
      && (!authorized ==> ReplyNotice(r) == Some(Failure("未認証です")))
      && (authorized && f.isAllDay && ParseDate(f.deadline).None? ==> ReplyNotice(r).None?)
      && (authorized && !(f.isAllDay && ParseDate(f.deadline).None?) ==>
           ReplyNotice(r) == Some(if accepts then Success("登録完了しました") else Failure("カレンダー登録失敗")))
  {
    CategoryColour(f.category);
    EventBuilt(f);
  }

  class App {
    var tasks: seq<Task>
    var memos: seq<Memo>
    /** The `tasks` and `memos` slots of local storage, written whenever the lists change. */
    var storedTasks: seq<Task>
    var storedMemos: seq<Memo>
    /** The `backupTasks` and `backupMemos` slots. */
    var backupTasks: Slot<Task>
    var backupMemos: Slot<Memo>
    var form: Form
    var notices: seq<Notice>
    /** The bodies posted to the calendar save route, oldest first. */
    var requests: seq<CalendarSave.Fields>
    /** The posted bodies whose answer the page still waits for, oldest first. */
    var awaiting: seq<CalendarSave.Fields>

    /** Local storage mirrors the lists. */
    ghost predicate Valid()
      reads this
    {
      storedTasks == tasks && storedMemos == memos
    }

    /** The page loads its lists from the `tasks` and `memos` slots, or starts empty when a slot holds nothing. */
    constructor (savedTasks: Option<seq<Task>>, savedMemos: Option<seq<Memo>>, taskBackup: Slot<Task>, memoBackup: Slot<Memo>)
      ensures Valid()
      ensures tasks == (if savedTasks.Some? then savedTasks.value else [])
      ensures memos == (if savedMemos.Some? then savedMemos.value else [])
      ensures backupTasks == taskBackup && backupMemos == memoBackup
      ensures form == InitialForm && notices == [] && requests == [] && awaiting == []
    {
      tasks := if savedTasks.Some? then savedTasks.value else [];
      memos := if savedMemos.Some? then savedMemos.value else [];
      storedTasks := if savedTasks.Some? then savedTasks.value else [];
      storedMemos := if savedMemos.Some? then savedMemos.value else [];
      backupTasks := taskBackup;
      backupMemos := memoBackup;
      form := InitialForm;
      notices := [];
      requests := [];
      awaiting := [];
    }

    /** The inputs' change handlers: the form now holds what the user typed. */
    method Fill(f: Form)
      requires Valid()
      modifies this`form
      ensures Valid() && form == f
    {
      form := f;
    }

    /** `handleDeleteMemo`: every memo with the id goes, the rest keep their order. */
    method DeleteMemo(id: int)
      requires Valid()
      modifies this`memos, this`storedMemos, this`notices
      ensures Valid()
      ensures memos == WithoutMemo(old(memos), id)
      ensures notices == old(notices) + [Success("完全削除しました")]
    {
      memos := WithoutMemo(memos, id);
      storedMemos := memos;
      notices := notices + [Success("完全削除しました")];
    }

    /**
     * `handleRestoreBackup`: each list independently takes its backup when that parses as an
     * array; a backup that fails to parse adds an error toast; the success toast always follows.
     */
    method RestoreBackup()
      requires Valid()
      modifies this`tasks, this`memos, this`storedTasks, this`storedMemos, this`notices
      ensures Valid()
      ensures tasks == Restored(old(tasks), backupTasks)
      ensures memos == Restored(old(memos), backupMemos)
      ensures notices == old(notices) + RestoreNotices(backupTasks, backupMemos)
    {
      if backupTasks != Empty {
        if backupTasks.Corrupt? {
          notices := notices + [Failure("タスク復元に失敗しました")];
        } else if backupTasks.Array? {
          tasks := backupTasks.items;
          storedTasks := tasks;
        }
      }
      if backupMemos != Empty {
        if backupMemos.Corrupt? {
          notices := notices + [Failure("メモ復元に失敗しました")];
        } else if backupMemos.Array? {
          memos := backupMemos.items;
          storedMemos := memos;
        }
      }
      notices := notices + [Success("データ復元しました")];
    }

    /**
     * `handleAddTask` up to its first `await`: nothing without a title; a memo is appended and
     * backed up; nothing without a deadline; otherwise the task is appended and backed up. For a
     * signed-in user and a category other than work the body is then posted to the calendar save
     * route and the handler waits for the answer, leaving the form as it is; without a request it
     * clears the form at once. `id` is the clock reading `Date.now()`.
     */
    method AddTask(id: int, signedIn: bool)
      requires Valid()
      modifies this
      ensures Valid()
      ensures old(form.title) == "" ==> unchanged(this)
      ensures old(form.title) != "" && old(form.category) == Note ==>
        && memos == old(memos) + [Memo(id, old(form.title))]
        && backupMemos == Array(memos)
        && form == old(form).(title := "")
        && tasks == old(tasks) && backupTasks == old(backupTasks)
        && notices == old(notices) && requests == old(requests) && awaiting == old(awaiting)
      ensures old(form.title) != "" && old(form.category) != Note && old(form.deadline) == "" ==> unchanged(this)
      ensures old(form.title) != "" && old(form.category) != Note && old(form.deadline) != "" ==>
        && tasks == old(tasks) + [NewTask(old(form), id)]
        && backupTasks == Array(tasks)
        && memos == old(memos) && backupMemos == old(backupMemos)
        && notices == old(notices)
      ensures old(form.title) != "" && old(form.category) != Note && old(form.deadline) != "" && !ShouldSync(signedIn, old(form.category)) ==>
        && requests == old(requests) && awaiting == old(awaiting)
        && form == ClearedForm(old(form))
      ensures old(form.title) != "" && old(form.category) != Note && old(form.deadline) != "" && ShouldSync(signedIn, old(form.category)) ==>
        && requests == old(requests) + [Request(old(form))]
        && awaiting == old(awaiting) + [Request(old(form))]
        && form == old(form)
    {
      if form.title == "" {
        return;
      }
      if form.category == Note {
        var updated := memos + [Memo(id, form.title)];
        memos := updated;
        storedMemos := updated;
        backupMemos := Array(updated);
        form := form.(title := "");
        return;
      }
      if form.deadline == "" {
        return;
      }
      var updated := tasks + [NewTask(form, id)];
      tasks := updated;
      storedTasks := updated;
      backupTasks := Array(updated);
      if ShouldSync(signedIn, form.category) {
        var body := Request(form);
        requests := requests + [body];
        awaiting := awaiting + [body];
      } else {
        form := ClearedForm(form);
      }
    }

    /**
     * `handleAddTask` after its `await`s: the answer to the waiting request `i` arrives, with the
     * body built when the task was submitted. The toast follows the route's answer, and the form is
     * cleared as it stands now, unless the answer cannot be read and the handler throws. The stored
     * task is never touched. `authorized` says whether the route finds an access token, and
     * `accepts` whether the calendar takes the event.
     */
    method Settle(i: nat, authorized: bool, accepts: bool)
      requires Valid() && i < |awaiting|
      modifies this`awaiting, this`notices, this`form
      ensures Valid()
      ensures awaiting == old(awaiting[..i] + awaiting[i + 1..])
      ensures var reply := ReplyNotice(CalendarSave.Post(authorized, CalendarSave.Json(old(awaiting[i])), accepts).response);
        && notices == old(notices) + (if reply.Some? then [reply.value] else [])
        && form == (if reply.Some? then ClearedForm(old(form)) else old(form))
    {
      var body := awaiting[i];
      awaiting := awaiting[..i] + awaiting[i + 1..];
      var reply := ReplyNotice(CalendarSave.Post(authorized, CalendarSave.Json(body), accepts).response);
      if reply.None? {
        return;
      }
      notices := notices + [reply.value];
      form := ClearedForm(form);
    }

    /**
     * The edit button of a task: the form takes the task's title and deadline with the work
     * category, and the task leaves the list until the form is submitted again.
     */
    method Edit(t: Task)
      requires Valid()
      modifies this`form, this`tasks, this`storedTasks, this`notices
      ensures Valid()
      ensures form == old(form).(title := t.title, deadline := t.deadline, category := Work)
      ensures tasks == WithoutTask(old(tasks), t.id)
      ensures notices == old(notices) + [Success("タスクを修正モードで開きました")]
    {
      form := form.(title := t.title, deadline := t.deadline, category := Work);
      tasks := WithoutTask(tasks, t.id);
      storedTasks := tasks;
      notices := notices + [Success("タスクを修正モードで開きました")];
    }
  }

  /**
   * Editing a task and submitting the form again puts a work task with the same title and
   * deadline at the end of the list, with no clock time and no calendar request.
   */
  lemma EditResubmit(t: Task, f: Form, id: int, signedIn: bool)
    requires t.title != "" && t.deadline != ""
    ensures var g := f.(title := t.title, deadline := t.deadline, category := Work);
      var n := NewTask(g, id);
      && !ShouldSync(signedIn, g.category)
      && n.title == t.title && n.deadline == t.deadline && n.category == Work
      && n.startTime.None? && n.duration.None? && !n.completed
  {
  }
}
