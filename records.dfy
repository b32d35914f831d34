/**
 * The records of the task tracker page: tasks, memos, the entry form that produces them,
 * the backup slots of local storage and the toast notices the page shows.
 */
module Records {
  import opened Wrappers

  /** The eight categories of the page; `Note` is the memo category, written `メモ`. */
  datatype Category = Work | Note | Outing | Visitor | Web | Nke | Important | Pb

  /** The label of a category, as the page stores and sends it. */
  function Label(c: Category): string {
    match c
    case Work => "業務"
    case Note => "メモ"
    case Outing => "外出"
    case Visitor => "来客"
    case Web => "WEB"
    case Nke => "NKE"
    case Important => "重要"
    case Pb => "PB"
  }

  /** `undefined` fields are `None`. */
  datatype Task = Task(
    id: int,
    title: string,
    category: Category,
    deadline: string,
    startTime: Option<string>,
    duration: Option<string>,
    isAllDay: Option<bool>,
    days: Option<int>,
    completed: bool)

  datatype Memo = Memo(id: int, title: string)

  /** The entry form of the page: the values of its inputs. */
  datatype Form = Form(
    title: string,
    category: Category,
    deadline: string,
    startTime: string,
    duration: string,
    isAllDay: bool,
    days: int)

  /** The form as the page first shows it. */
  const InitialForm := Form("", Work, "", "", "", false, 1)

  /** A backup slot of local storage as the restore action finds it. */
  datatype Slot<T> =
    | Empty           // no item, or an empty string: skipped
    | Array(items: seq<T>)  // parses as a JSON array
    | NonArray        // parses, but not as an array: silently ignored
    | Corrupt         // `JSON.parse` throws

  datatype Notice = Success(text: string) | Failure(text: string)

  /** `['業務', 'メモ'].includes(category)`. */
  predicate IsSpecial(c: Category) {
    c == Work || c == Note
  }

  /**
   * The shape every task created from the form has: work tasks carry neither time nor span,
   * all-day tasks carry a span but no time, other tasks carry a time but no span.
   */
  predicate WellShaped(t: Task) {
    && (t.category == Work ==> t.startTime.None? && t.duration.None? && t.isAllDay.None? && t.days.None?)
    && (!IsSpecial(t.category) ==> t.isAllDay.Some?)
    && (t.isAllDay == Some(true) ==> t.startTime.None? && t.duration.None? && t.days.Some?)
    && (t.isAllDay == Some(false) ==> t.startTime.Some? && t.duration.Some? && t.days.None?)
  }

  /** The task the form describes, with the fields its category and all-day flag exclude left undefined. */
  function NewTask(f: Form, id: int): (t: Task)
    ensures t.id == id && t.title == f.title && t.category == f.category && t.deadline == f.deadline
    ensures !t.completed
    ensures f.category != Note ==> WellShaped(t)
    ensures f.category == Work ==> t.startTime.None? && t.duration.None? && t.isAllDay.None? && t.days.None?
    ensures !IsSpecial(f.category) && f.isAllDay ==>
      t.startTime.None? && t.duration.None? && t.isAllDay == Some(true) && t.days == Some(f.days)
    ensures !IsSpecial(f.category) && !f.isAllDay ==>
      t.startTime == Some(f.startTime) && t.duration == Some(f.duration) && t.isAllDay == Some(false) && t.days.None?
    ensures IsSpecial(f.category) ==> t.isAllDay.None? && t.days.None?
  {
    var noClock := f.category == Work || f.isAllDay;
    Task(
      id,
      f.title,
      f.category,
      f.deadline,
      if noClock then None else Some(f.startTime),
      if noClock then None else Some(f.duration),
      if IsSpecial(f.category) then None else Some(f.isAllDay),
      if IsSpecial(f.category) then None else if f.isAllDay then Some(f.days) else None,
      false)
  }

  /** The form after a task was added: everything but the category back to its first value. */
  function ClearedForm(f: Form): (r: Form)
    ensures r.category == f.category
    ensures r.title == "" && r.deadline == "" && r.startTime == "" && r.duration == ""
    ensures !r.isAllDay && r.days == 1
  {
    InitialForm.(category := f.category)
  }
}
