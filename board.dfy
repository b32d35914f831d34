/**
 * The list transforms the page applies to its task and memo lists: each action replaces a list by
 * a new one built with `filter`, `map`, spread-append or `sort`, and the restore action replaces a
 * list by the array read back from its backup slot.
 */
module Board {
  import opened Records

  /** `s.filter(p)`: the elements that satisfy `p`, in their order. */
  function Keep<T(!new)>(s: seq<T>, p: T -> bool): (r: seq<T>)
    ensures |r| <= |s|
    ensures forall x :: x in r <==> x in s && p(x)
    ensures forall i :: 0 <= i < |r| ==> p(r[i])
  {
    if s == [] then [] else (if p(s[0]) then [s[0]] else []) + Keep(s[1..], p)
  }

  /** Filtering distributes over concatenation, so every kept element stays in its relative order. */
  lemma {:induction false} KeepConcat<T(!new)>(a: seq<T>, b: seq<T>, p: T -> bool)
    ensures Keep(a + b, p) == Keep(a, p) + Keep(b, p)
  {
    if a != [] {
      assert (a + b)[1..] == a[1..] + b;
      KeepConcat(a[1..], b, p);
    } else {
      assert a + b == b;
    }
  }

  /** A filter that no element fails keeps the whole list. */
  lemma {:induction false} KeepAll<T(!new)>(s: seq<T>, p: T -> bool)
    requires forall i :: 0 <= i < |s| ==> p(s[i])
    ensures Keep(s, p) == s
  {
    if s != [] {
      KeepAll(s[1..], p);
    }
  }

  /** `tasks.filter((task) => task.id !== id)`. */
  function WithoutTask(ts: seq<Task>, id: int): (r: seq<Task>)
    ensures |r| <= |ts|
    ensures forall i :: 0 <= i < |r| ==> r[i].id != id
  {
    Keep(ts, (t: Task) => t.id != id)
  }

  /** `memos.filter((memo) => memo.id !== id)`. */
  function WithoutMemo(ms: seq<Memo>, id: int): (r: seq<Memo>)
    ensures |r| <= |ms|
    ensures forall i :: 0 <= i < |r| ==> r[i].id != id
  {
    Keep(ms, (m: Memo) => m.id != id)
  }

  /** Deleting a task keeps exactly the tasks with another id, and keeps their order. */
  lemma DeleteTaskSpec(a: seq<Task>, b: seq<Task>, id: int)
    ensures forall t :: t in WithoutTask(a, id) <==> t in a && t.id != id
    ensures WithoutTask(a + b, id) == WithoutTask(a, id) + WithoutTask(b, id)
    ensures (forall i :: 0 <= i < |a| ==> a[i].id != id) ==> WithoutTask(a, id) == a
  {
    KeepConcat(a, b, (t: Task) => t.id != id);
    if forall i :: 0 <= i < |a| ==> a[i].id != id {
      KeepAll(a, (t: Task) => t.id != id);
    }
  }

  /** Deleting a memo keeps exactly the memos with another id, and keeps their order. */
  lemma DeleteMemoSpec(a: seq<Memo>, b: seq<Memo>, id: int)
    ensures forall m :: m in WithoutMemo(a, id) <==> m in a && m.id != id
    ensures WithoutMemo(a + b, id) == WithoutMemo(a, id) + WithoutMemo(b, id)
    ensures (forall i :: 0 <= i < |a| ==> a[i].id != id) ==> WithoutMemo(a, id) == a
  {
    KeepConcat(a, b, (m: Memo) => m.id != id);
    if forall i :: 0 <= i < |a| ==> a[i].id != id {
      KeepAll(a, (m: Memo) => m.id != id);
    }
  }

  /** Ids are unique in the list (the page draws them from the clock). */
  predicate UniqueIds(ts: seq<Task>) {
    forall i, j :: 0 <= i < j < |ts| ==> ts[i].id != ts[j].id
  }

  /** With unique ids, removing a listed task's id removes that one task and no other. */
  lemma {:induction false} RemoveListedTask(ts: seq<Task>, t: Task)
    requires UniqueIds(ts) && t in ts
    ensures |WithoutTask(ts, t.id)| == |ts| - 1
  {
    var p := (x: Task) => x.id != t.id;
    if ts[0] == t {
      assert forall i :: 0 <= i < |ts[1..]| ==> p(ts[1..][i]) by {
        forall i | 0 <= i < |ts[1..]| ensures p(ts[1..][i]) {
          assert ts[1..][i] == ts[i + 1];
        }
      }
      KeepAll(ts[1..], p);
    } else {
      assert t in ts[1..];
      RemoveListedTask(ts[1..], t);
    }
  }

  /** One task after the completion toggle of `id`. */
  function Flip(t: Task, id: int): Task {
    if t.id == id then t.(completed := !t.completed) else t
  }

  /** `tasks.map((task) => task.id === id ? { ...task, completed: !task.completed } : task)`. */
  function Toggled(ts: seq<Task>, id: int): (r: seq<Task>)
    ensures |r| == |ts|
    ensures forall i :: 0 <= i < |ts| ==> r[i].completed == (ts[i].completed != (ts[i].id == id))
    ensures forall i :: 0 <= i < |ts| ==> r[i] == ts[i].(completed := r[i].completed)
  {
    if ts == [] then [] else [Flip(ts[0], id)] + Toggled(ts[1..], id)
  }

  /** Toggling the same id twice gives back the list. */
  lemma {:induction false} ToggleTwice(ts: seq<Task>, id: int)
    ensures Toggled(Toggled(ts, id), id) == ts
  {
    if ts != [] {
      ToggleTwice(ts[1..], id);
      assert Toggled(ts, id)[1..] == Toggled(ts[1..], id);
    }
  }

  /** Code-point order of strings, the order `localeCompare` gives the page's `YYYY-MM-DD` deadlines. */
  predicate TextLe(a: string, b: string) {
    a == [] || (b != [] && (a[0] < b[0] || (a[0] == b[0] && TextLe(a[1..], b[1..]))))
  }

  lemma {:induction false} TextLeTotal(a: string, b: string)
    ensures TextLe(a, b) || TextLe(b, a)
  {
    if a != [] && b != [] && a[0] == b[0] {
      TextLeTotal(a[1..], b[1..]);
    }
  }

  lemma {:induction false} TextLeTransitive(a: string, b: string, c: string)
    requires TextLe(a, b) && TextLe(b, c)
    ensures TextLe(a, c)
  {
    if a != [] && b != [] && c != [] && a[0] == b[0] == c[0] {
      TextLeTransitive(a[1..], b[1..], c[1..]);
    }
  }

  /**
   * `a` may be listed before `b` by the comparator of `visibleTasks`: incomplete before completed,
   * then ascending deadline.
   */
  predicate Precedes(a: Task, b: Task): (p: bool)
    ensures !a.completed && b.completed ==> p
    ensures a.completed && !b.completed ==> !p
    ensures a.completed == b.completed && a.deadline == "" ==> p
  {
    (!a.completed && b.completed) || (a.completed == b.completed && TextLe(a.deadline, b.deadline))
  }

  lemma PrecedesTotal(a: Task, b: Task)
    ensures Precedes(a, b) || Precedes(b, a)
  {
    TextLeTotal(a.deadline, b.deadline);
  }

  lemma PrecedesTransitive(a: Task, b: Task, c: Task)
    requires Precedes(a, b) && Precedes(b, c)
    ensures Precedes(a, c)
  {
    if a.completed == b.completed == c.completed {
      TextLeTransitive(a.deadline, b.deadline, c.deadline);
    }
  }

  predicate Sorted(s: seq<Task>) {
    forall i, j :: 0 <= i < j < |s| ==> Precedes(s[i], s[j])
  }

  /** A task that precedes every task of a sorted list may head it. */
  lemma ConsSorted(y: Task, tail: seq<Task>)
    requires Sorted(tail) && forall t :: t in tail ==> Precedes(y, t)
    ensures Sorted([y] + tail)
  {
    var r := [y] + tail;
    forall i, j | 0 <= i < j < |r| ensures Precedes(r[i], r[j]) {
      if i > 0 {
        assert r[i] == tail[i - 1] && r[j] == tail[j - 1];
      } else {
        assert r[j] in tail;
      }
    }
  }

  /** The head of a sorted list precedes the rest of it. */
  lemma HeadPrecedes(s: seq<Task>)
    requires Sorted(s) && s != []
    ensures forall t :: t in s[1..] ==> Precedes(s[0], t)
  {
    forall t | t in s[1..] ensures Precedes(s[0], t) {
      var k :| 0 <= k < |s[1..]| && s[1..][k] == t;
      assert s[k + 1] == t;
    }
  }

  /** Places `x` in a sorted list before the first task it precedes. */
  function Insert(x: Task, s: seq<Task>): (r: seq<Task>)
    requires Sorted(s)
    ensures Sorted(r) && multiset(r) == multiset(s) + multiset{x}
  {
    if s == [] then [x]
    else if Precedes(x, s[0]) then
      HeadPrecedes(s);
      forall t | t in s ensures Precedes(x, t) {
        if t != s[0] {
          assert t in s[1..] by {
            assert s == [s[0]] + s[1..];
          }
          PrecedesTransitive(x, s[0], t);
        }
      }
      ConsSorted(x, s);
      [x] + s
    else
      PrecedesTotal(x, s[0]);
      HeadPrecedes(s);
      var tail := Insert(x, s[1..]);
      forall t | t in tail ensures Precedes(s[0], t) {
        assert t in multiset(tail);
      }
      ConsSorted(s[0], tail);
      assert s == [s[0]] + s[1..];
      [s[0]] + tail
  }

  /** A stable insertion sort by `Precedes`. */
  function SortTasks(s: seq<Task>): (r: seq<Task>)
    ensures Sorted(r) && multiset(r) == multiset(s)
  {
    if s == [] then []
    else
      assert s == [s[0]] + s[1..];
      Insert(s[0], SortTasks(s[1..]))
  }

  /** `visibleTasks`: the work tasks, incomplete first, then by ascending deadline. */
  function VisibleTasks(ts: seq<Task>): (v: seq<Task>)
    ensures |v| <= |ts|
    ensures forall i :: 0 <= i < |v| ==> v[i] in ts && v[i].category == Work
  {
    var work := Keep(ts, (t: Task) => t.category == Work);
    var v := SortTasks(work);
    assert |v| == |multiset(v)| == |multiset(work)| == |work|;
    assert forall i :: 0 <= i < |v| ==> v[i] in multiset(work);
    v
  }

  /**
   * The view holds every work task of the list as often as the list does and nothing else,
   * every incomplete task comes before every completed one, and deadlines ascend within each group.
   */
  lemma VisibleTasksSpec(ts: seq<Task>)
    ensures var v := VisibleTasks(ts);
      && multiset(v) == multiset(Keep(ts, (t: Task) => t.category == Work))
      && (forall t :: t in v <==> t in ts && t.category == Work)
      && (forall i, j :: 0 <= i < j < |v| && v[j].completed == false ==> !v[i].completed)
      && (forall i, j :: 0 <= i < j < |v| && v[i].completed == v[j].completed ==> TextLe(v[i].deadline, v[j].deadline))
  {
    var w := Keep(ts, (t: Task) => t.category == Work);
    var v := VisibleTasks(ts);
    forall t ensures t in v <==> t in ts && t.category == Work {
      assert t in v <==> t in multiset(v);
      assert t in w <==> t in multiset(w);
    }
  }

  /** The list the restore action leaves: the backup's array if the slot parses as one, else the list as it was. */
  function Restored<T>(current: seq<T>, slot: Slot<T>): (r: seq<T>)
    ensures slot.Array? ==> r == slot.items
    ensures !slot.Array? ==> r == current
  {
    if slot.Array? then slot.items else current
  }

  /** The toasts of the restore action: one error per backup that fails to parse, then success in every case. */
  function RestoreNotices(tasks: Slot<Task>, memos: Slot<Memo>): (r: seq<Notice>)
    ensures |r| >= 1 && r[|r| - 1] == Success("データ復元しました")
    ensures Failure("タスク復元に失敗しました") in r <==> tasks.Corrupt?
    ensures Failure("メモ復元に失敗しました") in r <==> memos.Corrupt?
    ensures |r| == 1 + (if tasks.Corrupt? then 1 else 0) + (if memos.Corrupt? then 1 else 0)
  {
    (if tasks.Corrupt? then [Failure("タスク復元に失敗しました")] else [])
      + (if memos.Corrupt? then [Failure("メモ復元に失敗しました")] else [])
      + [Success("データ復元しました")]
  }
}
