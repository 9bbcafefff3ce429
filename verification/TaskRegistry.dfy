// The task registry of one process (backend/open_webui/tasks.py without Redis).
module TaskRegistries {
  import opened Basics

  type TaskId = string
  type ItemId = string

  // `tasks` maps a running task to the item its done callback will clean up;
  // `items` lists the task ids of each item (None: tasks without one).
  datatype Registry = Registry(tasks: map<TaskId, Option<ItemId>>, items: map<Option<ItemId>, seq<TaskId>>)

  const EMPTY := Registry(map[], map[])

  function Listed(r: Registry, item: Option<ItemId>): seq<TaskId> {
    if item in r.items then r.items[item] else []
  }

  predicate Truthy(item: Option<ItemId>) {
    item.Some? && item.value != ""
  }

  function Created(r: Registry, task: TaskId, item: Option<ItemId>): Registry {
    Registry(r.tasks[task := item], r.items[item := Listed(r, item) + [task]])
  }

  // list.remove: the first occurrence goes.
  function RemoveFirst(s: seq<TaskId>, x: TaskId): (r: seq<TaskId>)
    ensures x !in s ==> r == s
    ensures x in s ==> |r| == |s| - 1
    ensures forall y :: y != x ==> (y in r <==> y in s)
  {
    if s == [] then []
    else if s[0] == x then
      assert forall y :: y in s <==> y == x || y in s[1..];
      s[1..]
    else
      var rest := RemoveFirst(s[1..], x);
      assert forall y :: y in s <==> y == s[0] || y in s[1..];
      [s[0]] + rest
  }

  // An emptied list is removed with its key.
  function WithList(items: map<Option<ItemId>, seq<TaskId>>, item: Option<ItemId>, list: seq<TaskId>)
    : map<Option<ItemId>, seq<TaskId>>
  {
    if list == [] then items - {item} else items[item := list]
  }

  function Cleaned(r: Registry, task: TaskId, item: Option<ItemId>): Registry {
    Registry(
      r.tasks - {task},
      if Truthy(item) && task in Listed(r, item) then
        WithList(r.items, item, RemoveFirst(Listed(r, item), task))
      else r.items)
  }

  // Stopping takes the task out; its list entry is left to the done callback.
  function Stopped(r: Registry, task: TaskId): Registry {
    r.(tasks := r.tasks - {task})
  }

  class TaskRegistry {
    var tasks: map<TaskId, Option<ItemId>>
    var itemTasks: map<Option<ItemId>, seq<TaskId>>

    constructor ()
      ensures Value() == EMPTY
    {
      tasks, itemTasks := map[], map[];
    }

    ghost function Value(): Registry
      reads this
    {
      Registry(tasks, itemTasks)
    }

    method CreateTask(task: TaskId, item: Option<ItemId>)
      modifies this
      ensures Value() == Created(old(Value()), task, item)
    {
      tasks := tasks[task := item];
      if item in itemTasks && itemTasks[item] != [] {
        itemTasks := itemTasks[item := itemTasks[item] + [task]];
      } else {
        assert Listed(Value(), item) + [task] == [task];
        itemTasks := itemTasks[item := [task]];
      }
    }

    method CleanupTask(task: TaskId, item: Option<ItemId>)
      modifies this
      ensures Value() == Cleaned(old(Value()), task, item)
    {
      tasks := tasks - {task};
      if Truthy(item) && item in itemTasks && task in itemTasks[item] {
        itemTasks := itemTasks[item := RemoveFirst(itemTasks[item], task)];
        if itemTasks[item] == [] {
          itemTasks := itemTasks - {item};
          assert itemTasks == old(itemTasks) - {item};
        }
      }
    }

    method StopTask(task: TaskId) returns (status: bool)
      modifies this
      ensures status <==> task in old(tasks)
      ensures Value() == Stopped(old(Value()), task)
    {
      status := task in tasks;
      tasks := tasks - {task};
    }
  }

  // ---- cleanups ------------------------------------------------------------

  lemma {:induction false} RemoveFirstCommutes(s: seq<TaskId>, x: TaskId, y: TaskId)
    ensures RemoveFirst(RemoveFirst(s, x), y) == RemoveFirst(RemoveFirst(s, y), x)
  {
    if s == [] {
    } else {
      RemoveFirstCommutes(s[1..], x, y);
      if s[0] != x && s[0] != y {
        assert ([s[0]] + RemoveFirst(s[1..], x))[1..] == RemoveFirst(s[1..], x);
        assert ([s[0]] + RemoveFirst(s[1..], y))[1..] == RemoveFirst(s[1..], y);
      } else if s[0] == x && s[0] != y {
        assert ([s[0]] + RemoveFirst(s[1..], y))[1..] == RemoveFirst(s[1..], y);
      } else if s[0] == y && s[0] != x {
        assert ([s[0]] + RemoveFirst(s[1..], x))[1..] == RemoveFirst(s[1..], x);
      }
    }
  }

  lemma {:induction false} RemoveFirstNoDup(s: seq<TaskId>, x: TaskId)
    requires NoDup(s)
    ensures NoDup(RemoveFirst(s, x)) && x !in RemoveFirst(s, x)
  {
    if s == [] {
    } else {
      if s[0] == x {
        assert x !in s[1..];
      } else {
        RemoveFirstNoDup(s[1..], x);
        NoDupAppend([s[0]], RemoveFirst(s[1..], x));
      }
    }
  }

  // No list is empty and none names a task twice.
  ghost predicate Tidy(r: Registry) {
    forall item :: item in r.items ==> r.items[item] != [] && NoDup(r.items[item])
  }

  // What a cleanup does to every list, read with .get(id, []).
  lemma CleanedList(r: Registry, task: TaskId, item: Option<ItemId>, other: Option<ItemId>)
    ensures Listed(Cleaned(r, task, item), other) ==
            if other == item && Truthy(item) then RemoveFirst(Listed(r, other), task) else Listed(r, other)
  {
  }

  lemma CleanedTidy(r: Registry, task: TaskId, item: Option<ItemId>)
    requires Tidy(r)
    ensures Tidy(Cleaned(r, task, item))
  {
    RemoveFirstNoDup(Listed(r, item), task);
  }

  lemma SameListsSameItems(r: Registry, q: Registry)
    requires Tidy(r) && Tidy(q) && forall item :: Listed(r, item) == Listed(q, item)
    ensures r.items == q.items
  {
    forall item ensures item in r.items <==> item in q.items {
      assert Listed(r, item) == Listed(q, item);
    }
    forall item | item in r.items ensures r.items[item] == q.items[item] {
      assert Listed(r, item) == Listed(q, item);
    }
  }

  // Cleanups commute, whoever issues them and in whatever order they arrive.
  lemma CleanupsCommute(r: Registry, t: TaskId, i: Option<ItemId>, u: TaskId, j: Option<ItemId>)
    requires Tidy(r)
    ensures Cleaned(Cleaned(r, t, i), u, j) == Cleaned(Cleaned(r, u, j), t, i)
  {
    var a, b := Cleaned(Cleaned(r, t, i), u, j), Cleaned(Cleaned(r, u, j), t, i);
    CleanedTidy(r, t, i);
    CleanedTidy(r, u, j);
    CleanedTidy(Cleaned(r, t, i), u, j);
    CleanedTidy(Cleaned(r, u, j), t, i);
    forall item ensures Listed(a, item) == Listed(b, item) {
      CleanedList(r, t, i, item);
      CleanedList(r, u, j, item);
      CleanedList(Cleaned(r, t, i), u, j, item);
      CleanedList(Cleaned(r, u, j), t, i, item);
      RemoveFirstCommutes(Listed(r, item), t, u);
    }
    SameListsSameItems(a, b);
  }

  lemma CleanupIdempotent(r: Registry, t: TaskId, i: Option<ItemId>)
    requires Tidy(r)
    ensures Cleaned(Cleaned(r, t, i), t, i) == Cleaned(r, t, i)
  {
    CleanedList(r, t, i, i);
    RemoveFirstNoDup(Listed(r, i), t);
  }

  // ---- runs ------------------------------------------------------------------

  datatype Event =
    | Create(task: TaskId, item: Option<ItemId>)
    | Cleanup(task: TaskId)
    | Stop(task: TaskId)

  // A registry with the tasks in the order they were created, the item of each,
  // and the ones cleaned up or stopped since.
  datatype Process = Process(
    r: Registry, created: seq<TaskId>, owner: map<TaskId, Option<ItemId>>, cleaned: set<TaskId>, stopped: set<TaskId>)

  const START := Process(EMPTY, [], map[], {}, {})

  ghost predicate Enabled(p: Process, e: Event) {
    match e
    case Create(task, _) => task !in p.owner
    case Cleanup(task) => task in p.owner
    case Stop(_) => true
  }

  ghost function After(p: Process, e: Event): Process
    requires Enabled(p, e)
  {
    match e
    case Create(task, item) =>
      p.(r := Created(p.r, task, item), created := p.created + [task], owner := p.owner[task := item])
    case Cleanup(task) => p.(r := Cleaned(p.r, task, p.owner[task]), cleaned := p.cleaned + {task})
    case Stop(task) => p.(r := Stopped(p.r, task), stopped := p.stopped + {task} * p.owner.Keys)
  }

  // The tasks created for an item and, unless that is no item, not cleaned up.
  ghost function Current(p: Process, item: Option<ItemId>): set<TaskId> {
    set t | t in p.owner && p.owner[t] == item && !(Truthy(item) && t in p.cleaned)
  }

  // Every list names the current tasks of its item in the order they were created,
  // and the tasks neither cleaned up nor stopped run.
  ghost predicate Accurate(p: Process) {
    && Tidy(p.r) && NoDup(p.created) && p.cleaned + p.stopped <= p.owner.Keys
    && (forall t :: t in p.created <==> t in p.owner)
    && (forall item :: Listed(p.r, item) == Restrict(p.created, Current(p, item)))
    && (forall t :: t in p.r.tasks <==> t in p.owner && t !in p.cleaned + p.stopped)
    && (forall t :: t in p.r.tasks ==> p.r.tasks[t] == p.owner[t])
  }

  lemma CurrentGrows(p: Process, task: TaskId, item: Option<ItemId>, i: Option<ItemId>)
    requires task !in p.owner && task !in p.cleaned
    ensures Current(After(p, Create(task, item)), i) == Current(p, i) + if i == item then {task} else {}
  {
  }

  lemma CreatedCurrent(p: Process, task: TaskId, item: Option<ItemId>, i: Option<ItemId>)
    requires task !in p.owner && task !in p.cleaned && task !in p.created
    ensures Restrict(p.created + [task], Current(After(p, Create(task, item)), i)) ==
            Restrict(p.created, Current(p, i)) + if i == item then [task] else []
  {
    var now := Current(After(p, Create(task, item)), i);
    CurrentGrows(p, task, item, i);
    RestrictAppend(p.created, [task], now);
    RestrictOne(task, now);
    RestrictAgree(p.created, Current(p, i), now);
  }

  lemma CreatedTidy(r: Registry, task: TaskId, item: Option<ItemId>)
    requires Tidy(r) && task !in Listed(r, item)
    ensures Tidy(Created(r, task, item))
    ensures forall i :: Listed(Created(r, task, item), i) == Listed(r, i) + if i == item then [task] else []
  {
    NoDupAppend(Listed(r, item), [task]);
    forall i ensures Listed(Created(r, task, item), i) == Listed(r, i) + if i == item then [task] else [] {
      assert Listed(r, i) + [] == Listed(r, i);
    }
  }

  lemma CreateKeepsAccurate(p: Process, task: TaskId, item: Option<ItemId>)
    requires Accurate(p) && task !in p.owner
    ensures Accurate(After(p, Create(task, item)))
  {
    var after := After(p, Create(task, item));
    NoDupAppend(p.created, [task]);
    CreatedTidy(p.r, task, item);
    forall i ensures Listed(after.r, i) == Restrict(after.created, Current(after, i)) {
      CreatedCurrent(p, task, item, i);
    }
  }

  // On a list without duplicates removing the first occurrence removes the element.
  lemma {:induction false} RemoveFirstRestricts(s: seq<TaskId>, x: TaskId)
    requires NoDup(s)
    ensures RemoveFirst(s, x) == Without(s, {x})
  {
    if s == [] {
    } else {
      var keep := Elements(s) - {x};
      RestrictHead(s, keep);
      if s[0] == x {
        RestrictAll(s[1..], keep);
      } else {
        RemoveFirstRestricts(s[1..], x);
        RestrictAgree(s[1..], Elements(s[1..]) - {x}, keep);
      }
    }
  }

  lemma CleanupKeepsAccurate(p: Process, task: TaskId)
    requires Accurate(p) && task in p.owner
    ensures Accurate(After(p, Cleanup(task)))
  {
    var after := After(p, Cleanup(task));
    CleanedTidy(p.r, task, p.owner[task]);
    forall i ensures Listed(after.r, i) == Restrict(after.created, Current(after, i)) {
      CleanedList(p.r, task, p.owner[task], i);
      CleanedCurrent(p, task, i);
    }
  }

  lemma CleanedCurrent(p: Process, task: TaskId, i: Option<ItemId>)
    requires Accurate(p) && task in p.owner
    ensures var list := Listed(p.r, i);
            Restrict(p.created, Current(After(p, Cleanup(task)), i)) ==
            if i == p.owner[task] && Truthy(i) then RemoveFirst(list, task) else list
  {
    var list, before, now := Listed(p.r, i), Current(p, i), Current(After(p, Cleanup(task)), i);
    if i == p.owner[task] && Truthy(i) {
      RestrictNoDup(p.created, before);
      RemoveFirstRestricts(list, task);
      var keep := Elements(list) - {task};
      RestrictTwice(p.created, before, keep);
      RestrictAgree(p.created, before * keep, now);
    } else {
      assert before == now;
    }
  }

  lemma EventKeepsAccurate(p: Process, e: Event)
    requires Accurate(p) && Enabled(p, e)
    ensures Accurate(After(p, e))
  {
    match e
    case Create(task, item) => CreateKeepsAccurate(p, task, item);
    case Cleanup(task) => CleanupKeepsAccurate(p, task);
    case Stop(_) =>
      forall i ensures Listed(After(p, e).r, i) == Listed(p.r, i) && Current(After(p, e), i) == Current(p, i) {}
  }

  ghost predicate Reaches(p: Process, events: seq<Event>, end: Process)
    decreases |events|
  {
    if events == [] then p == end
    else Enabled(p, events[0]) && Reaches(After(p, events[0]), events[1..], end)
  }

  lemma {:induction false} RunKeepsAccurate(p: Process, events: seq<Event>, end: Process)
    requires Accurate(p) && Reaches(p, events, end)
    ensures Accurate(end)
    decreases |events|
  {
    if events == [] {
    } else {
      EventKeepsAccurate(p, events[0]);
      RunKeepsAccurate(After(p, events[0]), events[1..], end);
    }
  }

  // In every run the list of an item names, in the order they were created, the
  // tasks created for it that were not cleaned up since: a stopped task stays
  // listed until its done callback.
  lemma ListsInOrder(events: seq<Event>, end: Process, item: Option<ItemId>)
    requires Reaches(START, events, end)
    ensures Listed(end.r, item) == Restrict(end.created, Current(end, item))
    ensures NoDup(Listed(end.r, item))
  {
    RunKeepsAccurate(START, events, end);
    RestrictNoDup(end.created, Current(end, item));
  }

  lemma ListedIff(events: seq<Event>, end: Process, task: TaskId, item: Option<ItemId>)
    requires Reaches(START, events, end)
    ensures task in Listed(end.r, item) <==>
            task in end.owner && end.owner[task] == item && !(Truthy(item) && task in end.cleaned)
  {
    RunKeepsAccurate(START, events, end);
  }

  // A task runs from its creation to its cleanup or stop.
  lemma RunningIff(events: seq<Event>, end: Process, task: TaskId)
    requires Reaches(START, events, end)
    ensures task in end.r.tasks <==> task in end.owner && task !in end.cleaned && task !in end.stopped
  {
    RunKeepsAccurate(START, events, end);
  }

  // In particular each running task is listed exactly once, under its own item.
  lemma EveryRunListsOnce(events: seq<Event>, end: Process, task: TaskId, item: Option<ItemId>)
    requires Reaches(START, events, end) && task in end.r.tasks
    ensures task in Listed(end.r, item) <==> end.r.tasks[task] == item
    ensures NoDup(Listed(end.r, item))
  {
    RunKeepsAccurate(START, events, end);
    ListsInOrder(events, end, item);
  }
}
