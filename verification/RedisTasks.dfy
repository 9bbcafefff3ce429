// The task registry shared through Redis (backend/open_webui/tasks.py): a hash
// from task to item and one set of tasks per item, changed by several instances
// whose awaits interleave.
module RedisTasks {
  import opened Basics

  type TaskId = string
  type ItemId = string  // "" when a task has no item

  // What a coroutine still has to do; each value is one await away from its next step.
  datatype Pending =
    | Saving(task: TaskId, item: ItemId)
    | Cleaning(task: TaskId, item: ItemId)  // the pipeline of hdel and srem
    | Counting(item: ItemId)                // scard
    | Deleting(item: ItemId)                // delete, after scard answered 0

  // `created` records the item every task was created for, `saved` the tasks
  // whose registration has reached Redis, `cleaned` those of them that a cleanup
  // has removed since; none of the three is stored anywhere.
  datatype Redis = Redis(
    hash: map<TaskId, ItemId>, sets: map<ItemId, set<TaskId>>,
    pending: map<nat, Pending>, created: map<TaskId, ItemId>, saved: set<TaskId>, cleaned: set<TaskId>)

  const EMPTY := Redis(map[], map[], map[], map[], {}, {})

  function Members(r: Redis, item: ItemId): set<TaskId> {
    if item in r.sets then r.sets[item] else {}
  }

  datatype Event =
    | Create(pid: nat, task: TaskId, item: ItemId)  // create_task up to its first await
    | Finish(pid: nat, task: TaskId)                // the done callback starts a cleanup
    | Stop(pid: nat, task: TaskId)                  // stop_task has read the item
    | Step(pid: nat)                                // a coroutine resumes

  // A stop is in order once the task is saved, or of a task without an item.
  predicate StopInOrder(r: Redis, task: TaskId) {
    task in r.saved || (task in r.created && r.created[task] == "")
  }

  // A new task id is fresh; a stop names an id that was returned or listed, or a
  // task that is listed nowhere.
  ghost predicate Enabled(r: Redis, e: Event) {
    match e
    case Create(pid, task, item) => pid !in r.pending && task !in r.created
    case Finish(pid, task) => pid !in r.pending && task in r.created
    case Stop(pid, task) => pid !in r.pending && StopInOrder(r, task)
    case Step(pid) => pid in r.pending
  }

  function Resume(r: Redis, pid: nat): Redis
    requires pid in r.pending
  {
    var rest := r.pending - {pid};
    match r.pending[pid]
    case Saving(task, item) =>
      r.(hash := r.hash[task := item],
         sets := if item == "" then r.sets else r.sets[item := Members(r, item) + {task}],
         pending := rest, saved := r.saved + {task})
    case Cleaning(task, item) =>
      var cleaned := if task in r.saved then r.cleaned + {task} else r.cleaned;
      if item == "" then r.(hash := r.hash - {task}, pending := rest, cleaned := cleaned)
      else
        r.(hash := r.hash - {task}, sets := r.sets[item := Members(r, item) - {task}],
           pending := r.pending[pid := Counting(item)], cleaned := cleaned)
    case Counting(item) =>
      r.(pending := if Members(r, item) == {} then r.pending[pid := Deleting(item)] else rest)
    case Deleting(item) => r.(sets := r.sets - {item}, pending := rest)
  }

  ghost function After(r: Redis, e: Event): Redis
    requires Enabled(r, e)
  {
    match e
    case Create(pid, task, item) =>
      r.(pending := r.pending[pid := Saving(task, item)], created := r.created[task := item])
    case Finish(pid, task) => r.(pending := r.pending[pid := Cleaning(task, r.created[task])])
    case Stop(pid, task) => StopStarted(r, pid, task)
    case Step(pid) => Resume(r, pid)
  }

  // stop_task up to its cleanup, for any id.
  function StopStarted(r: Redis, pid: nat, task: TaskId): Redis {
    r.(pending := r.pending[pid := Cleaning(task, if task in r.hash then r.hash[task] else "")])
  }

  // ---- safety ---------------------------------------------------------------

  // Every member of an item's set is in the hash under that item.
  ghost predicate SetsInHash(r: Redis) {
    forall item :: item in r.sets ==>
      forall task :: task in r.sets[item] ==> item != "" && task in r.hash && r.hash[task] == item
  }

  // A cleanup works on the item the task was created for, or came too late.
  ghost predicate CleaningKnows(
      created: map<TaskId, ItemId>, saved: set<TaskId>, hash: map<TaskId, ItemId>, task: TaskId, item: ItemId)
  {
    task in created && (item == created[task] || (item == "" && task in saved && task !in hash))
  }

  // A pending coroutine is consistent with what was created and saved.
  ghost predicate PendingKnows(
      created: map<TaskId, ItemId>, saved: set<TaskId>, hash: map<TaskId, ItemId>, p: Pending)
  {
    match p
    case Saving(task, item) => task in created && created[task] == item && task !in saved
    case Cleaning(task, item) => CleaningKnows(created, saved, hash, task, item)
    case Counting(item) => item != ""
    case Deleting(item) => item != ""
  }

  // No task is being saved twice.
  ghost predicate SavedOnce(pending: map<nat, Pending>) {
    forall p, q :: p in pending && q in pending && pending[p].Saving? && pending[q].Saving? && p != q ==>
      pending[p].task != pending[q].task
  }

  ghost predicate Invariant(r: Redis) {
    && SetsInHash(r) && "" !in r.sets
    && r.saved <= r.created.Keys
    && (forall t :: t in r.hash ==> t in r.saved && r.hash[t] == r.created[t])
    && SavedOnce(r.pending)
    && (forall p :: p in r.pending ==> PendingKnows(r.created, r.saved, r.hash, r.pending[p]))
  }

  lemma StepKeepsInvariant(r: Redis, pid: nat)
    requires Invariant(r) && pid in r.pending
    ensures Invariant(Resume(r, pid))
  {
    assert PendingKnows(r.created, r.saved, r.hash, r.pending[pid]);
    match r.pending[pid]
    case Saving(task, item) => SaveKeepsInvariant(r, pid, task, item);
    case Cleaning(task, item) => CleanKeepsInvariant(r, pid, task, item);
    case Counting(_) =>
    case Deleting(_) =>
  }

  lemma SaveKeepsInvariant(r: Redis, pid: nat, task: TaskId, item: ItemId)
    requires Invariant(r) && pid in r.pending && r.pending[pid] == Saving(task, item)
    ensures Invariant(Resume(r, pid))
  {
  }

  lemma CleanKeepsInvariant(r: Redis, pid: nat, task: TaskId, item: ItemId)
    requires Invariant(r) && pid in r.pending && r.pending[pid] == Cleaning(task, item)
    ensures Invariant(Resume(r, pid))
  {
  }

  lemma EventKeepsInvariant(r: Redis, e: Event)
    requires Invariant(r) && Enabled(r, e)
    ensures Invariant(After(r, e))
  {
    match e
    case Create(pid, task, item) =>
      forall p | p in r.pending
        ensures PendingKnows(r.created[task := item], r.saved, r.hash, r.pending[p]) &&
                (r.pending[p].Saving? ==> r.pending[p].task != task)
      {
        assert PendingKnows(r.created, r.saved, r.hash, r.pending[p]);
      }
    case Step(pid) => StepKeepsInvariant(r, pid);
    case _ =>
  }

  ghost predicate Reaches(r: Redis, events: seq<Event>, end: Redis)
    decreases |events|
  {
    if events == [] then r == end
    else Enabled(r, events[0]) && Reaches(After(r, events[0]), events[1..], end)
  }

  lemma {:induction false} RunKeepsInvariant(r: Redis, events: seq<Event>, end: Redis)
    requires Invariant(r) && Reaches(r, events, end)
    ensures Invariant(end)
    decreases |events|
  {
    if events == [] {
    } else {
      EventKeepsInvariant(r, events[0]);
      RunKeepsInvariant(After(r, events[0]), events[1..], end);
    }
  }

  // Under every interleaving of instances, across the gap between scard and
  // delete as well, a listed task is registered under the item it is listed for.
  lemma ListedIsRegistered(events: seq<Event>, end: Redis, item: ItemId, task: TaskId)
    requires Reaches(EMPTY, events, end) && task in Members(end, item)
    ensures task in end.hash && end.hash[task] == item && task in end.created && end.created[task] == item
  {
    RunKeepsInvariant(EMPTY, events, end);
    assert item in end.sets && task in end.sets[item];
  }

  // ---- when a task leaves the registry ------------------------------------------

  // Registered are the saved tasks no cleanup has removed since, and a created
  // task that is not saved has its save ahead.
  ghost predicate Accounted(r: Redis) {
    && r.cleaned <= r.saved
    && (forall t :: t in r.hash <==> t in r.saved && t !in r.cleaned)
    && (forall t :: t in r.created && t !in r.saved ==> SavePending(r, t))
  }

  ghost predicate SavePending(r: Redis, task: TaskId) {
    exists p :: p in r.pending && r.pending[p].Saving? && r.pending[p].task == task
  }

  lemma EventKeepsAccounted(r: Redis, e: Event)
    requires Invariant(r) && Accounted(r) && Enabled(r, e)
    ensures Accounted(After(r, e))
  {
    var after := After(r, e);
    if e.Step? {
      assert PendingKnows(r.created, r.saved, r.hash, r.pending[e.pid]);
    }
    forall t | t in after.created && t !in after.saved ensures SavePending(after, t) {
      if e.Create? && t == e.task {
        assert after.pending[e.pid].Saving?;
      } else {
        var p :| p in r.pending && r.pending[p].Saving? && r.pending[p].task == t;
        assert after.pending[p] == r.pending[p];
      }
    }
  }

  lemma {:induction false} RunKeepsAccounted(r: Redis, events: seq<Event>, end: Redis)
    requires Invariant(r) && Accounted(r) && Reaches(r, events, end)
    ensures Accounted(end)
    decreases |events|
  {
    if events == [] {
    } else {
      EventKeepsInvariant(r, events[0]);
      EventKeepsAccounted(r, events[0]);
      RunKeepsAccounted(After(r, events[0]), events[1..], end);
    }
  }

  // Once no coroutine is pending, a task is unregistered if and only if its save
  // executed before one of its cleanups.
  lemma QuiescentUnregisteredIff(events: seq<Event>, end: Redis, task: TaskId)
    requires Reaches(EMPTY, events, end) && end.pending == map[] && task in end.created
    ensures task !in end.hash <==> task in end.cleaned
    ensures task !in end.hash ==> forall item :: task !in Members(end, item)
  {
    RunKeepsInvariant(EMPTY, events, end);
    RunKeepsAccounted(EMPTY, events, end);
    assert !SavePending(end, task);
  }

  lemma {:induction false} CleanedStays(r: Redis, events: seq<Event>, end: Redis)
    requires Reaches(r, events, end)
    ensures r.cleaned <= end.cleaned
    decreases |events|
  {
    if events == [] {
    } else {
      CleanedStays(After(r, events[0]), events[1..], end);
    }
  }

  // The coroutine that will save the task.
  lemma SaverOf(r: Redis, task: TaskId) returns (pid: nat)
    requires Invariant(r) && SavePending(r, task)
    ensures pid in r.pending && task in r.created && r.pending[pid] == Saving(task, r.created[task])
  {
    pid :| pid in r.pending && r.pending[pid].Saving? && r.pending[pid].task == task;
    assert PendingKnows(r.created, r.saved, r.hash, r.pending[pid]);
  }

  ghost predicate GoneForGood(r: Redis, task: TaskId) {
    forall events, end :: Reaches(r, events, end) ==> task !in end.hash
  }

  // A cleanup unregisters its task for good if and only if the task has been
  // saved when it executes.
  lemma CleanupFinalIff(r: Redis, pid: nat)
    requires Invariant(r) && Accounted(r) && pid in r.pending && r.pending[pid].Cleaning?
    ensures GoneForGood(Resume(r, pid), r.pending[pid].task) <==> r.pending[pid].task in r.saved
  {
    var task, after := r.pending[pid].task, After(r, Step(pid));
    assert PendingKnows(r.created, r.saved, r.hash, r.pending[pid]);
    EventKeepsInvariant(r, Step(pid));
    EventKeepsAccounted(r, Step(pid));
    if task in r.saved {
      forall events, end | Reaches(after, events, end) ensures task !in end.hash {
        RunKeepsAccounted(after, events, end);
        CleanedStays(after, events, end);
      }
    } else {
      var saver := SaverOf(after, task);
      var end := After(after, Step(saver));
      assert Reaches(end, [], end);
      ReachesBefore(after, Step(saver), [], end);
      assert task in end.hash;
    }
  }

  // ---- stops out of order ---------------------------------------------------------

  ghost predicate CanBreak(r: Redis) {
    exists events, end :: Reaches(r, events, end) && !SetsInHash(end)
  }

  // stop_task does not check the id it is given.  A stop can leave a listed task
  // unregistered if and only if it was not in order: the task is not saved yet
  // and has or can still get an item.
  lemma StopBreaksIff(r: Redis, pid: nat, task: TaskId)
    requires Invariant(r) && Accounted(r) && pid !in r.pending
    ensures CanBreak(StopStarted(r, pid, task)) <==>
            task !in r.saved && (task in r.created ==> r.created[task] != "")
  {
    if StopInOrder(r, task) {
      EventKeepsInvariant(r, Stop(pid, task));
      forall events, end | Reaches(StopStarted(r, pid, task), events, end) ensures SetsInHash(end) {
        RunKeepsInvariant(StopStarted(r, pid, task), events, end);
      }
    } else if task in r.created {
      var saver := SaverOf(r, task);
      var events, end := SavedThenCleaned(StopStarted(r, pid, task), saver, pid, task, r.created[task]);
    } else {
      var stopped := StopStarted(r, pid, task);
      var saver := UnusedNumber(stopped.pending.Keys);
      var created := After(stopped, Create(saver, task, "item"));
      var events, end := SavedThenCleaned(created, saver, pid, task, "item");
      ReachesBefore(stopped, Create(saver, task, "item"), events, end);
    }
  }

  // The save, then a cleanup that does not know the item.
  lemma SavedThenCleaned(r: Redis, saver: nat, cleaner: nat, task: TaskId, item: ItemId)
    returns (events: seq<Event>, end: Redis)
    requires saver in r.pending && r.pending[saver] == Saving(task, item) && item != ""
    requires cleaner in r.pending && r.pending[cleaner] == Cleaning(task, "")
    ensures Reaches(r, events, end) && !SetsInHash(end)
  {
    var saved := After(r, Step(saver));
    end := After(saved, Step(cleaner));
    assert Reaches(end, [], end);
    ReachesBefore(saved, Step(cleaner), [], end);
    events := [Step(saver)] + [Step(cleaner)];
    ReachesBefore(r, Step(saver), [Step(cleaner)], end);
    assert item in end.sets && task in end.sets[item];
  }

  // The cleanup of a task that finishes at once can overtake its save: the task
  // stays registered for good.
  lemma CleanupOvertakes(task: TaskId, item: ItemId) returns (end: Redis)
    requires item != ""
    ensures Reaches(EMPTY, [Create(0, task, item), Finish(1, task), Step(1), Step(1), Step(1), Step(0)], end)
    ensures end.pending == map[] && task in end.hash && task in Members(end, item)
  {
    var s1 := After(EMPTY, Create(0, task, item));
    var s2 := After(s1, Finish(1, task));
    var s3 := After(s2, Step(1));
    var s4 := After(s3, Step(1));
    var s5 := After(s4, Step(1));
    end := After(s5, Step(0));
    assert Reaches(end, [], end);
    ReachesBefore(s5, Step(0), [], end);
    ReachesBefore(s4, Step(1), [Step(0)], end);
    ReachesBefore(s3, Step(1), [Step(1), Step(0)], end);
    ReachesBefore(s2, Step(1), [Step(1), Step(1), Step(0)], end);
    ReachesBefore(s1, Finish(1, task), [Step(1), Step(1), Step(1), Step(0)], end);
    ReachesBefore(EMPTY, Create(0, task, item), [Finish(1, task), Step(1), Step(1), Step(1), Step(0)], end);
  }

  // ---- the converse and the gap ----------------------------------------------

  // Every registered task with an item is listed for it.
  ghost predicate HashInSets(r: Redis) {
    forall t :: t in r.hash && r.hash[t] != "" ==> t in Members(r, r.hash[t])
  }

  // A delete that falls on a set refilled since the scard is the only step that
  // can lose a listed task: every other step keeps the converse, and a delete
  // keeps it if and only if the set is empty when it executes.
  lemma ConverseKept(r: Redis, e: Event)
    requires Invariant(r) && HashInSets(r) && Enabled(r, e)
    requires !(e.Step? && r.pending[e.pid].Deleting?)
    ensures HashInSets(After(r, e))
  {
  }

  lemma DeleteKeepsConverseIff(r: Redis, pid: nat)
    requires Invariant(r) && HashInSets(r) && pid in r.pending && r.pending[pid].Deleting?
    ensures HashInSets(Resume(r, pid)) <==> Members(r, r.pending[pid].item) == {}
  {
  }

  // Every delete of the run falls on an empty set.
  ghost predicate DeletesEmpty(r: Redis, events: seq<Event>, end: Redis)
    decreases |events|
  {
    if events == [] then r == end
    else
      Enabled(r, events[0]) &&
      (events[0].Step? && r.pending[events[0].pid].Deleting? ==> Members(r, r.pending[events[0].pid].item) == {}) &&
      DeletesEmpty(After(r, events[0]), events[1..], end)
  }

  lemma {:induction false} RunKeepsConverse(r: Redis, events: seq<Event>, end: Redis)
    requires Invariant(r) && HashInSets(r) && DeletesEmpty(r, events, end)
    ensures HashInSets(end)
    decreases |events|
  {
    if events == [] {
    } else {
      var e := events[0];
      EventKeepsInvariant(r, e);
      if e.Step? && r.pending[e.pid].Deleting? {
        DeleteKeepsConverseIff(r, e.pid);
      } else {
        ConverseKept(r, e);
      }
      RunKeepsConverse(After(r, e), events[1..], end);
    }
  }

  // In every run whose deletes fall on empty sets each registered task is listed.
  lemma RegisteredIsListed(events: seq<Event>, end: Redis, task: TaskId)
    requires DeletesEmpty(EMPTY, events, end) && task in end.hash && end.hash[task] != ""
    ensures task in Members(end, end.hash[task])
  {
    RunKeepsConverse(EMPTY, events, end);
  }

  // The registry after the events from an empty one, if each was enabled.
  ghost function Replay(events: seq<Event>): Option<Redis> {
    if events == [] then Some(EMPTY)
    else
      var before, e := Replay(events[..|events| - 1]), events[|events| - 1];
      if before.Some? && Enabled(before.value, e) then Some(After(before.value, e)) else None
  }

  // The i-th event is a step of a coroutine that was about to do `p`.
  ghost predicate Does(events: seq<Event>, i: nat, pid: nat, p: Pending) {
    i < |events| && events[i] == Step(pid) &&
    Replay(events[..i]).Some? && pid in Replay(events[..i]).value.pending &&
    Replay(events[..i]).value.pending[pid] == p
  }

  ghost predicate CountsEmpty(events: seq<Event>, i: nat, pid: nat, item: ItemId) {
    Does(events, i, pid, Counting(item)) && Members(Replay(events[..i]).value, item) == {}
  }

  ghost predicate Saves(events: seq<Event>, j: nat, task: TaskId, item: ItemId) {
    exists q :: Does(events, j, q, Saving(task, item))
  }

  lemma Earlier(events: seq<Event>, i: nat, pid: nat, p: Pending)
    requires events != [] && Does(events[..|events| - 1], i, pid, p)
    ensures Does(events, i, pid, p)
    ensures events[..|events| - 1][..i] == events[..i]
  {
    assert events[..|events| - 1][..i] == events[..i];
  }

  // A pending delete has counted an empty set, and whatever is in the set now was
  // saved after that.
  lemma {:induction false} DeletingCounted(events: seq<Event>, pid: nat, item: ItemId) returns (i: nat)
    requires Replay(events).Some? && pid in Replay(events).value.pending
    requires Replay(events).value.pending[pid] == Deleting(item)
    ensures CountsEmpty(events, i, pid, item)
    ensures forall t :: t in Members(Replay(events).value, item) ==> exists j :: i < j && Saves(events, j, t, item)
  {
    var n := |events| - 1;
    var init, e := events[..n], events[n];
    var before, r := Replay(init).value, Replay(events).value;
    if pid in before.pending && before.pending[pid] == Deleting(item) {
      i := DeletingCounted(init, pid, item);
      Earlier(events, i, pid, Counting(item));
      forall t | t in Members(r, item) ensures exists j :: i < j && Saves(events, j, t, item) {
        if t in Members(before, item) {
          var j :| i < j && Saves(init, j, t, item);
          var q :| Does(init, j, q, Saving(t, item));
          Earlier(events, j, q, Saving(t, item));
          assert Saves(events, j, t, item);
        } else {
          assert Does(events, n, e.pid, Saving(t, item));
          assert Saves(events, n, t, item);
        }
      }
    } else {
      i := n;
      assert events[..n] == init;
    }
  }

  // A task that stays registered loses its listing only to the delete of a
  // cleanup that counted an empty set before the task was saved.
  lemma LossOnlyInGap(events: seq<Event>, e: Event, task: TaskId) returns (i: nat, j: nat)
    requires Replay(events).Some? && Enabled(Replay(events).value, e)
    requires var r := Replay(events).value; task in r.hash && task in Members(r, r.hash[task])
    requires var r, after := Replay(events).value, After(Replay(events).value, e);
             task in after.hash && task !in Members(after, r.hash[task])
    ensures var r := Replay(events).value;
            && e.Step? && r.pending[e.pid] == Deleting(r.hash[task])
            && CountsEmpty(events, i, e.pid, r.hash[task]) && i < j && Saves(events, j, task, r.hash[task])
  {
    var r := Replay(events).value;
    i := DeletingCounted(events, e.pid, r.hash[task]);
    j :| i < j && Saves(events, j, task, r.hash[task]);
  }

  // The cleanup of `a` has emptied the set and is about to count it.
  function Emptied(a: TaskId, item: ItemId): Redis {
    Redis(map[], map[item := {}], map[1 := Counting(item)], map[a := item], {a}, {a})
  }

  function EmptyingRun(a: TaskId, item: ItemId): seq<Event> {
    [Create(0, a, item), Step(0), Finish(1, a), Step(1)]
  }

  function RefillingRun(b: TaskId, item: ItemId): seq<Event> {
    [Step(1), Create(2, b, item), Step(2), Step(1)]
  }

  lemma ReachesEmptied(a: TaskId, item: ItemId)
    requires item != ""
    ensures Reaches(EMPTY, EmptyingRun(a, item), Emptied(a, item))
  {
    var s1 := After(EMPTY, Create(0, a, item));
    assert s1.pending - {0} == map[] && Members(s1, item) + {a} == {a};
    var s2 := After(s1, Step(0));
    assert s2 == Redis(map[a := item], map[item := {a}], map[], map[a := item], {a}, {});
    var s3 := After(s2, Finish(1, a));
    assert Members(s3, item) - {a} == {};
    var s4 := After(s3, Step(1));
    assert s4 == Emptied(a, item);
    assert Reaches(s4, [], s4);
    ReachesBefore(s3, Step(1), [], s4);
    ReachesBefore(s2, Finish(1, a), [Step(1)], s4);
    ReachesBefore(s1, Step(0), [Finish(1, a), Step(1)], s4);
    ReachesBefore(EMPTY, Create(0, a, item), [Step(0), Finish(1, a), Step(1)], s4);
  }

  // `b` registers between the count and the delete.
  lemma ReachesLost(a: TaskId, b: TaskId, item: ItemId) returns (end: Redis)
    requires a != b && item != ""
    ensures Reaches(Emptied(a, item), RefillingRun(b, item), end)
    ensures b in end.hash && end.hash[b] == item && Members(end, item) == {}
  {
    var s4 := Emptied(a, item);
    var s5 := After(s4, Step(1));
    var s6 := After(s5, Create(2, b, item));
    var s7 := After(s6, Step(2));
    assert s7.pending == map[1 := Deleting(item)];
    end := After(s7, Step(1));
    assert Reaches(end, [], end);
    ReachesBefore(s7, Step(1), [], end);
    ReachesBefore(s6, Step(2), [Step(1)], end);
    ReachesBefore(s5, Create(2, b, item), [Step(2), Step(1)], end);
    ReachesBefore(s4, Step(1), [Create(2, b, item), Step(2), Step(1)], end);
  }

  // The gap is reachable: the cleanup of `a` counts an empty set, `b` registers,
  // and the delete removes the set; `b` runs on, unlisted.
  lemma GapLosesTask(a: TaskId, b: TaskId, item: ItemId)
    requires a != b && item != ""
    ensures exists end :: Reaches(EMPTY, EmptyingRun(a, item) + RefillingRun(b, item), end) &&
                          b in end.hash && end.hash[b] == item && Members(end, item) == {}
  {
    ReachesEmptied(a, item);
    var end := ReachesLost(a, b, item);
    ReachesThen(EMPTY, EmptyingRun(a, item), Emptied(a, item), RefillingRun(b, item), end);
  }

  lemma ReachesBefore(r: Redis, e: Event, events: seq<Event>, end: Redis)
    requires Enabled(r, e) && Reaches(After(r, e), events, end)
    ensures Reaches(r, [e] + events, end)
  {
  }

  lemma {:induction false} ReachesThen(r: Redis, first: seq<Event>, mid: Redis, second: seq<Event>, end: Redis)
    requires Reaches(r, first, mid) && Reaches(mid, second, end)
    ensures Reaches(r, first + second, end)
    decreases |first|
  {
    if first == [] {
      assert first + second == second;
    } else {
      ReachesThen(After(r, first[0]), first[1..], mid, second, end);
      assert (first + second)[1..] == first[1..] + second;
    }
  }
}
