/**
 Counting tasks by id or by serial, wherever the scheduler keeps them, and what moving a task from one
 place to another does to the counts.
 */
module TaskCounts {
  import opened JsCollections
  import opened Dispatch
  import opened Scheduler

  type Active = JsMap<Id, Task>

  /** What a task is counted by: its id or its serial. Scheduling changes neither. */
  datatype Label = ById(id: Id) | BySerial(serial: nat)

  predicate Is(t: Task, x: Label) {
    match x
    case ById(id) => t.id == id
    case BySerial(n) => t.serial == n
  }

  function One(t: Task, x: Label): nat { if Is(t, x) then 1 else 0 }

  function Count(tasks: seq<Task>, x: Label): nat {
    if tasks == [] then 0 else Count(tasks[..|tasks| - 1], x) + One(tasks[|tasks| - 1], x)
  }

  function Queued(queues: seq<seq<Task>>, x: Label): nat {
    if queues == [] then 0 else Queued(queues[..|queues| - 1], x) + Count(queues[|queues| - 1], x)
  }

  function Among(keys: seq<Id>, vals: map<Id, Task>, x: Label): nat
    requires forall k :: k in keys ==> k in vals
  {
    if keys == [] then 0 else One(vals[keys[0]], x) + Among(keys[1..], vals, x)
  }

  function Running(active: Active, x: Label): nat { Among(active.keys, active.vals, x) }

  // ---------- Lists ----------

  lemma {:induction false} CountConcat(a: seq<Task>, b: seq<Task>, x: Label)
    ensures Count(a + b, x) == Count(a, x) + Count(b, x)
  {
    if b == [] {
      assert a + b == a;
    } else {
      assert (a + b)[..|a + b| - 1] == a + b[..|b| - 1];
      CountConcat(a, b[..|b| - 1], x);
    }
  }

  lemma CountSingle(t: Task, x: Label)
    ensures Count([t], x) == One(t, x)
  {
    assert [t][..0] == [];
  }

  lemma CountRemoveAt(tasks: seq<Task>, i: nat, x: Label)
    requires i < |tasks|
    ensures Count(tasks, x) == Count(RemoveAt(tasks, i), x) + One(tasks[i], x)
  {
    assert tasks == tasks[..i] + ([tasks[i]] + tasks[i + 1..]);
    CountConcat(tasks[..i], [tasks[i]] + tasks[i + 1..], x);
    CountConcat([tasks[i]], tasks[i + 1..], x);
    CountConcat(tasks[..i], tasks[i + 1..], x);
    CountSingle(tasks[i], x);
  }

  lemma {:induction false} CountHas(tasks: seq<Task>, i: nat, x: Label)
    requires i < |tasks| && Is(tasks[i], x)
    ensures Count(tasks, x) > 0
  {
    if i < |tasks| - 1 {
      CountHas(tasks[..|tasks| - 1], i, x);
    }
  }

  lemma {:induction false} CountFinds(tasks: seq<Task>, x: Label) returns (i: nat)
    requires Count(tasks, x) > 0
    ensures i < |tasks| && Is(tasks[i], x)
  {
    if Is(tasks[|tasks| - 1], x) {
      i := |tasks| - 1;
    } else {
      i := CountFinds(tasks[..|tasks| - 1], x);
    }
  }

  // ---------- Queues ----------

  lemma {:induction false} QueuedUpdate(queues: seq<seq<Task>>, p: nat, q: seq<Task>, x: Label)
    requires p < |queues|
    ensures Queued(queues[p := q], x) + Count(queues[p], x) == Queued(queues, x) + Count(q, x)
  {
    var n := |queues| - 1;
    if p < n {
      assert queues[p := q][..n] == queues[..n][p := q];
      QueuedUpdate(queues[..n], p, q, x);
    } else {
      assert queues[p := q][..n] == queues[..n];
    }
  }

  lemma {:induction false} TotalUpdate(queues: seq<seq<Task>>, p: nat, q: seq<Task>)
    requires p < |queues|
    ensures Total(queues[p := q]) + |queues[p]| == Total(queues) + |q|
  {
    var n := |queues| - 1;
    if p < n {
      assert queues[p := q][..n] == queues[..n][p := q];
      TotalUpdate(queues[..n], p, q);
    } else {
      assert queues[p := q][..n] == queues[..n];
    }
  }

  lemma {:induction false} QueuedHas(queues: seq<seq<Task>>, p: nat, i: nat, x: Label)
    requires p < |queues| && i < |queues[p]| && Is(queues[p][i], x)
    ensures Queued(queues, x) > 0
  {
    var n := |queues| - 1;
    if p < n {
      assert queues[..n][p] == queues[p];
      QueuedHas(queues[..n], p, i, x);
    } else {
      CountHas(queues[n], i, x);
    }
  }

  lemma {:induction false} QueuedFinds(queues: seq<seq<Task>>, x: Label) returns (p: nat, i: nat)
    requires Queued(queues, x) > 0
    ensures p < |queues| && i < |queues[p]| && Is(queues[p][i], x)
  {
    var n := |queues| - 1;
    if Count(queues[n], x) > 0 {
      p := n;
      i := CountFinds(queues[n], x);
    } else {
      p, i := QueuedFinds(queues[..n], x);
    }
  }

  // ---------- Active tasks ----------

  lemma {:induction false} AmongSame(keys: seq<Id>, a: map<Id, Task>, b: map<Id, Task>, x: Label)
    requires forall k :: k in keys ==> k in a && k in b && One(a[k], x) == One(b[k], x)
    ensures Among(keys, a, x) == Among(keys, b, x)
  {
    if keys != [] {
      AmongSame(keys[1..], a, b, x);
    }
  }

  lemma {:induction false} AmongSnoc(keys: seq<Id>, vals: map<Id, Task>, k: Id, x: Label)
    requires k in vals && forall k' :: k' in keys ==> k' in vals
    ensures Among(keys + [k], vals, x) == Among(keys, vals, x) + One(vals[k], x)
  {
    if keys == [] {
      assert keys + [k] == [k] && [k][1..] == [];
    } else {
      assert (keys + [k])[1..] == keys[1..] + [k];
      AmongSnoc(keys[1..], vals, k, x);
    }
  }

  lemma TailNoDup<T>(s: seq<T>)
    requires NoDup(s) && s != []
    ensures NoDup(s[1..]) && s[0] !in s[1..]
  {
    var rest := s[1..];
    forall i, j | 0 <= i < j < |rest| ensures rest[i] != rest[j] {
      assert rest[i] == s[i + 1] && rest[j] == s[j + 1];
    }
    forall i | 0 <= i < |rest| ensures rest[i] != s[0] {
      assert rest[i] == s[i + 1];
    }
  }

  lemma {:induction false} AmongWithout(keys: seq<Id>, vals: map<Id, Task>, k: Id, x: Label)
    requires NoDup(keys) && k in keys && forall k' :: k' in keys ==> k' in vals
    ensures (forall k' :: k' in Without(keys, k) ==> k' in vals)
    ensures Among(keys, vals, x) == Among(Without(keys, k), vals, x) + One(vals[k], x)
  {
    var rest := keys[1..];
    WithoutMembers(keys, k);
    TailNoDup(keys);
    assert keys == [keys[0]] + rest;
    if keys[0] == k {
      WithoutAbsent(rest, k);
    } else {
      AmongWithout(rest, vals, k, x);
      assert ([keys[0]] + Without(rest, k))[1..] == Without(rest, k);
    }
  }

  lemma RunningNew(active: Active, k: Id, t: Task, x: Label)
    requires k !in active.vals
    ensures Running(active.Set(k, t), x) == Running(active, x) + One(t, x)
  {
    AmongSame(active.keys, active.vals, active.vals[k := t], x);
    AmongSnoc(active.keys, active.vals[k := t], k, x);
  }

  lemma RunningChanged(active: Active, k: Id, t: Task, x: Label)
    requires k in active.vals && t.id == active.vals[k].id && t.serial == active.vals[k].serial
    ensures Running(active.Set(k, t), x) == Running(active, x)
  {
    AmongSame(active.keys, active.vals, active.vals[k := t], x);
  }

  lemma RunningDelete(active: Active, k: Id, x: Label)
    requires k in active.vals
    ensures Running(active, x) == Running(active.Delete(k), x) + One(active.vals[k], x)
  {
    AmongWithout(active.keys, active.vals, k, x);
    WithoutMembers(active.keys, k);
    AmongSame(Without(active.keys, k), active.vals, active.Delete(k).vals, x);
  }

  lemma {:induction false} AmongIds(keys: seq<Id>, vals: map<Id, Task>, id: Id)
    requires NoDup(keys) && forall k :: k in keys ==> k in vals && vals[k].id == k
    ensures Among(keys, vals, ById(id)) == if id in keys then 1 else 0
  {
    if keys != [] {
      TailNoDup(keys);
      AmongIds(keys[1..], vals, id);
      assert keys == [keys[0]] + keys[1..];
    }
  }

  // ---------- A pass ----------

  lemma TasksOfLast(taken: seq<Assignment>)
    requires taken != []
    ensures TasksOf(taken) == TasksOf(taken[..|taken| - 1]) + [taken[|taken| - 1].task]
  {
  }

  lemma TasksOfConcat(a: seq<Assignment>, b: seq<Assignment>)
    ensures TasksOf(a + b) == TasksOf(a) + TasksOf(b)
  {
  }

  /** The tasks of a pass whose ids are all different and not active yet. */
  ghost predicate FreshIds(active: Active, taken: seq<Assignment>) {
    && (forall i :: 0 <= i < |taken| ==> taken[i].task.id !in active.vals)
    && (forall i, j :: 0 <= i < j < |taken| ==> taken[i].task.id != taken[j].task.id)
  }

  lemma {:induction false} ScheduledKeys(active: Active, taken: seq<Assignment>, id: Id)
    ensures id in ScheduleAll(active, taken).vals <==>
      id in active.vals || exists i :: 0 <= i < |taken| && taken[i].task.id == id
  {
    if taken != [] {
      var init, last := taken[..|taken| - 1], taken[|taken| - 1];
      ScheduledKeys(active, init, id);
      assert (exists i :: 0 <= i < |taken| && taken[i].task.id == id) <==>
        (last.task.id == id || exists i :: 0 <= i < |init| && init[i].task.id == id) by {
        if i :| 0 <= i < |taken| && taken[i].task.id == id {
          assert i < |init| ==> init[i] == taken[i];
        }
        if i :| 0 <= i < |init| && init[i].task.id == id {
          assert taken[i].task.id == id;
        }
      }
    }
  }

  lemma {:induction false} ScheduledCount(active: Active, taken: seq<Assignment>, x: Label)
    requires FreshIds(active, taken)
    ensures Running(ScheduleAll(active, taken), x) == Running(active, x) + Count(TasksOf(taken), x)
    ensures ScheduleAll(active, taken).Size() == active.Size() + |taken|
  {
    if taken != [] {
      var init, last := taken[..|taken| - 1], taken[|taken| - 1];
      ScheduledCount(active, init, x);
      ScheduledKeys(active, init, last.task.id);
      TasksOfLast(taken);
      CountConcat(TasksOf(init), [last.task], x);
      CountSingle(last.task, x);
      RunningNew(ScheduleAll(active, init), last.task.id, Placed(last), x);
    }
  }

  /** What a pass takes comes out of the queues. */
  lemma {:induction false} RoundCount(queues: seq<seq<Task>>, n: nat, available: seq<Agent>, rr: nat, x: Label)
    requires n <= |queues| && DistinctIds(available)
    ensures var r := WorkQueues(queues, n, available, rr);
      && Queued(queues, x) == Count(TasksOf(Flatten(r.taken)), x) + Queued(r.queues, x)
      && Total(queues) == |Flatten(r.taken)| + Total(r.queues)
  {
    if n > 0 {
      RoundCount(queues, n - 1, available, rr, x);
      PassIsSound(queues, n - 1, available, rr);
      var r := WorkQueues(queues, n - 1, available, rr);
      QueueIsWorked(r.queues[n - 1], r.available, r.rr);
      TurnCount(r, n - 1, WorkQueue(r.queues[n - 1], r.available, r.rr), x);
    }
  }

  lemma TurnCount(r: Round, n: nat, p: Pass, x: Label)
    requires n < |r.queues| && |r.taken| == n && r.queues[n] == TasksOf(p.taken) + p.left
    ensures Queued(r.queues[n := p.left], x) + Count(TasksOf(Flatten(r.taken + [p.taken])), x)
      == Queued(r.queues, x) + Count(TasksOf(Flatten(r.taken)), x)
    ensures Total(r.queues[n := p.left]) + |Flatten(r.taken + [p.taken])| == Total(r.queues) + |Flatten(r.taken)|
  {
    QueuedUpdate(r.queues, n, p.left, x);
    TotalUpdate(r.queues, n, p.left);
    CountConcat(TasksOf(p.taken), p.left, x);
    assert (r.taken + [p.taken])[..n] == r.taken;
    TasksOfConcat(Flatten(r.taken), p.taken);
    CountConcat(TasksOf(Flatten(r.taken)), TasksOf(p.taken), x);
  }
}
