/**
 * kernel/sched/core.c on any number of CPUs: run queues, migration, pulling
 * and switching, with the clients that block, wake, create and end tasks.
 *
 * A section under a run-queue lock is one step. TryPull and Switch put several
 * such sections into one step: the kernel drops the locks between finding the
 * busiest CPU, picking a task and migrating it, and between the choice of the
 * next task and set_current. PullAmid lets other CPUs run between the sections
 * of a pull; that schedule is one step remains an assumption of the model.
 */
module Scheduler {
  import opened Basics

  datatype Task = Idle(home: nat) | Proc(pid: nat)

  datatype TaskState = Running | Sleeping | Stopped | Zombie

  // ---------- run lists ----------

  /** Everything on this run list is a runnable task of this CPU, once. */
  ghost predicate QueueOk(q: seq<Task>, c: nat, cpu: map<Task, nat>, state: map<Task, TaskState>) {
    && NoRepeats(q)
    && forall t {:trigger In(t, q)} :: In(t, q) ==>
         t.Proc? && t in cpu && cpu[t] == c && t in state && state[t] == Running
  }

  ghost predicate CurrOk(t: Task, c: nat, cpu: map<Task, nat>) {
    t == Idle(c) || (t.Proc? && t in cpu && cpu[t] == c)
  }

  /** What the lists, counters and tasks of n CPUs have to do with each other. */
  ghost predicate Coherent(n: nat, queue: seq<seq<Task>>, nr: seq<nat>, curr: seq<Task>, cpu: map<Task, nat>,
                           state: map<Task, TaskState>, linked: set<Task>)
  {
    && n > 0 && |queue| == n && |nr| == n && |curr| == n && cpu.Keys == state.Keys
    && (forall t :: t in cpu ==> t.Proc?)
    && (forall c :: 0 <= c < n ==> QueueOk(queue[c], c, cpu, state))
    && (forall c :: 0 <= c < n ==> nr[c] == |queue[c]|)
    && (forall c :: 0 <= c < n ==> CurrOk(curr[c], c, cpu))
    && (forall t :: t in linked ==> t in cpu && cpu[t] < n && In(t, queue[cpu[t]]))
    && (forall c, t {:trigger In(t, queue[c])} :: 0 <= c < n && In(t, queue[c]) ==> t in linked)
  }

  /** Queued, and not what its CPU is executing. */
  ghost predicate Movable(linked: set<Task>, curr: seq<Task>, cpu: map<Task, nat>, t: Task) {
    t in linked && t in cpu && cpu[t] < |curr| && curr[cpu[t]] != t
  }

  lemma MoveQueue(n: nat, queue: seq<seq<Task>>, cpu: map<Task, nat>, state: map<Task, TaskState>, t: Task, to: nat,
                  c: nat)
    requires |queue| == n && t in cpu && cpu[t] < n && to < n && to != cpu[t] && c < n
    requires QueueOk(queue[c], c, cpu, state) && In(t, queue[cpu[t]])
    requires t.Proc? && t in state && state[t] == Running
    ensures QueueOk(queue[cpu[t] := Without(queue[cpu[t]], t)][to := queue[to] + [t]][c], c, cpu[t := to], state)
  {
    if c == cpu[t] {
      WithoutFacts(queue[c], t);
    } else if c == to {
      AppendFacts(queue[c], t);
    }
  }

  /** A movable task may change lists: it is current nowhere else. */
  lemma MoveOk(n: nat, queue: seq<seq<Task>>, nr: seq<nat>, curr: seq<Task>, cpu: map<Task, nat>,
               state: map<Task, TaskState>, linked: set<Task>, t: Task, to: nat)
    requires Coherent(n, queue, nr, curr, cpu, state, linked)
    requires Movable(linked, curr, cpu, t) && to < n && to != cpu[t]
    ensures nr[cpu[t]] > 0
    ensures Coherent(n, queue[cpu[t] := Without(queue[cpu[t]], t)][to := queue[to] + [t]],
                     nr[cpu[t] := nr[cpu[t]] - 1][to := nr[to] + 1], curr, cpu[t := to], state, linked)
  {
    var from := cpu[t];
    assert QueueOk(queue[from], from, cpu, state) && QueueOk(queue[to], to, cpu, state);
    WithoutFacts(queue[from], t);
    AppendFacts(queue[to], t);
    var q, p := queue[from := Without(queue[from], t)][to := queue[to] + [t]], cpu[t := to];
    forall c | 0 <= c < n ensures QueueOk(q[c], c, p, state) {
      MoveQueue(n, queue, cpu, state, t, to, c);
    }
    forall c | 0 <= c < n ensures CurrOk(curr[c], c, p) {
      assert CurrOk(curr[c], c, cpu);
    }
  }

  /** The state of a task that is on no list is nobody else's concern. */
  lemma RestateOk(n: nat, queue: seq<seq<Task>>, nr: seq<nat>, curr: seq<Task>, cpu: map<Task, nat>,
                  state: map<Task, TaskState>, linked: set<Task>, t: Task, st: TaskState)
    requires Coherent(n, queue, nr, curr, cpu, state, linked) && t in state && t !in linked
    ensures Coherent(n, queue, nr, curr, cpu, state[t := st], linked)
  {
    forall c | 0 <= c < n ensures QueueOk(queue[c], c, cpu, state[t := st]) {
      assert QueueOk(queue[c], c, cpu, state);
      assert !In(t, queue[c]);
    }
  }

  /** A task is on at most one run list, the one its cpu field names. */
  lemma OnOneQueue(n: nat, queue: seq<seq<Task>>, nr: seq<nat>, curr: seq<Task>, cpu: map<Task, nat>,
                   state: map<Task, TaskState>, linked: set<Task>, c: nat, d: nat, i: nat, j: nat)
    requires Coherent(n, queue, nr, curr, cpu, state, linked)
    requires c < n && d < n && i < |queue[c]| && j < |queue[d]| && queue[c][i] == queue[d][j]
    ensures queue[c][i] in cpu && cpu[queue[c][i]] == c == d && i == j
  {
    assert QueueOk(queue[c], c, cpu, state) && QueueOk(queue[d], d, cpu, state);
    assert In(queue[c][i], queue[c]) && In(queue[d][j], queue[d]);
  }

  /** No task is current on two CPUs. */
  lemma RunsOnOneCpu(n: nat, queue: seq<seq<Task>>, nr: seq<nat>, curr: seq<Task>, cpu: map<Task, nat>,
                     state: map<Task, TaskState>, linked: set<Task>, c: nat, d: nat)
    requires Coherent(n, queue, nr, curr, cpu, state, linked) && c < n && d < n && c != d
    ensures curr[c] != curr[d]
  {
    assert CurrOk(curr[c], c, cpu) && CurrOk(curr[d], d, cpu);
  }

  /** Only runnable tasks are queued, so no zombie is. */
  lemma QueuedRuns(n: nat, queue: seq<seq<Task>>, nr: seq<nat>, curr: seq<Task>, cpu: map<Task, nat>,
                   state: map<Task, TaskState>, linked: set<Task>, t: Task)
    requires Coherent(n, queue, nr, curr, cpu, state, linked) && t in linked
    ensures t in state && state[t] == Running
  {
    assert QueueOk(queue[cpu[t]], cpu[t], cpu, state) && In(t, queue[cpu[t]]);
  }

  /** Putting a task that is on no list last on the list of CPU c. */
  lemma EnqueuedOk(n: nat, queue: seq<seq<Task>>, nr: seq<nat>, curr: seq<Task>, cpu: map<Task, nat>,
                   state: map<Task, TaskState>, linked: set<Task>, t: Task, c: nat)
    requires Coherent(n, queue, nr, curr, cpu, state, linked) && t in state && t !in linked && c < n
    ensures Coherent(n, queue[c := queue[c] + [t]], nr[c := nr[c] + 1], curr, cpu[t := c], state[t := Running],
                     linked + {t})
            <==> forall d :: 0 <= d < n && curr[d] == t ==> d == c
  {
    var queue', cpu', state' := queue[c := queue[c] + [t]], cpu[t := c], state[t := Running];
    AppendFacts(queue[c], t);
    forall d | 0 <= d < n ensures QueueOk(queue'[d], d, cpu', state') {
      assert QueueOk(queue[d], d, cpu, state);
      assert !In(t, queue[d]);
    }
    forall d | 0 <= d < n ensures CurrOk(curr[d], d, cpu') <==> curr[d] != t || d == c {
      assert CurrOk(curr[d], d, cpu);
    }
  }

  // ---------- loads ----------

  function Sum(s: seq<nat>): nat {
    if s == [] then 0 else s[0] + Sum(s[1..])
  }

  function Squares(s: seq<nat>): nat {
    if s == [] then 0 else s[0] * s[0] + Squares(s[1..])
  }

  lemma {:induction false} LoadUpdate(s: seq<nat>, i: nat, v: nat)
    requires i < |s|
    ensures Sum(s[i := v]) == Sum(s) - s[i] + v
    ensures Squares(s[i := v]) == Squares(s) - s[i] * s[i] + v * v
  {
    if i == 0 {
      assert s[i := v][1..] == s[1..];
    } else {
      assert s[i := v][1..] == s[1..][i - 1 := v];
      LoadUpdate(s[1..], i - 1, v);
    }
  }

  lemma SquareSteps(x: int, y: int)
    ensures (x - 1) * (x - 1) + 2 * x == x * x + 1
    ensures (y + 1) * (y + 1) == y * y + 2 * y + 1
  {
  }

  /** Moving one task from CPU a to CPU b keeps the total and changes the sum of squares by -2(s[a] - s[b] - 1). */
  lemma MovedLoad(s: seq<nat>, a: nat, b: nat)
    requires a < |s| && b < |s| && a != b && s[a] > 0
    ensures Sum(s[a := s[a] - 1][b := s[b] + 1]) == Sum(s)
    ensures Squares(s[a := s[a] - 1][b := s[b] + 1]) + 2 * s[a] == Squares(s) + 2 * s[b] + 2
  {
    var x: nat, y: nat := s[a] - 1, s[b] + 1;
    LoadUpdate(s, a, x);
    var u := s[a := x];
    LoadUpdate(u, b, y);
    SquareSteps(s[a], s[b]);
    assert u[b] == s[b];
  }

  // ---------- round robin ----------

  function IndexIn(q: seq<Task>, t: Task): (i: nat)
    requires t in q
    ensures i < |q| && q[i] == t
  {
    if q[0] == t then 0 else 1 + IndexIn(q[1..], t)
  }

  /** pick_next_task on a non-empty list: the successor of prev, or the first task when prev is not on it. */
  function NextOf(q: seq<Task>, prev: Task): Task
    requires q != []
  {
    if prev !in q || IndexIn(q, prev) + 1 == |q| then q[0] else q[IndexIn(q, prev) + 1]
  }

  /** The current task after k switches with nothing else happening. */
  function After(q: seq<Task>, t: Task, k: nat): Task
    requires q != []
  {
    if k == 0 then t else NextOf(q, After(q, t, k - 1))
  }

  lemma {:induction false} RoundRobin(q: seq<Task>, i: nat, k: nat)
    requires NoRepeats(q) && i < |q| && k <= |q|
    ensures After(q, q[i], k) == q[if i + k < |q| then i + k else i + k - |q|]
  {
    if k > 0 {
      RoundRobin(q, i, k - 1);
      var j := if i + k - 1 < |q| then i + k - 1 else i + k - 1 - |q|;
      assert IndexIn(q, q[j]) == j;
    }
  }

  /** Every task of the list is current within |q| switches, and after |q| switches the first one is again. */
  lemma Fair(q: seq<Task>, i: nat, j: nat)
    requires NoRepeats(q) && i < |q| && j < |q|
    ensures After(q, q[i], |q|) == q[i]
    ensures exists k :: 0 <= k < |q| && After(q, q[i], k) == q[j]
  {
    RoundRobin(q, i, |q|);
    RoundRobin(q, i, if j >= i then j - i else j + |q| - i);
  }

  lemma NextIn(q: seq<Task>, t: Task)
    requires q != []
    ensures NextOf(q, t) in q
  {
  }

  /** From any task, on the list or not, every task of the list is at most |q| switches away. */
  lemma Reached(q: seq<Task>, first: Task, t: Task) returns (m: nat)
    requires NoRepeats(q) && t in q
    ensures m <= |q| && After(q, first, m) == t
  {
    var j := IndexIn(q, t);
    if first in q {
      var i := IndexIn(q, first);
      Fair(q, i, j);
      m :| 0 <= m < |q| && After(q, q[i], m) == q[j];
    } else {
      RoundRobin(q, 0, j);
      assert NextOf(q, first) == q[0];
      Shift(q, first, j);
      m := j + 1;
    }
  }

  lemma {:induction false} Shift(q: seq<Task>, t: Task, k: nat)
    requires q != []
    ensures After(q, t, k + 1) == After(q, NextOf(q, t), k)
  {
    if k > 0 {
      Shift(q, t, k - 1);
    }
  }

  datatype Step =
    | Create(pid: nat, garbage: nat)
    | Fork(c: nat, pid: nat, garbage: nat)
    | Wake(c: nat, pid: nat)
    | Block(c: nat, into: TaskState)
    | Resume(c: nat)
    | Exit(c: nat)
    | Migrate(pid: nat, to: nat)
    | Schedule(c: nat)

  // ---------- what each step does ----------

  /** Everything but the counters, which are the lengths of the lists. */
  datatype View = View(queue: seq<seq<Task>>, curr: seq<Task>, cpu: map<Task, nat>, state: map<Task, TaskState>,
                       linked: set<Task>)

  /** t runnable and last on the list of its CPU, or of CPU self when its field is out of range. */
  ghost function Queued(v: View, t: Task, self: nat): View {
    if t in v.linked || t !in v.cpu then v
    else
      var c := if v.cpu[t] < |v.queue| then v.cpu[t] else self;
      if c >= |v.queue| then v
      else
        View(v.queue[c := v.queue[c] + [t]], v.curr, v.cpu[t := c], v.state[t := Running], v.linked + {t})
  }

  /** t in another state and on no list. */
  ghost function Unqueued(v: View, t: Task, into: TaskState): View {
    var q := if t in v.linked && t in v.cpu && v.cpu[t] < |v.queue|
             then v.queue[v.cpu[t] := Without(v.queue[v.cpu[t]], t)] else v.queue;
    View(q, v.curr, v.cpu, v.state[t := into], v.linked - {t})
  }

  /** t at the end of another list. */
  ghost function Migrated(v: View, t: Task, to: nat): View
    requires t in v.cpu && v.cpu[t] < |v.queue| && to < |v.queue|
  {
    v.(queue := v.queue[v.cpu[t] := Without(v.queue[v.cpu[t]], t)][to := v.queue[to] + [t]], cpu := v.cpu[t := to])
  }

  ghost predicate MayMigrate(v: View, t: Task, to: nat) {
    to < |v.queue| && t in v.cpu && v.cpu[t] < |v.queue| && v.cpu[t] != to && Movable(v.linked, v.curr, v.cpu, t)
  }

  /** pick_next_task and the switch on CPU c. */
  ghost predicate Picks(stackless: set<Task>, a: View, c: nat, b: View) {
    && c < |a.queue| && c < |a.curr|
    && var next := if a.queue[c] == [] then Idle(c) else NextOf(a.queue[c], a.curr[c]);
       b == a.(curr := a.curr[c := if next.Proc? && next in stackless then a.curr[c] else next])
  }

  /** schedule on CPU c: an empty list first takes a task that is not current from a list with two. */
  ghost predicate Switches(stackless: set<Task>, a: View, c: nat, b: View) {
    && c < |a.queue|
    && if a.queue[c] == [] && exists d | 0 <= d < |a.queue| :: |a.queue[d]| > 1
       then exists t | MayMigrate(a, t, c) :: Picks(stackless, Migrated(a, t, c), c, b)
       else Picks(stackless, a, c, b)
  }

  /** CPU c executes a task that has not called do_exit. */
  predicate Executes(v: View, c: nat) {
    c < |v.curr| && v.curr[c] in v.state && v.state[v.curr[c]] != Zombie
  }

  /**
   * When a step can be taken. The wake-ups check that the task sleeps or is stopped
   * (kernel/sched/wait.c, kernel/exit.c, kernel/signal.c, kernel/time/tick.c), and a task
   * that has called do_exit executes nothing but schedule.
   */
  predicate Enabled(v: View, step: Step) {
    match step
    case Create(pid, _) => Proc(pid) !in v.state
    case Fork(c, pid, _) => Executes(v, c) && Proc(pid) !in v.state
    case Wake(c, pid) => c < |v.curr| && Proc(pid) in v.state && v.state[Proc(pid)] in {Sleeping, Stopped}
    case Block(c, into) => Executes(v, c) && into in {Sleeping, Stopped}
    case Resume(c) => Executes(v, c)
    case Exit(c) => Executes(v, c)
    case Migrate(pid, _) => Proc(pid) in v.state
    case Schedule(c) => c < |v.curr|
  }

  ghost predicate Next(stackless: set<Task>, a: View, step: Step, b: View) {
    if !Enabled(a, step) then b == a
    else
      match step
      case Create(pid, garbage) =>
        b == a.(cpu := a.cpu[Proc(pid) := garbage], state := a.state[Proc(pid) := Sleeping])
      case Fork(c, pid, garbage) =>
        var made := a.(cpu := a.cpu[Proc(pid) := garbage], state := a.state[Proc(pid) := Running]);
        b == Queued(made, Proc(pid), c)
      case Wake(c, pid) => b == Queued(a, Proc(pid), c)
      case Block(c, into) => b == Unqueued(a, a.curr[c], into)
      case Resume(c) => b == Queued(a, a.curr[c], c)
      case Exit(c) => b == Unqueued(a, a.curr[c], Zombie)
      case Migrate(pid, to) =>
        b == if MayMigrate(a, Proc(pid), to) then Migrated(a, Proc(pid), to) else a
      case Schedule(c) => Switches(stackless, a, c, b)
  }

  /** No step brings an ended task back. */
  lemma ZombieStays(stackless: set<Task>, a: View, step: Step)
    requires a.cpu.Keys == a.state.Keys
    ensures forall b | Next(stackless, a, step, b) ::
              a.state.Keys <= b.state.Keys && forall t | t in a.state && a.state[t] == Zombie :: b.state[t] == Zombie
  {
  }

  ghost predicate IsRun(stackless: set<Task>, views: seq<View>, steps: seq<Step>) {
    |views| == |steps| + 1 && forall i | 0 <= i < |steps| :: Next(stackless, views[i], steps[i], views[i + 1])
  }

  lemma Extend(stackless: set<Task>, views: seq<View>, steps: seq<Step>, step: Step, v: View)
    requires IsRun(stackless, views, steps) && Next(stackless, views[|steps|], step, v)
    ensures IsRun(stackless, views + [v], steps + [step])
  {
  }

  class Scheduler {
    const n: nat                        // NR_CPUS
    var queue: seq<seq<Task>>           // rq->tasks of each CPU
    var nr: seq<nat>                    // rq->nr_running of each CPU
    var curr: seq<Task>                 // cpu_data[c].curr
    var cpu: map<Task, nat>             // task->cpu, anything until first queued
    var state: map<Task, TaskState>
    var linked: set<Task>               // tasks whose run_list is linked
    var stackless: set<Task>            // tasks without a kernel stack

    ghost predicate Valid()
      reads this
    {
      Coherent(n, queue, nr, curr, cpu, state, linked)
    }

    function Now(): View
      reads this
    {
      View(queue, curr, cpu, state, linked)
    }

    /** rq_init and sched_init_idle on every CPU. */
    constructor (cpus: nat)
      requires cpus > 0
      ensures Valid() && n == cpus && state == map[] && forall c :: 0 <= c < n ==> curr[c] == Idle(c) && queue[c] == []
    {
      n := cpus;
      queue := seq(cpus, _ => []);
      nr := seq(cpus, _ => 0);
      curr := seq(cpus, c requires 0 <= c => Idle(c));
      cpu, state, linked, stackless := map[], map[], {}, {};
    }

    /**
     * enqueue_task_cpu and enqueue_task_locked. The task moves to CPU c whatever its CPU was;
     * the lists stay coherent exactly when it is not the current task of another CPU.
     */
    method EnqueueCpu(t: Task, c: nat)
      requires Valid() && t in state
      modifies this`queue, this`nr, this`state, this`linked, this`cpu
      ensures Valid() <==> t in old(linked) || c >= n || forall d :: 0 <= d < n && curr[d] == t ==> d == c
      ensures t in old(linked) || c >= n ==>
                queue == old(queue) && nr == old(nr) && state == old(state) && linked == old(linked) && cpu == old(cpu)
      ensures t !in old(linked) && c < n ==>
                && queue == old(queue)[c := old(queue[c]) + [t]] && nr == old(nr)[c := old(nr[c]) + 1]
                && state == old(state)[t := Running] && linked == old(linked) + {t} && cpu == old(cpu)[t := c]
    {
      if c >= n || t in linked {
        return;
      }
      EnqueuedOk(n, queue, nr, curr, cpu, state, linked, t, c);
      state := state[t := Running];
      cpu := cpu[t := c];
      queue := queue[c := queue[c] + [t]];
      nr := nr[c := nr[c] + 1];
      linked := linked + {t};
    }

    /** enqueue_task, called on CPU self. */
    method Enqueue(t: Task, self: nat)
      requires Valid() && t in state && self < n
      modifies this`queue, this`nr, this`state, this`linked, this`cpu
      ensures Valid() && linked == old(linked) + {t}
      ensures cpu == if old(cpu[t]) < n then old(cpu) else old(cpu)[t := self]
      ensures state == if t in old(linked) then old(state) else old(state)[t := Running]
      ensures queue == if t in old(linked) then old(queue) else old(queue)[cpu[t] := old(queue)[cpu[t]] + [t]]
    {
      if cpu[t] >= n {
        cpu := cpu[t := self];
      }
      assert Valid() && cpu[t := cpu[t]] == cpu;
      assert forall d :: 0 <= d < n ==> CurrOk(curr[d], d, cpu);
      EnqueueCpu(t, cpu[t]);
    }

    /** dequeue_task and dequeue_task_locked; the caller may have changed the state of the task already. */
    method Dequeue(t: Task)
      requires t in state && Coherent(n, queue, nr, curr, cpu, state[t := Running], linked)
      modifies this`queue, this`nr, this`linked
      ensures Valid() && linked == old(linked) - {t}
      ensures queue == if t in old(linked) then old(queue)[cpu[t] := Without(old(queue)[cpu[t]], t)] else old(queue)
    {
      var c := cpu[t];
      if c >= n || t !in linked {
        RestateOk(n, queue, nr, curr, cpu, state[t := Running], linked, t, state[t]);
        assert state[t := Running][t := state[t]] == state;
        return;
      }
      WithoutFacts(queue[c], t);
      queue := queue[c := Without(queue[c], t)];
      linked := linked - {t};
      if nr[c] > 0 {
        nr := nr[c := nr[c] - 1];
      }
    }

    /** migrate_task; false is -EINVAL. */
    method MigrateTask(t: Task, to: nat) returns (ok: bool)
      requires Valid() && t in state
      modifies this`queue, this`nr, this`cpu
      ensures Valid()
      ensures ok <==> to < n && old(cpu[t]) < n && (old(cpu[t]) == to || Movable(old(linked), old(curr), old(cpu), t))
      ensures !ok || old(cpu[t]) == to ==> queue == old(queue) && nr == old(nr) && cpu == old(cpu)
      ensures ok && old(cpu[t]) != to ==> Moved(old(queue), old(nr), old(cpu), t, to)
    {
      var from := cpu[t];
      if to >= n || from >= n {
        return false;
      }
      if from == to {
        return true;
      }
      if state[t] != Running || t !in linked || curr[from] == t {
        return false;
      }
      MoveOk(n, queue, nr, curr, cpu, state, linked, t, to);
      queue := queue[from := Without(queue[from], t)];
      if nr[from] > 0 {
        nr := nr[from := nr[from] - 1];
      }
      cpu := cpu[t := to];
      queue := queue[to := queue[to] + [t]];
      nr := nr[to := nr[to] + 1];
      return true;
    }

    /** Task t left the list of its old CPU and is now last on the list of CPU to. */
    ghost predicate Moved(q: seq<seq<Task>>, load: seq<nat>, was: map<Task, nat>, t: Task, to: nat)
      reads this
    {
      && t in was && was[t] < |q| && to < |q| && |load| == |q| && load[was[t]] > 0
      && queue == q[was[t] := Without(q[was[t]], t)][to := q[to] + [t]]
      && nr == load[was[t] := load[was[t]] - 1][to := load[to] + 1]
      && cpu == was[t := to]
    }

    /** find_busiest_cpu. */
    method FindBusiest(self: nat) returns (busiest: nat)
      requires Valid() && self < n
      ensures busiest < n
      ensures busiest == self ==> forall c :: 0 <= c < n ==> c == self || nr[c] <= nr[self] + 1
      ensures busiest != self ==> nr[busiest] > nr[self] + 1 && forall c :: 0 <= c < n ==> nr[c] <= nr[busiest]
    {
      busiest := self;
      var most := nr[self] + 1;
      for c := 0 to n
        invariant busiest < n && most >= nr[self] + 1
        invariant busiest != self ==> nr[busiest] == most && most > nr[self] + 1
        invariant busiest == self ==> most == nr[self] + 1
        invariant forall d :: 0 <= d < c && d != self ==> nr[d] <= most
      {
        if c != self && nr[c] > most {
          most, busiest := nr[c], c;
        }
      }
    }

    /** pick_migratable_task: the last task of the list other than the excluded one. */
    method PickMigratable(c: nat, exclude: Task) returns (found: bool, t: Task)
      requires Valid() && c < n
      ensures found <==> nr[c] > 1
      ensures found ==> In(t, queue[c]) && t != exclude
    {
      if nr[c] <= 1 {
        return false, exclude;
      }
      var q := queue[c];
      assert QueueOk(q, c, cpu, state) && In(q[0], q) && In(q[1], q) && q[0] != q[1];
      var i := |q|;
      while i > 0 && (q[i - 1] == exclude || q[i - 1].Idle?)
        invariant 0 <= i <= |q|
        invariant forall j :: i <= j < |q| ==> q[j] == exclude || q[j].Idle?
      {
        i := i - 1;
      }
      return i > 0, if i > 0 then q[i - 1] else exclude;
    }

    /** try_pull_task. */
    method TryPull(self: nat) returns (pulled: bool)
      requires Valid()
      modifies this`queue, this`nr, this`cpu
      ensures Valid()
      ensures pulled <==> self < n && exists c :: 0 <= c < n && c != self && old(nr[c]) > old(nr[self]) + 1
      ensures !pulled ==> queue == old(queue) && nr == old(nr) && cpu == old(cpu)
      ensures pulled ==> Sum(nr) == Sum(old(nr)) && Squares(nr) < Squares(old(nr))
      ensures pulled ==> nr[self] == old(nr[self]) + 1 && forall c :: 0 <= c < n && old(nr[c]) > 0 ==> nr[c] > 0
      ensures pulled ==> exists t | MayMigrate(old(Now()), t, self) :: Now() == Migrated(old(Now()), t, self)
    {
      if self >= n {
        return false;
      }
      var busiest := FindBusiest(self);
      if busiest == self {
        return false;
      }
      var found, t := PickMigratable(busiest, curr[busiest]);
      if !found {
        return false;
      }
      MovedLoad(nr, busiest, self);
      assert MayMigrate(Now(), t, self);
      pulled := MigrateTask(t, self);
      assert Now() == Migrated(old(Now()), t, self);
    }

    /** pick_next_task for CPU c, whose current task is prev. */
    method PickNext(c: nat, prev: Task) returns (next: Task)
      requires Valid() && c < n && CurrOk(prev, c, cpu)
      ensures next == if queue[c] == [] then Idle(c) else NextOf(queue[c], prev)
      ensures CurrOk(next, c, cpu) && (queue[c] != [] ==> next.Proc?)
    {
      var q := queue[c];
      assert QueueOk(q, c, cpu, state);
      if q == [] {
        return Idle(c);
      }
      assert In(prev, q) <==> prev != Idle(c) && prev in linked;
      var pos := if prev != Idle(c) && prev in linked then IndexIn(q, prev) + 1 else 0;
      if pos == |q| {
        pos := 0;
      }
      next := q[pos];
      assert In(next, q);
    }

    /** schedule on CPU c. */
    method Switch(c: nat)
      requires Valid() && c < n
      modifies this`queue, this`nr, this`cpu, this`curr
      ensures Valid() && curr == old(curr)[c := curr[c]] && Sum(nr) == Sum(old(nr))
      ensures Switches(stackless, old(Now()), c, Now())
      ensures old(queue[c]) != [] ==> queue == old(queue) && cpu == old(cpu)
      ensures queue[c] != [] ==> var next := NextOf(queue[c], old(curr[c]));
                                 curr[c] == if next in stackless then old(curr[c]) else next
      ensures queue[c] == [] ==> curr[c] == Idle(c) && forall d :: 0 <= d < n ==> nr[d] <= 1
    {
      var next := PickNext(c, curr[c]);
      if next == Idle(c) && queue[c] == [] {
        var _ := TryPull(c);
      }
      Pick(c);
    }

    /** The last choice of schedule, and context_switch to it. */
    method Pick(c: nat)
      requires Valid() && c < n
      modifies this`curr
      ensures Valid() && curr == old(curr)[c := curr[c]] && Picks(stackless, old(Now()), c, Now())
    {
      var prev := curr[c];
      var next := PickNext(c, prev);
      if next == prev {
        return;
      }
      if next != Idle(c) && next in stackless {
        return;
      }
      curr := curr[c := next];
    }

    /** k switches on CPU c with nothing else happening, when every task of its list has a stack. */
    method Rounds(c: nat, k: nat)
      requires Valid() && c < n && queue[c] != [] && forall t :: t in queue[c] ==> t !in stackless
      modifies this`queue, this`nr, this`cpu, this`curr
      ensures Valid() && queue == old(queue) && cpu == old(cpu)
      ensures curr == old(curr)[c := After(queue[c], old(curr[c]), k)]
    {
      for i := 0 to k
        invariant Valid() && queue == old(queue) && cpu == old(cpu)
        invariant curr == old(curr)[c := After(queue[c], old(curr[c]), i)]
      {
        NextIn(queue[c], curr[c]);
        Switch(c);
      }
    }

    /** So every task of the list is current after at most as many switches as there are tasks. */
    method SwitchUntil(c: nat, t: Task) returns (k: nat)
      requires Valid() && c < n && t in queue[c] && forall u :: u in queue[c] ==> u !in stackless
      modifies this`queue, this`nr, this`cpu, this`curr
      ensures Valid() && queue == old(queue) && curr[c] == t && k <= |queue[c]|
    {
      ghost var q, first := queue[c], curr[c];
      assert QueueOk(q, c, cpu, state);
      ghost var m := Reached(q, first, t);
      k := 0;
      while curr[c] != t
        invariant Valid() && queue == old(queue) && k <= m && curr[c] == After(q, first, k)
        decreases m - k
      {
        NextIn(q, curr[c]);
        Switch(c);
        k := k + 1;
      }
    }

    /** kernel_thread, and the part of fork before the child is queued: a new task, on no list. */
    method Attach(t: Task, garbage: nat, st: TaskState)
      requires Valid() && t.Proc? && t !in state
      modifies this`cpu, this`state
      ensures Valid() && cpu == old(cpu)[t := garbage] && state == old(state)[t := st]
    {
      cpu, state := cpu[t := garbage], state[t := st];
      assert forall c :: 0 <= c < n ==> QueueOk(queue[c], c, old(cpu), old(state));
      assert forall c :: 0 <= c < n ==> CurrOk(curr[c], c, old(cpu));
    }

    /** wake_up_process, called on CPU self. */
    method WakeUp(t: Task, self: nat)
      requires Valid() && t in state && self < n
      modifies this`queue, this`nr, this`state, this`linked, this`cpu
      ensures Valid() && Now() == Queued(old(Now()), t, self) && t in linked && state[t] == Running
    {
      if state[t] == Running && t in linked {
        return;
      }
      if t in linked {
        QueuedRuns(n, queue, nr, curr, cpu, state, linked, t);
      }
      Enqueue(t, self);
    }

    /** sched_block, prepare_to_wait and the exit path: the current task of CPU c leaves its list. */
    method BlockCurrent(c: nat, into: TaskState)
      requires Valid() && c < n && curr[c].Proc? && into != Running
      modifies this`queue, this`nr, this`state, this`linked
      ensures Valid() && Now() == Unqueued(old(Now()), curr[c], into)
    {
      var t := curr[c];
      assert CurrOk(t, c, cpu);
      if t in linked {
        QueuedRuns(n, queue, nr, curr, cpu, state, linked, t);
        assert state[t := into][t := Running] == state;
      } else {
        RestateOk(n, queue, nr, curr, cpu, state, linked, t, Running);
        assert state[t := into][t := Running] == state[t := Running];
      }
      state := state[t := into];
      Dequeue(t);
    }

    /** finish_wait and the ends of the other sleeps: the current task of CPU c is runnable again. */
    method ResumeCurrent(c: nat)
      requires Valid() && c < n && curr[c].Proc?
      modifies this`queue, this`nr, this`state, this`linked, this`cpu
      ensures Valid() && Now() == Queued(old(Now()), curr[c], c)
    {
      var t := curr[c];
      assert CurrOk(t, c, cpu);
      if t !in linked {
        Enqueue(t, c);
      } else {
        QueuedRuns(n, queue, nr, curr, cpu, state, linked, t);
        state := state[t := Running];
        assert state == old(state);
      }
    }

    /** One step, passed over when it cannot be taken. */
    method Perform(step: Step)
      requires Valid()
      modifies this
      ensures Valid() && stackless == old(stackless) && Next(stackless, old(Now()), step, Now())
    {
      if !Enabled(Now(), step) {
        return;
      }
      match step {
        case Create(pid, garbage) => Attach(Proc(pid), garbage, Sleeping);
        case Fork(c, pid, garbage) => ForkTask(c, Proc(pid), garbage);
        case Wake(c, pid) => WakeUp(Proc(pid), c);
        case Migrate(pid, to) => TryMigrate(Proc(pid), to);
        case Schedule(c) => Switch(c);
        case _ => OwnStep(step);
      }
    }

    /** A new task that is queued at once. */
    method ForkTask(c: nat, t: Task, garbage: nat)
      requires Valid() && t.Proc? && t !in state && c < n
      modifies this`queue, this`nr, this`state, this`linked, this`cpu
      ensures Valid()
      ensures var made := old(Now()).(cpu := old(cpu)[t := garbage], state := old(state)[t := Running]);
              Now() == Queued(made, t, c)
    {
      Attach(t, garbage, Running);
      Enqueue(t, c);
    }

    /** migrate_task, whatever it returns. */
    method TryMigrate(t: Task, to: nat)
      requires Valid() && t in state
      modifies this`queue, this`nr, this`cpu
      ensures Valid() && Now() == if MayMigrate(old(Now()), t, to) then Migrated(old(Now()), t, to) else old(Now())
    {
      var _ := MigrateTask(t, to);
    }

    /** What the current task of a CPU does to itself. */
    method OwnStep(step: Step)
      requires Valid() && Enabled(Now(), step) && (step.Block? || step.Resume? || step.Exit?)
      modifies this`queue, this`nr, this`state, this`linked, this`cpu
      ensures Valid() && Next(stackless, old(Now()), step, Now())
    {
      assert CurrOk(curr[step.c], step.c, cpu);
      match step {
        case Block(c, into) => BlockCurrent(c, into);
        case Resume(c) => ResumeCurrent(c);
        case Exit(c) => BlockCurrent(c, Zombie);
      }
    }

    /**
     * Every run on any number of CPUs: each step does what Next says, the lists stay coherent, and an
     * ended task stays one and is never queued again.
     */
    method Run(steps: seq<Step>) returns (ghost views: seq<View>)
      requires Valid()
      modifies this
      ensures Valid() && stackless == old(stackless) && IsRun(stackless, views, steps)
      ensures views[0] == old(Now()) && views[|steps|] == Now() && state.Keys >= old(state).Keys
      ensures forall t :: t in old(state) && old(state)[t] == Zombie ==>
                t in state && state[t] == Zombie && t !in linked
    {
      views := [Now()];
      NoZombieQueued();
      for i := 0 to |steps|
        invariant Valid() && stackless == old(stackless) && IsRun(stackless, views, steps[..i])
        invariant views[0] == old(Now()) && views[i] == Now() && state.Keys >= old(state).Keys
        invariant forall t :: t in old(state) && old(state)[t] == Zombie ==> state[t] == Zombie && t !in linked
      {
        ZombieStays(stackless, Now(), steps[i]);
        Perform(steps[i]);
        NoZombieQueued();
        Extend(stackless, views, steps[..i], steps[i], Now());
        assert steps[..i + 1] == steps[..i] + [steps[i]];
        views := views + [Now()];
      }
      assert steps[..|steps|] == steps;
    }

    lemma NoZombieQueued()
      requires Valid()
      ensures forall t :: t in linked ==> t in state && state[t] == Running
    {
      forall t | t in linked ensures t in state && state[t] == Running {
        QueuedRuns(n, queue, nr, curr, cpu, state, linked, t);
      }
    }

    /**
     * try_pull_task with steps of other CPUs between its sections. What it found may be stale, and
     * migrate_task looks again: load is what the counters were then. The pull keeps the total, and
     * lowers the sum of squares exactly when the list it takes from is still longer by two.
     */
    method PullAmid(self: nat, first: seq<Step>, second: seq<Step>)
      returns (pulled: bool, ghost load: seq<nat>, ghost from: nat)
      requires Valid() && self < n
      modifies this
      ensures Valid() && |load| == n && Sum(nr) == Sum(load)
      ensures !pulled ==> nr == load
      ensures pulled ==> from < n
      ensures pulled && from == self ==> nr == load
      ensures pulled && from != self ==>
                && load[from] > 0 && nr == load[from := load[from] - 1][self := load[self] + 1]
                && (Squares(nr) < Squares(load) <==> load[from] > load[self] + 1)
    {
      load, from := nr, self;
      var busiest := FindBusiest(self);
      if busiest == self {
        return false, load, from;
      }
      var _ := Run(first);
      var found, t := PickMigratable(busiest, curr[busiest]);
      if !found {
        return false, nr, self;
      }
      assert QueueOk(queue[busiest], busiest, cpu, state);
      pulled, load, from := MigrateLate(t, self, second);
    }

    /** migrate_task of a task picked before others ran. */
    method MigrateLate(t: Task, self: nat, steps: seq<Step>)
      returns (pulled: bool, ghost load: seq<nat>, ghost from: nat)
      requires Valid() && self < n && t in state
      modifies this
      ensures Valid() && |load| == n && Sum(nr) == Sum(load)
      ensures !pulled ==> nr == load
      ensures pulled ==> from < n
      ensures pulled && from == self ==> nr == load
      ensures pulled && from != self ==>
                && load[from] > 0 && nr == load[from := load[from] - 1][self := load[self] + 1]
                && (Squares(nr) < Squares(load) <==> load[from] > load[self] + 1)
    {
      var _ := Run(steps);
      load, from := nr, cpu[t];
      pulled := MigrateTask(t, self);
      if pulled && from != self {
        MovedLoad(load, from, self);
      }
    }
  }
}
