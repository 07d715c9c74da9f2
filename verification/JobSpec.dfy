/** Jobs, the slots they sit in, and the list of jobs the slots stand for. */
module JobSpec {
  import opened Folding
  import opened Options

  datatype Status = Exited(code: int) | Signaled(signal: int) | StoppedBy(signal: int) | Continued

  /** `running` is the field of that name: set for a process that was started or continued. */
  datatype Proc = Proc(pid: int, status: Status, running: bool)

  datatype State = JRunning | JStopped | JDead

  datatype Job = Job(procs: seq<Proc>, state: State, notified: bool, foreground: bool)

  predicate Alive(p: Proc) { p.running || p.status.StoppedBy? }

  predicate AnyRunning(ps: seq<Proc>) { exists i :: 0 <= i < |ps| && ps[i].running }

  predicate AnyStopped(ps: seq<Proc>) { exists i :: 0 <= i < |ps| && ps[i].status.StoppedBy? }

  /** A job is dead exactly when none of its processes runs or is stopped. */
  predicate GoodJob(j: Job) {
    && (j.state == JDead <==> !AnyRunning(j.procs) && !AnyStopped(j.procs))
    && (j.state == JRunning ==> AnyRunning(j.procs))
    && (j.state == JStopped ==> AnyStopped(j.procs))
  }

  /** The state of a new job: running if one of its processes is. */
  function StateOf(ps: seq<Proc>): (state: State)
    ensures Follows(JRunning, ps, state)
  {
    if AnyRunning(ps) then JRunning else if AnyStopped(ps) then JStopped else JDead
  }

  type Slots = seq<Option<Job>>

  const NO_JOB: int := -1

  // ----- the jobs in the slots -----

  /** The jobs in slot order. */
  function Live(s: Slots): (r: seq<Job>)
    ensures |r| <= |s|
  {
    if s == [] then []
    else Live(s[..|s| - 1]) + In(s[|s| - 1])
  }

  /** What a slot holds. */
  function In(x: Option<Job>): seq<Job> { if x.Some? then [x.value] else [] }

  function Deaths(l: seq<Job>): nat {
    if l == [] then 0 else Deaths(l[..|l| - 1]) + if l[|l| - 1].state == JDead then 1 else 0
  }

  lemma {:induction false} LiveSplit(s: Slots, t: Slots)
    ensures Live(s + t) == Live(s) + Live(t)
  {
    if t == [] {
      assert s + t == s;
    } else {
      var t', x := t[..|t| - 1], t[|t| - 1];
      LiveSplit(s, t');
      assert (s + t)[..|s + t| - 1] == s + t' && (s + t)[|s + t| - 1] == x;
      assert (Live(s) + Live(t')) + In(x) == Live(s) + (Live(t') + In(x));
    }
  }

  lemma {:induction false} DeathsSplit(l: seq<Job>, m: seq<Job>)
    ensures Deaths(l + m) == Deaths(l) + Deaths(m)
  {
    if m == [] {
      assert l + m == l;
    } else {
      DeathsSplit(l, m[..|m| - 1]);
      assert (l + m)[..|l + m| - 1] == l + m[..|m| - 1];
    }
  }

  /** The jobs around slot i. */
  lemma LiveAround(s: Slots, i: nat)
    requires i < |s|
    ensures Live(s) == Live(s[..i]) + In(s[i]) + Live(s[i + 1..])
  {
    assert s == s[..i + 1] + s[i + 1..];
    LiveSplit(s[..i + 1], s[i + 1..]);
    LiveStep(s, i);
  }

  lemma LiveStep(s: Slots, i: nat)
    requires i < |s|
    ensures s[..i + 1] == s[..i] + [s[i]]
    ensures Live(s[..i + 1]) == Live(s[..i]) + In(s[i])
  {
    assert s[..i + 1][..i] == s[..i];
  }

  /** Changing one slot changes the jobs there and nowhere else. */
  lemma LiveUpdate(s: Slots, i: nat, x: Option<Job>)
    requires i < |s|
    ensures Live(s[i := x]) == Live(s[..i]) + In(x) + Live(s[i + 1..])
    ensures Deaths(Live(s[i := x])) == Deaths(Live(s)) - OneDeath(s[i]) + OneDeath(x)
    ensures |Live(s[i := x])| == |Live(s)| - |In(s[i])| + |In(x)|
  {
    var t := s[i := x];
    LiveAround(s, i);
    LiveAround(t, i);
    assert t[..i] == s[..i] && t[i + 1..] == s[i + 1..];
    DeathsAround(Live(s[..i]), s[i], Live(s[i + 1..]));
    DeathsAround(Live(s[..i]), x, Live(s[i + 1..]));
  }

  function OneDeath(x: Option<Job>): nat { if x.Some? && x.value.state == JDead then 1 else 0 }

  lemma DeathIn(x: Option<Job>)
    ensures Deaths(In(x)) == OneDeath(x)
  {
    assert In(x) != [] ==> In(x)[..0] == [];
  }

  lemma DeathsAround(l: seq<Job>, x: Option<Job>, m: seq<Job>)
    ensures Deaths(l + In(x) + m) == Deaths(l) + OneDeath(x) + Deaths(m)
  {
    DeathsSplit(l + In(x), m);
    DeathsSplit(l, In(x));
    DeathIn(x);
  }

  lemma {:induction false} LiveEmpty(s: Slots)
    requires forall i :: 0 <= i < |s| ==> s[i].None?
    ensures Live(s) == []
  {
    if s != [] {
      LiveEmpty(s[..|s| - 1]);
    }
  }

  /** Some slot is taken exactly when there is a job. */
  lemma LiveSome(s: Slots)
    ensures Live(s) != [] <==> exists i :: Taken(s, i)
  {
    if i :| Taken(s, i) {
      LiveAround(s, i);
    } else {
      forall i | 0 <= i < |s| ensures s[i].None? {
        assert !Taken(s, i);
      }
      LiveEmpty(s);
    }
  }

  /** The counts are those of the slots that hold a job, and that hold a dead one. */
  lemma {:induction false} CountSlots(s: Slots)
    ensures |Live(s)| == |TakenSlots(s)| && Deaths(Live(s)) == |DeadSlots(s)|
  {
    if s == [] {
      assert TakenSlots(s) == {} && DeadSlots(s) == {};
    } else {
      var t, n := s[..|s| - 1], |s| - 1;
      CountSlots(t);
      DeathsSplit(Live(t), In(s[n]));
      DeathIn(s[n]);
      OneMoreSlot(s, t, n);
    }
  }

  lemma OneMoreSlot(s: Slots, t: Slots, n: nat)
    requires |s| == n + 1 && t == s[..n]
    ensures |TakenSlots(s)| == |TakenSlots(t)| + |In(s[n])| && |DeadSlots(s)| == |DeadSlots(t)| + OneDeath(s[n])
  {
    assert forall i :: 0 <= i < n ==> s[i] == t[i];
    assert TakenSlots(s) == if s[n].Some? then TakenSlots(t) + {n} else TakenSlots(t);
    assert DeadSlots(s) == if s[n].Some? && s[n].value.state == JDead then DeadSlots(t) + {n} else DeadSlots(t);
  }

  ghost function TakenSlots(s: Slots): set<int> { set i | 0 <= i < |s| && s[i].Some? }

  ghost function DeadSlots(s: Slots): set<int> {
    set i | 0 <= i < |s| && s[i].Some? && s[i].value.state == JDead
  }

  // ----- keeping and marking -----

  predicate Disposable(j: Job) { j.state == JDead && j.notified }

  /** The jobs left after the dead ones the user knows of are gone. */
  function Keep(l: seq<Job>): seq<Job> {
    if l == [] then [] else Keep(l[..|l| - 1]) + if Disposable(l[|l| - 1]) then [] else [l[|l| - 1]]
  }

  lemma KeepStep(l: seq<Job>, j: Job)
    ensures Keep(l + [j]) == Keep(l) + if Disposable(j) then [] else [j]
  {
    assert (l + [j])[..|l|] == l;
  }

  /** The dead jobs the user has been told of go, the others stay in order. */
  lemma {:induction false} KeepFilters(a: seq<Job>, j: Job, b: seq<Job>)
    ensures Keep(a + [j] + b) == Keep(a) + (if j.state == JDead && j.notified then [] else [j]) + Keep(b)
  {
    var l := a + [j] + b;
    if b == [] {
      assert l == a + [j];
      KeepStep(a, j);
    } else {
      var b', last := b[..|b| - 1], b[|b| - 1];
      KeepFilters(a, j, b');
      assert l == (a + [j] + b') + [last] && b == b' + [last];
      KeepStep(a + [j] + b', last);
      KeepStep(b', last);
    }
  }

  /** Dead jobs chosen by the first process's pid are marked as notified. */
  function Marked(j: Job, marks: set<int>): Job {
    if j.state == JDead && j.procs != [] && j.procs[0].pid in marks then j.(notified := true) else j
  }

  function MarkDead(l: seq<Job>, marks: set<int>): (r: seq<Job>)
    ensures |r| == |l| && forall i :: 0 <= i < |l| ==> r[i] == Marked(l[i], marks)
  {
    seq(|l|, i requires 0 <= i < |l| => Marked(l[i], marks))
  }

  /** The jobs that are still there when a new one is put in. */
  function Survivors(l: seq<Job>, frozen: bool, compacted: bool, marks: set<int>): seq<Job> {
    var kept := if frozen then l else Keep(l);
    if compacted then Keep(MarkDead(kept, marks)) else kept
  }

  /** The same on slots. */
  function CleanSlot(x: Option<Job>): Option<Job> { if x.Some? && Disposable(x.value) then None else x }

  function CleanSlots(s: Slots): (r: Slots)
    ensures |r| == |s| && forall i :: 0 <= i < |s| ==> r[i] == CleanSlot(s[i])
  {
    seq(|s|, i requires 0 <= i < |s| => CleanSlot(s[i]))
  }

  function MarkSlot(x: Option<Job>, marks: set<int>): Option<Job> {
    if x.Some? then Some(Marked(x.value, marks)) else None
  }

  function MarkSlots(s: Slots, marks: set<int>): (r: Slots)
    ensures |r| == |s| && forall i :: 0 <= i < |s| ==> r[i] == MarkSlot(s[i], marks)
  {
    seq(|s|, i requires 0 <= i < |s| => MarkSlot(s[i], marks))
  }

  lemma {:induction false} CleanLive(s: Slots)
    ensures Live(CleanSlots(s)) == Keep(Live(s))
  {
    if s != [] {
      var t, x := s[..|s| - 1], s[|s| - 1];
      CleanLive(t);
      assert CleanSlots(s)[..|s| - 1] == CleanSlots(t);
      if x.Some? {
        KeepStep(Live(t), x.value);
      } else {
        assert Live(t) + [] == Live(t);
      }
    }
  }

  lemma {:induction false} MarkLive(s: Slots, marks: set<int>)
    ensures Live(MarkSlots(s, marks)) == MarkDead(Live(s), marks)
  {
    if s != [] {
      var t := s[..|s| - 1];
      MarkLive(t, marks);
      assert MarkSlots(s, marks)[..|s| - 1] == MarkSlots(t, marks);
    }
  }

  /** Only the states of the jobs matter. */
  lemma {:induction false} DeathsStates(l: seq<Job>, m: seq<Job>)
    requires |l| == |m| && forall i :: 0 <= i < |l| ==> l[i].state == m[i].state
    ensures Deaths(l) == Deaths(m)
  {
    if l != [] {
      DeathsStates(l[..|l| - 1], m[..|m| - 1]);
    }
  }

  lemma ReapLive(s: Slots, marks: set<int>)
    ensures Live(CleanSlots(MarkSlots(s, marks))) == Keep(MarkDead(Live(s), marks))
  {
    MarkLive(s, marks);
    CleanLive(MarkSlots(s, marks));
  }

  /** Jobs packed into the first slots of n. */
  function Packed(l: seq<Job>, n: nat): (r: Slots)
    requires |l| <= n
    ensures |r| == n && forall i :: 0 <= i < n ==> r[i] == if i < |l| then Some(l[i]) else None
  {
    seq(n, i requires 0 <= i < n => if i < |l| then Some(l[i]) else None)
  }

  lemma {:induction false} PackedLive(l: seq<Job>, n: nat)
    requires |l| <= n
    ensures Live(Packed(l, n)) == l
    decreases n
  {
    if n > 0 {
      if |l| == n {
        assert Packed(l, n)[..n - 1] == Packed(l[..n - 1], n - 1);
        PackedLive(l[..n - 1], n - 1);
      } else {
        assert Packed(l, n)[..n - 1] == Packed(l, n - 1);
        PackedLive(l, n - 1);
      }
    }
  }

  // ----- a process changes state -----

  predicate Lives(p: Proc, pid: int) { p.pid == pid && Alive(p) }

  /** A living process of the job has the pid. */
  predicate HasAlive(j: Job, pid: int) { exists k :: 0 <= k < |j.procs| && Lives(j.procs[k], pid) }

  /** The first process with the pid, living or not. */
  function FindProc(ps: seq<Proc>, pid: int): (k: nat)
    ensures k <= |ps| && (k < |ps| ==> ps[k].pid == pid) && forall i :: 0 <= i < k ==> ps[i].pid != pid
  {
    if ps == [] then 0
    else
      var k := FindProc(ps[..|ps| - 1], pid);
      if k < |ps| - 1 || ps[|ps| - 1].pid == pid then k else |ps|
  }

  /** A report of the status has come to the process at q of job j, which is then j'.  The job
      is stopped while one of its processes is, unless it was running and another still runs. */
  ghost predicate HeardBy(j: Job, j': Job, pid: int, status: Status, q: nat) {
    && |j'.procs| == |j.procs| && q < |j.procs|
    && j.procs[q].pid == pid && (forall p :: 0 <= p < q ==> j.procs[p].pid != pid)
    && j'.procs[q] == Proc(pid, status, status.Continued?)
    && (forall p :: 0 <= p < |j.procs| && p != q ==> j'.procs[p] == j.procs[p])
    && Follows(j.state, j'.procs, j'.state)
    && !j'.notified && (j'.foreground <==> j.foreground && j'.state != JStopped)
  }

  /** The state of a job whose processes have changed. */
  predicate Follows(state: State, ps: seq<Proc>, state': State) {
    match state'
    case JDead => !AnyRunning(ps) && !AnyStopped(ps)
    case JStopped => AnyStopped(ps) && (state == JStopped || !AnyRunning(ps))
    case JRunning => AnyRunning(ps) && (state == JStopped ==> !AnyStopped(ps))
  }

  /** What a status report does to the slots: it goes to the first job with a process of that
      pid that runs or is stopped, there to the first process of that pid; to none if there
      is no such job. */
  ghost predicate Heard(s: Slots, s': Slots, pid: int, status: Status, i: int, q: nat) {
    && |s'| == |s|
    && (forall k :: 0 <= k < |s| && k != i ==> s'[k] == s[k])
    && (forall k :: Taken(s, k) && (i == NO_JOB || k < i) ==> Silent(s[k].value, pid))
    && (i != NO_JOB ==>
          Taken(s, i) && Taken(s', i) && !Silent(s[i].value, pid) && HeardBy(s[i].value, s'[i].value, pid, status, q))
  }

  /** No process of that pid runs or is stopped. */
  predicate Silent(j: Job, pid: int) {
    forall p :: 0 <= p < |j.procs| && j.procs[p].pid == pid ==>
      !j.procs[p].running && !j.procs[p].status.StoppedBy?
  }

  /** The slots before and after each report of a batch, and the processes reached. */
  ghost predicate Trail(trail: seq<Slots>, batch: seq<(int, Status)>, hits: seq<(int, nat)>) {
    && |trail| == |hits| + 1 && |hits| <= |batch|
    && forall b :: 0 <= b < |hits| ==> HeardAt(trail, batch, hits, b)
  }

  ghost predicate HeardAt(trail: seq<Slots>, batch: seq<(int, Status)>, hits: seq<(int, nat)>, b: nat)
    requires |trail| == |hits| + 1 && b < |hits| <= |batch|
  {
    Heard(trail[b], trail[b + 1], batch[b].0, batch[b].1, hits[b].0, hits[b].1)
  }

  /** s[i] is a job whose process at q is p. */
  predicate Holds(s: Slots, i: int, q: nat, p: Proc) {
    Taken(s, i) && q < |s[i].value.procs| && s[i].value.procs[q] == p
  }

  /** A process of which no report speaks stays as it is. */
  lemma {:induction false} Untold(trail: seq<Slots>, batch: seq<(int, Status)>, hits: seq<(int, nat)>, b: nat, i: int,
          q: nat, p: Proc)
    requires Trail(trail, batch, hits) && b <= |hits| && Holds(trail[b], i, q, p)
    requires forall c :: b <= c < |hits| ==> batch[c].0 != p.pid
    ensures Holds(trail[|hits|], i, q, p)
    decreases |hits| - b
  {
    if b < |hits| {
      assert HeardAt(trail, batch, hits, b);
      Untold(trail, batch, hits, b + 1, i, q, p);
    }
  }

  /** The last report on a pid is the one that remains. */
  lemma LastReportRemains(trail: seq<Slots>, batch: seq<(int, Status)>, hits: seq<(int, nat)>, b: nat)
    requires Trail(trail, batch, hits) && b < |hits| && hits[b].0 != NO_JOB
    requires forall c :: b < c < |hits| ==> batch[c].0 != batch[b].0
    ensures Holds(trail[|hits|], hits[b].0, hits[b].1, Proc(batch[b].0, batch[b].1, batch[b].1.Continued?))
  {
    assert HeardAt(trail, batch, hits, b);
    Untold(trail, batch, hits, b + 1, hits[b].0, hits[b].1, Proc(batch[b].0, batch[b].1, batch[b].1.Continued?));
  }

  /** The same slot is taken in both, by a job with the same pids. */
  predicate SamePids(s: Slots, s': Slots, i: int) {
    && (Taken(s, i) <==> Taken(s', i))
    && (Taken(s, i) ==>
          && |s[i].value.procs| == |s'[i].value.procs|
          && forall q :: 0 <= q < |s[i].value.procs| ==> s[i].value.procs[q].pid == s'[i].value.procs[q].pid)
  }

  /** A batch adds and removes no job and no process. */
  lemma {:induction false} TrailKeeps(trail: seq<Slots>, batch: seq<(int, Status)>, hits: seq<(int, nat)>, b: nat)
    requires Trail(trail, batch, hits) && b <= |hits|
    ensures |trail[b]| == |trail[0]| && forall i :: SamePids(trail[0], trail[b], i)
  {
    if b > 0 {
      TrailKeeps(trail, batch, hits, b - 1);
      assert HeardAt(trail, batch, hits, b - 1);
      forall i ensures SamePids(trail[0], trail[b], i) {
        assert SamePids(trail[0], trail[b - 1], i) && SamePids(trail[b - 1], trail[b], i);
      }
    }
  }

  /** A job that hears of a living process is not dead, and stays in order. */
  lemma HeardGood(j: Job, j': Job, pid: int, status: Status, q: nat)
    requires GoodJob(j) && !Silent(j, pid) && HeardBy(j, j', pid, status, q)
    ensures j.state != JDead && GoodJob(j')
  {
    NotSilent(j, pid);
  }

  lemma NotSilent(j: Job, pid: int)
    requires GoodJob(j)
    ensures HasAlive(j, pid) <==> !Silent(j, pid)
    ensures HasAlive(j, pid) ==> j.state != JDead && FindProc(j.procs, pid) < |j.procs|
  {
    if k :| 0 <= k < |j.procs| && Lives(j.procs[k], pid) {
      assert j.procs[k].running ==> AnyRunning(j.procs);
      assert j.procs[k].status.StoppedBy? ==> AnyStopped(j.procs);
    } else {
      forall p | 0 <= p < |j.procs| && j.procs[p].pid == pid
        ensures !j.procs[p].running && !j.procs[p].status.StoppedBy?
      {
        assert !Lives(j.procs[p], pid);
      }
    }
  }

  // ----- the table's invariants -----

  /** The counters are those of the jobs in the slots. */
  ghost predicate Counted(s: Slots, njobs: int, ndead: int) {
    forall z: nat {:trigger Show(z)} :: Show(z) ==> njobs == |Live(s)| && ndead == Deaths(Live(s))
  }

  lemma CountedZero(s: Slots, njobs: int, ndead: int)
    requires Counted(s, njobs, ndead)
    ensures njobs >= 0 && (njobs == 0 <==> forall i :: !Taken(s, i))
  {
    assert Show(0);
    LiveSome(s);
  }

  lemma CountedUpdate(s: Slots, njobs: int, ndead: int, i: nat, x: Option<Job>)
    requires Counted(s, njobs, ndead) && i < |s|
    ensures Counted(s[i := x], njobs - |In(s[i])| + |In(x)|, ndead - OneDeath(s[i]) + OneDeath(x))
  {
    assert Show(0);
    LiveUpdate(s, i, x);
  }

  lemma CountedMarked(s: Slots, njobs: int, ndead: int, marks: set<int>)
    requires Counted(s, njobs, ndead)
    ensures Counted(MarkSlots(s, marks), njobs, ndead)
  {
    assert Show(0);
    MarkLive(s, marks);
    DeathsStates(Live(s), MarkDead(Live(s), marks));
  }

  lemma CountedPacked(l: seq<Job>, n: nat)
    requires |l| <= n
    ensures Counted(Packed(l, n), |l|, Deaths(l))
  {
    PackedLive(l, n);
  }

  lemma CountedIs(s: Slots, njobs: int, ndead: int)
    requires Counted(s, njobs, ndead)
    ensures njobs == |Live(s)| && ndead == Deaths(Live(s))
  {
    assert Show(0);
  }

  lemma CountedGrown(s: Slots, njobs: int, ndead: int, t: Slots)
    requires Counted(s, njobs, ndead) && forall i :: 0 <= i < |t| ==> t[i].None?
    ensures Counted(s + t, njobs, ndead) && Live(s + t) == Live(s)
  {
    LiveSplit(s, t);
    LiveEmpty(t);
    assert Live(s) + [] == Live(s);
    assert Show(0);
  }

  /** A job put behind all others comes last. */
  lemma LiveInstall(s: Slots, i: nat, j: Job)
    requires i < |s| && forall k :: Taken(s, k) ==> k < i
    ensures Live(s[i := Some(j)]) == Live(s) + [j]
  {
    NothingAfter(s, i);
    LiveAround(s, i);
    LiveUpdate(s, i, Some(j));
    var l := Live(s[..i]);
    assert l + [] + [] == l && l + [j] + [] == l + [j];
  }

  lemma NothingAfter(s: Slots, i: nat)
    requires i < |s| && forall k :: Taken(s, k) ==> k < i
    ensures Live(s[i + 1..]) == [] && In(s[i]) == []
  {
    var tail := s[i + 1..];
    forall k | 0 <= k < |tail| ensures tail[k].None? {
      assert !Taken(s, i + 1 + k);
    }
    LiveEmpty(tail);
    assert !Taken(s, i);
  }

  /** The place of the job in slot i among all jobs. */
  lemma LivePlace(s: Slots, i: int)
    requires Taken(s, i)
    ensures |Live(s[..i])| < |Live(s)| && Live(s)[|Live(s[..i])|] == s[i].value
  {
    LiveAround(s, i);
  }

  lemma {:induction false} LiveGood(s: Slots)
    requires AllGood(s)
    ensures forall k :: 0 <= k < |Live(s)| ==> GoodJob(Live(s)[k])
  {
    if s != [] {
      var t, x := s[..|s| - 1], s[|s| - 1];
      assert forall i :: 0 <= i < |t| ==> t[i] == s[i];
      LiveGood(t);
      assert x.Some? ==> GoodJob(x.value);
    }
  }

  /** Where a job ends up when the jobs move together. */
  function Place(s: Slots, i: int): int { if Taken(s, i) then |Live(s[..i])| else NO_JOB }

  ghost predicate AllGood(s: Slots) { forall i :: 0 <= i < |s| && s[i].Some? ==> GoodJob(s[i].value) }

  predicate Taken(s: Slots, i: int) { 0 <= i < |s| && s[i].Some? }

  /** All jobs lie between firstj and lastj, and there is one at either end. */
  ghost predicate Ranged(s: Slots, firstj: int, lastj: int) {
    if forall i :: !Taken(s, i) then firstj == 0 && lastj == 0
    else Taken(s, firstj) && Taken(s, lastj) && forall i :: Taken(s, i) ==> firstj <= i <= lastj
  }

  predicate Named(s: Slots, i: int) { i == NO_JOB || Taken(s, i) }

  predicate InState(s: Slots, i: int, state: State) { Taken(s, i) && s[i].value.state == state }

  /** The newest job in the state before a bound. */
  ghost predicate Newest(s: Slots, i: int, bound: int, state: State) {
    i < bound && InState(s, i, state) && forall k :: i < k < bound ==> !InState(s, k, state)
  }

  ghost predicate AnyBefore(s: Slots, bound: int, state: State) { exists i :: i < bound && InState(s, i, state) }

  /** Which job is the previous one beside the current: the one before if it is stopped; else,
      beside a stopped job, the newest stopped job that is older; else the newest running
      job, older than a running current one; else the current job itself. */
  ghost predicate IsPrevious(s: Slots, current: int, before: int, i: int)
    requires Taken(s, current)
  {
    if before != current && InState(s, before, JStopped) then i == before
    else if s[current].value.state == JStopped && AnyBefore(s, current, JStopped) then Newest(s, i, current, JStopped)
    else
      var bound := if s[current].value.state == JRunning then current else |s|;
      if AnyBefore(s, bound, JRunning) then Newest(s, i, bound, JRunning) else i == current
  }
}
