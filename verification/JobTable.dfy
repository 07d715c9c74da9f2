/** The job table: a growing array of slots with counters, bounds, and the current and
    previous job kept beside it. */
module JobTable {
  import opened Folding
  import opened Options
  import opened JobSpec

  const JOB_SLOTS: nat := 8
  const MAX_JOBS_IN_ARRAY: nat := 4096

  /** The jobs lie within the bounds. */
  ghost predicate Loose(s: Slots, firstj: int, lastj: int) {
    && 0 <= firstj <= lastj < |s| && (forall i :: Taken(s, i) ==> firstj <= i <= lastj) && exists i :: Taken(s, i)
  }

  /** There is one at either end. */
  ghost predicate Tight(s: Slots, firstj: int, lastj: int) {
    Loose(s, firstj, lastj) && Taken(s, firstj) && Taken(s, lastj)
  }

  /** The search upward for the first job.  It could wrap around, but never has to. */
  method NextTaken(s: Slots, firstj: int, lastj: int, njobs: int) returns (f: int, l: int, n: int)
    requires Loose(s, firstj, lastj) && s[firstj].None?
    ensures Loose(s, f, l) && Taken(s, f) && l == lastj && n == njobs
  {
    f, l, n := firstj, lastj, njobs;
    var before := f;
    f := f + 1;
    if before >= |s| {
      before := |s| - 1;
    }
    while f != before
      invariant before < f <= lastj && forall i :: Taken(s, i) ==> f <= i <= lastj
      decreases lastj - f
    {
      if f >= |s| {
        f := 0;
      }
      if s[f].Some? || f == before {
        break;
      }
      f := f + 1;
    }
    if f == before {
      f, l, n := 0, 0, 0;
    }
  }

  /** The search downward for the last job. */
  method PreviousTaken(s: Slots, firstj: int, lastj: int, njobs: int) returns (f: int, l: int, n: int)
    requires Loose(s, firstj, lastj) && Taken(s, firstj) && s[lastj].None?
    ensures Tight(s, f, l) && f == firstj && n == njobs
  {
    f, l, n := firstj, lastj, njobs;
    var before := l;
    l := l - 1;
    if before < 0 {
      before := 0;
    }
    while l != before
      invariant firstj <= l < before && forall i :: Taken(s, i) ==> firstj <= i <= l
      decreases l - firstj
    {
      if l < 0 {
        l := |s| - 1;
      }
      if s[l].Some? || l == before {
        break;
      }
      l := l - 1;
    }
    if l == before {
      f, l, n := 0, 0, 0;
    }
  }

  class Table {
    var slots: Slots
    var firstj: int
    var lastj: int
    var njobs: int
    var ndead: int
    var current: int
    var previous: int
    var frozen: bool
    const interactive: bool

    ghost predicate Valid()
      reads this
    {
      && AllGood(slots) && Counted(slots, njobs, ndead) && Ranged(slots, firstj, lastj)
      && Named(slots, current) && Named(slots, previous)
    }

    constructor (interactive: bool)
      ensures Valid() && slots == [] && !frozen
    {
      this.interactive := interactive;
      slots, firstj, lastj, njobs, ndead, current, previous, frozen := [], 0, 0, 0, 0, NO_JOB, NO_JOB, false;
    }

    // ----- the current and the previous job -----

    /** The newest job before `job` in the given state. */
    method MostRecentJobInState(job: int, state: State) returns (result: int)
      requires 0 <= job <= |slots|
      ensures if AnyBefore(slots, job, state) then Newest(slots, result, job, state) else result == NO_JOB
    {
      var i := job - 1;
      while i >= 0
        invariant -1 <= i < job && forall k :: i < k < job ==> !InState(slots, k, state)
      {
        if slots[i].Some? && slots[i].value.state == state {
          assert InState(slots, i, state);
          return i;
        }
        i := i - 1;
      }
      return NO_JOB;
    }

    predicate Within(i: int)
      reads this
    {
      i == NO_JOB || 0 <= i < |slots|
    }

    /** Make job the current one, and the previous one useful, whatever was in the two before. */
    method SetCurrentJob(job: int)
      requires Taken(slots, job) && Within(current) && Within(previous)
      modifies this`current, this`previous
      ensures current == job && Taken(slots, previous)
      ensures IsPrevious(slots, job, if old(current) != job then old(current) else old(previous), previous)
    {
      if current != job {
        previous := current;
        current := job;
      }
      if previous != current && previous != NO_JOB && slots[previous].Some? && slots[previous].value.state == JStopped {
        return;
      }
      var candidate := NO_JOB;
      if slots[current].value.state == JStopped {
        candidate := MostRecentJobInState(current, JStopped);
        if candidate != NO_JOB {
          previous := candidate;
          return;
        }
      }
      candidate := MostRecentJobInState(if slots[current].value.state == JRunning then current else |slots|, JRunning);
      previous := if candidate != NO_JOB then candidate else current;
    }

    /** Afterwards both name jobs or neither does; if any job is stopped, the current one is. */
    method ResetCurrent()
      requires Within(current) && Within(previous)
      modifies this`current, this`previous
      ensures Named(slots, current) && Named(slots, previous) && (current == NO_JOB <==> previous == NO_JOB)
      ensures current == NO_JOB ==> forall i :: Taken(slots, i) ==> slots[i].value.state == JDead
      ensures (exists i :: InState(slots, i, JStopped)) ==> InState(slots, current, JStopped)
    {
      var candidate;
      if |slots| > 0 && current != NO_JOB && slots[current].Some? && slots[current].value.state == JStopped {
        candidate := current;
      } else {
        candidate := NO_JOB;
        if previous != NO_JOB && slots[previous].Some? && slots[previous].value.state == JStopped {
          candidate := previous;
        }
        if candidate == NO_JOB {
          candidate := MostRecentJobInState(|slots|, JStopped);
        }
        if candidate == NO_JOB {
          candidate := MostRecentJobInState(|slots|, JRunning);
        }
      }
      if candidate != NO_JOB {
        SetCurrentJob(candidate);
      } else {
        current, previous := NO_JOB, NO_JOB;
        forall i | Taken(slots, i) ensures slots[i].value.state == JDead {
          assert !InState(slots, i, JStopped) && !InState(slots, i, JRunning);
        }
      }
    }

    // ----- deleting -----

    /** Moving the bounds in to the nearest jobs, when a job at an end has gone. */
    method ResetJobIndices()
      requires Loose(slots, firstj, lastj)
      modifies this`firstj, this`lastj, this`njobs
      ensures Tight(slots, firstj, lastj) && njobs == old(njobs)
    {
      var f, l, n := firstj, lastj, njobs;
      if slots[f].None? {
        f, l, n := NextTaken(slots, f, l, n);
      }
      if slots[l].None? {
        f, l, n := PreviousTaken(slots, f, l, n);
      }
      firstj, lastj, njobs := f, l, n;
    }

    /** The job at index goes, the others stay where they are. */
    method DeleteJob(index: int)
      requires Valid() && 0 <= index < |slots|
      modifies this
      ensures Valid() && frozen == old(frozen)
      ensures slots == if old(frozen) then old(slots) else old(slots)[index := None]
    {
      if |slots| == 0 || frozen {
        return;
      }
      var temp := slots[index];
      if temp.None? {
        return;
      }
      CountedUpdate(slots, njobs, ndead, index, None);
      slots := slots[index := None];
      if temp.value.state == JDead {
        ndead := ndead - 1;
      }
      njobs := njobs - 1;
      Tighten(old(slots), index);
      if index == current || index == previous {
        ResetCurrent();
      }
    }

    /** New bounds after the job at index has gone. */
    method Tighten(ghost before: Slots, ghost index: int)
      requires Taken(before, index) && slots == before[index := None] && Ranged(before, firstj, lastj)
      requires Counted(slots, njobs, ndead)
      modifies this`firstj, this`lastj, this`njobs
      ensures Ranged(slots, firstj, lastj) && njobs == old(njobs)
    {
      CountedZero(slots, njobs, ndead);
      assert forall i :: Taken(slots, i) <==> Taken(before, i) && i != index;
      if njobs == 0 {
        firstj, lastj := 0, 0;
      } else if slots[firstj].None? || slots[lastj].None? {
        ResetJobIndices();
      }
    }

    /** Delete all dead jobs that the user has been notified about. */
    method CleanupDeadJobs()
      requires Valid()
      modifies this
      ensures Valid() && frozen == old(frozen) && slots == if frozen then old(slots) else CleanSlots(old(slots))
      ensures |slots| == |old(slots)| && forall i :: 0 <= i < |slots| ==>
                var x := old(slots)[i];
                slots[i] == if !frozen && x.Some? && x.value.state == JDead && x.value.notified then None else x
    {
      if |slots| == 0 || frozen {
        return;
      }
      ghost var before := slots;
      for i := 0 to |slots|
        invariant Valid() && !frozen && |slots| == |before|
        invariant forall k :: 0 <= k < |before| ==> slots[k] == if k < i then CleanSlot(before[k]) else before[k]
      {
        if slots[i].Some? && slots[i].value.state == JDead && slots[i].value.notified {
          DeleteJob(i);
        }
      }
    }

    /** reap_dead_jobs: some dead jobs, chosen by their first pid, count as notified. */
    method ReapDeadJobs(marks: set<int>)
      requires Valid()
      modifies this
      ensures Valid() && frozen == old(frozen)
      ensures slots == if frozen then MarkSlots(old(slots), marks) else CleanSlots(MarkSlots(old(slots), marks))
    {
      MarkDeadJobs(marks);
      CleanupDeadJobs();
    }

    method MarkDeadJobs(marks: set<int>)
      requires Valid()
      modifies this`slots
      ensures Valid() && slots == MarkSlots(old(slots), marks)
    {
      ghost var before := slots;
      CountedMarked(before, njobs, ndead, marks);
      slots := MarkSlots(slots, marks);
      assert forall i :: Taken(slots, i) <==> Taken(before, i);
    }

    /** The size of the compacted list: a multiple of JOB_SLOTS with room to spare. */
    static function NewSize(n: nat): (size: nat)
      ensures size % JOB_SLOTS == 0 && n < size <= n + 2 * JOB_SLOTS
    {
      var size := (n + JOB_SLOTS - 1) / JOB_SLOTS * JOB_SLOTS;
      var i := n % JOB_SLOTS;
      if i == 0 || i > JOB_SLOTS / 2 then size + JOB_SLOTS else size
    }

    /** realloc_jobs_list: the jobs move together to the front, in order. */
    method ReallocJobsList()
      requires Valid()
      modifies this
      ensures Valid() && frozen == old(frozen) && njobs == |Live(old(slots))| < |slots|
      ensures slots == Packed(Live(old(slots)), |slots|) && lastj == (if njobs > 0 then njobs - 1 else 0)
      ensures forall k :: Taken(slots, k) <==> 0 <= k < njobs
    {
      CountedIs(slots, njobs, ndead);
      var list, dead, ncur, nprev := Gather(slots, current, previous);
      Repack(list, dead);
      MovedThere(old(slots), current, list, ncur, slots);
      MovedThere(old(slots), previous, list, nprev, slots);
      Rename(ncur, nprev);
    }

    /** The current and the previous job at their new places. */
    method Rename(ncur: int, nprev: int)
      requires AllGood(slots) && Counted(slots, njobs, ndead) && Ranged(slots, firstj, lastj)
      requires if ncur == NO_JOB then current == NO_JOB else Taken(slots, ncur)
      requires if nprev == NO_JOB then previous == NO_JOB else Taken(slots, nprev)
      modifies this`current, this`previous
      ensures Valid()
    {
      if ncur != NO_JOB {
        current := ncur;
      }
      if nprev != NO_JOB {
        previous := nprev;
      }
      if current == NO_JOB || previous == NO_JOB || current > lastj || previous > lastj {
        ResetCurrent();
      }
    }

    /** The new list takes the place of the old one. */
    method Repack(list: seq<Job>, dead: int)
      requires AllGood(slots) && list == Live(slots) && dead == Deaths(list) && njobs == |list|
      modifies this`slots, this`firstj, this`lastj, this`njobs, this`ndead
      ensures AllGood(slots) && Counted(slots, njobs, ndead) && Ranged(slots, firstj, lastj)
      ensures njobs == |list| < |slots| && slots == Packed(list, |slots|)
      ensures lastj == (if njobs > 0 then njobs - 1 else 0)
      ensures forall k :: Taken(slots, k) <==> 0 <= k < njobs
    {
      var nsize := NewSize(njobs);
      PackedFits(slots, list, nsize);
      firstj, lastj, njobs, ndead := 0, if |list| > 0 then |list| - 1 else 0, |list|, dead;
      slots := Packed(list, nsize);
    }

    /** compact_jobs_list: afterwards there is a free slot behind all jobs. */
    method CompactJobsList(marks: set<int>) returns (i: int)
      requires Valid()
      modifies this
      ensures Valid() && frozen == old(frozen)
      ensures if |old(slots)| == 0 || frozen then i == |slots| && slots == old(slots)
              else 0 <= i < |slots| && Live(slots) == Keep(MarkDead(Live(old(slots)), marks))
                   && (forall k :: Taken(slots, k) <==> 0 <= k < i)
    {
      if |slots| == 0 || frozen {
        return |slots|;
      }
      ReapLive(slots, marks);
      ReapDeadJobs(marks);
      ghost var kept := Live(slots);
      ReallocJobsList();
      PackedLive(kept, |slots|);
      assert Taken(slots, lastj) <==> njobs > 0;
      i := if lastj != 0 || slots[lastj].Some? then lastj + 1 else 0;
    }

    /** The slot after the last job. */
    method FindFree() returns (i: int)
      requires Valid()
      ensures 0 <= i <= |slots| && (forall k :: Taken(slots, k) ==> k < i)
      ensures (forall k :: !Taken(slots, k)) ==> i == 0
    {
      if interactive {
        i := |slots|;
        while i > 0
          invariant 0 <= i <= |slots| && forall k :: Taken(slots, k) ==> k < i
        {
          if slots[i - 1].Some? {
            assert Taken(slots, i - 1);
            break;
          }
          i := i - 1;
        }
      } else {
        i := if lastj != 0 then lastj + 1 else lastj;
        while i < |slots|
          invariant 0 <= i <= |slots| && (forall k :: Taken(slots, k) ==> k <= i)
          invariant (forall k :: !Taken(slots, k)) ==> i == 0
          invariant i > lastj ==> forall k :: Taken(slots, k) ==> k < i
        {
          if slots[i].None? {
            break;
          }
          assert Taken(slots, i);
          i := i + 1;
        }
      }
    }

    method Grow()
      requires Valid()
      modifies this`slots
      ensures Valid() && |slots| == |old(slots)| + JOB_SLOTS && Live(slots) == Live(old(slots))
      ensures forall k :: Taken(slots, k) <==> Taken(old(slots), k)
    {
      ghost var before := slots;
      var more: Slots := seq(JOB_SLOTS, _ => None);
      CountedGrown(slots, njobs, ndead, more);
      slots := slots + more;
      assert forall k :: 0 <= k < |before| ==> slots[k] == before[k];
      assert forall k :: Taken(slots, k) <==> Taken(before, k);
    }

    /** A free slot, if need be after compaction or growth. */
    method MakeRoom(marks: set<int>, mayCompact: bool) returns (i: int, compacted: bool)
      requires Valid()
      modifies this
      ensures Valid() && frozen == old(frozen) && 0 <= i < |slots|
      ensures Live(slots) == Survivors(Live(old(slots)), true, compacted, marks) && (compacted ==> !frozen)
      ensures (forall k :: Taken(slots, k) ==> k < i) && ((forall k :: !Taken(slots, k)) ==> i == 0)
    {
      compacted := false;
      i := FindFree();
      if mayCompact && i == |slots| && |slots| >= MAX_JOBS_IN_ARRAY {
        compacted := !frozen;
        i := CompactJobsList(marks);
      }
      if i == |slots| {
        Grow();
      }
    }

    /** Getting rid of old jobs, and making the first slots. */
    method Prepare()
      requires Valid()
      modifies this
      ensures Valid() && frozen == old(frozen)
      ensures Live(slots) == if frozen then Live(old(slots)) else Keep(Live(old(slots)))
    {
      CleanLive(slots);
      CleanupDeadJobs();
      if |slots| == 0 {
        CountedZero(slots, njobs, ndead);
        Grow();
        firstj, lastj, njobs := 0, 0, 0;
      }
    }

    /** Put a pipeline, its processes in order, into the table as a job. */
    method StopPipeline(procs: seq<Proc>, async: bool, marks: set<int>, mayCompact: bool)
      returns (index: int, compacted: bool)
      requires Valid()
      modifies this
      ensures Valid() && frozen == old(frozen)
      ensures Live(slots) == Survivors(Live(old(slots)), frozen, compacted, marks)
                             + if procs == [] then [] else [Job(procs, StateOf(procs), false, !async)]
      ensures procs != [] ==> Taken(slots, index) && forall k :: Taken(slots, k) ==> k <= index
      ensures procs == [] ==> index == current
    {
      Prepare();
      index, compacted := MakeRoom(marks, mayCompact);
      if procs != [] {
        Install(index, Job(procs, StateOf(procs), false, !async));
      }
      if async {
        ResetCurrent();
      }
      if procs == [] {
        index := current;
      }
    }

    method Install(i: int, newjob: Job)
      requires Valid() && 0 <= i < |slots| && GoodJob(newjob)
      requires (forall k :: Taken(slots, k) ==> k < i) && ((forall k :: !Taken(slots, k)) ==> i == 0)
      modifies this
      ensures Valid() && frozen == old(frozen) && slots == old(slots)[i := Some(newjob)]
            && Live(slots) == Live(old(slots)) + [newjob]
      ensures forall k :: Taken(slots, k) ==> k <= i
    {
      ghost var before := slots;
      assert !Taken(slots, i);
      LiveInstall(slots, i, newjob);
      CountedUpdate(slots, njobs, ndead, i, Some(newjob));
      slots := slots[i := Some(newjob)];
      if newjob.state == JDead {
        ndead := ndead + 1;
      }
      lastj := i;
      njobs := njobs + 1;
      assert forall k :: Taken(slots, k) <==> Taken(before, k) || k == i;
    }

    /** The user has been told of the job's state. */
    method NotifyJob(index: int)
      requires Valid() && Taken(slots, index)
      modifies this`slots, this`ndead
      ensures Valid() && slots == old(slots)[index := Some(old(slots)[index].value.(notified := true))]
    {
      ReplaceJob(index, slots[index].value.(notified := true), false);
    }

    /** find_process: the slot of the first job with a living process of that pid. */
    method FindProcess(pid: int) returns (job: int)
      ensures job == NO_JOB || (Taken(slots, job) && HasAlive(slots[job].value, pid))
      ensures forall k :: 0 <= k < (if job == NO_JOB then |slots| else job) && slots[k].Some? ==>
                !HasAlive(slots[k].value, pid)
    {
      for i := 0 to |slots|
        invariant forall k :: 0 <= k < i && slots[k].Some? ==> !HasAlive(slots[k].value, pid)
      {
        if slots[i].Some? {
          var procs := slots[i].value.procs;
          for k := 0 to |procs|
            invariant forall p :: 0 <= p < k ==> !Lives(procs[p], pid)
          {
            if Lives(procs[k], pid) {
              return i;
            }
          }
        }
      }
      return NO_JOB;
    }

    /** A status report from the kernel; callSetCurrent says that a job stopped or went on. */
    method ChildStatus(pid: int, status: Status) returns (job: int, callSetCurrent: bool, ghost q: nat)
      requires Valid()
      modifies this`slots, this`ndead
      ensures Valid() && Heard(old(slots), slots, pid, status, job, q)
      ensures callSetCurrent <==> job != NO_JOB && Calls(old(slots)[job].value.state, slots[job].value.state)
    {
      q := 0;
      job := FindProcess(pid);
      forall i | Taken(slots, i) ensures HasAlive(slots[i].value, pid) <==> !Silent(slots[i].value, pid) {
        NotSilent(slots[i].value, pid);
      }
      if job == NO_JOB {
        return NO_JOB, false, q;
      }
      var j := slots[job].value;
      var k := FindProc(j.procs, pid);
      q := k;
      var procs := j.procs[k := Proc(pid, status, status.Continued?)];
      NotSilent(j, pid);
      var j', died;
      j', callSetCurrent, died := SetJobStatus(j, procs);
      HeardGood(j, j', pid, status, q);
      ReplaceJob(job, j', died);
    }

    /** The job at index changes; died says that it was alive and is dead now. */
    method ReplaceJob(index: int, j: Job, died: bool)
      requires Valid() && Taken(slots, index) && GoodJob(j)
      requires OneDeath(Some(j)) == OneDeath(slots[index]) + if died then 1 else 0
      modifies this`slots, this`ndead
      ensures Valid() && slots == old(slots)[index := Some(j)] && forall k :: Taken(slots, k) <==> Taken(old(slots), k)
    {
      ghost var before := slots;
      CountedUpdate(slots, njobs, ndead, index, Some(j));
      slots := slots[index := Some(j)];
      if died {
        ndead := ndead + 1;
      }
      assert forall i :: Taken(slots, i) <==> Taken(before, i);
    }

    /** set_job_status_and_cleanup, on the job's new processes. */
    static method SetJobStatus(j: Job, procs: seq<Proc>) returns (j': Job, callSetCurrent: bool, died: bool)
      requires j.state != JDead
      ensures j'.procs == procs && Follows(j.state, procs, j'.state) && (died <==> j'.state == JDead)
      ensures !j'.notified && (j'.foreground <==> j.foreground && j'.state != JStopped)
      ensures callSetCurrent <==> Calls(j.state, j'.state)
    {
      var running, stopped := false, false;
      for i := 0 to |procs|
        invariant running == AnyRunning(procs[..i]) && stopped == AnyStopped(procs[..i])
      {
        assert procs[..i + 1] == procs[..i] + [procs[i]];
        AnyStep(procs, i);
        running := running || procs[i].running;
        stopped := stopped || procs[i].status.StoppedBy?;
      }
      assert procs[..|procs|] == procs;
      if running && j.state != JStopped {
        return Job(procs, j.state, false, j.foreground), false, false;
      }
      if stopped {
        return Job(procs, JStopped, false, false), true, false;
      }
      if running {
        return Job(procs, JRunning, false, j.foreground), true, false;
      }
      return Job(procs, JDead, false, j.foreground), false, true;
    }

    /** waitchld: a batch of reports, then the current job is set again if a job stopped or
        went on. */
    method WaitChild(batch: seq<(int, Status)>) returns (ghost trail: seq<Slots>, ghost hits: seq<(int, nat)>)
      requires Valid()
      modifies this
      ensures Valid() && frozen == old(frozen)
      // Report by report, from the slots before to the slots after.
      ensures Trail(trail, batch, hits) && |hits| == |batch| && trail[0] == old(slots) && trail[|batch|] == slots
      // Nothing is chosen again unless a report stopped a job or sent it on.
      ensures (forall b :: !Stirs(trail, hits, b)) ==>
                current == old(current) && previous == old(previous)
      // A job that the last report stopped becomes the current one.
      ensures batch != [] && Stops(trail, hits, |batch| - 1) ==> current == hits[|batch| - 1].0
      // Jobs have gone on and none has stopped: a stopped job, if there is one, is current.
      ensures (exists b :: Stirs(trail, hits, b)) && (forall b :: !Stops(trail, hits, b)) ==>
                (exists i :: InState(slots, i, JStopped)) ==> InState(slots, current, JStopped)
    {
      var callSetCurrent, lastStopped;
      callSetCurrent, lastStopped, trail, hits := HearAll(batch);
      assert batch != [] && Stops(trail, hits, |batch| - 1) ==> Stirs(trail, hits, |batch| - 1);
      if callSetCurrent {
        if lastStopped != NO_JOB {
          SetCurrentJob(lastStopped);
        } else {
          ResetCurrent();
        }
      }
    }

    /** The loop over the reports. */
    method HearAll(batch: seq<(int, Status)>)
      returns (callSetCurrent: bool, lastStopped: int, ghost trail: seq<Slots>, ghost hits: seq<(int, nat)>)
      requires Valid()
      modifies this`slots, this`ndead
      ensures Valid() && Trail(trail, batch, hits) && |hits| == |batch|
      ensures trail[0] == old(slots) && trail[|batch|] == slots
      ensures Named(slots, lastStopped) && Counsel(trail, hits, callSetCurrent, lastStopped)
    {
      callSetCurrent, lastStopped := false, NO_JOB;
      trail, hits := [slots], [];
      for i := 0 to |batch|
        invariant Valid() && Trail(trail, batch, hits) && |hits| == i && trail[0] == old(slots) && trail[i] == slots
        invariant Named(slots, lastStopped) && Counsel(trail, hits, callSetCurrent, lastStopped)
      {
        var job, call;
        ghost var q;
        job, call, q := ChildStatus(batch[i].0, batch[i].1);
        Extended(trail, batch, hits, slots, job, q);
        ghost var trail0, hits0, call0, last0 := trail, hits, callSetCurrent, lastStopped;
        trail, hits := trail + [slots], hits + [(job, q)];
        if job != NO_JOB {
          callSetCurrent := callSetCurrent || call;
          if slots[job].value.state == JStopped {
            lastStopped := job;
          } else if slots[job].value.state == JDead && lastStopped == job {
            lastStopped := NO_JOB;
          }
        }
        Advise(trail0, hits0, trail, hits, call0, last0, lastStopped);
      }
    }
  }

  /** A job that is stopped, or was and runs again, calls for a new current job. */
  predicate Calls(state: State, state': State) { state' == JStopped || (state == JStopped && state' == JRunning) }

  /** Report b has left the job it went to stopped. */
  ghost predicate Stops(trail: seq<Slots>, hits: seq<(int, nat)>, b: nat) {
    |trail| == |hits| + 1 && b < |hits| && InState(trail[b + 1], hits[b].0, JStopped)
  }

  /** Report b has left its job stopped, or has sent a stopped job on. */
  ghost predicate Stirs(trail: seq<Slots>, hits: seq<(int, nat)>, b: nat) {
    && |trail| == |hits| + 1 && b < |hits|
    && (InState(trail[b + 1], hits[b].0, JStopped)
        || (InState(trail[b], hits[b].0, JStopped) && InState(trail[b + 1], hits[b].0, JRunning)))
  }

  /** What the reports say about the current job. */
  ghost predicate Counsel(trail: seq<Slots>, hits: seq<(int, nat)>, callSetCurrent: bool, lastStopped: int) {
    && (callSetCurrent <==> exists b :: Stirs(trail, hits, b))
    && ((forall b :: !Stops(trail, hits, b)) ==> lastStopped == NO_JOB)
    && (hits != [] && Stops(trail, hits, |hits| - 1) ==> lastStopped == hits[|hits| - 1].0)
  }

  /** One more report. */
  lemma Extended(trail: seq<Slots>, batch: seq<(int, Status)>, hits: seq<(int, nat)>, s: Slots, i: int, q: nat)
    requires Trail(trail, batch, hits) && |hits| < |batch|
    requires Heard(trail[|hits|], s, batch[|hits|].0, batch[|hits|].1, i, q)
    ensures Trail(trail + [s], batch, hits + [(i, q)])
    ensures Advised(trail, hits, trail + [s], hits + [(i, q)])
  {
    var trail', hits' := trail + [s], hits + [(i, q)];
    forall b | 0 <= b < |hits'| ensures HeardAt(trail', batch, hits', b) {
      if b < |hits| {
        assert HeardAt(trail, batch, hits, b);
      }
    }
  }

  /** The reports so far stop and stir what they did. */
  ghost predicate Advised(trail: seq<Slots>, hits: seq<(int, nat)>, trail': seq<Slots>, hits': seq<(int, nat)>) {
    && (forall b :: b != |hits| ==> (Stops(trail', hits', b) <==> Stops(trail, hits, b)))
    && (forall b :: b != |hits| ==> (Stirs(trail', hits', b) <==> Stirs(trail, hits, b)))
  }

  /** What the new report adds. */
  lemma Advise(trail: seq<Slots>, hits: seq<(int, nat)>, trail': seq<Slots>, hits': seq<(int, nat)>, call: bool,
          last: int, last': int)
    requires Counsel(trail, hits, call, last) && Advised(trail, hits, trail', hits') && |hits'| == |hits| + 1
    requires !Stops(trail, hits, |hits|) && !Stirs(trail, hits, |hits|)
    requires if Stops(trail', hits', |hits|) then last' == hits'[|hits|].0 else last' == last || last' == NO_JOB
    ensures Counsel(trail', hits', call || Stirs(trail', hits', |hits|), last')
  {
    if b :| Stirs(trail, hits, b) {
      assert Stirs(trail', hits', b);
    }
  }

  lemma AnyStep(ps: seq<Proc>, i: nat)
    requires i < |ps|
    ensures AnyRunning(ps[..i + 1]) <==> AnyRunning(ps[..i]) || ps[i].running
    ensures AnyStopped(ps[..i + 1]) <==> AnyStopped(ps[..i]) || ps[i].status.StoppedBy?
  {
    var a, b := ps[..i], ps[..i + 1];
    assert forall k :: 0 <= k < i ==> a[k] == b[k];
    assert b[i] == ps[i];
  }

  lemma PackedFits(s: Slots, list: seq<Job>, n: nat)
    requires AllGood(s) && list == Live(s) && |list| < n
    ensures AllGood(Packed(list, n)) && Counted(Packed(list, n), |list|, Deaths(list))
    ensures Ranged(Packed(list, n), 0, if |list| > 0 then |list| - 1 else 0)
    ensures forall i :: Taken(Packed(list, n), i) <==> 0 <= i < |list|
  {
    CountedPacked(list, n);
    LiveGood(s);
    assert forall i :: Taken(Packed(list, n), i) ==> 0 <= i < |list|;
    assert |list| > 0 ==> Taken(Packed(list, n), 0);
  }

  /** n is where the job named by i stands in the list. */
  predicate Moved(s: Slots, i: int, list: seq<Job>, n: int) {
    if i == NO_JOB then n == NO_JOB else Taken(s, i) && 0 <= n < |list| && list[n] == s[i].value
  }

  lemma MovedThere(s: Slots, i: int, list: seq<Job>, n: int, s': Slots)
    requires Moved(s, i, list, n) && forall k :: Taken(s', k) <==> 0 <= k < |list|
    ensures if n == NO_JOB then i == NO_JOB else Taken(s', n)
  {
  }

  /** The first i slots have been gone through. */
  ghost predicate Gathered(s: Slots, current: int, previous: int, i: nat, list: seq<Job>, dead: int, ncur: int,
          nprev: int)
    requires i <= |s|
  {
    forall z: nat {:trigger Show(z)} :: Show(z) ==>
      && list == Live(s[..i]) && dead == Deaths(list)
      && ncur == (if current < i then Place(s, current) else NO_JOB)
      && nprev == (if previous < i then Place(s, previous) else NO_JOB)
  }

  lemma GatherStep(s: Slots, current: int, previous: int, i: nat, list: seq<Job>, dead: int, ncur: int, nprev: int)
    requires i < |s| && Gathered(s, current, previous, i, list, dead, ncur, nprev)
    ensures Gathered(s, current, previous, i + 1, list + In(s[i]), dead + OneDeath(s[i]),
                     if s[i].Some? && i == current then |list| else ncur,
                     if s[i].Some? && i == previous then |list| else nprev)
  {
    assert Show(0);
    LiveStep(s, i);
    DeathsSplit(Live(s[..i]), In(s[i]));
    DeathIn(s[i]);
  }

  lemma GatherEnd(s: Slots, current: int, previous: int, list: seq<Job>, dead: int, ncur: int, nprev: int)
    requires Gathered(s, current, previous, |s|, list, dead, ncur, nprev)
    requires Named(s, current) && Named(s, previous)
    ensures list == Live(s) && dead == Deaths(list) && Moved(s, current, list, ncur) && Moved(s, previous, list, nprev)
  {
    assert Show(0);
    assert s[..|s|] == s;
    if current != NO_JOB {
      LivePlace(s, current);
    }
    if previous != NO_JOB {
      LivePlace(s, previous);
    }
  }

  /** The jobs in order, how many are dead, and where the two named ones go. */
  method Gather(s: Slots, current: int, previous: int) returns (list: seq<Job>, dead: int, ncur: int, nprev: int)
    requires Named(s, current) && Named(s, previous)
    ensures list == Live(s) && dead == Deaths(list) && Moved(s, current, list, ncur) && Moved(s, previous, list, nprev)
  {
    list, dead, ncur, nprev := [], 0, NO_JOB, NO_JOB;
    for i := 0 to |s|
      invariant Gathered(s, current, previous, i, list, dead, ncur, nprev)
    {
      GatherStep(s, current, previous, i, list, dead, ncur, nprev);
      if s[i].Some? {
        if i == current {
          ncur := |list|;
        }
        if i == previous {
          nprev := |list|;
        }
        list := list + [s[i].value];
        if s[i].value.state == JDead {
          dead := dead + 1;
        }
      } else {
        assert list + [] == list;
      }
    }
    GatherEnd(s, current, previous, list, dead, ncur, nprev);
  }

  // ----- whole runs -----

  /** What can happen to the table: a pipeline becomes a job, a job is forgotten, children
      report, the user is told of a job, dead jobs are cleared away, the table is frozen. */
  datatype Event =
    | Pipeline(procs: seq<Proc>, async: bool, marks: set<int>, mayCompact: bool)
    | Forget(index: int)
    | Reports(batch: seq<(int, Status)>)
    | Notify(index: int)
    | Cleanup
    | Reap(marks: set<int>)
    | Freeze(on: bool)

  method Handle(t: Table, event: Event)
    requires t.Valid()
    modifies t
    ensures t.Valid()
  {
    match event
    case Pipeline(procs, async, marks, mayCompact) =>
      var index, compacted := t.StopPipeline(procs, async, marks, mayCompact);
    case Forget(index) =>
      if 0 <= index < |t.slots| {
        t.DeleteJob(index);
      }
    case Reports(batch) =>
      ghost var trail, hits := t.WaitChild(batch);
    case Notify(index) =>
      if 0 <= index < |t.slots| && t.slots[index].Some? {
        t.NotifyJob(index);
      }
    case Cleanup => t.CleanupDeadJobs();
    case Reap(marks) => t.ReapDeadJobs(marks);
    case Freeze(on) => t.frozen := on;
  }

  /** In every run: the counters are exact, the bounds hold all jobs, every job's state is
      that of its processes, and the current and previous job are there. */
  method Run(interactive: bool, events: seq<Event>)
    returns (slots: Slots, firstj: int, lastj: int, njobs: int, ndead: int, current: int, previous: int)
    ensures njobs == |set i | 0 <= i < |slots| && slots[i].Some?|
    ensures ndead == |set i | 0 <= i < |slots| && slots[i].Some? && slots[i].value.state == JDead|
    ensures Ranged(slots, firstj, lastj)
    ensures AllGood(slots) && Named(slots, current) && Named(slots, previous)
  {
    var t := new Table(interactive);
    for i := 0 to |events|
      invariant t.Valid() && fresh(t)
    {
      Handle(t, events[i]);
    }
    slots, firstj, lastj, njobs, ndead := t.slots, t.firstj, t.lastj, t.njobs, t.ndead;
    current, previous := t.current, t.previous;
    CountedIs(slots, njobs, ndead);
    CountSlots(slots);
  }
}
