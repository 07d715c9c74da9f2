/** The chain of processes of a pipeline: built newest first as a circle, turned round in
    place when the pipeline becomes a job, and walked for the job's exit status. */
module JobChain {
  import opened JobSpec

  class Process {
    var next: Process?
    var pid: int
    var status: Status

    constructor (pid: int, next: Process?)
      ensures this.pid == pid && this.next == next && status == Exited(0)
    {
      this.pid, this.next, status := pid, next, Exited(0);
    }
  }

  ghost predicate Unique(es: seq<Process>) { forall i, j :: 0 <= i < j < |es| ==> es[i] != es[j] }

  /** Each element from lo on points to the one after it. */
  ghost predicate Linked(es: seq<Process>, lo: nat)
    reads es
  {
    forall i, j :: lo <= i < j < |es| && j == i + 1 ==> es[i].next == es[j]
  }

  /** A circle that starts at p. */
  ghost predicate Circle(p: Process?, es: seq<Process>)
    reads es
  {
    if es == [] then p == null else p == es[0] && Linked(es, 0) && es[|es| - 1].next == p && Unique(es)
  }

  /** A list that starts at p and ends with a null pointer. */
  ghost predicate List(p: Process?, es: seq<Process>)
    reads es
  {
    if es == [] then p == null else p == es[0] && Linked(es, 0) && es[|es| - 1].next == null && Unique(es)
  }

  function Reversed<T>(s: seq<T>): (r: seq<T>)
    ensures |r| == |s| && forall i :: 0 <= i < |s| ==> r[i] == s[|s| - 1 - i]
  {
    seq(|s|, i requires 0 <= i < |s| => s[|s| - 1 - i])
  }

  lemma ReversedUnique(es: seq<Process>)
    requires Unique(es)
    ensures Unique(Reversed(es))
  {
  }

  /** The last process of a chain: the one before `end`. */
  method LastOf(p: Process, ghost es: seq<Process>, end: Process?) returns (last: Process)
    requires es != [] && p == es[0] && Linked(es, 0) && Unique(es) && es[|es| - 1].next == end
    requires forall i :: 0 < i < |es| ==> es[i] != end
    ensures last == es[|es| - 1]
  {
    last := p;
    ghost var k := 0;
    while last.next != end
      invariant k < |es| && last == es[k] && last.next == (if k + 1 < |es| then es[k + 1] else end)
      decreases |es| - k
    {
      last, k := last.next, k + 1;
    }
  }

  /** add_process: the new process goes in front. */
  method AddProcess(thePipeline: Process?, ghost es: seq<Process>, pid: int) returns (t: Process)
    requires Circle(thePipeline, es)
    modifies es
    ensures Circle(t, [t] + es) && t.pid == pid && fresh(t) && t.status == Exited(0)
    ensures forall i :: 0 <= i < |es| ==> es[i].pid == old(es[i].pid) && es[i].status == old(es[i].status)
  {
    t := new Process(pid, thePipeline);
    if t.next == null {
      t.next := t;
    } else {
      var p := LastOf(t.next, es, thePipeline);
      p.next := t;
    }
  }

  /** list_reverse, on a chain of processes. */
  method ListReverse(start: Process?, ghost es: seq<Process>) returns (prev: Process?)
    requires List(start, es)
    modifies es`next
    ensures List(prev, Reversed(es))
  {
    var list := start;
    prev := null;
    ghost var k := 0;
    while list != null
      invariant 0 <= k <= |es| && list == (if k < |es| then es[k] else null)
      invariant prev == (if k > 0 then es[k - 1] else null)
      invariant forall i, j :: 0 <= i < j < k && j == i + 1 ==> es[j].next == es[i]
      invariant (k > 0 ==> es[0].next == null) && Linked(es, k) && (k < |es| ==> es[|es| - 1].next == null)
      decreases |es| - k
    {
      if k + 1 < |es| {
        assert es[k].next == es[k + 1];
      }
      var next := list.next;
      list.next := prev;
      prev, list, k := list, next, k + 1;
    }
    ReversedUnique(es);
    ghost var r := Reversed(es);
    forall i, j | 0 <= i < j < |r| && j == i + 1 ensures r[i].next == r[j] {
      assert r[i] == es[|es| - 1 - i] && r[j] == es[|es| - 1 - j];
    }
  }

  /** The part of stop_pipeline that turns the chain into the job's: cut open, reversed, and
      closed again. */
  method MakePipe(thePipeline: Process, ghost es: seq<Process>) returns (pipe: Process)
    requires es != [] && Circle(thePipeline, es)
    modifies es`next
    ensures Circle(pipe, Reversed(es))
  {
    var p := LastOf(thePipeline, es, thePipeline);
    p.next := null;
    var list := ListReverse(thePipeline, es);
    pipe := list;
    ghost var r := Reversed(es);
    p := LastOf(pipe, r, null);
    p.next := pipe;
  }

  // ----- exit statuses -----

  /** How the processes of a chain ended. */
  ghost function Statuses(es: seq<Process>): (s: seq<Status>)
    reads es
    ensures |s| == |es| && forall i :: 0 <= i < |es| ==> s[i] == es[i].status
  {
    seq(|es|, i requires 0 <= i < |es| reads es => es[i].status)
  }

  /** process_exit_status. */
  function ExitCode(s: Status): int {
    match s
    case Signaled(signal) => 128 + signal
    case Exited(code) => code
    case StoppedBy(_) => 0
    case Continued => 255
  }

  /** The process at k decides the status of the pipeline: the last one, or with pipefail the
      rightmost one that does not end with success, if there is one. */
  ghost predicate Decides(ss: seq<Status>, pipefail: bool, k: nat) {
    && k < |ss|
    && (!pipefail ==> k == |ss| - 1)
    && (pipefail ==> forall i :: k < i < |ss| ==> ss[i] == Exited(0))
    && (pipefail && ss[k] == Exited(0) ==> forall i :: 0 <= i < k ==> ss[i] == Exited(0))
  }

  /** raw_job_exit_status. */
  method RawJobExitStatus(pipe: Process, ghost es: seq<Process>, pipefail: bool) returns (ret: Status, ghost d: nat)
    requires es != [] && Circle(pipe, es)
    ensures Decides(Statuses(es), pipefail, d) && ret == es[d].status
    ensures !pipefail ==> ret == es[|es| - 1].status
    ensures pipefail ==>
              || (ret == Exited(0) && forall i :: 0 <= i < |es| ==> es[i].status == Exited(0))
              || (ret != Exited(0) && d < |es| && ret == es[d].status
                  && forall i :: d < i < |es| ==> es[i].status == Exited(0))
  {
    d := |es| - 1;
    if !pipefail {
      var last := LastOf(pipe, es, pipe);
      return last.status, d;
    }
    ret := Exited(0);
    var p := pipe;
    ghost var k := 0;
    while true
      invariant k < |es| && p == es[k] && d < |es|
      invariant forall i :: 0 <= i < k && (ret == Exited(0) || d < i) ==> es[i].status == Exited(0)
      invariant ret != Exited(0) ==> d < k && ret == es[d].status
      decreases |es| - k
    {
      if p.status != Exited(0) {
        ret, d := p.status, k;
      }
      if k + 1 < |es| {
        assert es[k].next == es[k + 1];
      }
      p, k := p.next, k + 1;
      if p == pipe {
        break;
      }
    }
    if ret == Exited(0) {
      d := |es| - 1;
    }
  }

  /** setjstatus: the values of PIPESTATUS. */
  method PipeStatuses(pipe: Process, ghost es: seq<Process>) returns (codes: seq<int>)
    requires es != [] && Circle(pipe, es)
    ensures |codes| == |es| && forall i :: 0 <= i < |es| ==> codes[i] == ExitCode(es[i].status)
  {
    codes := [];
    var p := pipe;
    ghost var k := 0;
    while true
      invariant k < |es| && p == es[k] && |codes| == k && forall i :: 0 <= i < k ==> codes[i] == ExitCode(es[i].status)
      decreases |es| - k
    {
      codes := codes + [ExitCode(p.status)];
      if k + 1 < |es| {
        assert es[k].next == es[k + 1];
      }
      p, k := p.next, k + 1;
      if p == pipe {
        break;
      }
    }
  }

  /** A process that has been made and has ended. */
  method AddEnded(thePipeline: Process?, ghost es: seq<Process>, pid: int, end: Status) returns (t: Process)
    requires Circle(thePipeline, es)
    modifies es
    ensures Circle(t, [t] + es) && fresh(t) && t.status == end
    ensures forall i :: 0 <= i < |es| ==> es[i].status == old(es[i].status)
  {
    t := AddProcess(thePipeline, es, pid);
    assert forall i :: 0 <= i < |es| ==> es[i] != t;
    t.status := end;
    ghost var es' := [t] + es;
    assert Linked(es', 0);
  }

  /** Processes made in the order given, ending with the statuses given: newest first. */
  method MakeProcesses(pids: seq<int>, ends: seq<Status>) returns (thePipeline: Process?, ghost es: seq<Process>)
    requires |ends| == |pids|
    ensures Circle(thePipeline, es) && |es| == |pids| && (forall k :: 0 <= k < |es| ==> fresh(es[k]))
    ensures forall k :: 0 <= k < |es| ==> es[k].status == ends[|es| - 1 - k]
  {
    thePipeline, es := null, [];
    for i := 0 to |pids|
      invariant Circle(thePipeline, es) && |es| == i && (forall k :: 0 <= k < i ==> fresh(es[k]))
      invariant forall k :: 0 <= k < i ==> es[k].status == ends[i - 1 - k]
    {
      ghost var before := es;
      thePipeline := AddEnded(thePipeline, es, pids[i], ends[i]);
      es := [thePipeline] + es;
      assert forall k :: 0 < k <= i ==> es[k] == before[k - 1];
    }
  }

  /** A whole pipeline: the job's status and PIPESTATUS see its processes in the order in
      which they were made. */
  method RunPipeline(pids: seq<int>, ends: seq<Status>, pipefail: bool)
    returns (status: int, codes: seq<int>, ghost d: nat)
    requires pids != [] && |ends| == |pids|
    ensures Decides(ends, pipefail, d)
    ensures ends[d].Exited? ==> status == ends[d].code
    ensures ends[d].Signaled? ==> status == 128 + ends[d].signal
    ensures ends[d].StoppedBy? ==> status == 0
    ensures |codes| == |ends|
    ensures forall i :: 0 <= i < |ends| && ends[i].Exited? ==> codes[i] == ends[i].code
    ensures forall i :: 0 <= i < |ends| && ends[i].Signaled? ==> codes[i] == 128 + ends[i].signal
    ensures forall i :: 0 <= i < |ends| && ends[i].StoppedBy? ==> codes[i] == 0
  {
    var thePipeline, es := MakeProcesses(pids, ends);
    var pipe := MakePipe(thePipeline, es);
    ghost var made := Reversed(es);
    assert Statuses(made) == ends;
    var raw;
    raw, d := RawJobExitStatus(pipe, made, pipefail);
    assert raw == Statuses(made)[d];
    status := ExitCode(raw);
    codes := PipeStatuses(pipe, made);
  }
}
