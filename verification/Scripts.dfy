/** Whole scripts: the interpreter with its counters and flags does what the structured
    meaning says, leaves no signal pending, and under `set -e` ends where it should. */
module Scripts {
  import opened Commands
  import opened Structured
  import opened Shapes
  import opened CopiedTrees
  import opened Execute
  import opened QuietTests
  import opened PendingSignals
  import opened ErrExit

  function Meaning(env: Env, c: Cmd, fuel: nat): Result { Sem(env, c, false, 0, [], fuel) }

  method RunScript(env: Env, base: nat, c: Cmd, fuel: nat, ghost quiet: set<string>)
    returns (status: int, flow: Flow, history: History, pending: bool)
    requires env.stop == env.errexit && !env.uniform && WellFormed(c) && Below(c, base)
    requires forall f :: f in env.funcs ==> WellFormed(env.funcs[f]) && Below(env.funcs[f], base)
    // It does what the script means.
    ensures var r := Meaning(env, c, fuel);
            && status == r.status && history == r.history
            && flow == (if r.signal.Exits? then Exited else if r.signal.OutOfFuel? then Starved else Running)
            && (flow.Running? ==> (pending <==> !r.signal.Go?))
    // A signal outlives the script exactly when a test ends its loop while continuing all loops.
    ensures flow.Running? ==> (pending <==> Overruns(env, c, false, 0, [], fuel))
    // With no continue in loop tests nothing is left pending, and tests are like bodies.
    ensures QuietTable(env, quiet) && Quiet(c, env, quiet) ==>
              (flow.Running? ==> !pending) && Meaning(env, c, fuel) == Meaning(Uniformly(env), c, fuel)
    // Under set -e the run is cut at the first failure that is not ignored.
    ensures env.errexit ==>
              var full := Meaning(WithoutExit(env), c, fuel).history;
              && (flow.Exited? <==> exists k :: 0 <= k < |full| && Fatal(full[k]))
              && history == (if flow.Exited? then full[..FirstFatal(full, 0) + 1] else full)
  {
    var shell := new Shell(env, base);
    NoFlags({}, c, base, base);
    var copy := shell.CopyCommand(c);
    assert shell.flags == {};
    WithinNone(copy, false, env.errexit);
    SameShape(env, c, copy, false, 0, [], fuel);
    status, flow := shell.ExecuteCommand(copy, false, fuel);
    history, pending := shell.history, shell.breaking > 0 || shell.continuing > 0;
    SemExact(env, c, false, 0, [], fuel);
    if QuietTable(env, quiet) && Quiet(c, env, quiet) {
      TameSem(env, quiet, c, false, 0, [], fuel);
    }
    if env.errexit {
      assert WithExit(env) == env;
      CutScript(env, c, fuel);
    }
  }

  lemma CutScript(env: Env, c: Cmd, fuel: nat)
    ensures var full, r := Meaning(WithoutExit(env), c, fuel), Meaning(WithExit(env), c, fuel);
            && (r.signal.Exits? <==> exists k :: 0 <= k < |full.history| && Fatal(full.history[k]))
            && r.history == (if r.signal.Exits? then full.history[..FirstFatal(full.history, 0) + 1] else full.history)
  {
    var full, r := Meaning(WithoutExit(env), c, fuel), Meaning(WithExit(env), c, fuel);
    EndsAtFirstFailure(env, c, fuel, full, r);
    if r.signal.Exits? {
      FirstFatalIs(full.history, 0, |r.history| - 1);
    }
  }
}
