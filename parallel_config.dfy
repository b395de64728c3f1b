/**
 * lenskit's process-wide parallelism configuration: how the process, thread
 * and child-thread counts are resolved from explicit arguments, environment
 * variables and the CPU count, and the first-call-wins module state around it.
 * The environment and the CPU count are inputs here.
 */
module Parallel {
  import opened Results
  import opened PyInt

  datatype ParallelConfig = ParallelConfig(processes: int, threads: int, childThreads: int)

  /** The keyword arguments of `initialize`; `None` when not given. */
  datatype Args = Args(processes: Option<int>, threads: Option<int>, childThreads: Option<int>)

  const NoArgs: Args := Args(None, None, None)

  /** `LK_NUM_PROCS`, `LK_NUM_THREADS`, `LK_NUM_CHILD_THREADS`; `None` when unset. */
  datatype Env = Env(numProcs: Option<string>, numThreads: Option<string>, numChildThreads: Option<string>)

  const EmptyEnv: Env := Env(None, None, None)

  /** What resolution raises: `int()` on a malformed variable, or `ncpus // 0`. */
  datatype ConfigError = ValueError(variable: string) | ZeroDivisionError

  /** Python truthiness of the value of an environment variable: set and non-empty. */
  predicate Truthy(v: Option<string>) {
    v.Some? && v.value != ""
  }

  /** One `if arg is None and env: arg = int(env)` step. */
  function FromEnv(arg: Option<int>, v: Option<string>, name: string): (r: Result<Option<int>, ConfigError>)
    ensures arg.Some? || !Truthy(v) ==> r == Ok(arg)
    ensures r.Err? <==> arg.None? && Truthy(v) && ParseInt(v.value).None?
    ensures r.Err? ==> r.error == ValueError(name)
    ensures r.Ok? && arg.None? && Truthy(v) ==> r.value == ParseInt(v.value)
  {
    if arg.None? && Truthy(v) then
      match ParseInt(v.value)
      case Some(n) => Ok(Some(n))
      case None => Err(ValueError(name))
    else Ok(arg)
  }

  /** `_resolve_parallel_config`. */
  function Resolve(args: Args, env: Env, ncpus: nat): (r: Result<ParallelConfig, ConfigError>)
    ensures r.Err? ==> r.error in {ValueError("LK_NUM_PROCS"), ValueError("LK_NUM_THREADS"),
                                   ValueError("LK_NUM_CHILD_THREADS"), ZeroDivisionError}
    ensures args.processes.Some? && args.threads.Some? && args.childThreads.Some? ==>
      r == Ok(ParallelConfig(args.processes.value, args.threads.value, args.childThreads.value))
  {
    match FromEnv(args.processes, env.numProcs, "LK_NUM_PROCS")
    case Err(e) => Err(e)
    case Ok(p) =>
      match FromEnv(args.threads, env.numThreads, "LK_NUM_THREADS")
      case Err(e) => Err(e)
      case Ok(t) =>
        match FromEnv(args.childThreads, env.numChildThreads, "LK_NUM_CHILD_THREADS")
        case Err(e) => Err(e)
        case Ok(c) =>
          var processes := if p.Some? then p.value else Min(ncpus, 4);
          var threads := if t.Some? then t.value else Min(ncpus, 8);
          if c.Some? then Ok(ParallelConfig(processes, threads, c.value))
          else if processes == 0 then Err(ZeroDivisionError)
          else Ok(ParallelConfig(processes, threads, Min(FloorDiv(ncpus, processes), 4)))
  }

  /** Where each count comes from: the argument, else a non-empty variable, else none yet. */
  function Given(arg: Option<int>, v: Option<string>): Option<int> {
    if arg.Some? then arg
    else if Truthy(v) then ParseInt(v.value)
    else None
  }

  /** No variable that is consulted is malformed. */
  predicate Parses(args: Args, env: Env) {
    && (args.processes.None? && Truthy(env.numProcs) ==> ParseInt(env.numProcs.value).Some?)
    && (args.threads.None? && Truthy(env.numThreads) ==> ParseInt(env.numThreads.value).Some?)
    && (args.childThreads.None? && Truthy(env.numChildThreads) ==> ParseInt(env.numChildThreads.value).Some?)
  }

  /**
   * Precedence: an explicit argument wins, a set, non-empty variable comes
   * next, and only then the CPU-based default. Resolution fails exactly when
   * a consulted variable is malformed or the child-thread default divides by
   * a zero process count.
   */
  lemma ResolvePrecedence(args: Args, env: Env, ncpus: nat)
    ensures var r := Resolve(args, env, ncpus);
      var p := Given(args.processes, env.numProcs);
      var t := Given(args.threads, env.numThreads);
      var c := Given(args.childThreads, env.numChildThreads);
      var processes := if p.Some? then p.value else Min(ncpus, 4);
      && (r.Ok? <==> Parses(args, env) && (c.Some? || processes != 0))
      && (r.Ok? ==>
            && r.value.processes == processes
            && r.value.threads == (if t.Some? then t.value else Min(ncpus, 8))
            && r.value.childThreads == (if c.Some? then c.value else Min(FloorDiv(ncpus, processes), 4)))
  {
  }

  /** The three variables are read in order and the first malformed one is reported. */
  lemma MalformedVariableRaises(args: Args, env: Env, ncpus: nat)
    requires args.processes.None? && Truthy(env.numProcs) && ParseInt(env.numProcs.value).None?
    ensures Resolve(args, env, ncpus) == Err(ValueError("LK_NUM_PROCS"))
  {
  }

  lemma FromEnvEmpty(arg: Option<int>, name: string)
    ensures FromEnv(arg, Some(""), name) == FromEnv(arg, None, name)
  {
  }

  /** An empty variable is treated as unset. */
  lemma EmptyVariableIgnored(args: Args, env: Env, ncpus: nat)
    ensures Resolve(args, env.(numProcs := Some("")), ncpus) == Resolve(args, env.(numProcs := None), ncpus)
    ensures Resolve(args, env.(numThreads := Some("")), ncpus) == Resolve(args, env.(numThreads := None), ncpus)
    ensures Resolve(args, env.(numChildThreads := Some("")), ncpus) == Resolve(args, env.(numChildThreads := None), ncpus)
  {
    FromEnvEmpty(args.processes, "LK_NUM_PROCS");
    FromEnvEmpty(args.threads, "LK_NUM_THREADS");
    FromEnvEmpty(args.childThreads, "LK_NUM_CHILD_THREADS");
  }

  lemma FloorDivPositive(a: int, b: int)
    requires 0 < b <= a
    ensures FloorDiv(a, b) >= 1
  {
  }

  lemma FloorDivSmall(a: int, b: int)
    requires 0 <= a < b
    ensures FloorDiv(a, b) == 0
  {
  }

  /**
   * With no arguments and no variables: processes is min(ncpus, 4), threads
   * min(ncpus, 8), and child threads between 1 and 4; on a machine reporting
   * no CPU the child-thread default divides by zero.
   */
  lemma DefaultsBounded(ncpus: nat)
    ensures ncpus == 0 ==> Resolve(NoArgs, EmptyEnv, ncpus) == Err(ZeroDivisionError)
    ensures ncpus > 0 ==> Resolve(NoArgs, EmptyEnv, ncpus).Ok?
    ensures Resolve(NoArgs, EmptyEnv, ncpus).Ok? ==>
      var c := Resolve(NoArgs, EmptyEnv, ncpus).value;
      && c.processes == Min(ncpus, 4) && 1 <= c.processes <= ncpus && c.processes <= 4
      && c.threads == Min(ncpus, 8) && 1 <= c.threads <= ncpus && c.threads <= 8
      && 1 <= c.childThreads <= 4
  {
    if ncpus > 0 {
      FloorDivPositive(ncpus, Min(ncpus, 4));
    }
  }

  /**
   * The child-thread default `min(ncpus // processes, 4)` is at most 4, and is
   * at least 1 exactly when 0 < processes <= ncpus: more processes than CPUs
   * give 0 child threads, a negative process count a negative one.
   */
  lemma ChildThreadsDefault(args: Args, env: Env, ncpus: nat)
    requires Given(args.childThreads, env.numChildThreads).None?
    requires Resolve(args, env, ncpus).Ok?
    ensures var c := Resolve(args, env, ncpus).value;
      && c.childThreads <= 4
      && (c.childThreads >= 1 <==> 0 < c.processes <= ncpus)
      && (0 <= ncpus < c.processes ==> c.childThreads == 0)
  {
    ResolvePrecedence(args, env, ncpus);
    var c := Resolve(args, env, ncpus).value;
    if 0 < c.processes <= ncpus {
      FloorDivPositive(ncpus, c.processes);
    } else if ncpus < c.processes {
      FloorDivSmall(ncpus, c.processes);
    } else {
      assert c.processes < 0;
      assert FloorDiv(ncpus, c.processes) * c.processes >= ncpus;
    }
  }

  /** A process count of 0 with no child-thread count divides by zero. */
  lemma ZeroProcessesRaise(args: Args, env: Env, ncpus: nat)
    requires Parses(args, env)
    requires Given(args.processes, env.numProcs) == Some(0)
    requires Given(args.childThreads, env.numChildThreads).None?
    ensures Resolve(args, env, ncpus) == Err(ZeroDivisionError)
  {
    ResolvePrecedence(args, env, ncpus);
  }

  /** What a call to `initialize` did. */
  datatype InitOutcome =
    | AlreadyInitialized              // logged "parallelism already initialized"
    | Configured(config: ParallelConfig)
    | Failed(error: ConfigError)      // resolution raised

  /** The module state: the global `_config`. */
  class ParallelRuntime {
    var config: Option<ParallelConfig>

    /** A freshly imported module: nothing configured. */
    constructor()
      ensures config == None
    {
      config := None;
    }

    /** `initialize(...)`: only the first successful call sets the configuration. */
    method Initialize(args: Args, env: Env, ncpus: nat) returns (outcome: InitOutcome)
      modifies this
      ensures old(config).Some? ==> config == old(config) && outcome == AlreadyInitialized
      ensures old(config).None? ==>
        match Resolve(args, env, ncpus)
        case Ok(c) => config == Some(c) && outcome == Configured(c)
        case Err(e) => config == None && outcome == Failed(e)
    {
      if config.Some? {
        return AlreadyInitialized;
      }
      var r := Resolve(args, env, ncpus);
      match r {
        case Err(e) =>
          return Failed(e);
        case Ok(c) =>
          config := Some(c);
          return Configured(c);
      }
    }

    /** `ensure_parallel_init()`: configures with defaults only when unset. */
    method EnsureParallelInit(env: Env, ncpus: nat) returns (error: Option<ConfigError>)
      modifies this
      ensures old(config).Some? ==> config == old(config) && error == None
      ensures old(config).None? ==>
        match Resolve(NoArgs, env, ncpus)
        case Ok(c) => config == Some(c) && error == None
        case Err(e) => config == None && error == Some(e)
    {
      error := None;
      if config.None? {
        var outcome := Initialize(NoArgs, env, ncpus);
        if outcome.Failed? {
          error := Some(outcome.error);
        }
      }
    }

    /** `get_parallel_config()`: the configuration, set with defaults on first use. */
    method GetParallelConfig(env: Env, ncpus: nat) returns (r: Result<ParallelConfig, ConfigError>)
      modifies this
      ensures r.Ok? ==> config == Some(r.value)
      ensures r.Err? ==> config == old(config) == None
      ensures old(config).Some? ==> config == old(config) && r == Ok(old(config).value)
      ensures old(config).None? ==> r == Resolve(NoArgs, env, ncpus)
    {
      var error := EnsureParallelInit(env, ncpus);
      if error.Some? {
        return Err(error.value);
      }
      return Ok(config.value);
    }
  }
}
