/** The four files of a configuration transaction and the flash operations on them, each of which
    may fail or be cut off.

    Renames and removals are atomic: they take effect or they do not.  Writing the candidate is
    not: it may leave a partial file.  Operations persist in program order, and what is stored is
    what a later boot reads. */
module Flash {

  /** A configuration that loads and validates, known by its contents. */
  type Config = nat

  datatype Slot =
    | Absent
    | Invalid              // present, but does not load or validate
    | Valid(config: Config)

  datatype Path = ConfigJson | Tmp | Old | Cleanup

  /** config.json, config.json.tmp, config.json.old (`backup`) and config.json.cleanup. */
  datatype Files = Files(config: Slot, tmp: Slot, backup: Slot, cleanup: Slot) {

    function At(p: Path): Slot {
      match p
      case ConfigJson => config
      case Tmp => tmp
      case Old => backup
      case Cleanup => cleanup
    }

    function With(p: Path, s: Slot): Files {
      match p
      case ConfigJson => this.(config := s)
      case Tmp => this.(tmp := s)
      case Old => this.(backup := s)
      case Cleanup => this.(cleanup := s)
    }

    function Moved(from: Path, to: Path): Files {
      With(to, At(from)).With(from, Absent)
    }
  }

  /** config.json holding `c`, and nothing else: the steady state. */
  function Only(c: Config): Files { Files(Valid(c), Absent, Absent, Absent) }

  datatype Progress = Nothing | Part | All

  /** What befalls one flash operation. */
  datatype Fault =
    | Fine
    | Corrupts                      // a write that returns but leaves an unreadable file
    | Raises(progress: Progress)    // OSError, with no, some or all of the effect
    | Stops(progress: Progress)     // power loss, or a MemoryError that resets the board

  /** The faults to come, in order; when none are left every operation is fine. */
  datatype Faults = Calm | Next(fault: Fault, later: Faults) {
    function Head(): Fault { if Calm? then Fine else fault }
    function Tail(): Faults { if Calm? then Calm else later }
  }

  datatype Op =
    | Stat(p: Path)                 // os.stat
    | RemoveIfExists(p: Path)       // os.stat, then os.remove when present
    | Rename(from: Path, to: Path)
    | WriteTmp(c: Config)
    | Load(p: Path)                 // load_config: an unreadable or invalid file is a ConfigError
    | Sync

  datatype Ending = Ok | OsError | ConfigError | Halted

  datatype Run = Run(end: Ending, files: Files, faults: Faults)

  /** An operation that either takes effect, turning `f` into `g`, or does not. */
  function Atomic(f: Files, g: Files, faults: Faults): Run {
    match faults.Head()
    case Fine => Run(Ok, g, faults.Tail())
    case Corrupts => Run(Ok, g, faults.Tail())
    case Raises(p) => Run(OsError, if p.All? then g else f, faults.Tail())
    case Stops(p) => Run(Halted, if p.All? then g else f, faults.Tail())
  }

  function Written(f: Files, c: Config, p: Progress): Files {
    match p
    case Nothing => f
    case Part => f.(tmp := Invalid)
    case All => f.(tmp := Valid(c))
  }

  function Step(op: Op, f: Files, faults: Faults): Run {
    match op
    case Stat(_) => Atomic(f, f, faults)
    case Sync => Atomic(f, f, faults)
    case RemoveIfExists(p) =>
      var stat := Atomic(f, f, faults);
      if stat.end != Ok || f.At(p).Absent? then stat else Atomic(f, f.With(p, Absent), stat.faults)
    case Rename(from, to) => Atomic(f, f.Moved(from, to), faults)
    case WriteTmp(c) =>
      (match faults.Head()
       case Fine => Run(Ok, Written(f, c, All), faults.Tail())
       case Corrupts => Run(Ok, Written(f, c, Part), faults.Tail())
       case Raises(p) => Run(OsError, Written(f, c, p), faults.Tail())
       case Stops(p) => Run(Halted, Written(f, c, p), faults.Tail()))
    case Load(p) =>
      (match faults.Head()
       case Raises(_) => Run(ConfigError, f, faults.Tail())
       case Stops(_) => Run(Halted, f, faults.Tail())
       case _ => Run(if f.At(p).Valid? then Ok else ConfigError, f, faults.Tail()))
  }

  /** Operations in a row; the first that does not return ends the row. */
  datatype Plan = End | Then(op: Op, rest: Plan)

  function Exec(plan: Plan, f: Files, faults: Faults): Run {
    match plan
    case End => Run(Ok, f, faults)
    case Then(op, rest) =>
      var r := Step(op, f, faults);
      if r.end == Ok then Exec(rest, r.files, r.faults) else r
  }

  /** `inv` holds wherever the plan may be cut off, and `post` where it runs to its end. */
  ghost predicate Along(plan: Plan, f: Files, inv: Files -> bool, post: Files -> bool) {
    && inv(f)
    && match plan
       case End => post(f)
       case Then(Stat(_), rest) => Along(rest, f, inv, post)
       case Then(Sync, rest) => Along(rest, f, inv, post)
       case Then(RemoveIfExists(p), rest) => Along(rest, f.With(p, Absent), inv, post)
       case Then(Rename(from, to), rest) => Along(rest, f.Moved(from, to), inv, post)
       case Then(WriteTmp(c), rest) =>
         Along(rest, Written(f, c, Part), inv, post) && Along(rest, Written(f, c, All), inv, post)
       case Then(Load(p), rest) => f.At(p).Valid? ==> Along(rest, f, inv, post)
  }

  lemma {:induction false} AlongStep(plan: Plan, f: Files, faults: Faults, inv: Files -> bool, post: Files -> bool)
    requires plan.Then? && Along(plan, f, inv, post)
    ensures var r := Step(plan.op, f, faults);
            inv(r.files) && (r.end == Ok ==> Along(plan.rest, r.files, inv, post))
  {
  }

  lemma {:induction false} ExecAlong(plan: Plan, f: Files, faults: Faults, inv: Files -> bool, post: Files -> bool)
    requires Along(plan, f, inv, post)
    ensures var r := Exec(plan, f, faults);
            inv(r.files) && (r.end == Ok ==> post(r.files))
  {
    match plan {
      case End =>
      case Then(op, rest) =>
        var r := Step(op, f, faults);
        AlongStep(plan, f, faults, inv, post);
        if r.end == Ok {
          ExecAlong(rest, r.files, r.faults, inv, post);
        }
    }
  }

  predicate NoLoads(plan: Plan) {
    plan.End? || (!plan.op.Load? && NoLoads(plan.rest))
  }

  /** With no faults to come, every operation but a load returns. */
  lemma {:induction false} CalmExec(plan: Plan, f: Files)
    requires NoLoads(plan)
    ensures Exec(plan, f, Calm).end == Ok && Exec(plan, f, Calm).faults == Calm
  {
    match plan {
      case End =>
      case Then(op, rest) => CalmExec(rest, Step(op, f, Calm).files);
    }
  }
}
