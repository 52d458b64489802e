/** The crash-safe write-config transaction of config_manager.py: boot recovery, the promotion of a
    candidate with its rollback, and what survives any power loss or storage fault. */
module ConfigTransaction {
  import opened Common
  import opened Flash

  // ---------------------------------------------------------------------------------------
  // What recover() and begin_write() do, as plans of flash operations
  // ---------------------------------------------------------------------------------------

  /** Where boot recovery takes the configuration from. */
  datatype Source =
    | Committed       // .cleanup present and config.json valid
    | FromCleanup     // .cleanup present and valid, config.json not
    | FromOld
    | Plain           // config.json
    | FromTmp
    | Nowhere

  function Choose(f: Files): Source {
    if f.cleanup != Absent && f.config.Valid? then Committed
    else if f.cleanup.Valid? then FromCleanup
    else if f.backup.Valid? then FromOld
    else if f.config.Valid? then Plain
    else if f.tmp.Valid? then FromTmp
    else Nowhere
  }

  function PathOf(s: Source): Path {
    match s
    case FromCleanup => Cleanup
    case FromOld => Old
    case FromTmp => Tmp
    case _ => ConfigJson
  }

  const SYNC := Then(Sync, End)

  function RecoverPlan(f: Files): Plan {
    match Choose(f)
    case Committed =>
      Then(Stat(Cleanup), Then(RemoveIfExists(Cleanup), Then(RemoveIfExists(Old), Then(RemoveIfExists(Tmp), SYNC))))
    case FromCleanup =>
      Then(Stat(Cleanup), Then(RemoveIfExists(ConfigJson), Then(Rename(Cleanup, ConfigJson),
        Then(RemoveIfExists(Old), Then(RemoveIfExists(Tmp), SYNC)))))
    case FromOld =>
      Then(Stat(Cleanup), Then(Stat(Old), Then(RemoveIfExists(ConfigJson), Then(Rename(Old, ConfigJson),
        Then(RemoveIfExists(Tmp), SYNC)))))
    case Plain =>
      Then(Stat(Cleanup), Then(Stat(Old), Then(Stat(ConfigJson), Then(RemoveIfExists(Old), Then(RemoveIfExists(Tmp), SYNC)))))
    case FromTmp =>
      Then(Stat(Cleanup), Then(Stat(Old), Then(Stat(ConfigJson), Then(Stat(Tmp),
        Then(Rename(Tmp, ConfigJson), Then(RemoveIfExists(Old), Then(RemoveIfExists(Cleanup), SYNC)))))))
    case Nowhere =>
      Then(Stat(Cleanup), Then(Stat(Old), Then(Stat(ConfigJson), Then(Stat(Tmp), End))))
  }

  datatype Recovered =
    | Booted(config: Config)
    | NoConfig              // ConfigError: nothing valid is left
    | StorageFault          // OSError escapes: the boot fails
    | PowerLost

  datatype Recovery = Recovery(outcome: Recovered, files: Files, faults: Faults)

  function RecoverRun(f: Files, faults: Faults): Recovery {
    var r := Exec(RecoverPlan(f), f, faults);
    Recovery(
      match r.end
      case Ok => (var s := f.At(PathOf(Choose(f))); if s.Valid? then Booted(s.config) else NoConfig)
      case Halted => PowerLost
      case _ => StorageFault,
      r.files, r.faults)
  }

  function WritePlan(c: Config): Plan {
    Then(WriteTmp(c), Then(Load(Tmp), Then(Rename(ConfigJson, Old), Then(Rename(Tmp, ConfigJson), Then(Sync,
      Then(Rename(Old, Cleanup), SYNC))))))
  }

  function ReleasePlan(): Plan { Then(RemoveIfExists(Cleanup), SYNC) }

  function RestorePlan(f: Files): Plan {
    if f.backup != Absent then
      Then(Stat(Old), Then(RemoveIfExists(ConfigJson), Then(Rename(Old, ConfigJson), Then(RemoveIfExists(Tmp), SYNC))))
    else if f.cleanup != Absent then
      Then(Stat(Old), Then(Stat(Cleanup), Then(RemoveIfExists(ConfigJson), Then(Rename(Cleanup, ConfigJson),
        Then(RemoveIfExists(Tmp), SYNC)))))
    else
      Then(Stat(Old), Then(Stat(Cleanup), Then(RemoveIfExists(Tmp), SYNC)))
  }

  datatype Outcome =
    | Rejected              // ConfigError before anything was written
    | Unchanged
    | RebootRequired
    | StorageError          // ConfigError "storage_error", after a restoration attempt
    | BadReadBack           // ConfigError of the read-back, after a restoration attempt
    | Died                  // power loss or reset

  datatype WriteResult = WriteResult(outcome: Outcome, restored: bool, files: Files, faults: Faults)

  /** `begin_write(candidate)`; an `Invalid` candidate is one `validate_config` refuses. */
  function WriteRun(candidate: Slot, f: Files, faults: Faults): WriteResult {
    if !candidate.Valid? then WriteResult(Rejected, false, f, faults)
    else
      var l := Step(Load(ConfigJson), f, faults);
      if l.end == Halted then WriteResult(Died, false, f, l.faults)
      else if l.end != Ok then WriteResult(Rejected, false, f, l.faults)
      else if f.config == candidate then WriteResult(Unchanged, false, f, l.faults)
      else
        var w := Exec(WritePlan(candidate.config), f, l.faults);
        match w.end
        case Halted => WriteResult(Died, false, w.files, w.faults)
        case Ok =>
          (var c := Exec(ReleasePlan(), w.files, w.faults);
           WriteResult(if c.end == Halted then Died else RebootRequired, false, c.files, c.faults))
        case _ =>
          (var r := Exec(RestorePlan(w.files), w.files, w.faults);
           WriteResult(if r.end == Halted then Died else if w.end == OsError then StorageError else BadReadBack,
                       r.end == Ok, r.files, r.faults))
  }

  /** The files after any number of boots whose recovery was cut off, failed or completed. */
  function AfterBoots(f: Files, boots: seq<Faults>): Files
    decreases boots
  {
    if boots == [] then f else AfterBoots(RecoverRun(f, boots[0]).files, boots[1..])
  }

  // ---------------------------------------------------------------------------------------
  // Safety: one of the two configurations always survives
  // ---------------------------------------------------------------------------------------

  predicate Ours(s: Slot, p: Config, c: Config) {
    s.Valid? ==> s.config == p || s.config == c
  }

  /** Nothing but `p` and `c` is stored outside .tmp, at least one of them is, and .cleanup is
      never an unreadable leftover. */
  ghost predicate Inv(f: Files, p: Config, c: Config) {
    && Ours(f.config, p, c) && Ours(f.backup, p, c) && Ours(f.cleanup, p, c)
    && f.cleanup != Invalid
    && (f.config.Valid? || f.backup.Valid? || f.cleanup.Valid?)
  }

  predicate SyncsLater(p: Plan) { p.Then? && (p.op.Sync? || SyncsLater(p.rest)) }

  /** Every operation of `p` that changes a file has a sync behind it. */
  predicate Synced(p: Plan) {
    p.Then? ==> (p.op.RemoveIfExists? || p.op.Rename? || p.op.WriteTmp? ==> SyncsLater(p.rest)) && Synced(p.rest)
  }

  /** Nothing is reported before the operations it took are synced. */
  lemma {:induction false} SyncedBeforeReported(f: Files, c: Config)
    ensures Synced(RecoverPlan(f)) && Synced(WritePlan(c)) && Synced(ReleasePlan()) && Synced(RestorePlan(f))
  {
  }

  /** Where a recovery from `f` can be cut off; the last entry is where it ends. */
  function Stages(f: Files): (r: seq<Files>)
    ensures |r| > 0
  {
    match Choose(f)
    case Committed =>
      var f2 := f.With(Cleanup, Absent).With(Old, Absent);
      [f, f.With(Cleanup, Absent), f2, f2.With(Tmp, Absent)]
    case FromCleanup =>
      var f2 := f.With(ConfigJson, Absent).Moved(Cleanup, ConfigJson);
      [f, f.With(ConfigJson, Absent), f2, f2.With(Old, Absent), f2.With(Old, Absent).With(Tmp, Absent)]
    case FromOld =>
      var f2 := f.With(ConfigJson, Absent).Moved(Old, ConfigJson);
      [f, f.With(ConfigJson, Absent), f2, f2.With(Tmp, Absent)]
    case Plain =>
      [f, f.With(Old, Absent), f.With(Old, Absent).With(Tmp, Absent)]
    case FromTmp =>
      var f1 := f.Moved(Tmp, ConfigJson);
      [f, f1, f1.With(Old, Absent), f1.With(Old, Absent).With(Cleanup, Absent)]
    case Nowhere => [f]
  }

  /** The last two operations of a recovery or a restoration. */
  lemma {:induction false} LastRemovalAlong(p: Path, f: Files, inv: Files -> bool, post: Files -> bool)
    requires inv(f) && inv(f.With(p, Absent)) && post(f.With(p, Absent))
    ensures Along(Then(RemoveIfExists(p), SYNC), f, inv, post)
  {
  }

  lemma {:induction false} RecoverAlong(f: Files, inv: Files -> bool)
    requires forall g :: g in Stages(f) ==> inv(g)
    ensures Along(RecoverPlan(f), f, inv, g => g == Stages(f)[|Stages(f)| - 1])
  {
    var (st, plan) := (Stages(f), RecoverPlan(f));
    var post := (g: Files) => g == Stages(f)[|Stages(f)| - 1];
    assert inv(st[0]);
    match Choose(f) {
      case Committed =>
        assert inv(st[1]) && inv(st[2]) && inv(st[3]);
        LastRemovalAlong(Tmp, st[2], inv, post);
        assert Along(plan.rest.rest, st[1], inv, post);
        assert Along(plan.rest, f, inv, post);
      case FromCleanup =>
        assert inv(st[1]) && inv(st[2]) && inv(st[3]) && inv(st[4]);
        LastRemovalAlong(Tmp, st[3], inv, post);
        assert Along(plan.rest.rest.rest, st[2], inv, post);
        assert Along(plan.rest.rest, st[1], inv, post);
        assert Along(plan.rest, f, inv, post);
      case FromOld =>
        assert inv(st[1]) && inv(st[2]) && inv(st[3]);
        LastRemovalAlong(Tmp, st[2], inv, post);
        assert Along(plan.rest.rest.rest, st[1], inv, post);
        assert Along(plan.rest.rest, f, inv, post);
        assert Along(plan.rest, f, inv, post);
      case Plain =>
        assert inv(st[1]) && inv(st[2]);
        LastRemovalAlong(Tmp, st[1], inv, post);
        assert Along(plan.rest.rest.rest, f, inv, post);
        assert Along(plan.rest.rest, f, inv, post);
        assert Along(plan.rest, f, inv, post);
      case FromTmp =>
        assert inv(st[1]) && inv(st[2]) && inv(st[3]);
        LastRemovalAlong(Cleanup, st[2], inv, post);
        assert Along(plan.rest.rest.rest.rest.rest, st[1], inv, post);
        assert Along(plan.rest.rest.rest.rest, f, inv, post);
        assert Along(plan.rest.rest.rest, f, inv, post);
        assert Along(plan.rest.rest, f, inv, post);
        assert Along(plan.rest, f, inv, post);
      case Nowhere =>
        assert Along(plan.rest.rest.rest.rest, f, inv, post);
        assert Along(plan.rest.rest.rest, f, inv, post);
        assert Along(plan.rest.rest, f, inv, post);
        assert Along(plan.rest, f, inv, post);
    }
  }

  /** What is known of a recovery whose every stage satisfies `inv`. */
  lemma {:induction false} RecoverStages(f: Files, inv: Files -> bool, faults: Faults)
    requires forall g :: g in Stages(f) ==> inv(g)
    ensures var r := RecoverRun(f, faults);
            && inv(r.files)
            && (r.outcome.Booted? ==>
                  r.files == Stages(f)[|Stages(f)| - 1] && Valid(r.outcome.config) == f.At(PathOf(Choose(f))))
            && (r.outcome == NoConfig ==> Choose(f) == Nowhere)
            && (faults == Calm ==> (r.outcome.Booted? <==> Choose(f) != Nowhere))
  {
    RecoverAlong(f, inv);
    ExecAlong(RecoverPlan(f), f, faults, inv, g => g == Stages(f)[|Stages(f)| - 1]);
    CalmExec(RecoverPlan(f), f);
  }

  /** The documentation promises that a completed recovery leaves exactly one file.  It does,
      except when it falls back to .old past an unreadable .cleanup, which it leaves behind. */
  lemma {:induction false} SteadyStateExactly(f: Files, faults: Faults)
    requires RecoverRun(f, faults).outcome.Booted?
    ensures var r := RecoverRun(f, faults);
            r.files == Only(r.outcome.config) <==> !(Choose(f) == FromOld && f.cleanup == Invalid)
  {
    RecoverStages(f, g => true, faults);
  }

  /** Where it does not: `.cleanup` corrupted from outside (`Inv` excludes this state) beside a good .old. */
  lemma {:induction false} UnreadableCleanupIsLeft(p: Config)
    ensures var r := RecoverRun(Files(Absent, Absent, Valid(p), Invalid), Calm);
            r.outcome == Booted(p) && r.files != Only(p)
  {
    var f := Files(Absent, Absent, Valid(p), Invalid);
    RecoverStages(f, g => true, Calm);
    SteadyStateExactly(f, Calm);
  }

  /** `c` is what the stored files make authoritative, in the order in which recovery trusts them: a
      .cleanup vouches for a valid config.json and stands in for an invalid one; without that a valid
      .old means an unfinished promotion and rolls it back; only then config.json, and .tmp only when
      nothing else is valid. */
  predicate Authoritative(f: Files, c: Config) {
    || (f.cleanup != Absent && f.config == Valid(c))
    || (f.cleanup == Valid(c) && !f.config.Valid?)
    || ((f.cleanup == Absent || (f.cleanup == Invalid && !f.config.Valid?)) && f.backup == Valid(c))
    || (f.cleanup == Absent && !f.backup.Valid? && f.config == Valid(c))
    || (!f.cleanup.Valid? && !f.backup.Valid? && !f.config.Valid? && f.tmp == Valid(c))
  }

  /** A recovery that completes returns exactly what is authoritative, and finds nothing exactly when
      nothing is valid. */
  lemma {:induction false} RecoverTrusts(f: Files, faults: Faults)
    ensures var r := RecoverRun(f, faults).outcome;
            && (r.Booted? ==> forall c :: Authoritative(f, c) <==> c == r.config)
            && (r.NoConfig? ==> !f.config.Valid? && !f.tmp.Valid? && !f.backup.Valid? && !f.cleanup.Valid?)
            && (faults == Calm ==>
                  (r.NoConfig? <==> !f.config.Valid? && !f.tmp.Valid? && !f.backup.Valid? && !f.cleanup.Valid?))
  {
    RecoverStages(f, g => true, faults);
  }

  /** An uncommitted write is rolled back at boot: without a .cleanup, a valid .old is returned
      whatever config.json holds. */
  lemma {:induction false} OldRollsBack(f: Files, p: Config, faults: Faults)
    requires f.cleanup == Absent && f.backup == Valid(p)
    ensures RecoverRun(f, faults).outcome.Booted? ==> RecoverRun(f, faults).outcome.config == p
    ensures RecoverRun(f, Calm).outcome == Booted(p)
  {
    RecoverStages(f, g => true, faults);
    RecoverStages(f, g => true, Calm);
  }

  lemma {:induction false} RecoverSafe(f: Files, p: Config, c: Config, faults: Faults)
    requires Inv(f, p, c)
    ensures var r := RecoverRun(f, faults);
            && Inv(r.files, p, c)
            && r.outcome != NoConfig
            && (r.outcome.Booted? ==> r.outcome.config in {p, c} && r.files == Only(r.outcome.config))
            && (faults == Calm ==> r.outcome.Booted?)
  {
    RecoverStages(f, g => Inv(g, p, c), faults);
  }

  lemma {:induction false} BootsKeepInv(f: Files, p: Config, c: Config, boots: seq<Faults>)
    requires Inv(f, p, c)
    ensures Inv(AfterBoots(f, boots), p, c)
    decreases boots
  {
    if boots != [] {
      RecoverSafe(f, p, c, boots[0]);
      BootsKeepInv(RecoverRun(f, boots[0]).files, p, c, boots[1..]);
    }
  }

  /** After any number of disturbed boots, a recovery that completes returns one of `p` and `c` and
      leaves exactly config.json holding it, and an undisturbed recovery does complete. */
  ghost predicate Recoverable(f: Files, p: Config, c: Config) {
    forall boots: seq<Faults>, faults: Faults ::
      var r := RecoverRun(AfterBoots(f, boots), faults);
      && (r.outcome.Booted? ==> r.outcome.config in {p, c} && r.files == Only(r.outcome.config))
      && (faults == Calm ==> r.outcome.Booted?)
  }

  lemma {:induction false} InvRecoverable(f: Files, p: Config, c: Config)
    requires Inv(f, p, c)
    ensures Recoverable(f, p, c)
  {
    forall boots: seq<Faults>, faults: Faults
      ensures var r := RecoverRun(AfterBoots(f, boots), faults);
              && (r.outcome.Booted? ==> r.outcome.config in {p, c} && r.files == Only(r.outcome.config))
              && (faults == Calm ==> r.outcome.Booted?)
    {
      BootsKeepInv(f, p, c, boots);
      RecoverSafe(AfterBoots(f, boots), p, c, faults);
    }
  }

  /** The guard on leftovers: neither .old nor .cleanup holds a third configuration, .cleanup is
      not unreadable, and an unreadable .old has a .cleanup beside it. */
  predicate CleanStart(f: Files, p: Config, c: Config) {
    && Ours(f.backup, p, c) && Ours(f.cleanup, p, c)
    && f.cleanup != Invalid
    && (f.backup == Invalid ==> f.cleanup != Absent)
  }

  /** Holds wherever the promotion may stop; enough for the restoration to be safe. */
  ghost predicate Writing(f: Files, p: Config, c: Config) {
    && Inv(f, p, c) && CleanStart(f, p, c)
    && f.config != Invalid
    && (f.backup == Invalid ==> f.config.Valid?)
  }

  lemma {:induction false} WriteAlong(f: Files, p: Config, c: Config)
    requires f.config == Valid(p) && CleanStart(f, p, c)
    ensures Along(WritePlan(c), f, g => Writing(g, p, c), g => g == Files(Valid(c), Absent, Absent, Valid(p)))
  {
    var inv, post := (g: Files) => Writing(g, p, c), (g: Files) => g == Files(Valid(c), Absent, Absent, Valid(p));
    var f1 := f.(tmp := Valid(c));
    var f2 := f1.Moved(ConfigJson, Old);
    var f3 := f2.Moved(Tmp, ConfigJson);
    var f4 := f3.Moved(Old, Cleanup);
    assert Along(End, f4, inv, post);
    assert Along(SYNC, f4, inv, post);
    assert Along(Then(Rename(Old, Cleanup), SYNC), f3, inv, post);
    var rest := WritePlan(c).rest;
    assert Along(rest.rest.rest.rest, f3, inv, post);
    assert Along(rest.rest.rest, f2, inv, post);
    assert Along(rest.rest, f1, inv, post);
    assert Along(rest, f1, inv, post);
    assert Along(rest, f.(tmp := Invalid), inv, post);
  }

  lemma {:induction false} RestoreAlong(f: Files, p: Config, c: Config)
    requires Writing(f, p, c)
    ensures Along(RestorePlan(f), f, g => Inv(g, p, c), g => true)
  {
    var inv, post := (g: Files) => Inv(g, p, c), (g: Files) => true;
    if f.backup != Absent {
      var f1 := f.With(ConfigJson, Absent);
      var f2 := f1.Moved(Old, ConfigJson);
      LastRemovalAlong(Tmp, f2, inv, post);
      assert Along(RestorePlan(f).rest.rest, f1, inv, post);
      assert Along(RestorePlan(f).rest, f, inv, post);
    } else if f.cleanup != Absent {
      var f1 := f.With(ConfigJson, Absent);
      var f2 := f1.Moved(Cleanup, ConfigJson);
      LastRemovalAlong(Tmp, f2, inv, post);
      assert Along(RestorePlan(f).rest.rest.rest, f1, inv, post);
      assert Along(RestorePlan(f).rest.rest, f, inv, post);
      assert Along(RestorePlan(f).rest, f, inv, post);
    } else {
      LastRemovalAlong(Tmp, f, inv, post);
      assert Along(RestorePlan(f).rest, f, inv, post);
    }
  }

  lemma {:induction false} ReleaseKeepsInv(f: Files, p: Config, c: Config, faults: Faults)
    requires Inv(f, p, c) && f.config == Valid(c)
    ensures Inv(Exec(ReleasePlan(), f, faults).files, p, c)
  {
    var inv, post := (g: Files) => Inv(g, p, c), (g: Files) => true;
    LastRemovalAlong(Cleanup, f, inv, post);
    ExecAlong(ReleasePlan(), f, faults, inv, post);
  }

  /** From a clean start with config.json = `p`, wherever begin_write(c) stops (power loss at any
      operation, a partial .tmp, an OSError anywhere, a restoration that fails itself), one of the
      two configurations survives. */
  lemma {:induction false} WriteSafe(f: Files, p: Config, c: Config, faults: Faults)
    requires f.config == Valid(p) && CleanStart(f, p, c)
    ensures Inv(WriteRun(Valid(c), f, faults).files, p, c)
  {
    var l := Step(Load(ConfigJson), f, faults);
    if l.end == Ok && p != c {
      var w := Exec(WritePlan(c), f, l.faults);
      var committed := Files(Valid(c), Absent, Absent, Valid(p));
      WriteAlong(f, p, c);
      ExecAlong(WritePlan(c), f, l.faults, g => Writing(g, p, c), g => g == committed);
      if w.end == Ok {
        ReleaseKeepsInv(w.files, p, c, w.faults);
      } else if w.end != Halted {
        RestoreAlong(w.files, p, c);
        ExecAlong(RestorePlan(w.files), w.files, w.faults, g => Inv(g, p, c), g => true);
      }
    }
  }

  // ---------------------------------------------------------------------------------------
  // Durability of a committed write
  // ---------------------------------------------------------------------------------------

  /** `c` is committed: config.json holds it and no rollback journal is left. */
  ghost predicate Kept(f: Files, c: Config) { f.config == Valid(c) && f.backup == Absent }

  lemma {:induction false} ReleaseKeeps(f: Files, c: Config, faults: Faults)
    requires Kept(f, c)
    ensures Kept(Exec(ReleasePlan(), f, faults).files, c)
  {
    var inv := (g: Files) => Kept(g, c);
    LastRemovalAlong(Cleanup, f, inv, inv);
    ExecAlong(ReleasePlan(), f, faults, inv, inv);
  }

  lemma {:induction false} KeptForEver(f: Files, c: Config, boots: seq<Faults>)
    requires Kept(f, c)
    ensures Kept(AfterBoots(f, boots), c)
    decreases boots
  {
    if boots != [] {
      RecoverStages(f, g => Kept(g, c), boots[0]);
      KeptForEver(RecoverRun(f, boots[0]).files, c, boots[1..]);
    }
  }

  lemma {:induction false} KeptRecovers(f: Files, c: Config, boots: seq<Faults>, last: Faults)
    requires Kept(f, c)
    ensures var r := RecoverRun(AfterBoots(f, boots), last);
            && (r.outcome.Booted? ==> r.outcome.config == c && r.files == Only(c))
            && (last == Calm ==> r.outcome.Booted?)
  {
    KeptForEver(f, c, boots);
    RecoverStages(AfterBoots(f, boots), g => Kept(g, c), last);
  }

  /** A promotion that runs to its end has put the candidate in place and the previous file aside. */
  lemma {:induction false} PromotionCommits(f: Files, c: Config, faults: Faults)
    requires Exec(WritePlan(c), f, faults).end == Ok
    ensures Exec(WritePlan(c), f, faults).files == Files(Valid(c), Absent, Absent, f.config)
  {
    var post := (g: Files) => g == Files(Valid(c), Absent, Absent, f.config);
    var inv := (g: Files) => true;
    var f1 := f.(tmp := Valid(c));
    var f2 := f1.Moved(ConfigJson, Old);
    var f3 := f2.Moved(Tmp, ConfigJson);
    var f4 := f3.Moved(Old, Cleanup);
    var rest := WritePlan(c).rest;
    assert Along(End, f4, inv, post);
    assert Along(SYNC, f4, inv, post);
    assert Along(rest.rest.rest.rest.rest, f3, inv, post);
    assert Along(rest.rest.rest.rest, f3, inv, post);
    assert Along(rest.rest.rest, f2, inv, post);
    assert Along(rest.rest, f1, inv, post);
    assert Along(rest, f1, inv, post);
    assert Along(rest, f.(tmp := Invalid), inv, post);
    assert Along(WritePlan(c), f, inv, post);
    ExecAlong(WritePlan(c), f, faults, inv, post);
  }

  lemma {:induction false} CommittedIsKept(f: Files, c: Config, faults: Faults)
    requires WriteRun(Valid(c), f, faults).outcome == RebootRequired
    ensures Kept(WriteRun(Valid(c), f, faults).files, c)
  {
    var l := Step(Load(ConfigJson), f, faults);
    var w := Exec(WritePlan(c), f, l.faults);
    PromotionCommits(f, c, l.faults);
    ReleaseKeeps(w.files, c, w.faults);
  }

  /** Whatever leftovers it started from: once begin_write has answered REBOOT_REQUIRED, every
      later recovery that completes returns the candidate and leaves only it, even when removing
      .cleanup or its sync failed and however many boots are cut off in between. */
  lemma {:induction false} CommittedWriteIsDurable(f: Files, c: Config, faults: Faults, boots: seq<Faults>,
          last: Faults)
    requires WriteRun(Valid(c), f, faults).outcome == RebootRequired
    ensures var r := RecoverRun(AfterBoots(WriteRun(Valid(c), f, faults).files, boots), last);
            && (r.outcome.Booted? ==> r.outcome.config == c && r.files == Only(c))
            && (last == Calm ==> r.outcome.Booted?)
  {
    CommittedIsKept(f, c, faults);
    KeptRecovers(WriteRun(Valid(c), f, faults).files, c, boots, last);
  }

  // ---------------------------------------------------------------------------------------
  // Which configuration a cut-off write leaves
  // ---------------------------------------------------------------------------------------

  /** Every recovery from `f` and from wherever one is cut off goes back to `p`. */
  ghost predicate GoesBack(f: Files, p: Config) {
    && f.backup in {Absent, Valid(p)} && f.cleanup in {Absent, Valid(p)}
    && (f.config == Valid(p) || (f.backup == Valid(p) && f.cleanup == Absent) || (f.cleanup == Valid(p) && !f.config.Valid?))
  }

  /** The recovery of `f` returns `c` after any boots cut off anywhere, and an undisturbed one does. */
  ghost predicate Returns(f: Files, c: Config) {
    forall boots: seq<Faults>, last: Faults ::
      var r := RecoverRun(AfterBoots(f, boots), last);
      && (r.outcome.Booted? ==> r.outcome.config == c && r.files == Only(c))
      && (last == Calm ==> r.outcome.Booted?)
  }

  lemma {:induction false} BackForEver(f: Files, p: Config, boots: seq<Faults>)
    requires GoesBack(f, p)
    ensures GoesBack(AfterBoots(f, boots), p)
    decreases boots
  {
    if boots != [] {
      RecoverStages(f, g => GoesBack(g, p), boots[0]);
      BackForEver(RecoverRun(f, boots[0]).files, p, boots[1..]);
    }
  }

  lemma {:induction false} BackReturns(f: Files, p: Config)
    requires GoesBack(f, p)
    ensures Returns(f, p)
  {
    forall boots: seq<Faults>, last: Faults
      ensures var r := RecoverRun(AfterBoots(f, boots), last);
              && (r.outcome.Booted? ==> r.outcome.config == p && r.files == Only(p))
              && (last == Calm ==> r.outcome.Booted?)
    {
      BackForEver(f, p, boots);
      RecoverStages(AfterBoots(f, boots), g => GoesBack(g, p), last);
    }
  }

  lemma {:induction false} KeptReturns(f: Files, c: Config)
    requires Kept(f, c)
    ensures Returns(f, c)
  {
    forall boots: seq<Faults>, last: Faults
      ensures var r := RecoverRun(AfterBoots(f, boots), last);
              && (r.outcome.Booted? ==> r.outcome.config == c && r.files == Only(c))
              && (last == Calm ==> r.outcome.Booted?)
    {
      KeptRecovers(f, c, boots, last);
    }
  }

  /** The first `n` operations of a plan. */
  function First(plan: Plan, n: nat): Plan {
    if n == 0 || plan.End? then End else Then(plan.op, First(plan.rest, n - 1))
  }

  /** An atomic operation takes effect under the fault at the head of `faults`. */
  predicate TakesEffect(faults: Faults) {
    match faults.Head()
    case Fine => true
    case Corrupts => true
    case Raises(p) => p.All?
    case Stops(p) => p.All?
  }

  /** In begin_write(c) from `f` the promotion has come to the rename of .old to .cleanup, its sixth
      operation, and the rename has taken effect. */
  predicate RenamedToCleanup(f: Files, c: Config, faults: Faults) {
    var l := Step(Load(ConfigJson), f, faults);
    && l.end == Ok && f.config != Valid(c)
    && var w := Exec(First(WritePlan(c), 5), f, l.faults);
    && w.end == Ok && TakesEffect(w.faults)
  }

  /** What follows the first `n` operations. */
  function Later(plan: Plan, n: nat): Plan {
    if n == 0 || plan.End? then plan else Later(plan.rest, n - 1)
  }

  lemma {:induction false} FirstFive(c: Config)
    ensures First(WritePlan(c), 5)
            == Then(WriteTmp(c), Then(Load(Tmp), Then(Rename(ConfigJson, Old), Then(Rename(Tmp, ConfigJson), Then(Sync, End)))))
    ensures Later(WritePlan(c), 5) == Then(Rename(Old, Cleanup), SYNC)
  {
    var sync := Then(Sync, Then(Rename(Old, Cleanup), SYNC));
    var renames := Then(Rename(ConfigJson, Old), Then(Rename(Tmp, ConfigJson), sync));
    assert First(sync, 1) == Then(Sync, End) && Later(sync, 1) == sync.rest;
    assert First(renames, 3) == Then(Rename(ConfigJson, Old), Then(Rename(Tmp, ConfigJson), First(sync, 1)));
    assert Later(renames, 3) == Later(renames.rest, 2) == Later(sync, 1);
    assert WritePlan(c) == Then(WriteTmp(c), Then(Load(Tmp), renames));
    assert First(WritePlan(c).rest, 4) == Then(Load(Tmp), First(renames, 3));
    assert Later(WritePlan(c).rest, 4) == Later(renames, 3);
  }

  lemma {:induction false} ExecFirst(plan: Plan, n: nat, f: Files, faults: Faults)
    ensures var r := Exec(First(plan, n), f, faults);
            Exec(plan, f, faults) == if r.end == Ok then Exec(Later(plan, n), r.files, r.faults) else r
    decreases n
  {
    if n > 0 && plan.Then? {
      var r := Step(plan.op, f, faults);
      if r.end == Ok {
        ExecFirst(plan.rest, n - 1, r.files, r.faults);
      }
    }
  }

  /** Cut off before that rename, the promotion can still be undone; at the rename it stands so. */
  lemma {:induction false} PromotingGoesBack(f: Files, p: Config, c: Config, faults: Faults)
    requires f.config == Valid(p) && f.backup == Absent && f.cleanup == Absent
    ensures var r := Exec(First(WritePlan(c), 5), f, faults);
            && GoesBack(r.files, p)
            && (r.end == Ok ==> r.files == Files(Valid(c), Absent, Valid(p), Absent))
  {
    var (inv, post) := ((g: Files) => GoesBack(g, p), (g: Files) => g == Files(Valid(c), Absent, Valid(p), Absent));
    var plan := First(WritePlan(c), 5);
    var f1 := f.(tmp := Valid(c));
    var f2 := f1.Moved(ConfigJson, Old);
    var f3 := f2.Moved(Tmp, ConfigJson);
    FirstFive(c);
    assert Along(End, f3, inv, post);
    assert Along(plan.rest.rest.rest.rest, f3, inv, post);
    assert Along(plan.rest.rest.rest, f2, inv, post);
    assert Along(plan.rest.rest, f1, inv, post);
    assert Along(plan.rest, f1, inv, post);
    assert Along(plan.rest, f.(tmp := Invalid), inv, post);
    ExecAlong(plan, f, faults, inv, post);
  }

  lemma {:induction false} RestoreGoesBack(f: Files, p: Config, faults: Faults)
    requires GoesBack(f, p)
    ensures GoesBack(Exec(RestorePlan(f), f, faults).files, p)
  {
    var (inv, post) := ((g: Files) => GoesBack(g, p), (g: Files) => true);
    var plan := RestorePlan(f);
    if f.backup != Absent {
      var f1 := f.With(ConfigJson, Absent);
      LastRemovalAlong(Tmp, f1.Moved(Old, ConfigJson), inv, post);
      assert Along(plan.rest.rest, f1, inv, post);
      assert Along(plan.rest, f, inv, post);
    } else if f.cleanup != Absent {
      var f1 := f.With(ConfigJson, Absent);
      LastRemovalAlong(Tmp, f1.Moved(Cleanup, ConfigJson), inv, post);
      assert Along(plan.rest.rest.rest, f1, inv, post);
      assert Along(plan.rest.rest, f, inv, post);
      assert Along(plan.rest, f, inv, post);
    } else {
      LastRemovalAlong(Tmp, f, inv, post);
      assert Along(plan.rest, f, inv, post);
    }
    ExecAlong(plan, f, faults, inv, post);
  }

  /** The candidate stands while config.json holds it; once it does not, the way back is open. */
  ghost predicate StandsOrGoesBack(f: Files, p: Config, c: Config) {
    if f.config == Valid(c) then Kept(f, c) else GoesBack(f, p)
  }

  lemma {:induction false} RestoreAfterRename(p: Config, c: Config, faults: Faults)
    requires p != c
    ensures var f := Files(Valid(c), Absent, Absent, Valid(p));
            StandsOrGoesBack(Exec(RestorePlan(f), f, faults).files, p, c)
  {
    var f := Files(Valid(c), Absent, Absent, Valid(p));
    var (inv, post) := ((g: Files) => StandsOrGoesBack(g, p, c), (g: Files) => true);
    var plan := RestorePlan(f);
    var f1 := f.With(ConfigJson, Absent);
    LastRemovalAlong(Tmp, f1.Moved(Cleanup, ConfigJson), inv, post);
    assert Along(plan.rest.rest.rest, f1, inv, post);
    assert Along(plan.rest.rest, f, inv, post);
    assert Along(plan.rest, f, inv, post);
    ExecAlong(plan, f, faults, inv, post);
  }

  /** The promotion cut off before the rename of .old to .cleanup took effect. */
  lemma {:induction false} NotRenamed(f: Files, p: Config, c: Config, faults: Faults)
    requires f.config == Valid(p) && f.backup == Absent && f.cleanup == Absent && p != c
    requires !RenamedToCleanup(f, c, faults)
    ensures GoesBack(WriteRun(Valid(c), f, faults).files, p)
  {
    var l := Step(Load(ConfigJson), f, faults);
    if l.end == Ok {
      var w5 := Exec(First(WritePlan(c), 5), f, l.faults);
      var w := Exec(WritePlan(c), f, l.faults);
      ExecFirst(WritePlan(c), 5, f, l.faults);
      FirstFive(c);
      PromotingGoesBack(f, p, c, l.faults);
      assert w5.end == Ok ==> w == Step(Rename(Old, Cleanup), w5.files, w5.faults);
      if w.end != Halted {
        RestoreGoesBack(w.files, p, w.faults);
      }
    }
  }

  lemma {:induction false} SyncKeeps(f: Files, faults: Faults)
    ensures Exec(SYNC, f, faults).files == f
  {
    assert Step(Sync, f, faults).files == f;
  }

  /** The promotion that came past that rename. */
  lemma {:induction false} Renamed(f: Files, p: Config, c: Config, faults: Faults)
    requires f.config == Valid(p) && f.backup == Absent && f.cleanup == Absent && p != c
    requires RenamedToCleanup(f, c, faults)
    ensures StandsOrGoesBack(WriteRun(Valid(c), f, faults).files, p, c)
  {
    var l := Step(Load(ConfigJson), f, faults);
    var w5 := Exec(First(WritePlan(c), 5), f, l.faults);
    var w := Exec(WritePlan(c), f, l.faults);
    var f4 := Files(Valid(c), Absent, Absent, Valid(p));
    ExecFirst(WritePlan(c), 5, f, l.faults);
    FirstFive(c);
    PromotingGoesBack(f, p, c, l.faults);
    var s := Step(Rename(Old, Cleanup), w5.files, w5.faults);
    assert s.files == f4;
    assert w == if s.end == Ok then Exec(SYNC, f4, s.faults) else s;
    SyncKeeps(f4, s.faults);
    if w.end == Ok {
      ReleaseKeeps(f4, c, w.faults);
    } else if w.end != Halted {
      RestoreAfterRename(p, c, w.faults);
    }
  }

  /** Which of the two survives: from a start without leftovers, whatever befalls the write and
      whichever boots are cut off after it, every recovery that completes returns the candidate exactly
      when the rename of .old to .cleanup took effect and was not rolled back, and the previous
      configuration otherwise. */
  lemma {:induction false} RenameDecides(f: Files, p: Config, c: Config, faults: Faults)
    requires f.config == Valid(p) && f.backup == Absent && f.cleanup == Absent && p != c
    ensures var g := WriteRun(Valid(c), f, faults).files;
            Returns(g, if RenamedToCleanup(f, c, faults) && g.config == Valid(c) then c else p)
  {
    var g := WriteRun(Valid(c), f, faults).files;
    if RenamedToCleanup(f, c, faults) {
      Renamed(f, p, c, faults);
    } else {
      NotRenamed(f, p, c, faults);
    }
    if RenamedToCleanup(f, c, faults) && g.config == Valid(c) {
      KeptReturns(g, c);
    } else {
      BackReturns(g, p);
    }
  }

  lemma {:induction false} NoReadBackError(plan: Plan, f: Files, faults: Faults)
    requires NoLoads(plan)
    ensures Exec(plan, f, faults).end != ConfigError
  {
    if plan.Then? {
      var r := Step(plan.op, f, faults);
      if r.end == Ok {
        NoReadBackError(plan.rest, r.files, r.faults);
      }
    }
  }

  /** What the caller is told: success only for a candidate whose rename took effect, and a failed
      read-back only for one whose rename did not. */
  lemma {:induction false} OutcomesTell(f: Files, c: Config, faults: Faults)
    requires f.config != Valid(c)
    ensures var r := WriteRun(Valid(c), f, faults).outcome;
            && (r == RebootRequired ==> RenamedToCleanup(f, c, faults))
            && (r == BadReadBack ==> !RenamedToCleanup(f, c, faults))
  {
    var l := Step(Load(ConfigJson), f, faults);
    if l.end == Ok {
      var w5 := Exec(First(WritePlan(c), 5), f, l.faults);
      ExecFirst(WritePlan(c), 5, f, l.faults);
      FirstFive(c);
      if w5.end == Ok {
        NoReadBackError(Then(Rename(Old, Cleanup), SYNC), w5.files, w5.faults);
      }
    }
  }

  /** With no fault the write commits, the candidate is all that is stored, and a reboot is asked for. */
  lemma {:induction false} CalmWrite(f: Files, p: Config, c: Config)
    requires f.config == Valid(p) && p != c
    ensures WriteRun(Valid(c), f, Calm) == WriteResult(RebootRequired, false, Only(c), Calm)
  {
    var f1 := f.(tmp := Valid(c));
    var f2 := f1.Moved(ConfigJson, Old);
    var f3 := f2.Moved(Tmp, ConfigJson);
    var f4 := f3.Moved(Old, Cleanup);
    var plan := WritePlan(c);
    assert Exec(SYNC, f4, Calm) == Run(Ok, f4, Calm);
    assert Exec(plan.rest.rest.rest.rest.rest, f3, Calm) == Run(Ok, f4, Calm);
    assert Exec(plan.rest.rest.rest.rest, f3, Calm) == Run(Ok, f4, Calm);
    assert Exec(plan.rest.rest.rest, f2, Calm) == Run(Ok, f4, Calm);
    assert Exec(plan.rest.rest, f1, Calm) == Run(Ok, f4, Calm);
    assert Exec(plan.rest, f1, Calm) == Run(Ok, f4, Calm);
    assert Exec(plan, f, Calm) == Run(Ok, f4, Calm);
    assert Exec(SYNC, Only(c), Calm) == Run(Ok, Only(c), Calm);
    assert Exec(ReleasePlan(), f4, Calm) == Run(Ok, Only(c), Calm);
  }

  // ---------------------------------------------------------------------------------------
  // Failed writes
  // ---------------------------------------------------------------------------------------

  /** A refused or unchanged candidate leaves every file as it was; so does any write of the
      configuration already stored. */
  lemma {:induction false} QuietWrites(candidate: Slot, f: Files, faults: Faults)
    ensures var r := WriteRun(candidate, f, faults);
            && (r.outcome in {Rejected, Unchanged} || candidate == f.config ==> r.files == f)
            && (r.outcome == Unchanged ==> candidate == f.config)
            && (r.outcome == RebootRequired ==> candidate.Valid? && f.config.Valid? && candidate != f.config)
  {
  }

  /** The four places where the promotion from a start without leftovers can stand. */
  ghost predicate Staged(g: Files, p: Config, c: Config) {
    || (g.config == Valid(p) && g.backup == Absent && g.cleanup == Absent)
    || g == Files(Absent, Valid(c), Valid(p), Absent)
    || g == Files(Valid(c), Absent, Valid(p), Absent)
    || g == Files(Valid(c), Absent, Absent, Valid(p))
  }

  /** One of the two is stored, and without leftovers it is the previous one. */
  ghost predicate Held(g: Files, p: Config, c: Config) {
    Inv(g, p, c) && (g.backup == Absent && g.cleanup == Absent ==> g.config == Valid(p))
  }

  lemma {:induction false} StagedAlong(f: Files, p: Config, c: Config)
    requires f.config == Valid(p) && f.backup == Absent && f.cleanup == Absent
    ensures Along(WritePlan(c), f, g => Staged(g, p, c), g => g == Files(Valid(c), Absent, Absent, Valid(p)))
  {
    var inv, post := (g: Files) => Staged(g, p, c), (g: Files) => g == Files(Valid(c), Absent, Absent, Valid(p));
    var f1 := f.(tmp := Valid(c));
    var f2 := f1.Moved(ConfigJson, Old);
    var f3 := f2.Moved(Tmp, ConfigJson);
    var f4 := f3.Moved(Old, Cleanup);
    var rest := WritePlan(c).rest;
    assert Along(End, f4, inv, post);
    assert Along(SYNC, f4, inv, post);
    assert Along(rest.rest.rest.rest.rest, f3, inv, post);
    assert Along(rest.rest.rest.rest, f3, inv, post);
    assert Along(rest.rest.rest, f2, inv, post);
    assert Along(rest.rest, f1, inv, post);
    assert Along(rest, f1, inv, post);
    assert Along(rest, f.(tmp := Invalid), inv, post);
  }

  lemma {:induction false} StagedRestores(f: Files, p: Config, c: Config)
    requires Staged(f, p, c)
    ensures Along(RestorePlan(f), f, g => Held(g, p, c), g => g == Only(p))
  {
    var inv, post := (g: Files) => Held(g, p, c), (g: Files) => g == Only(p);
    if f.backup != Absent {
      var f1 := f.With(ConfigJson, Absent);
      LastRemovalAlong(Tmp, f1.Moved(Old, ConfigJson), inv, post);
      assert Along(RestorePlan(f).rest.rest, f1, inv, post);
      assert Along(RestorePlan(f).rest, f, inv, post);
    } else if f.cleanup != Absent {
      var f1 := f.With(ConfigJson, Absent);
      LastRemovalAlong(Tmp, f1.Moved(Cleanup, ConfigJson), inv, post);
      assert Along(RestorePlan(f).rest.rest.rest, f1, inv, post);
      assert Along(RestorePlan(f).rest.rest, f, inv, post);
      assert Along(RestorePlan(f).rest, f, inv, post);
    } else {
      LastRemovalAlong(Tmp, f, inv, post);
      assert Along(RestorePlan(f).rest, f, inv, post);
    }
  }

  /** From a start without leftovers: a write that raises after a completed restoration has put
      back exactly the pre-write file; one that raises after a failed restoration still holds one
      of the two, and the previous one if no artifact is left. */
  lemma {:induction false} RaisedWriteRestores(f: Files, p: Config, c: Config, faults: Faults)
    requires f.config == Valid(p) && f.backup == Absent && f.cleanup == Absent
    requires WriteRun(Valid(c), f, faults).outcome in {StorageError, BadReadBack}
    ensures var r := WriteRun(Valid(c), f, faults);
            Held(r.files, p, c) && (r.restored ==> r.files == Only(p))
  {
    var l := Step(Load(ConfigJson), f, faults);
    var w := Exec(WritePlan(c), f, l.faults);
    StagedAlong(f, p, c);
    ExecAlong(WritePlan(c), f, l.faults, g => Staged(g, p, c), g => g == Files(Valid(c), Absent, Absent, Valid(p)));
    StagedRestores(w.files, p, c);
    ExecAlong(RestorePlan(w.files), w.files, w.faults, g => Held(g, p, c), g => g == Only(p));
  }

  // ---------------------------------------------------------------------------------------
  // Leftovers: exactly when the transaction is safe
  // ---------------------------------------------------------------------------------------

  const WRITE_FAILS := Next(Fine, Next(Raises(Nothing), Calm))

  /** A leftover .old is mistaken for the backup of this write when the candidate cannot even be
      written: the restoration puts it in place of config.json. */
  lemma {:induction false} StaleOldRestored(f: Files, p: Config, c: Config)
    requires f.config == Valid(p) && p != c
    requires !Ours(f.backup, p, c) || (f.backup == Invalid && f.cleanup == Absent)
    ensures !Recoverable(WriteRun(Valid(c), f, WRITE_FAILS).files, p, c)
  {
    var r := WriteRun(Valid(c), f, WRITE_FAILS);
    assert Exec(WritePlan(c), f, Next(Raises(Nothing), Calm)) == Run(OsError, f, Calm);
    var g := Files(f.backup, Absent, Absent, f.cleanup);
    var inv, post := (h: Files) => true, (h: Files) => h == g;
    LastRemovalAlong(Tmp, g.(tmp := f.tmp), inv, post);
    assert Along(RestorePlan(f).rest.rest, f.With(ConfigJson, Absent), inv, post);
    assert Along(RestorePlan(f).rest, f, inv, post);
    ExecAlong(RestorePlan(f), f, Calm, inv, post);
    CalmExec(RestorePlan(f), f);
    assert r.files == g;
    assert AfterBoots(g, []) == g;
    if f.backup.Valid? {
      KeptRecovers(g, f.backup.config, [], Calm);
    } else {
      assert Choose(g) == Nowhere;
      assert !RecoverRun(g, Calm).outcome.Booted?;
    }
  }

  const CUT_AFTER_FIRST_RENAME := Next(Fine, Next(Fine, Next(Fine, Next(Stops(All), Calm))))

  lemma {:induction false} CutAfterFirstRename(f: Files, p: Config, c: Config)
    requires f.config == Valid(p) && p != c
    ensures WriteRun(Valid(c), f, CUT_AFTER_FIRST_RENAME).files == Files(Absent, Valid(c), Valid(p), f.cleanup)
  {
    var f1 := f.(tmp := Valid(c));
    var rest := WritePlan(c).rest;
    assert Exec(rest.rest, f1, Next(Stops(All), Calm)).files == f1.Moved(ConfigJson, Old);
    assert Exec(rest, f1, Next(Fine, Next(Stops(All), Calm))).files == f1.Moved(ConfigJson, Old);
    assert Exec(WritePlan(c), f, CUT_AFTER_FIRST_RENAME.later) == Exec(rest, f1, Next(Fine, Next(Stops(All), Calm)));
  }

  /** A leftover .cleanup, cut off between the two promotion renames: recovery prefers it over the
      .old just made (and leaves it behind when it is unreadable). */
  lemma {:induction false} StaleCleanupPreferred(f: Files, p: Config, c: Config)
    requires f.config == Valid(p) && p != c
    requires f.cleanup == Invalid || !Ours(f.cleanup, p, c)
    ensures !Recoverable(WriteRun(Valid(c), f, CUT_AFTER_FIRST_RENAME).files, p, c)
  {
    var g := Files(Absent, Valid(c), Valid(p), f.cleanup);
    CutAfterFirstRename(f, p, c);
    assert AfterBoots(g, []) == g;
    if f.cleanup.Valid? {
      RecoverSafe(g, f.cleanup.config, p, Calm);
      assert RecoverRun(g, Calm).outcome == Booted(f.cleanup.config);
    } else {
      RecoverStages(g, h => true, Calm);
      SteadyStateExactly(g, Calm);
      assert RecoverRun(g, Calm).files != Only(p);
    }
  }

  /** The transaction is safe under every fault script exactly from a clean start. */
  lemma {:induction false} SafeExactlyFromCleanStart(f: Files, p: Config, c: Config)
    requires f.config == Valid(p) && p != c
    ensures (forall faults :: Recoverable(WriteRun(Valid(c), f, faults).files, p, c)) <==> CleanStart(f, p, c)
  {
    if CleanStart(f, p, c) {
      forall faults ensures Recoverable(WriteRun(Valid(c), f, faults).files, p, c) {
        WriteSafe(f, p, c, faults);
        InvRecoverable(WriteRun(Valid(c), f, faults).files, p, c);
      }
    } else if !Ours(f.backup, p, c) || (f.backup == Invalid && f.cleanup == Absent) {
      StaleOldRestored(f, p, c);
    } else {
      StaleCleanupPreferred(f, p, c);
    }
  }

  /** Seven fine operations, then the faults `later`. */
  function SevenFine(later: Faults): Faults {
    Next(Fine, Next(Fine, Next(Fine, Next(Fine, Next(Fine, Next(Fine, Next(Fine, later)))))))
  }

  const RELEASE_FAILS := Next(Fine, SevenFine(Next(Raises(Nothing), Calm)))

  lemma {:induction false} FineWrite(f: Files, c: Config, later: Faults)
    ensures var r := Exec(WritePlan(c), f, SevenFine(later));
            r.end == Ok && r.faults == later
  {
    var f1 := f.(tmp := Valid(c));
    var f2 := f1.Moved(ConfigJson, Old);
    var f3 := f2.Moved(Tmp, ConfigJson);
    var f4 := f3.Moved(Old, Cleanup);
    var rest := WritePlan(c).rest;
    assert Exec(SYNC, f4, Next(Fine, later)) == Run(Ok, f4, later);
    assert Exec(rest.rest.rest.rest.rest, f3, Next(Fine, Next(Fine, later))) == Run(Ok, f4, later);
    assert Exec(rest.rest.rest.rest, f3, Next(Fine, Next(Fine, Next(Fine, later)))) == Run(Ok, f4, later);
    assert Exec(rest.rest.rest, f2, Next(Fine, Next(Fine, Next(Fine, Next(Fine, later))))) == Run(Ok, f4, later);
    assert Exec(rest.rest, f1, Next(Fine, Next(Fine, Next(Fine, Next(Fine, Next(Fine, later)))))) == Run(Ok, f4, later);
    assert Exec(rest, f1, Next(Fine, Next(Fine, Next(Fine, Next(Fine, Next(Fine, Next(Fine, later))))))) == Run(Ok, f4, later);
  }

  /** How the leftover arises within one boot, from a spotless start: the first write commits but
      cannot remove .cleanup; the second is cut off; and the configuration that comes back is the
      one before the first write, although that write was answered with REBOOT_REQUIRED. */
  lemma {:induction false} CommittedWriteRevoked(p: Config, c1: Config, c2: Config)
    requires p != c1 && c1 != c2 && p != c2
    ensures var first := WriteRun(Valid(c1), Only(p), RELEASE_FAILS);
            var second := WriteRun(Valid(c2), first.files, CUT_AFTER_FIRST_RENAME);
            && first.outcome == RebootRequired
            && RecoverRun(second.files, Calm).outcome == Booted(p)
  {
    var bad := Next(Raises(Nothing), Calm);
    FineWrite(Only(p), c1, bad);
    PromotionCommits(Only(p), c1, SevenFine(bad));
    var g := Files(Valid(c1), Absent, Absent, Valid(p));
    assert Exec(ReleasePlan(), g, bad) == Run(OsError, g, Calm);
    CutAfterFirstRename(g, c1, c2);
    RecoverSafe(Files(Absent, Valid(c2), Valid(c1), Valid(p)), p, c1, Calm);
  }

  // ---------------------------------------------------------------------------------------
  // Whole sessions: any number of writes in one boot
  // ---------------------------------------------------------------------------------------

  datatype Write = Write(candidate: Slot, faults: Faults)

  /** The files after the writes of one boot; a power loss ends the boot. */
  function SessionFiles(f: Files, writes: seq<Write>): Files
    decreases writes
  {
    if writes == [] then f
    else
      var r := WriteRun(writes[0].candidate, f, writes[0].faults);
      if r.outcome == Died then r.files else SessionFiles(r.files, writes[1..])
  }

  /** The configurations a session may leave behind: the last one acknowledged with REBOOT_REQUIRED
      (`p` before any), and the candidate of the write that came last. */
  function SessionEnd(f: Files, p: Config, writes: seq<Write>, last: Config): (Config, Config)
    decreases writes
  {
    if writes == [] then (p, last)
    else
      var w := writes[0];
      var r := WriteRun(w.candidate, f, w.faults);
      var c := if w.candidate.Valid? then w.candidate.config else last;
      if r.outcome == Died then (p, c)
      else SessionEnd(r.files, if r.outcome == RebootRequired then c else p, writes[1..], c)
  }

  /** The guard a caller could check: no write starts while .old or .cleanup is present. */
  predicate Guarded(f: Files, writes: seq<Write>)
    decreases writes
  {
    writes == [] ||
    (&& f.backup == Absent && f.cleanup == Absent
     && var r := WriteRun(writes[0].candidate, f, writes[0].faults);
        r.outcome == Died || Guarded(r.files, writes[1..]))
  }

  lemma {:induction false} KeptRecoverable(f: Files, c: Config, other: Config)
    requires Kept(f, c)
    ensures Recoverable(f, c, other)
  {
    forall boots: seq<Faults>, faults: Faults
      ensures var r := RecoverRun(AfterBoots(f, boots), faults);
              && (r.outcome.Booted? ==> r.outcome.config == c && r.files == Only(c))
              && (faults == Calm ==> r.outcome.Booted?)
    {
      KeptRecovers(f, c, boots, faults);
    }
  }

  lemma {:induction false} OneWrite(f: Files, p: Config, candidate: Slot, faults: Faults)
    requires f.config == Valid(p) && f.backup == Absent && f.cleanup == Absent
    ensures var r := WriteRun(candidate, f, faults);
            && (!candidate.Valid? ==> r.outcome == Rejected && r.files == f)
            && (candidate.Valid? ==> Inv(r.files, p, candidate.config))
            && (r.outcome == RebootRequired ==> candidate.Valid? && Kept(r.files, candidate.config))
            && (r.outcome !in {RebootRequired, Died} && r.files.backup == r.files.cleanup == Absent ==>
                  r.files.config == Valid(p))
  {
    if candidate.Valid? {
      var c := candidate.config;
      WriteSafe(f, p, c, faults);
      var r := WriteRun(candidate, f, faults);
      if r.outcome == RebootRequired {
        CommittedIsKept(f, c, faults);
      } else if r.outcome in {StorageError, BadReadBack} {
        RaisedWriteRestores(f, p, c, faults);
      }
    }
  }

  /** Any session of guarded writes, cut off anywhere: the boots that follow return the last
      acknowledged configuration or the last candidate. */
  lemma {:induction false} SessionSafe(f: Files, p: Config, writes: seq<Write>, last: Config)
    requires Guarded(f, writes)
    requires if writes == [] then Inv(f, p, last) || Kept(f, p) else f.config == Valid(p)
    ensures var e := SessionEnd(f, p, writes, last);
            Recoverable(SessionFiles(f, writes), e.0, e.1)
    decreases writes
  {
    if writes == [] {
      if Kept(f, p) {
        KeptRecoverable(f, p, last);
      } else {
        InvRecoverable(f, p, last);
      }
    } else {
      var w := writes[0];
      var r := WriteRun(w.candidate, f, w.faults);
      var c := if w.candidate.Valid? then w.candidate.config else last;
      OneWrite(f, p, w.candidate, w.faults);
      if r.outcome == Died {
        InvRecoverable(r.files, p, c);
      } else {
        SessionSafe(r.files, if r.outcome == RebootRequired then c else p, writes[1..], c);
      }
    }
  }

  // ---------------------------------------------------------------------------------------
  // The ConfigManager, step by step
  // ---------------------------------------------------------------------------------------

  /** The outcome of a recovery whose operation ended with an OSError or was cut off. */
  function Failed(end: Ending): Recovered {
    if end == Halted then PowerLost else StorageFault
  }

  class ConfigManager {
    /** The flash, and what will befall the operations on it. */
    var files: Files
    var faults: Faults
    /** `_reboot_required` */
    var rebootRequired: bool

    constructor (stored: Files, script: Faults)
      ensures files == stored && faults == script && !rebootRequired
    {
      files, faults, rebootRequired := stored, script, false;
    }

    /** One flash operation, the first of what is left of a plan. */
    method Do(op: Op, ghost todo: Plan) returns (end: Ending)
      requires todo.Then? && todo.op == op
      modifies `files, `faults
      ensures Step(op, old(files), old(faults)) == Run(end, files, faults)
      ensures Exec(todo, old(files), old(faults)) ==
              if end == Ok then Exec(todo.rest, files, faults) else Run(end, files, faults)
    {
      var r := Step(op, files, faults);
      files, faults, end := r.files, r.faults, r.end;
    }

    /** Make the file at `from` the steady configuration; `rest` is what follows. */
    method Replace(from: Path, ghost rest: Plan) returns (end: Ending)
      modifies `files, `faults
      ensures Exec(Then(RemoveIfExists(ConfigJson), Then(Rename(from, ConfigJson), rest)), old(files), old(faults)) ==
              if end == Ok then Exec(rest, files, faults) else Run(end, files, faults)
    {
      end := Do(RemoveIfExists(ConfigJson), Then(RemoveIfExists(ConfigJson), Then(Rename(from, ConfigJson), rest)));
      if end == Ok {
        end := Do(Rename(from, ConfigJson), Then(Rename(from, ConfigJson), rest));
      }
    }

    /** Release a leftover and persist. */
    method ReleaseOne(p: Path) returns (end: Ending)
      modifies `files, `faults
      ensures Exec(Then(RemoveIfExists(p), SYNC), old(files), old(faults)) == Run(end, files, faults)
    {
      end := Do(RemoveIfExists(p), Then(RemoveIfExists(p), SYNC));
      if end == Ok {
        end := Do(Sync, SYNC);
      }
    }

    /** Release two leftovers and persist. */
    method ReleaseTwo(p: Path, q: Path) returns (end: Ending)
      modifies `files, `faults
      ensures Exec(Then(RemoveIfExists(p), Then(RemoveIfExists(q), SYNC)), old(files), old(faults)) == Run(end, files, faults)
    {
      end := Do(RemoveIfExists(p), Then(RemoveIfExists(p), Then(RemoveIfExists(q), SYNC)));
      if end == Ok {
        end := ReleaseOne(q);
      }
    }

    /** Neither .cleanup nor .old serves: config.json, or else .tmp. */
    method RecoverPlain(ghost todo: Plan) returns (r: Recovered)
      requires Choose(files) in {Plain, FromTmp, Nowhere} && todo == RecoverPlan(files).rest.rest
      modifies `files, `faults
      ensures var run := Exec(todo, old(files), old(faults));
              && files == run.files && faults == run.faults
              && r == match run.end
                      case Ok => (var s := old(files).At(PathOf(Choose(old(files)))); if s.Valid? then Booted(s.config) else NoConfig)
                      case Halted => PowerLost
                      case _ => StorageFault
    {
      var end := Do(Stat(ConfigJson), todo);
      ghost var left := todo.rest;
      if end != Ok {
        return Failed(end);
      }
      if files.config.Valid? {
        var config := files.config.config;
        end := ReleaseTwo(Old, Tmp);
        return if end == Ok then Booted(config) else Failed(end);
      }
      end := Do(Stat(Tmp), left);
      left := left.rest;
      if end != Ok {
        return Failed(end);
      }
      if files.tmp.Valid? {
        var config := files.tmp.config;
        end := Do(Rename(Tmp, ConfigJson), left);
        if end == Ok {
          end := ReleaseTwo(Old, Cleanup);
        }
        return if end == Ok then Booted(config) else Failed(end);
      }
      return NoConfig;
    }

    /** `recover()` */
    method Recover() returns (r: Recovered)
      modifies `files, `faults
      ensures RecoverRun(old(files), old(faults)) == Recovery(r, files, faults)
    {
      ghost var todo := RecoverPlan(files);
      var end := Do(Stat(Cleanup), todo);
      todo := todo.rest;
      if end != Ok {
        return Failed(end);
      }
      if files.cleanup != Absent {
        if files.config.Valid? {
          var config := files.config.config;
          end := Do(RemoveIfExists(Cleanup), todo);
          if end == Ok {
            end := ReleaseTwo(Old, Tmp);
          }
          return if end == Ok then Booted(config) else Failed(end);
        }
        if files.cleanup.Valid? {
          var config := files.cleanup.config;
          end := Replace(Cleanup, todo.rest.rest);
          if end == Ok {
            end := ReleaseTwo(Old, Tmp);
          }
          return if end == Ok then Booted(config) else Failed(end);
        }
      }
      end := Do(Stat(Old), todo);
      todo := todo.rest;
      if end != Ok {
        return Failed(end);
      }
      if files.backup.Valid? {
        var config := files.backup.config;
        end := Replace(Old, todo.rest.rest);
        if end == Ok {
          end := ReleaseOne(Tmp);
        }
        return if end == Ok then Booted(config) else Failed(end);
      }
      r := RecoverPlain(todo);
    }

    /** `_restore_committed()` */
    method RestoreCommitted() returns (end: Ending)
      modifies `files, `faults
      ensures Exec(RestorePlan(old(files)), old(files), old(faults)) == Run(end, files, faults)
    {
      ghost var todo := RestorePlan(files);
      end := Do(Stat(Old), todo);
      if end != Ok {
        return end;
      }
      todo := todo.rest;
      var backup := None;
      if files.backup != Absent {
        backup := Some(Old);
      } else {
        end := Do(Stat(Cleanup), todo);
        if end != Ok {
          return end;
        }
        todo := todo.rest;
        backup := if files.cleanup != Absent then Some(Cleanup) else None;
      }
      if backup.Some? {
        end := Replace(backup.value, todo.rest.rest);
        if end != Ok {
          return end;
        }
      }
      end := ReleaseOne(Tmp);
    }

    /** The promotion inside begin_write's first `try`. */
    method Promote(candidate: Config) returns (end: Ending)
      modifies `files, `faults
      ensures Exec(WritePlan(candidate), old(files), old(faults)) == Run(end, files, faults)
    {
      ghost var todo := WritePlan(candidate);
      end := Do(WriteTmp(candidate), todo);
      if end == Ok {
        end := Do(Load(Tmp), todo.rest);
      }
      if end == Ok {
        end := Do(Rename(ConfigJson, Old), todo.rest.rest);
      }
      if end == Ok {
        end := Do(Rename(Tmp, ConfigJson), todo.rest.rest.rest);
      }
      if end == Ok {
        end := Do(Sync, todo.rest.rest.rest.rest);
      }
      if end == Ok {
        end := Do(Rename(Old, Cleanup), todo.rest.rest.rest.rest.rest);
      }
      if end == Ok {
        end := Do(Sync, SYNC);
      }
    }

    /** `begin_write(candidate)` */
    method BeginWrite(candidate: Slot) returns (r: Outcome, ghost restored: bool)
      modifies this
      ensures WriteRun(candidate, old(files), old(faults)) == WriteResult(r, restored, files, faults)
      ensures r != Died ==> (rebootRequired <==> old(rebootRequired) || r == RebootRequired)
    {
      restored := false;
      if !candidate.Valid? {
        return Rejected, false;
      }
      var loaded := Do(Load(ConfigJson), Then(Load(ConfigJson), End));
      if loaded != Ok {
        return if loaded == Halted then Died else Rejected, false;
      }
      if files.config == candidate {
        return Unchanged, false;
      }
      var end := Promote(candidate.config);
      if end == Halted {
        return Died, false;
      }
      if end != Ok {
        var back := RestoreCommitted();
        restored := back == Ok;
        r := if back == Halted then Died else if end == OsError then StorageError else BadReadBack;
        return;
      }
      rebootRequired := true;
      var released := Do(RemoveIfExists(Cleanup), ReleasePlan());
      if released == Ok {
        released := Do(Sync, SYNC);
      }
      r := if released == Halted then Died else RebootRequired;
    }
  }
}
