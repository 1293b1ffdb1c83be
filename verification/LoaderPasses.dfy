/** What one upgrade pass saves in the previous zone, and what a rollback restores however often it is
    interrupted. */
module LoaderPasses {
  import opened Loader

  function Rank(p: Part): nat {
    match p
    case Image => 0
    case Cfg => 1
    case Dbc => 2
    case Data => 3
  }

  /** A sub-directory after `appl_copy`: the source if that has files, else what was there. */
  function Copied(src: Dir, before: Dir): Dir {
    if Needed(src) then src else before
  }

  // --- one upgrade pass ---

  /** Previous holds every sub-directory that current had when the pass began. */
  ghost predicate Saved(start: State, pre: Zone) {
    forall p: Part :: pre.Get(p) == Copied(start.cur.Get(p), start.pre.Get(p))
  }

  /** A pass that began in `start`, up to its last write to current. */
  ghost predicate InPass(start: State, s: State) {
    && s.upg == start.upg
    && s.cur.cfg == start.cur.cfg && s.cur.dbc == start.cur.dbc && s.cur.data == start.cur.data
    && match s.pc
       case PreStart => s == start
       case Backup(part, phase) =>
         && s.cur == start.cur
         && CopyInv(s.cur.Get(part), start.pre.Get(part), s.pre.Get(part), phase)
         && (forall p: Part :: Rank(p) < Rank(part) ==> s.pre.Get(p) == Copied(start.cur.Get(p), start.pre.Get(p)))
         && (forall p: Part :: Rank(p) > Rank(part) ==> s.pre.Get(p) == start.pre.Get(p))
       case PreCommit => s.cur == start.cur && Saved(start, s.pre)
       case CurStart => s.cur == start.cur && Saved(start, s.pre) && IsGood(s.pre)
       case Overlay(phase) =>
         && Saved(start, s.pre) && IsGood(s.pre)
         && OverlapInv(s.upg.image, FilesOf(start.cur.image), s.cur.image, phase)
       case CurCommit =>
         && Saved(start, s.pre) && IsGood(s.pre)
         && FilesOf(s.cur.image) == FilesOf(start.cur.image) + FilesOf(s.upg.image)
       case MirrorAfterUpgrade =>
         && Saved(start, s.pre) && IsGood(s.pre) && IsGood(s.cur)
         && FilesOf(s.cur.image) == FilesOf(start.cur.image) + FilesOf(s.upg.image)
       case _ => false
  }

  lemma InPassKept(start: State, s: State, s': State)
    requires InPass(start, s) && Step(s, s') && s.pc != MirrorAfterUpgrade
    ensures InPass(start, s')
  {
    if s.pc.Backup? && !s.pc.phase.Done? {
      BackupKept(start, s, s');
    } else if s.pc.Overlay? && !s.pc.phase.Done? {
      var phase := s.pc.phase;
      var d, phase' :| OverlapStep(s.upg.image, s.cur.image, phase, d, phase')
        && s' == s.(cur := s.cur.(image := d), pc := Overlay(phase'));
      OverlapKeeps(s.upg.image, FilesOf(start.cur.image), s.cur.image, phase, d, phase');
    } else {
      hide CopyStep, OverlapStep;
    }
  }

  lemma BackupKept(start: State, s: State, s': State)
    requires InPass(start, s) && Step(s, s') && s.pc.Backup? && !s.pc.phase.Done?
    ensures InPass(start, s')
  {
    hide CopyStep, CopyInv;
    var part, phase := s.pc.part, s.pc.phase;
    var d, phase' :| CopyStep(s.cur.Get(part), s.pre.Get(part), phase, d, phase')
      && s' == s.(pre := s.pre.Put(part, d), pc := Backup(part, phase'));
    CopyKeeps(s.cur.Get(part), start.pre.Get(part), s.pre.Get(part), phase, d, phase');
    PutGet(s.pre, part, d);
  }

  lemma PutGet(z: Zone, part: Part, d: Dir)
    ensures z.Put(part, d).Get(part) == d && z.Put(part, d).status == z.status
    ensures forall p: Part :: p != part ==> z.Put(part, d).Get(p) == z.Get(p)
    ensures forall p: Part :: p == part || Rank(p) != Rank(part)
  {
  }

  ghost predicate IsPass(run: seq<State>) {
    && |run| > 0 && run[0].pc == PreStart
    && (forall i :: 0 <= i < |run| - 1 ==> Step(run[i], run[i + 1]))
    && (forall i :: 0 <= i < |run| - 1 ==> run[i].pc != MirrorAfterUpgrade)
  }

  lemma {:induction false} PassInvariant(run: seq<State>, k: nat)
    requires IsPass(run) && k < |run|
    ensures InPass(run[0], run[k])
  {
    hide Step, InPass;
    if k > 0 {
      PassInvariant(run, k - 1);
      InPassKept(run[0], run[k - 1], run[k]);
    } else {
      PassBegins(run[0]);
    }
  }

  lemma PassBegins(s: State)
    requires s.pc == PreStart
    ensures InPass(s, s)
  {
  }

  /** Between any two file operations of a pass begun with current marked good, either current is still
      marked good and untouched, or previous is marked good and holds what current held. */
  lemma PassAlwaysHasWholeZone(run: seq<State>, k: nat)
    requires IsPass(run) && k < |run| && IsGood(run[0].cur)
    ensures run[k].cur == run[0].cur
         || (IsGood(run[k].pre) && Saved(run[0], run[k].pre))
  {
    hide Step, CopyStep, OverlapStep, Saved, CopyInv, OverlapInv;
    PassInvariant(run, k);
  }

  /** At the end of a pass current is the update laid over what it was when the pass began, and
      previous is what it was: so previous is whole exactly if current was whole at the beginning,
      which is certain only when current was marked good there. */
  lemma PassResult(run: seq<State>)
    requires IsPass(run) && run[|run| - 1].pc == MirrorAfterUpgrade
    ensures var start, end := run[0], run[|run| - 1];
      && IsGood(end.cur) && FilesOf(end.cur.image) == FilesOf(start.cur.image) + FilesOf(start.upg.image)
      && end.cur.cfg == start.cur.cfg && end.cur.dbc == start.cur.dbc && end.cur.data == start.cur.data
      && IsGood(end.pre) && Saved(start, end.pre) && end.upg == start.upg
  {
    hide Step, Saved;
    PassInvariant(run, |run| - 1);
  }

  // --- rollback ---

  /** What a rollback makes of current: previous where that has files, else what was there. */
  ghost predicate RolledBack(start: State, cur: Zone) {
    forall p: Part :: cur.Get(p) == Copied(start.pre.Get(p), start.cur.Get(p))
  }

  /** After a rollback began in `start`, with crashes anywhere, until the application runs. */
  ghost predicate Rolling(start: State, s: State) {
    && s.pre == start.pre && IsGood(s.pre) && !IsGood(s.upg)
    && (IsGood(s.cur) ==> RolledBack(start, s.cur))
    && (forall p: Part :: !Needed(start.pre.Get(p)) ==> s.cur.Get(p) == start.cur.Get(p))
    && match s.pc
       case Boot | RemoveUpgrade | StartApp | Launch | RollBack | RollStart => true
       case Roll(part, phase) =>
         && !IsGood(s.cur)
         && CopyInv(s.pre.Get(part), start.cur.Get(part), s.cur.Get(part), phase)
         && (forall p: Part :: Rank(p) < Rank(part) ==> s.cur.Get(p) == Copied(start.pre.Get(p), start.cur.Get(p)))
       case RollCommit => RolledBack(start, s.cur)
       case MirrorAfterRoll | Running => IsGood(s.cur)
       case _ => false
  }

  lemma RollingKept(start: State, s: State, s': State)
    requires Rolling(start, s) && Next(s, s') && s.pc != Running
    ensures Rolling(start, s')
  {
    if Crash(s, s') {
      hide Step, CopyStep, OverlapStep, CopyInv;
    } else if s.pc.Roll? && !s.pc.phase.Done? {
      RollStepKept(start, s, s');
    } else {
      RollFlowKept(start, s, s');
    }
  }

  lemma RollFlowKept(start: State, s: State, s': State)
    requires Rolling(start, s) && Step(s, s') && s.pc != Running
    requires !(s.pc.Roll? && !s.pc.phase.Done?)
    ensures Rolling(start, s')
  {
    hide CopyStep, OverlapStep, RemoveStep;
    if s.pc.Roll? {
      hide Needed;
    }
  }

  lemma RollStepKept(start: State, s: State, s': State)
    requires Rolling(start, s) && Step(s, s') && s.pc.Roll? && !s.pc.phase.Done?
    ensures Rolling(start, s')
  {
    hide CopyStep;
    var part, phase := s.pc.part, s.pc.phase;
    var d, phase' :| CopyStep(s.pre.Get(part), s.cur.Get(part), phase, d, phase')
      && s' == s.(cur := s.cur.Put(part, d), pc := Roll(part, phase'));
    UnneededStays(s.pre.Get(part), s.cur.Get(part), phase, d, phase', start.cur.Get(part));
    CopyKeeps(s.pre.Get(part), start.cur.Get(part), s.cur.Get(part), phase, d, phase');
    PutGet(s.cur, part, d);
    hide CopyInv, Needed;
  }

  lemma UnneededStays(src: Dir, dst: Dir, phase: Phase, dst': Dir, phase': Phase, before: Dir)
    requires CopyStep(src, dst, phase, dst', phase') && CopyInv(src, before, dst, phase)
    ensures !Needed(src) ==> dst' == dst
  {
  }

  /** A rollback never writes previous; and interrupted any number of times, with no upgrade pending,
      it leaves current marked good only when every sub-directory with files in previous has been
      copied exactly into current and the others have not been touched. */
  lemma {:induction false} RollbackSurvivesCrashes(run: seq<State>, k: nat)
    requires IsRun(run) && k < |run|
    requires run[0].pc == Roll(Image, Call) && !IsGood(run[0].cur) && IsGood(run[0].pre) && !IsGood(run[0].upg)
    requires forall i :: 0 <= i < k ==> run[i].pc != Running
    ensures run[k].pre == run[0].pre
    ensures IsGood(run[k].cur) ==> RolledBack(run[0], run[k].cur)
    ensures run[k].pc == Running ==> IsGood(run[k].cur)
    ensures Rolling(run[0], run[k])
  {
    hide Next;
    if k > 0 {
      RollbackSurvivesCrashes(run, k - 1);
      assert Next(run[k - 1], run[k]);
      RollingKept(run[0], run[k - 1], run[k]);
    }
  }
}
