/** What every run of the loader keeps: a recoverable zone, and the image across an upgrade with crashes. */
module LoaderSafety {
  import opened Loader

  // --- over all runs: a recoverable zone always exists ---

  /** Which zones are marked good at each point of the flow. */
  ghost predicate Recoverable(s: State) {
    match s.pc
    case Boot => IsGood(s.cur) || IsGood(s.pre) || IsGood(s.upg)
    case PreStart | Backup(_, _) | PreCommit => IsGood(s.upg)
    case CurStart | Overlay(_) | CurCommit => IsGood(s.upg) && IsGood(s.pre)
    case MirrorAfterUpgrade | Running | MirrorAfterRoll | Exited => IsGood(s.cur)
    case RemoveUpgrade | StartApp | Launch | RollBack => IsGood(s.cur) || IsGood(s.pre)
    case RollStart | Roll(_, _) | RollCommit => IsGood(s.pre)
    case Restore => false
  }

  lemma RecoverableKept(s: State, s': State)
    requires Recoverable(s) && Next(s, s')
    ensures Recoverable(s')
  {
    hide CopyStep, OverlapStep, RemoveStep;
  }

  /** In every run from a good current zone, with any number of crashes, upgrades, failed starts and
      rollbacks: current is marked bad only while upgrade or previous is marked good, the loader
      gives up only while current is marked good, and the copy in /usrdata is never needed. */
  lemma {:induction false} AlwaysRecoverable(run: seq<State>, k: nat)
    requires IsRun(run) && k < |run| && Recoverable(run[0])
    ensures Recoverable(run[k])
    ensures !IsGood(run[k].cur) ==> IsGood(run[k].upg) || IsGood(run[k].pre)
    ensures run[k].pc != Restore
    ensures run[k].pc == Exited ==> IsGood(run[k].cur)
  {
    hide Next;
    if k > 0 {
      AlwaysRecoverable(run, k - 1);
      assert Next(run[k - 1], run[k]);
      RecoverableKept(run[k - 1], run[k]);
    }
  }

  // --- crashes during an upgrade ---

  /** The image before the upgrade and the files of the upgrade. */
  datatype Plan = Plan(base: Files, update: Files)

  function Target(p: Plan): Files {
    p.base + p.update
  }

  /** Files of the update may be torn or missing in the current image, but only those still present
      among the files u of the upgrade zone. */
  ghost predicate Between(p: Plan, img: Files, u: Files) {
    && (forall n :: n in u ==> n in p.update && u[n] == p.update[n])
    && (forall n :: n in img ==> n in Target(p))
    && (forall n :: n in Target(p) && n !in u ==> n in img && img[n] == Target(p)[n])
  }

  /** While an upgrade is carried out and its directory is removed, with crashes anywhere. */
  ghost predicate Upgrading(p: Plan, s: State) {
    var img, u := FilesOf(s.cur.image), FilesOf(s.upg.image);
    && Between(p, img, u)
    && (IsGood(s.cur) ==> img == Target(p) || (img == p.base && u == p.update && IsGood(s.upg)))
    && (!IsGood(s.cur) ==> IsGood(s.upg))
    && match s.pc
       case Boot => true
       case PreStart | Backup(_, _) | PreCommit | CurStart => IsGood(s.upg)
       case Overlay(phase) =>
         && IsGood(s.upg) && !IsGood(s.cur) && !phase.Clearing?
         && (phase.Filling? ==> Filled(s.upg.image, s.cur.image, phase.todo))
         && (phase.Done? ==> img == Target(p))
       case CurCommit => IsGood(s.upg) && img == Target(p)
       case MirrorAfterUpgrade | RemoveUpgrade | StartApp | Launch | Running => IsGood(s.cur) && img == Target(p)
       case _ => false
  }

  lemma UpgradingKept(p: Plan, s: State, s': State)
    requires Upgrading(p, s) && Next(s, s') && s.pc != Running
    ensures Upgrading(p, s')
  {
    hide CopyStep;
    if Crash(s, s') {
    } else if s.pc.Overlay? && !s.pc.phase.Done? {
      OverlayKept(p, s, s');
    } else if s.pc == RemoveUpgrade {
      RemovalKept(p, s, s');
    } else {
      hide Between;
    }
  }

  lemma RemovalKept(p: Plan, s: State, s': State)
    requires Upgrading(p, s) && Step(s, s') && s.pc == RemoveUpgrade
    ensures Upgrading(p, s')
  {
  }

  lemma OverlayKept(p: Plan, s: State, s': State)
    requires Upgrading(p, s) && Step(s, s') && s.pc.Overlay? && !s.pc.phase.Done?
    ensures Upgrading(p, s')
  {
    hide OverlapStep, Between, Filled;
    var phase := s.pc.phase;
    var d, phase' :| OverlapStep(s.upg.image, s.cur.image, phase, d, phase')
      && s' == s.(cur := s.cur.(image := d), pc := Overlay(phase'));
    if phase.Filling? {
      FillingKept(p, s.upg.image, s.cur.image, phase.todo, d, phase');
    } else {
      CallKept(p, s.upg.image, s.cur.image, d, phase');
    }
  }

  /** One file operation of the overlay. */
  lemma FillingKept(p: Plan, src: Dir, dst: Dir, todo: set<Name>, dst': Dir, phase': Phase)
    requires Between(p, FilesOf(dst), FilesOf(src)) && Filled(src, dst, todo)
    requires OverlapStep(src, dst, Filling(todo), dst', phase')
    ensures Between(p, FilesOf(dst'), FilesOf(src)) && !phase'.Clearing? && !phase'.Call?
    ensures phase'.Filling? ==> Filled(src, dst', phase'.todo)
    ensures phase'.Done? ==> FilesOf(dst') == Target(p)
  {
    FillKeeps(src, dst, todo, dst', phase');
    hide FillStep;
    if phase'.Done? {
      assert FilesOf(dst') == Target(p);
    }
  }

  /** The first operation of the overlay. */
  lemma CallKept(p: Plan, src: Dir, dst: Dir, dst': Dir, phase': Phase)
    requires Between(p, FilesOf(dst), FilesOf(src)) && OverlapStep(src, dst, Call, dst', phase')
    ensures Between(p, FilesOf(dst'), FilesOf(src)) && !phase'.Clearing? && !phase'.Call?
    ensures phase'.Filling? ==> Filled(src, dst', phase'.todo)
    ensures phase'.Done? ==> FilesOf(dst') == Target(p)
  {
    if phase'.Done? {
      assert FilesOf(dst') == Target(p);
    }
  }

  /** Crash-only faults, any number, at any step of the upgrade or of the removal of its directory:
      current is marked bad only while the upgrade is marked good; whenever current is marked good
      its image is the old one or the old one overlaid by the whole original update; and when the
      application is about to start it is the latter. */
  lemma {:induction false} UpgradeSurvivesCrashes(p: Plan, run: seq<State>, k: nat)
    requires IsRun(run) && k < |run|
    requires run[0].pc == Boot && IsGood(run[0].cur) && IsGood(run[0].upg)
    requires FilesOf(run[0].cur.image) == p.base && FilesOf(run[0].upg.image) == p.update
    requires forall i :: 0 <= i < k ==> run[i].pc != Running
    ensures !IsGood(run[k].cur) ==> IsGood(run[k].upg)
    ensures IsGood(run[k].cur) ==> FilesOf(run[k].cur.image) in {p.base, Target(p)}
    ensures run[k].pc in {MirrorAfterUpgrade, RemoveUpgrade, StartApp, Launch, Running}
      ==> IsGood(run[k].cur) && FilesOf(run[k].cur.image) == Target(p)
    ensures Upgrading(p, run[k])
  {
    hide Next;
    if k > 0 {
      UpgradeSurvivesCrashes(p, run, k - 1);
      assert Next(run[k - 1], run[k]);
      UpgradingKept(p, run[k - 1], run[k]);
    }
  }
}
