/** Where the guarantees of LoaderSafety and LoaderPasses end: exactly when a rollback is safe, exactly what
    a pass saves, and runs in which a zone is marked good although its image is no version at all. */
module LoaderLimits {
  import opened Basics
  import opened Loader
  import opened LoaderPasses

  ghost predicate Reaches(s: State, t: State) {
    exists run :: IsRun(run) && run[0] == s && run[|run| - 1] == t
  }

  lemma ReachSelf(s: State)
    ensures Reaches(s, s)
  {
    hide Next;
    assert IsRun([s]);
  }

  lemma ReachNext(s: State, t: State, u: State)
    requires Reaches(s, t) && Next(t, u)
    ensures Reaches(s, u)
  {
    hide Next;
    var run :| IsRun(run) && run[0] == s && run[|run| - 1] == t;
    var longer := run + [u];
    assert IsRun(longer);
  }

  lemma ReachTransitive(s: State, t: State, u: State)
    requires Reaches(s, t) && Reaches(t, u)
    ensures Reaches(s, u)
  {
    hide Next;
    var a :| IsRun(a) && a[0] == s && a[|a| - 1] == t;
    var b :| IsRun(b) && b[0] == t && b[|b| - 1] == u;
    var run := a + b[1..];
    forall i | 0 <= i < |run| - 1 ensures Next(run[i], run[i + 1]) {
      if i >= |a| - 1 {
        assert run[i + 1] == b[i + 1 - |a| + 1];
        assert run[i] == b[i - |a| + 1];
      }
    }
    assert IsRun(run);
  }

  // --- a backup can be completed ---

  function At(s: State, part: Part, d: Dir, phase: Phase): State {
    s.(pre := s.pre.Put(part, d), pc := Backup(part, phase))
  }

  lemma BackupStep(s: State, part: Part, d: Dir, phase: Phase, d': Dir, phase': Phase)
    requires phase != Done && CopyStep(s.cur.Get(part), d, phase, d', phase')
    ensures Next(At(s, part, d, phase), At(s, part, d', phase'))
  {
    hide CopyStep;
    var t := At(s, part, d, phase);
    assert t.pre.Get(part) == d && t.cur.Get(part) == s.cur.Get(part);
    assert At(s, part, d', phase') == t.(pre := t.pre.Put(part, d'), pc := Backup(part, phase'));
  }

  lemma {:induction false} ClearingCompletes(s: State, part: Part, files: Files)
    requires Needed(s.cur.Get(part))
    ensures Reaches(At(s, part, Dir(files), Clearing), At(s, part, Missing, Clearing))
    decreases |files|
  {
    var here := At(s, part, Dir(files), Clearing);
    ReachSelf(here);
    if files == map[] {
      BackupStep(s, part, Dir(files), Clearing, Missing, Clearing);
      hide Next;
      ReachNext(here, here, At(s, part, Missing, Clearing));
    } else {
      var n :| n in files;
      var fewer := files - {n};
      assert fewer.Keys == files.Keys - {n};
      BackupStep(s, part, Dir(files), Clearing, Dir(fewer), Clearing);
      hide Next;
      ReachNext(here, here, At(s, part, Dir(fewer), Clearing));
      ClearingCompletes(s, part, fewer);
      ReachTransitive(here, At(s, part, Dir(fewer), Clearing), At(s, part, Missing, Clearing));
    }
  }

  lemma {:induction false} FillingCompletes(s: State, part: Part, files: Files, todo: set<Name>)
    requires CopyInv(s.cur.Get(part), Missing, Dir(files), Filling(todo))
    ensures Reaches(At(s, part, Dir(files), Filling(todo)), At(s, part, s.cur.Get(part), Done))
    decreases |todo|
  {
    var src := s.cur.Get(part);
    var here := At(s, part, Dir(files), Filling(todo));
    ReachSelf(here);
    if todo == {} {
      assert files == FilesOf(src);
      BackupStep(s, part, Dir(files), Filling(todo), src, Done);
      hide Next;
      ReachNext(here, here, At(s, part, src, Done));
    } else {
      var n :| n in todo;
      var whole := FilesOf(src)[n];
      assert whole[..|whole|] == whole;
      var more := files[n := whole];
      BackupStep(s, part, Dir(files), Filling(todo), Dir(more), Filling(todo - {n}));
      hide Next;
      var there := At(s, part, Dir(more), Filling(todo - {n}));
      ReachNext(here, here, there);
      FillingCompletes(s, part, more, todo - {n});
      ReachTransitive(here, there, At(s, part, src, Done));
    }
  }

  lemma PartCompletes(s: State, part: Part)
    requires s.pc == Backup(part, Call)
    ensures Reaches(s, At(s, part, Copied(s.cur.Get(part), s.pre.Get(part)), Done))
  {
    var src, dst := s.cur.Get(part), s.pre.Get(part);
    assert s == At(s, part, dst, Call);
    ReachSelf(s);
    if !Needed(src) {
      BackupStep(s, part, dst, Call, dst, Done);
      hide Next;
      ReachNext(s, s, At(s, part, dst, Done));
    } else {
      var a, b, c := At(s, part, Dir(FilesOf(dst)), Clearing), At(s, part, Missing, Clearing),
        At(s, part, Dir(map[]), Filling(FilesOf(src).Keys));
      BackupStep(s, part, dst, Call, Dir(FilesOf(dst)), Clearing);
      BackupStep(s, part, Missing, Clearing, Dir(map[]), Filling(FilesOf(src).Keys));
      ClearingCompletes(s, part, FilesOf(dst));
      FillingCompletes(s, part, map[], FilesOf(src).Keys);
      hide Next;
      ReachNext(s, s, a);
      ReachTransitive(s, a, b);
      ReachNext(s, b, c);
      ReachTransitive(s, c, At(s, part, src, Done));
    }
  }

  /** The backup part of a pass, from any disk. */
  function AfterBackup(s: State): State {
    s.(pre := Zone(Good, Copied(s.cur.image, s.pre.image), Copied(s.cur.cfg, s.pre.cfg),
                   Copied(s.cur.dbc, s.pre.dbc), Copied(s.cur.data, s.pre.data)),
       pc := CurStart)
  }

  lemma BackupCompletes(s: State)
    requires s.pc == PreStart
    ensures Reaches(s, AfterBackup(s))
  {
    ReachSelf(s);
    var s0 := s.(pre := s.pre.(status := NotGood), pc := Backup(Image, Call));
    ReachNext(s, s, s0);
    hide CopyStep, OverlapStep, Needed;
    var s1 := PartThenNext(s, s0, Image);
    var s2 := PartThenNext(s, s1, Cfg);
    var s3 := PartThenNext(s, s2, Dbc);
    var s4 := PartThenNext(s, s3, Data);
    ReachNext(s, s4, s4.(pre := s4.pre.(status := Good), pc := CurStart));
  }

  lemma PartThenNext(s: State, t: State, part: Part) returns (u: State)
    requires t.pc == Backup(part, Call) && Reaches(s, t)
    ensures Reaches(s, u)
    ensures u == t.(pre := t.pre.Put(part, Copied(t.cur.Get(part), t.pre.Get(part))),
                    pc := if part == Data then PreCommit else Backup(NextPart(part), Call))
  {
    PartCompletes(t, part);
    var done := At(t, part, Copied(t.cur.Get(part), t.pre.Get(part)), Done);
    ReachTransitive(s, t, done);
    u := done.(pc := if part == Data then PreCommit else Backup(NextPart(part), Call));
    assert Next(done, u);
    ReachNext(s, done, u);
  }

  // --- a torn image in previous ---

  const EMPTY := Zone(NotGood, Missing, Missing, Missing, Missing)

  function OneFile(n: Name, b: Bytes): Dir {
    Dir(map[n := b])
  }

  lemma SingleFile(n: Name, b: Bytes)
    ensures Needed(OneFile(n, b)) && FilesOf(OneFile(n, b)).Keys == {n}
  {
    assert n in FilesOf(OneFile(n, b));
  }

  /** A crash in the middle of overlaying a file, and then the second pass: previous is marked good
      although its image is neither the old one nor the new one. Current was marked bad when that
      pass began, so this does not contradict PassAlwaysHasWholeZone. */
  lemma TornImageIsSaved() returns (start: State, end: State)
    ensures start.pc == Boot && IsGood(start.cur) && IsGood(start.upg) && Reaches(start, end)
    ensures IsGood(end.pre)
      && FilesOf(end.pre.image) != FilesOf(start.cur.image)
      && FilesOf(end.pre.image) != FilesOf(start.cur.image) + FilesOf(start.upg.image)
  {
    var before, after := [1, 1], [2, 2];
    var cur := EMPTY.(status := Good, image := OneFile("a", before));
    var upg := EMPTY.(status := Good, image := OneFile("a", after));
    start := State(cur, EMPTY, upg, Boot, 0);
    SingleFile("a", before);
    SingleFile("a", after);
    ReachSelf(start);
    var s1 := start.(pc := PreStart);
    ReachNext(start, start, s1);
    BackupCompletes(s1);
    var s2 := AfterBackup(s1);
    ReachTransitive(start, s1, s2);
    var torn := OneFile("a", [2]);
    var s3 := OverlayTorn(s2, before, after);
    ReachTransitive(start, s2, s3);
    var s4 := s3.(pc := Boot, startups := 0);
    ReachNext(start, s3, s4);
    var s5 := s4.(pc := PreStart);
    ReachNext(start, s4, s5);
    BackupCompletes(s5);
    end := AfterBackup(s5);
    ReachTransitive(start, s5, end);
    SingleFile("a", [2]);
    assert end.pre.image == torn;
    assert FilesOf(torn)["a"] == [2];
    assert (FilesOf(start.cur.image) + FilesOf(start.upg.image))["a"] == after;
  }

  lemma OverlayTorn(s: State, before: Bytes, after: Bytes) returns (t: State)
    requires s.pc == CurStart && before == [1, 1] && after == [2, 2]
    requires s.cur.image == OneFile("a", before) && s.upg.image == OneFile("a", after)
    ensures Reaches(s, t)
    ensures t == s.(cur := s.cur.(status := NotGood, image := OneFile("a", [2])), pc := Overlay(Filling({"a"})))
  {
    SingleFile("a", before);
    SingleFile("a", after);
    ReachSelf(s);
    var s1 := s.(cur := s.cur.(status := NotGood), pc := Overlay(Call));
    ReachNext(s, s, s1);
    OverlayMove(s, s1, Call, s1.cur.image, Filling({"a"}));
    var s2 := s1.(pc := Overlay(Filling({"a"})));
    assert s2 == s1.(cur := s1.cur.(image := s1.cur.image), pc := Overlay(Filling({"a"})));
    var torn := OneFile("a", [2]);
    assert FilesOf(s2.upg.image)["a"][..1] == [2];
    assert torn == Dir(s2.cur.image.files["a" := FilesOf(s2.upg.image)["a"][..1]]);
    assert FillStep(s2.upg.image, s2.cur.image, {"a"}, torn, Filling({"a"}));
    OverlayMove(s, s2, Filling({"a"}), torn, Filling({"a"}));
    t := s2.(cur := s2.cur.(image := torn));
  }

  /** What the first half of a pass saves is exactly what current held when the pass began: a version v is
      in previous afterwards if and only if it was in current before. */
  lemma SavedExactly(run: seq<State>, p: Part, v: Dir)
    requires IsPass(run) && run[|run| - 1].pc == MirrorAfterUpgrade && Needed(run[0].cur.Get(p))
    ensures run[|run| - 1].pre.Get(p) == v <==> run[0].cur.Get(p) == v
  {
    hide IsPass;
    PassResult(run);
  }

  // --- an overlay can be completed ---

  function Overlaying(s: State, files: Files, phase: Phase): State {
    s.(cur := s.cur.(image := Dir(files)), pc := Overlay(phase))
  }

  lemma OverlayMove(start: State, s: State, phase: Phase, d: Dir, phase': Phase)
    requires Reaches(start, s) && s.pc == Overlay(phase) && phase != Done
    requires OverlapStep(s.upg.image, s.cur.image, phase, d, phase')
    ensures Reaches(start, s.(cur := s.cur.(image := d), pc := Overlay(phase')))
  {
    hide OverlapStep;
    ReachNext(start, s, s.(cur := s.cur.(image := d), pc := Overlay(phase')));
  }

  lemma {:induction false} OverlayFills(start: State, s: State, base: Files, files: Files, todo: set<Name>)
    requires OverlapInv(s.upg.image, base, Dir(files), Filling(todo))
    requires Reaches(start, Overlaying(s, files, Filling(todo)))
    ensures Reaches(start, Overlaying(s, base + FilesOf(s.upg.image), Done))
    decreases |todo|
  {
    var src, here := s.upg.image, Overlaying(s, files, Filling(todo));
    hide OverlapStep, OverlapInv, Reaches;
    if todo == {} {
      FillEnd(src, base, files);
      OverlayMove(start, here, Filling(todo), Dir(files), Done);
    } else {
      var n :| n in todo;
      var more := FillOne(src, base, files, todo, n);
      OverlayMove(start, here, Filling(todo), Dir(more), Filling(todo - {n}));
      OverlayFills(start, s, base, more, todo - {n});
    }
  }

  lemma FillEnd(src: Dir, base: Files, files: Files)
    requires OverlapInv(src, base, Dir(files), Filling({}))
    ensures files == base + FilesOf(src) && OverlapStep(src, Dir(files), Filling({}), Dir(files), Done)
  {
  }

  /** One file is written as a whole. */
  lemma FillOne(src: Dir, base: Files, files: Files, todo: set<Name>, n: Name) returns (more: Files)
    requires OverlapInv(src, base, Dir(files), Filling(todo)) && n in todo
    ensures OverlapStep(src, Dir(files), Filling(todo), Dir(more), Filling(todo - {n}))
    ensures OverlapInv(src, base, Dir(more), Filling(todo - {n}))
  {
    var whole := FilesOf(src)[n];
    assert whole[..|whole|] == whole;
    more := files[n := whole];
    assert FillStep(src, Dir(files), todo, Dir(more), Filling(todo - {n}));
    hide FillStep;
  }

  /** The second half of a pass can be completed from any disk. */
  lemma OverlayCompletes(start: State, s: State) returns (t: State)
    requires Reaches(start, s) && s.pc == CurStart
    ensures Reaches(start, t) && t.pc == MirrorAfterUpgrade && IsGood(t.cur)
    ensures FilesOf(t.cur.image) == FilesOf(s.cur.image) + FilesOf(s.upg.image)
  {
    var base, src := FilesOf(s.cur.image), s.upg.image;
    var s1 := s.(cur := s.cur.(status := NotGood), pc := Overlay(Call));
    ReachNext(start, s, s1);
    if !Needed(src) {
      OverlayMove(start, s1, Call, s1.cur.image, Done);
      assert base + FilesOf(src) == base;
      t := OverlayEnds(start, s1.(cur := s1.cur.(image := s1.cur.image), pc := Overlay(Done)));
    } else {
      OverlayMove(start, s1, Call, Dir(base), Filling(FilesOf(src).Keys));
      OverlayFills(start, s1, base, base, FilesOf(src).Keys);
      t := OverlayEnds(start, Overlaying(s1, base + FilesOf(src), Done));
    }
  }

  lemma OverlayEnds(start: State, s: State) returns (t: State)
    requires Reaches(start, s) && s.pc == Overlay(Done)
    ensures Reaches(start, t) && t == s.(cur := s.cur.(status := Good), pc := MirrorAfterUpgrade)
  {
    hide OverlapStep, CopyStep;
    var s1 := s.(pc := CurCommit);
    ReachNext(start, s, s1);
    t := s1.(cur := s1.cur.(status := Good), pc := MirrorAfterUpgrade);
    ReachNext(start, s1, t);
  }

  // --- a rollback crossed by a pending upgrade ---

  function Rolled(s: State, d: Dir, phase: Phase): State {
    s.(cur := s.cur.(image := d), pc := Roll(Image, phase))
  }

  lemma RollMove(start: State, s: State, d: Dir, phase: Phase, d': Dir, phase': Phase)
    requires Reaches(start, Rolled(s, d, phase)) && phase != Done && CopyStep(s.pre.image, d, phase, d', phase')
    ensures Reaches(start, Rolled(s, d', phase'))
  {
    hide CopyStep;
    var here := Rolled(s, d, phase);
    assert Rolled(s, d', phase') == here.(cur := here.cur.Put(Image, d'), pc := Roll(Image, phase'));
    ReachNext(start, here, Rolled(s, d', phase'));
  }

  lemma {:induction false} RollClears(start: State, s: State, files: Files)
    requires Reaches(start, Rolled(s, Dir(files), Clearing))
    ensures Reaches(start, Rolled(s, Missing, Clearing))
    decreases |files|
  {
    if files == map[] {
      RollMove(start, s, Dir(files), Clearing, Missing, Clearing);
    } else {
      var n :| n in files;
      var fewer := files - {n};
      assert fewer.Keys == files.Keys - {n};
      RollMove(start, s, Dir(files), Clearing, Dir(fewer), Clearing);
      hide CopyStep;
      RollClears(start, s, fewer);
    }
  }

  /** From every rollback that is to replace the image while an upgrade is pending, a crash after the image
      has been cleared leads to a current zone that is marked good and holds the files of the upgrade alone:
      nothing of what current or previous held is left in it. */
  lemma RollbackCrossedByUpgrade(start: State) returns (end: State)
    requires start.pc == Roll(Image, Call) && Needed(start.pre.image) && IsGood(start.upg)
    ensures Reaches(start, end) && IsGood(end.cur) && end.pc == MirrorAfterUpgrade
    ensures FilesOf(end.cur.image) == FilesOf(start.upg.image)
  {
    ReachSelf(start);
    assert start == Rolled(start, start.cur.image, Call);
    RollMove(start, start, start.cur.image, Call, Dir(FilesOf(start.cur.image)), Clearing);
    RollClears(start, start, FilesOf(start.cur.image));
    hide CopyStep, OverlapStep, RemoveStep;
    var cleared := Rolled(start, Missing, Clearing);
    var s1 := cleared.(pc := Boot, startups := 0);
    assert Crash(cleared, s1);
    ReachNext(start, cleared, s1);
    var s2 := s1.(pc := PreStart);
    ReachNext(start, s1, s2);
    BackupCompletes(s2);
    ReachTransitive(start, s2, AfterBackup(s2));
    end := OverlayCompletes(start, AfterBackup(s2));
    assert map[] + FilesOf(start.upg.image) == FilesOf(start.upg.image);
  }

  /** A run of a rollback, with crashes anywhere, until the application runs. */
  ghost predicate RollRun(start: State, run: seq<State>) {
    IsRun(run) && run[0] == start && forall i :: 0 <= i < |run| - 1 ==> run[i].pc != Running
  }

  /** What a rollback promises at the end of a run: previous is untouched, and current is marked good only
      if every sub-directory has been copied. */
  ghost predicate Kept(start: State, s: State) {
    s.pre == start.pre && (IsGood(s.cur) ==> RolledBack(start, s.cur))
  }

  /** A rollback keeps its promise on every run exactly if no upgrade is marked good when it begins. */
  lemma RollbackSafeExactly(start: State)
    requires start.pc == Roll(Image, Call) && !IsGood(start.cur) && IsGood(start.pre)
    ensures (forall run :: RollRun(start, run) ==> Kept(start, run[|run| - 1])) <==> !IsGood(start.upg)
  {
    if IsGood(start.upg) {
      var run := BrokenRollback(start);
      assert RollRun(start, run) && !Kept(start, run[|run| - 1]);
    } else {
      forall run | RollRun(start, run) ensures Kept(start, run[|run| - 1]) {
        RollbackSurvivesCrashes(run, |run| - 1);
      }
    }
  }

  /** The shortest run that breaks it: after the crash the pending upgrade marks previous bad. */
  lemma BrokenRollback(start: State) returns (run: seq<State>)
    requires start.pc == Roll(Image, Call) && IsGood(start.pre) && IsGood(start.upg)
    ensures RollRun(start, run) && run[|run| - 1].pre != start.pre
  {
    hide CopyStep, OverlapStep, RemoveStep;
    var s1 := start.(pc := Boot, startups := 0);
    var s2 := s1.(pc := PreStart);
    var s3 := s2.(pre := s2.pre.(status := NotGood), pc := Backup(Image, Call));
    run := [start, s1, s2, s3];
    assert Crash(start, s1) && Step(s1, s2) && Step(s2, s3);
  }
}
