/** `main` of appl/main.c with `appl_copy` and `appl_overlap` as a program on the disk. Every file
    operation it carries out is recorded, and the record is proved to be a run of the machine in
    `Loader`, so that what holds of all runs, with a crash after any operation, holds of the program. */
module LoaderMain {
  import opened Loader
  import opened LoaderSafety
  import opened LoaderPasses

  class Device {
    var cur: Zone
    var pre: Zone
    var upg: Zone
    var startups: nat
    ghost var pc: Pc
    ghost var run: seq<State>

    /** The device has just been switched on. */
    constructor (current: Zone, previous: Zone, upgrade: Zone)
      ensures Valid() && Now() == State(current, previous, upgrade, Boot, 0) && run == [Now()]
    {
      cur, pre, upg, startups := current, previous, upgrade, 0;
      pc := Boot;
      run := [State(current, previous, upgrade, Boot, 0)];
    }

    ghost function Now(): State
      reads this
    {
      State(cur, pre, upg, pc, startups)
    }

    /** The record is a run of the machine that ends here. */
    ghost predicate Valid()
      reads this
    {
      IsRun(run) && run[|run| - 1] == Now()
    }

    ghost method Log(before: State)
      requires IsRun(run) && run[|run| - 1] == before && Step(before, Now())
      modifies this`run
      ensures Valid() && run == old(run) + [Now()]
    {
      hide Step;
      run := run + [Now()];
    }

    // --- the flow of control and the status files ---

    ghost method Jump(next: Pc)
      requires Valid() && Step(Now(), Now().(pc := next))
      modifies this`pc, this`run
      ensures Valid() && old(run) <= run && Now() == old(Now()).(pc := next)
    {
      hide Step;
      ghost var before := Now();
      pc := next;
      Log(before);
    }

    /** `dir_update_start` or `dir_update_commit` of previous. */
    method MarkPrevious(status: Status, ghost next: Pc)
      requires Valid() && Step(Now(), Now().(pre := pre.(status := status), pc := next))
      modifies this
      ensures Valid() && old(run) <= run && Now() == old(Now()).(pre := old(pre).(status := status), pc := next)
    {
      hide Step;
      ghost var before := Now();
      pre := pre.(status := status);
      pc := next;
      Log(before);
    }

    /** `dir_update_start` or `dir_update_commit` of current. */
    method MarkCurrent(status: Status, ghost next: Pc)
      requires Valid() && Step(Now(), Now().(cur := cur.(status := status), pc := next))
      modifies this
      ensures Valid() && old(run) <= run && Now() == old(Now()).(cur := old(cur).(status := status), pc := next)
    {
      hide Step;
      ghost var before := Now();
      cur := cur.(status := status);
      pc := next;
      Log(before);
    }

    // --- appl_copy ---

    ghost function CopyPc(toPrevious: bool, part: Part, phase: Phase): Pc {
      if toPrevious then Backup(part, phase) else Roll(part, phase)
    }

    function Src(toPrevious: bool, part: Part): Dir
      reads this
    {
      if toPrevious then cur.Get(part) else pre.Get(part)
    }

    function Dst(toPrevious: bool, part: Part): Dir
      reads this
    {
      if toPrevious then pre.Get(part) else cur.Get(part)
    }

    /** The zones when only one sub-directory of the destination has changed. */
    ghost predicate OnlyPart(toPrevious: bool, part: Part, before: State, phase: Phase)
      reads this
    {
      && Valid() && upg == before.upg && startups == before.startups
      && pc == CopyPc(toPrevious, part, phase)
      && (if toPrevious then cur == before.cur && pre == before.pre.Put(part, Dst(toPrevious, part))
          else pre == before.pre && cur == before.cur.Put(part, Dst(toPrevious, part)))
    }

    /** One file operation of `appl_copy`. */
    method Write(toPrevious: bool, part: Part, d: Dir, ghost phase: Phase, ghost phase': Phase, ghost start: State)
      requires OnlyPart(toPrevious, part, start, phase) && phase != Done
      requires CopyStep(Src(toPrevious, part), Dst(toPrevious, part), phase, d, phase')
      modifies this
      ensures OnlyPart(toPrevious, part, start, phase') && old(run) <= run
      ensures Src(toPrevious, part) == old(Src(toPrevious, part)) && Dst(toPrevious, part) == d
    {
      hide CopyStep;
      ghost var before := Now();
      if toPrevious {
        pre := pre.Put(part, d);
      } else {
        cur := cur.Put(part, d);
      }
      pc := CopyPc(toPrevious, part, phase');
      Log(before);
    }

    /** `appl_copy`: an absent or empty source leaves the destination alone; otherwise the destination is
        removed, created, and filled file by file. */
    method ApplCopy(toPrevious: bool, part: Part)
      requires Valid() && pc == CopyPc(toPrevious, part, Call)
      modifies this
      ensures OnlyPart(toPrevious, part, old(Now()), Done) && old(run) <= run
      ensures Dst(toPrevious, part) == Copied(old(Src(toPrevious, part)), old(Dst(toPrevious, part)))
    {
      hide CopyInv, Next;
      ghost var start := Now();
      var src := Src(toPrevious, part);
      if !Needed(src) {
        Write(toPrevious, part, Dst(toPrevious, part), Call, Done, start);
        return;
      }
      hide OnlyPart, Src, Dst;
      Write(toPrevious, part, Dir(FilesOf(Dst(toPrevious, part))), Call, Clearing, start);
      RemoveAll(toPrevious, part, start);
      Write(toPrevious, part, Dir(map[]), Clearing, Filling(FilesOf(src).Keys), start);
      FillBegins(src);
      FillAll(toPrevious, part, FilesOf(src).Keys, start);
    }

    /** The loop over the files of the source. */
    method FillAll(toPrevious: bool, part: Part, names: set<Name>, ghost start: State)
      requires OnlyPart(toPrevious, part, start, Filling(names))
      requires CopyInv(Src(toPrevious, part), Missing, Dst(toPrevious, part), Filling(names))
      modifies this
      ensures OnlyPart(toPrevious, part, start, Done) && old(run) <= run
      ensures Src(toPrevious, part) == Dst(toPrevious, part) == old(Src(toPrevious, part))
    {
      hide CopyInv, CopyStep, OnlyPart, Src, Dst;
      var todo := names;
      while todo != {}
        invariant OnlyPart(toPrevious, part, start, Filling(todo)) && old(run) <= run
        invariant Src(toPrevious, part) == old(Src(toPrevious, part))
        invariant CopyInv(Src(toPrevious, part), Missing, Dst(toPrevious, part), Filling(todo))
        decreases |todo|
      {
        var n :| n in todo;
        FileCopy(toPrevious, part, n, todo, start);
        todo := todo - {n};
      }
      FillDone(Src(toPrevious, part), Dst(toPrevious, part));
      Write(toPrevious, part, Src(toPrevious, part), Filling({}), Done, start);
    }

    /** `dir_remove_path` of the destination. */
    method RemoveAll(toPrevious: bool, part: Part, ghost start: State)
      requires OnlyPart(toPrevious, part, start, Clearing) && Dst(toPrevious, part).Dir?
      modifies this
      ensures OnlyPart(toPrevious, part, start, Clearing) && old(run) <= run
      ensures Src(toPrevious, part) == old(Src(toPrevious, part)) && Dst(toPrevious, part) == Missing
    {
      var files := Dst(toPrevious, part).files;
      while files != map[]
        invariant OnlyPart(toPrevious, part, start, Clearing) && old(run) <= run
        invariant Src(toPrevious, part) == old(Src(toPrevious, part)) && Dst(toPrevious, part) == Dir(files)
        decreases |files|
      {
        var n :| n in files.Keys;
        ghost var was := files;
        files := files - {n};
        assert files.Keys == was.Keys - {n};
        Write(toPrevious, part, Dir(files), Clearing, Clearing, start);
      }
      Write(toPrevious, part, Missing, Clearing, Clearing, start);
    }

    /** `file_copy` of one file of the source: truncated, then chunk by chunk. */
    method FileCopy(toPrevious: bool, part: Part, n: Name, ghost todo: set<Name>, ghost start: State)
      requires OnlyPart(toPrevious, part, start, Filling(todo)) && n in todo
      requires CopyInv(Src(toPrevious, part), Missing, Dst(toPrevious, part), Filling(todo))
      modifies this
      ensures OnlyPart(toPrevious, part, start, Filling(todo - {n})) && old(run) <= run
      ensures Src(toPrevious, part) == old(Src(toPrevious, part))
      ensures CopyInv(Src(toPrevious, part), Missing, Dst(toPrevious, part), Filling(todo - {n}))
    {
      ghost var src := Src(toPrevious, part);
      var content := FilesOf(Src(toPrevious, part))[n];
      var written := 0;
      while written < |content|
        invariant written <= |content| && Src(toPrevious, part) == src && old(run) <= run
        invariant OnlyPart(toPrevious, part, start, Filling(todo))
        invariant CopyInv(src, Missing, Dst(toPrevious, part), Filling(todo))
      {
        PutChunk(toPrevious, part, n, written, todo, todo, start);
        var size :| 1 <= size <= |content| - written;
        written := written + size;
      }
      PutChunk(toPrevious, part, n, |content|, todo, todo - {n}, start);
    }

    method PutChunk(toPrevious: bool, part: Part, n: Name, written: nat, ghost todo: set<Name>, ghost todo': set<Name>,
                    ghost start: State)
      requires OnlyPart(toPrevious, part, start, Filling(todo)) && n in todo
      requires CopyInv(Src(toPrevious, part), Missing, Dst(toPrevious, part), Filling(todo))
      requires var content := FilesOf(Src(toPrevious, part))[n];
        written <= |content| && (todo' == todo || (todo' == todo - {n} && written == |content|))
      modifies this
      ensures OnlyPart(toPrevious, part, start, Filling(todo')) && old(run) <= run
      ensures Src(toPrevious, part) == old(Src(toPrevious, part))
      ensures CopyInv(Src(toPrevious, part), Missing, Dst(toPrevious, part), Filling(todo'))
    {
      var src, dst := Src(toPrevious, part), Dst(toPrevious, part);
      var d := Dir(dst.files[n := FilesOf(src)[n][..written]]);
      assert FillStep(src, dst, todo, d, Filling(todo'));
      CopyKeeps(src, Missing, dst, Filling(todo), d, Filling(todo'));
      Write(toPrevious, part, d, Filling(todo), Filling(todo'), start);
    }

    // --- the upgrade ---

    /** One file operation of `appl_overlap`. */
    method WriteImage(d: Dir, ghost phase: Phase, ghost phase': Phase)
      requires Valid() && pc == Overlay(phase) && phase != Done
      requires OverlapStep(upg.image, cur.image, phase, d, phase')
      modifies this
      ensures Valid() && old(run) <= run
      ensures Now() == old(Now()).(cur := old(cur).(image := d), pc := Overlay(phase'))
    {
      hide OverlapStep;
      ghost var before := Now();
      cur := cur.(image := d);
      pc := Overlay(phase');
      Log(before);
    }

    /** `appl_overlap`: the files of the upgrade are laid over the current image. */
    method ApplOverlap()
      requires Valid() && pc == Overlay(Call)
      modifies this
      ensures Valid() && old(run) <= run
      ensures Now() == old(Now()).(cur := old(cur).(image := cur.image), pc := Overlay(Done))
      ensures FilesOf(cur.image) == old(FilesOf(cur.image)) + FilesOf(upg.image)
    {
      ghost var base := FilesOf(cur.image);
      var src := upg.image;
      if !Needed(src) {
        WriteImage(cur.image, Call, Done);
        assert base + FilesOf(src) == base;
        return;
      }
      WriteImage(Dir(FilesOf(cur.image)), Call, Filling(FilesOf(src).Keys));
      var todo := FilesOf(src).Keys;
      while todo != {}
        invariant Valid() && old(run) <= run
        invariant Now() == old(Now()).(cur := old(cur).(image := cur.image), pc := Overlay(Filling(todo)))
        invariant OverlapInv(src, base, cur.image, Filling(todo))
        decreases |todo|
      {
        var n :| n in todo;
        OverlapFile(n, todo, base);
        todo := todo - {n};
      }
      ghost var dst := cur.image;
      OverlapKeeps(src, base, dst, Filling({}), dst, Done);
      WriteImage(cur.image, Filling({}), Done);
    }

    /** `file_copy` of one file of the upgrade. */
    method OverlapFile(n: Name, ghost todo: set<Name>, ghost base: Files)
      requires Valid() && pc == Overlay(Filling(todo)) && n in todo && OverlapInv(upg.image, base, cur.image, Filling(todo))
      modifies this
      ensures Valid() && old(run) <= run && OverlapInv(upg.image, base, cur.image, Filling(todo - {n}))
      ensures Now() == old(Now()).(cur := old(cur).(image := cur.image), pc := Overlay(Filling(todo - {n})))
    {
      var content := FilesOf(upg.image)[n];
      var written := 0;
      while written < |content|
        invariant written <= |content| && Valid() && old(run) <= run
        invariant Now() == old(Now()).(cur := old(cur).(image := cur.image), pc := Overlay(Filling(todo)))
        invariant OverlapInv(upg.image, base, cur.image, Filling(todo))
      {
        OverlapChunk(n, written, todo, todo, base);
        var size :| 1 <= size <= |content| - written;
        written := written + size;
      }
      OverlapChunk(n, |content|, todo, todo - {n}, base);
    }

    method OverlapChunk(n: Name, written: nat, ghost todo: set<Name>, ghost todo': set<Name>, ghost base: Files)
      requires Valid() && pc == Overlay(Filling(todo)) && n in todo && OverlapInv(upg.image, base, cur.image, Filling(todo))
      requires var content := FilesOf(upg.image)[n];
        written <= |content| && (todo' == todo || (todo' == todo - {n} && written == |content|))
      modifies this
      ensures Valid() && old(run) <= run && OverlapInv(upg.image, base, cur.image, Filling(todo'))
      ensures Now() == old(Now()).(cur := old(cur).(image := cur.image), pc := Overlay(Filling(todo')))
    {
      var src, dst := upg.image, cur.image;
      var d := Dir(dst.files[n := FilesOf(src)[n][..written]]);
      assert FillStep(src, dst, todo, d, Filling(todo'));
      OverlapKeeps(src, base, dst, Filling(todo), d, Filling(todo'));
      WriteImage(d, Filling(todo), Filling(todo'));
    }

    /** The sub-directories of rank below n have been copied, the others are as they were. */
    ghost predicate Progress(toPrevious: bool, start: State, n: nat)
      reads this
    {
      && Valid() && upg == start.upg && startups == start.startups
      && (if toPrevious then cur == start.cur && pre.status == start.pre.status
          else pre == start.pre && cur.status == start.cur.status)
      && forall p: Part :: PartCopied(toPrevious, start, n, p)
    }

    ghost predicate PartCopied(toPrevious: bool, start: State, n: nat, p: Part)
      reads this
    {
      var src, dst, now := if toPrevious then start.cur.Get(p) else start.pre.Get(p),
                           if toPrevious then start.pre.Get(p) else start.cur.Get(p),
                           if toPrevious then pre.Get(p) else cur.Get(p);
      now == if Rank(p) < n then Copied(src, dst) else dst
    }

    /** One call of `appl_copy` in the sequence. */
    method CopyNext(toPrevious: bool, part: Part, ghost start: State)
      requires Progress(toPrevious, start, Rank(part)) && pc == CopyPc(toPrevious, part, Call)
      modifies this
      ensures Progress(toPrevious, start, Rank(part) + 1) && old(run) <= run
      ensures pc == if part == Data then (if toPrevious then PreCommit else RollCommit)
                    else CopyPc(toPrevious, NextPart(part), Call)
    {
      hide Valid, Copied;
      assert PartCopied(toPrevious, start, Rank(part), part);
      ghost var before := Now();
      ApplCopy(toPrevious, part);
      PutGet(if toPrevious then before.pre else before.cur, part, Dst(toPrevious, part));
      Proceed(pc, if part == Data then (if toPrevious then PreCommit else RollCommit)
                  else CopyPc(toPrevious, NextPart(part), Call));
      ghost var n := Rank(part) + 1;
      forall p: Part ensures PartCopied(toPrevious, start, n, p) {
        assert old(PartCopied(toPrevious, start, Rank(part), p));
      }
    }

    /** The four calls of `appl_copy` that back current up into previous. */
    method BackupAll()
      requires Valid() && pc == Backup(Image, Call)
      modifies this
      ensures Valid() && old(run) <= run && Now() == old(Now()).(pre := pre, pc := PreCommit)
      ensures Saved(old(Now()), pre)
    {
      hide Valid, Copied, PartCopied;
      ghost var start := Now();
      CopyBegins(true, start);
      CopyNext(true, Image, start);
      CopyNext(true, Cfg, start);
      CopyNext(true, Dbc, start);
      CopyNext(true, Data, start);
      CopyEnds(true, start);
    }

    /** From the end of one `appl_copy` to the next statement. */
    ghost method Proceed(done: Pc, next: Pc)
      requires Valid() && pc == done
      requires done.Backup? ==> done.phase == Done && next == if done.part == Data then PreCommit else Backup(NextPart(done.part), Call)
      requires done.Roll? ==> done.phase == Done && next == if done.part == Data then RollCommit else Roll(NextPart(done.part), Call)
      requires done.Backup? || done.Roll?
      modifies this`pc, this`run
      ensures Valid() && old(run) <= run && Now() == old(Now()).(pc := next)
    {
      Jump(next);
    }

    /** The upgrade: current is backed up into previous, and the upgrade is laid over current. */
    method Upgrade()
      requires Valid() && pc == PreStart
      modifies this
      ensures Valid() && old(run) <= run && Now() == old(Now()).(cur := cur, pre := pre, pc := RemoveUpgrade)
      ensures IsGood(pre) && Saved(old(Now()), pre)
      ensures IsGood(cur) && cur == old(cur).(status := Good, image := cur.image)
      ensures FilesOf(cur.image) == old(FilesOf(cur.image)) + FilesOf(upg.image)
    {
      hide Saved;
      BackUp();
      ghost var saved := Now();
      LayOver();
      assert pre == saved.pre;
    }

    /** The first half of the upgrade: previous is marked bad, written, and marked good. */
    method BackUp()
      requires Valid() && pc == PreStart
      modifies this
      ensures Valid() && old(run) <= run && Now() == old(Now()).(pre := pre, pc := CurStart)
      ensures IsGood(pre) && Saved(old(Now()), pre)
    {
      MarkPrevious(NotGood, Backup(Image, Call));
      ghost var begun := Now();
      BackupAll();
      assert Saved(begun, pre);
      MarkPrevious(Good, CurStart);
    }

    /** The second half: current is marked bad, gets the files of the upgrade, and is marked good. */
    method LayOver()
      requires Valid() && pc == CurStart
      modifies this
      ensures Valid() && old(run) <= run && Now() == old(Now()).(cur := cur, pc := RemoveUpgrade)
      ensures IsGood(cur) && cur == old(cur).(status := Good, image := cur.image)
      ensures FilesOf(cur.image) == old(FilesOf(cur.image)) + FilesOf(upg.image)
    {
      MarkCurrent(NotGood, Overlay(Call));
      ApplOverlap();
      Jump(CurCommit);
      MarkCurrent(Good, MirrorAfterUpgrade);
      Jump(RemoveUpgrade);
    }

    /** `dir_remove_path` of the upgrade zone; where its status file comes among the entries is open. */
    method RemoveUpgradeZone()
      requires Valid() && pc == RemoveUpgrade
      modifies this
      ensures Valid() && old(run) <= run
      ensures Now() == old(Now()).(upg := old(upg).(status := NotGood, image := Missing), pc := StartApp)
    {
      while IsGood(upg) || upg.image.Dir?
        invariant Valid() && old(run) <= run && Now() == old(Now()).(upg := upg)
        invariant upg == old(upg).(status := upg.status, image := upg.image)
        decreases if IsGood(upg) then 1 else 0, if upg.image.Dir? then 1 + |upg.image.files| else 0
      {
        var statusNext: bool := *;
        if IsGood(upg) && (statusNext || upg.image.Missing?) {
          RemoveEntry(upg.(status := NotGood));
        } else if upg.image.files == map[] {
          RemoveEntry(upg.(image := Missing));
        } else {
          var n :| n in upg.image.files.Keys;
          var fewer := upg.image.files - {n};
          assert fewer.Keys == upg.image.files.Keys - {n};
          RemoveEntry(upg.(image := Dir(fewer)));
        }
      }
      Jump(StartApp);
    }

    method RemoveEntry(rest: Zone)
      requires Valid() && pc == RemoveUpgrade
      requires (IsGood(upg) && rest == upg.(status := NotGood))
            || (RemoveStep(upg.image, rest.image) && rest == upg.(image := rest.image))
      modifies this
      ensures Valid() && old(run) <= run && Now() == old(Now()).(upg := rest)
    {
      hide RemoveStep;
      ghost var before := Now();
      upg := rest;
      assert Step(before, Now());
      Log(before);
    }

    // --- starting the application, and rolling back ---

    /** The rollback: previous is copied into current. */
    method Rollback()
      requires Valid() && pc == RollStart
      modifies this
      ensures Valid() && old(run) <= run && Now() == old(Now()).(cur := cur, pc := StartApp)
      ensures IsGood(cur) && RolledBack(old(Now()), cur)
    {
      MarkCurrent(NotGood, Roll(Image, Call));
      ghost var begun := Now();
      CopyAllBack();
      assert RolledBack(begun, cur);
      MarkCurrent(Good, MirrorAfterRoll);
      Jump(StartApp);
    }

    method CopyAllBack()
      requires Valid() && pc == Roll(Image, Call)
      modifies this
      ensures Valid() && old(run) <= run && Now() == old(Now()).(cur := cur, pc := RollCommit)
      ensures RolledBack(old(Now()), cur)
    {
      hide Valid, Copied, PartCopied;
      ghost var start := Now();
      CopyBegins(false, start);
      CopyNext(false, Image, start);
      CopyNext(false, Cfg, start);
      CopyNext(false, Dbc, start);
      CopyNext(false, Data, start);
      CopyEnds(false, start);
    }

    lemma CopyBegins(toPrevious: bool, start: State)
      requires Valid() && start == Now()
      ensures Progress(toPrevious, start, 0)
    {
    }

    lemma CopyEnds(toPrevious: bool, start: State)
      requires Progress(toPrevious, start, 4)
      ensures if toPrevious then Saved(start, pre) else RolledBack(start, cur)
    {
      hide Copied, Valid;
      if toPrevious {
        forall p: Part ensures pre.Get(p) == Copied(start.cur.Get(p), start.pre.Get(p)) {
          assert PartCopied(toPrevious, start, 4, p) && Rank(p) < 4;
        }
      } else {
        forall p: Part ensures cur.Get(p) == Copied(start.pre.Get(p), start.cur.Get(p)) {
          assert PartCopied(toPrevious, start, 4, p) && Rank(p) < 4;
        }
      }
    }

    /** From the label `start_app`: the application is launched from current, after a rollback if current is
        bad, or the loader gives up. */
    method Start()
      requires Valid() && pc == StartApp && (IsGood(cur) || IsGood(pre))
      modifies this
      ensures Valid() && old(run) <= run && pc == Running && IsGood(cur)
      ensures Now() == old(Now()).(cur := cur, startups := old(startups) + 1, pc := Running)
      ensures if old(IsGood(cur)) then cur == old(cur) else RolledBack(old(Now()), cur)
    {
      hide RolledBack;
      Jump(Launch);
      if !IsGood(cur) {
        Jump(RollBack);
        Jump(RollStart);
        ghost var begun := Now();
        Rollback();
        SameRollback(old(Now()), begun, cur);
        Jump(Launch);
      }
      ghost var before := Now();
      startups := startups + 1;
      pc := Running;
      Log(before);
    }

    /** From power on to the running application. */
    method PowerOn()
      requires Valid() && pc == Boot && Recoverable(Now())
      modifies this
      ensures Valid() && old(run) <= run && pc == Running && IsGood(cur) && Recoverable(Now())
      ensures upg == old(upg).(status := NotGood, image := Missing) && startups == old(startups) + 1
      ensures old(IsGood(upg)) ==>
        && IsGood(pre) && Saved(old(Now()), pre) && cur == old(cur).(status := Good, image := cur.image)
        && FilesOf(cur.image) == old(FilesOf(cur.image)) + old(FilesOf(upg.image))
      ensures !old(IsGood(upg)) ==>
        pre == old(pre) && if old(IsGood(cur)) then cur == old(cur) else RolledBack(old(Now()), cur)
    {
      hide Saved, RolledBack;
      ghost var first := Now();
      if IsGood(upg) {
        Jump(PreStart);
        Upgrade();
        SameSaved(first.(pc := PreStart), first, pre);
      } else {
        Jump(RemoveUpgrade);
      }
      RemoveUpgradeZone();
      ghost var begun := Now();
      Start();
      if !IsGood(first.upg) && !IsGood(first.cur) {
        SameRollback(first, begun, cur);
      }
      hide *;
      RunStaysRecoverable(run, |old(run)| - 1);
    }

    /** After the application has returned: a start that failed is tried again up to twice, and then current is
        rolled back, if previous is good. */
    method AppReturned(failed: bool)
      requires Valid() && pc == Running && IsGood(cur)
      modifies this
      ensures Valid() && old(run) <= run && IsGood(cur) && pre == old(pre) && upg == old(upg)
      ensures !failed || old(startups) <= 2 ==> Now() == old(Now()).(startups := old(startups) + 1)
      ensures failed && old(startups) > 2 && old(IsGood(pre)) ==>
        pc == Running && startups == 1 && RolledBack(old(Now()), cur)
      ensures failed && old(startups) > 2 && !old(IsGood(pre)) ==>
        Now() == old(Now()).(pc := Exited, startups := 0)
    {
      hide RolledBack;
      if !failed || startups <= 2 {
        Jump(StartApp);
        Start();
        return;
      }
      var exits := GiveUp();
      if !exits {
        Start();
      }
    }

    /** After the third failure: back to previous, or to the end of the program. */
    method GiveUp() returns (exits: bool)
      requires Valid() && pc == Running && IsGood(cur) && startups > 2
      modifies this
      ensures Valid() && old(run) <= run
      ensures exits <==> !old(IsGood(pre))
      ensures exits ==> Now() == old(Now()).(pc := Exited, startups := 0)
      ensures !exits ==>
        && Now() == old(Now()).(cur := cur, pc := StartApp, startups := 0)
        && IsGood(cur) && RolledBack(old(Now()), cur)
    {
      hide RolledBack;
      ghost var before := Now();
      startups := 0;
      pc := RollBack;
      Log(before);
      if !IsGood(pre) {
        Jump(Exited);
        return true;
      }
      exits := false;
      Jump(RollStart);
      ghost var begun := Now();
      Rollback();
      SameRollback(old(Now()), begun, cur);
    }
  }

  lemma SameSaved(a: State, b: State, z: Zone)
    requires Saved(a, z) && a.cur == b.cur && a.pre == b.pre
    ensures Saved(b, z)
  {
  }

  lemma SameRollback(a: State, b: State, z: Zone)
    requires RolledBack(b, z) && a.cur == b.cur && a.pre == b.pre
    ensures RolledBack(a, z)
  {
  }

  /** What the record reaches from a recoverable state is recoverable. */
  lemma {:induction false} RunStaysRecoverable(run: seq<State>, k: nat)
    requires IsRun(run) && k < |run| && Recoverable(run[k])
    ensures Recoverable(run[|run| - 1])
  {
    hide Next;
    var rest := run[k..];
    forall i | 0 <= i < |rest| - 1 ensures Next(rest[i], rest[i + 1]) {
      assert Next(run[k + i], run[k + i + 1]);
    }
    AlwaysRecoverable(rest, |rest| - 1);
  }

  lemma FillBegins(src: Dir)
    requires Needed(src)
    ensures CopyInv(src, Missing, Dir(map[]), Filling(FilesOf(src).Keys))
  {
  }

  lemma FillDone(src: Dir, dst: Dir)
    requires CopyInv(src, Missing, dst, Filling({}))
    ensures dst == src && CopyStep(src, dst, Filling({}), src, Done)
  {
    assert dst.files == FilesOf(src);
  }
}
