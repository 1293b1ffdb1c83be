/** The application loader of appl/main.c as a machine whose steps are single file operations, so
    that a power failure can fall between any two of them. The zones are directories on disk:
    current (/usrapp/current), previous (/usrapp/previous) and upgrade (/usrdata/upgrade). */
module Loader {
  import opened Basics

  type Name = string
  type Files = map<Name, Bytes>

  datatype Dir = Missing | Dir(files: Files)

  /** The status file of a zone; `dir_get_status` answers whether it is Good. */
  datatype Status = Good | NotGood

  /** The four sub-directories that are backed up and rolled back. */
  datatype Part = Image | Cfg | Dbc | Data

  datatype Zone = Zone(status: Status, image: Dir, cfg: Dir, dbc: Dir, data: Dir) {
    function Get(p: Part): Dir {
      match p
      case Image => image
      case Cfg => cfg
      case Dbc => dbc
      case Data => data
    }

    function Put(p: Part, d: Dir): Zone {
      match p
      case Image => this.(image := d)
      case Cfg => this.(cfg := d)
      case Dbc => this.(dbc := d)
      case Data => this.(data := d)
    }
  }

  function FilesOf(d: Dir): Files {
    if d.Missing? then map[] else d.files
  }

  // --- copying a directory, one file operation at a time ---

  /** Where a call of `appl_copy` or `appl_overlap` stands. While filling, the files not in todo are
      complete in the destination. */
  datatype Phase = Call | Clearing | Filling(todo: set<Name>) | Done

  /** Whether `appl_copy` and `appl_overlap` do anything for this source. */
  predicate Needed(src: Dir) {
    FilesOf(src) != map[]
  }

  /** `file_copy` of one file: it is truncated, grows chunk by chunk, and is complete at last. */
  ghost predicate FillStep(src: Dir, dst: Dir, todo: set<Name>, dst': Dir, phase': Phase)
    requires todo <= FilesOf(src).Keys
  {
    dst.Dir? &&
    if todo == {} then dst' == dst && phase' == Done
    else exists n, k: nat ::
      (n in todo && k <= |FilesOf(src)[n]|
      && dst' == Dir(dst.files[n := FilesOf(src)[n][..k]])
      && (phase' == Filling(todo) || (k == |FilesOf(src)[n]| && phase' == Filling(todo - {n}))))
  }

  /** One step of `dir_remove_path` on a directory. */
  ghost predicate RemoveStep(dst: Dir, dst': Dir) {
    dst.Dir? &&
    if dst.files == map[] then dst' == Missing
    else exists n :: n in dst.files && dst' == Dir(dst.files - {n})
  }

  /** One step of `appl_copy`. */
  ghost predicate CopyStep(src: Dir, dst: Dir, phase: Phase, dst': Dir, phase': Phase) {
    match phase
    case Call =>
      if Needed(src) then dst' == Dir(FilesOf(dst)) && phase' == Clearing
      else dst' == dst && phase' == Done
    case Clearing =>
      if dst.Missing? then dst' == Dir(map[]) && phase' == Filling(FilesOf(src).Keys)
      else RemoveStep(dst, dst') && phase' == Clearing
    case Filling(todo) =>
      todo <= FilesOf(src).Keys && FillStep(src, dst, todo, dst', phase')
    case Done => false
  }

  /** One step of `appl_overlap`, which does not clear the destination first. */
  ghost predicate OverlapStep(src: Dir, dst: Dir, phase: Phase, dst': Dir, phase': Phase) {
    match phase
    case Call =>
      if Needed(src) then dst' == Dir(FilesOf(dst)) && phase' == Filling(FilesOf(src).Keys)
      else dst' == dst && phase' == Done
    case Clearing => false
    case Filling(todo) =>
      todo <= FilesOf(src).Keys && FillStep(src, dst, todo, dst', phase')
    case Done => false
  }

  // --- the flow of main ---

  datatype Pc =
    | Boot
    | PreStart | Backup(part: Part, phase: Phase) | PreCommit
    | CurStart | Overlay(phase: Phase) | CurCommit
    | MirrorAfterUpgrade | RemoveUpgrade
    | StartApp | Restore | Launch | Running
    | RollBack | RollStart | Roll(part: Part, phase: Phase) | RollCommit | MirrorAfterRoll
    | Exited

  /** The disk and the position of the loader. `startups` is the static `startup_cnt`. */
  datatype State = State(cur: Zone, pre: Zone, upg: Zone, pc: Pc, startups: nat)

  predicate IsGood(z: Zone) {
    z.status == Good
  }

  function NextPart(p: Part): Part {
    match p
    case Image => Cfg
    case Cfg => Dbc
    case Dbc => Data
    case Data => Data
  }

  /** One operation of the loader, or of the application while it runs. A status file counts as an
      entry of its directory, so a zone marked good is never empty. */
  ghost predicate Step(s: State, s': State) {
    match s.pc
    case Boot =>
      s' == s.(pc := if IsGood(s.upg) then PreStart else RemoveUpgrade)
    case PreStart =>
      s' == s.(pre := s.pre.(status := NotGood), pc := Backup(Image, Call))
    case Backup(part, phase) =>
      if phase == Done then s' == s.(pc := if part == Data then PreCommit else Backup(NextPart(part), Call))
      else exists d, phase' ::
        (CopyStep(s.cur.Get(part), s.pre.Get(part), phase, d, phase')
        && s' == s.(pre := s.pre.Put(part, d), pc := Backup(part, phase')))
    case PreCommit =>
      s' == s.(pre := s.pre.(status := Good), pc := CurStart)
    case CurStart =>
      s' == s.(cur := s.cur.(status := NotGood), pc := Overlay(Call))
    case Overlay(phase) =>
      if phase == Done then s' == s.(pc := CurCommit)
      else exists d, phase' ::
        (OverlapStep(s.upg.image, s.cur.image, phase, d, phase')
        && s' == s.(cur := s.cur.(image := d), pc := Overlay(phase')))
    case CurCommit =>
      s' == s.(cur := s.cur.(status := Good), pc := MirrorAfterUpgrade)
    case MirrorAfterUpgrade =>
      s' == s.(pc := RemoveUpgrade)
    case RemoveUpgrade =>
      // the status file and the files below the zone go in the order the directory is read
      || (IsGood(s.upg) && s' == s.(upg := s.upg.(status := NotGood)))
      || (exists d :: RemoveStep(s.upg.image, d) && s' == s.(upg := s.upg.(image := d)))
      || (!IsGood(s.upg) && s.upg.image.Missing? && s' == s.(pc := StartApp))
    case StartApp =>
      s' == s.(pc := if !IsGood(s.cur) && !IsGood(s.pre) then Restore else Launch)
    case Restore =>
      // current is rewritten from the copy in /usrdata/current
      exists c: Zone, pc :: s' == s.(cur := c, pc := pc)
        && ((pc == Restore && c.status == NotGood) || (pc == Launch && c.status == Good))
    case Launch =>
      if IsGood(s.cur) then s' == s.(pc := Running, startups := s.startups + 1)
      else s' == s.(pc := RollBack)
    case Running =>
      // the application writes parameters and data and prepares upgrades; its start can fail
      || (exists cfg, data, upg :: s' == s.(cur := s.cur.(cfg := cfg, data := data), upg := upg))
      || s' == s.(pc := StartApp)
      || (s.startups > 2 && s' == s.(pc := RollBack, startups := 0))
    case RollBack =>
      s' == s.(pc := if IsGood(s.pre) then RollStart else Exited)
    case RollStart =>
      s' == s.(cur := s.cur.(status := NotGood), pc := Roll(Image, Call))
    case Roll(part, phase) =>
      if phase == Done then s' == s.(pc := if part == Data then RollCommit else Roll(NextPart(part), Call))
      else exists d, phase' ::
        (CopyStep(s.pre.Get(part), s.cur.Get(part), phase, d, phase')
        && s' == s.(cur := s.cur.Put(part, d), pc := Roll(part, phase')))
    case RollCommit =>
      s' == s.(cur := s.cur.(status := Good), pc := MirrorAfterRoll)
    case MirrorAfterRoll =>
      s' == s.(pc := StartApp)
    case Exited =>
      false
  }

  /** Power fails and the device starts again: the disk stays, the process does not. */
  ghost predicate Crash(s: State, s': State) {
    s' == s.(pc := Boot, startups := 0)
  }

  ghost predicate Next(s: State, s': State) {
    Step(s, s') || Crash(s, s')
  }

  /** A run of any length with crashes anywhere. */
  ghost predicate IsRun(run: seq<State>) {
    |run| > 0 && forall i :: 0 <= i < |run| - 1 ==> Next(run[i], run[i + 1])
  }

  // --- the copies in progress ---

  /** What a copy or overlay in progress guarantees: what is not in todo equals the source. */
  ghost predicate Filled(src: Dir, dst: Dir, todo: set<Name>) {
    && dst.Dir? && todo <= FilesOf(src).Keys
    && forall n :: n in FilesOf(src) && n !in todo ==> n in dst.files && dst.files[n] == FilesOf(src)[n]
  }

  lemma FillKeeps(src: Dir, dst: Dir, todo: set<Name>, dst': Dir, phase': Phase)
    requires Filled(src, dst, todo) && FillStep(src, dst, todo, dst', phase')
    ensures phase'.Filling? ==> Filled(src, dst', phase'.todo)
    ensures phase'.Done? ==> Filled(src, dst', {})
    ensures phase'.Filling? || phase'.Done?
    ensures dst'.Dir? && forall n :: n in dst'.files ==> n in dst.files || n in FilesOf(src)
    ensures forall n :: n in dst.files ==> n in dst'.files && (n !in FilesOf(src) ==> dst'.files[n] == dst.files[n])
  {
  }

  /** The state of one `appl_copy` that started with the destination `before`. */
  ghost predicate CopyInv(src: Dir, before: Dir, dst: Dir, phase: Phase) {
    match phase
    case Call => Needed(src) || dst == before
    case Clearing => Needed(src)
    case Filling(todo) =>
      Needed(src) && Filled(src, dst, todo) && dst.files.Keys <= FilesOf(src).Keys
    case Done => dst == if Needed(src) then src else before
  }

  lemma CopyKeeps(src: Dir, before: Dir, dst: Dir, phase: Phase, dst': Dir, phase': Phase)
    requires CopyInv(src, before, dst, phase) && CopyStep(src, dst, phase, dst', phase')
    ensures CopyInv(src, before, dst', phase')
  {
    match phase
    case Filling(todo) =>
      FillKeeps(src, dst, todo, dst', phase');
      if phase'.Done? {
        assert dst'.files == FilesOf(src);
      }
    case _ =>
  }

  /** The state of one `appl_overlap` onto a destination that held the files `before`. */
  ghost predicate OverlapInv(src: Dir, before: Files, dst: Dir, phase: Phase) {
    match phase
    case Call => FilesOf(dst) == before
    case Clearing => false
    case Filling(todo) =>
      && Filled(src, dst, todo)
      && (forall n :: n in dst.files ==> n in before || n in FilesOf(src))
      && (forall n :: n in before && n !in FilesOf(src) ==> n in dst.files && dst.files[n] == before[n])
    case Done => FilesOf(dst) == before + FilesOf(src)
  }

  lemma OverlapKeeps(src: Dir, before: Files, dst: Dir, phase: Phase, dst': Dir, phase': Phase)
    requires OverlapInv(src, before, dst, phase) && OverlapStep(src, dst, phase, dst', phase')
    ensures OverlapInv(src, before, dst', phase')
  {
    match phase
    case Filling(todo) =>
      FillKeeps(src, dst, todo, dst', phase');
      if phase'.Done? {
        assert dst' == dst && todo == {};
        assert dst'.files == before + FilesOf(src);
      }
    case Call =>
      if !Needed(src) {
        assert before + FilesOf(src) == before;
      }
    case _ =>
  }
}
