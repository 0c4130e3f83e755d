/** Creating a database: the catalog pages and the first superblock, and what a crash in between leaves. */
module Creation {
  import opened Keys
  import opened Pages
  import opened WalScan
  import opened WalReplay
  import opened History
  import opened Crash

  /** The manifest file: empty, or two slots of which the unreadable ones are none. */
  datatype Manifest = Empty | Holding(slots: Slots)

  /** The files of a database whose log is empty. */
  datatype Disk = Disk(main: MainFile, manifest: Manifest)

  datatype Opening = Initializes | Opens(superblock: Superblock) | Refuses

  /** How opening takes such files, where missing databases are created. */
  function Open(d: Disk): Opening {
    match d.manifest
    case Empty => if d.main == map[] then Initializes else Refuses
    case Holding(slots) =>
      var selected := Select(slots);
      if selected.Some? then Opens(selected.value) else Refuses
  }

  // ---------- the steps ----------

  /** The commit a new database stands for: its catalog pages, which no log ever holds. */
  function Founding(images: seq<Image>, root: PageId, next: PageId): Commit {
    Commit(Tx(0, images, root, next), map[], set i | 0 <= i < |images| :: images[i].page)
  }

  /** What the pages of a new database hold. */
  ghost function Target(c: Commit): MainFile {
    WriteAll(map[], c.tx.images)
  }

  datatype Stage = WritingPages(rest: set<PageId>) | MainFlushed | FirstSlotWritten | BothSlotsWritten | Created

  /** `main` is visible and `loose` its pages that are not flushed; `durable` is the durable manifest. */
  datatype Files = Files(main: MainFile, loose: set<PageId>, manifest: Manifest, durable: Manifest, stage: Stage)

  datatype Step = WritePage(p: PageId) | FlushMain | WriteFirstSlot | WriteSecondSlot | FlushManifest

  ghost function Fresh(c: Commit): Files {
    Files(map[], {}, Empty, Empty, WritingPages(Target(c).Keys))
  }

  ghost predicate Takes(f: Files, c: Commit, step: Step, f': Files) {
    match step
    case WritePage(p) =>
      && f.stage.WritingPages? && p in f.stage.rest && p in Target(c)
      && f' == f.(main := f.main[p := Target(c)[p]], loose := f.loose + {p}, stage := WritingPages(f.stage.rest - {p}))
    case FlushMain =>
      f.stage == WritingPages({}) && f' == f.(loose := {}, stage := MainFlushed)
    case WriteFirstSlot =>
      f.stage.MainFlushed? && f' == f.(manifest := Holding([Some(Publishing(c, 1, 0)), None]), stage := FirstSlotWritten)
    // the second slot is zeroes, which read as none
    case WriteSecondSlot =>
      f.stage.FirstSlotWritten? && f' == f.(stage := BothSlotsWritten)
    case FlushManifest =>
      f.stage.BothSlotsWritten? && f' == f.(durable := f.manifest, stage := Created)
  }

  /** What a crash leaves: unflushed pages in any state, and the manifest old, new or with a torn slot. */
  ghost predicate Leaves(f: Files, d: Disk) {
    && (forall p :: p !in f.loose ==> (p in d.main <==> p in f.main) && (p in d.main ==> d.main[p] == f.main[p]))
    && (d.manifest == f.manifest || d.manifest == f.durable || (f.manifest != f.durable && d.manifest == Holding([None, None])))
  }

  datatype Run = Run(states: seq<Files>, steps: seq<Step>)

  ghost predicate IsRun(r: Run, c: Commit) {
    && |r.states| == |r.steps| + 1
    && r.states[0] == Fresh(c)
    && forall i :: 0 <= i < |r.steps| ==> Takes(r.states[i], c, r.steps[i], r.states[i + 1])
  }

  // ---------- what holds throughout ----------

  ghost predicate Inv(f: Files, c: Commit) {
    && (forall p :: p in f.main ==> p in Target(c) && f.main[p] == Target(c)[p])
    && match f.stage
       case WritingPages(rest) => f.manifest == f.durable == Empty && rest <= Target(c).Keys && f.main.Keys == Target(c).Keys - rest && f.loose == f.main.Keys
       case MainFlushed => f.manifest == f.durable == Empty && f.main == Target(c) && f.loose == {}
       case FirstSlotWritten => f.manifest == Holding([Some(Publishing(c, 1, 0)), None]) && f.durable == Empty && f.main == Target(c) && f.loose == {}
       case BothSlotsWritten => f.manifest == Holding([Some(Publishing(c, 1, 0)), None]) && f.durable == Empty && f.main == Target(c) && f.loose == {}
       case Created => f.manifest == f.durable == Holding([Some(Publishing(c, 1, 0)), None]) && f.main == Target(c) && f.loose == {}
  }

  lemma {:induction false} RunInvariant(r: Run, c: Commit, i: nat)
    requires IsRun(r, c) && i < |r.states|
    ensures Inv(r.states[i], c)
    decreases i
  {
    if i > 0 {
      RunInvariant(r, c, i - 1);
      assert Takes(r.states[i - 1], c, r.steps[i - 1], r.states[i]);
    }
  }

  /**
   * Exactly when every crash leaves files that open: before the first page is written, and
   * from the flush of the manifest on. In between, a crash can leave a main file without a
   * manifest, or a manifest without a readable slot, and neither is created anew.
   */
  lemma {:induction false} CrashSafety(r: Run, c: Commit, i: nat)
    requires IsRun(r, c) && i < |r.states| && Target(c) != map[]
    ensures (forall d :: Leaves(r.states[i], d) ==> !Open(d).Refuses?) <==> r.states[i].main == map[] || r.states[i].stage.Created?
  {
    var f := r.states[i];
    RunInvariant(r, c, i);
    if f.main == map[] {
      assert f.stage.WritingPages?;
      forall d | Leaves(f, d) ensures !Open(d).Refuses? {
        assert d.main == map[];
      }
    } else if f.stage.Created? {
      forall d | Leaves(f, d) ensures !Open(d).Refuses? {
      }
    } else {
      var d := Refused(f, c);
    }
  }

  /** A crash that opening does not survive: a page without a manifest, or a torn first slot. */
  lemma {:induction false} Refused(f: Files, c: Commit) returns (d: Disk)
    requires Inv(f, c) && f.main != map[] && !f.stage.Created?
    ensures Leaves(f, d) && Open(d).Refuses?
    ensures d.manifest == if f.manifest.Empty? then Empty else Holding([None, None])
  {
    d := Disk(f.main, if f.manifest.Empty? then Empty else Holding([None, None]));
  }

  /** The engine after opening files that are as a finished creation leaves them. */
  function Started(d: Disk, c: Commit): State
    requires d.manifest.Holding?
  {
    var sb := Publishing(c, 1, 0);
    State(d.main, {}, d.manifest.slots, d.manifest.slots, [], false, [], Healthy, sb, map[], 0, 0, [c], None, 1, 0, 0, 0, 0)
  }

  lemma {:induction false} FoundingContent(c: Commit)
    requires c.bodies == map[]
    ensures Content([c]) == Target(c) && Content([c][..1]) == Target(c)
  {
    hide WriteAll;
    assert [c][..0] == [] && [c][..1] == [c];
    assert Content([]) == map[];
    ContentSnoc([], c);
    assert [] + [c] == [c];
    assert map[] + c.bodies == map[];
  }

  /** Exactly the pages of the images have contents. */
  lemma {:induction false} TargetPages(images: seq<Image>, p: PageId)
    ensures p in WriteAll(map[], images) <==> exists i :: 0 <= i < |images| && images[i].page == p
  {
    hide WriteAll, Last;
    WriteAllAt(map[], images, p);
    TouchedIsLast(images, p);
  }

  /** Pages inside the file, with the root among the ids that exist. */
  ghost predicate Foundable(images: seq<Image>, root: PageId, next: PageId) {
    0 < root < next && forall i :: 0 <= i < |images| ==> images[i].page < next
  }

  /** A finished creation is a state that runs start from. */
  lemma {:induction false} StartedIsInit(d: Disk, images: seq<Image>, root: PageId, next: PageId)
    requires Foundable(images, root, next)
    requires var c := Founding(images, root, next);
             d.main == Target(c) && d.manifest == Holding([Some(Publishing(c, 1, 0)), None])
    ensures Init(Started(d, Founding(images, root, next)))
  {
    hide WriteAll, Content;
    var c := Founding(images, root, next);
    var s := Started(d, c);
    FoundingContent(c);
    forall p | p in c.reach ensures p in Content([c]) && p < next && Firm(s, Content(s.hist), p) {
      TargetPages(images, p);
    }
  }

  /** Whatever a crash leaves is created anew, refused, or exactly the new database. */
  lemma {:induction false} OpensAsCreated(r: Run, images: seq<Image>, root: PageId, next: PageId, i: nat, d: Disk)
    requires Foundable(images, root, next)
    requires IsRun(r, Founding(images, root, next)) && i < |r.states| && Leaves(r.states[i], d)
    ensures Open(d).Initializes? ==> d == Disk(map[], Empty)
    ensures Open(d).Opens? ==>
              && Open(d).superblock == Publishing(Founding(images, root, next), 1, 0)
              && d.manifest.Holding? && Init(Started(d, Founding(images, root, next)))
  {
    hide WriteAll, Init;
    var c := Founding(images, root, next);
    RunInvariant(r, c, i);
    if Open(d).Opens? {
      assert d.main == Target(c);
      StartedIsInit(d, images, root, next);
    }
  }
}
