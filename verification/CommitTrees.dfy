/** The trees of one commit, changed and dropped one after the other over a shared allocator. */
module CommitTrees {
  import opened Keys
  import opened Pages
  import opened MergeSpec
  import opened Allocator
  import opened TreeApply
  import Merging
  import TreeRetire

  /** What a commit does to one tree: change it, build a new one, or drop it. */
  datatype Job = Change(root: PageId, muts: seq<Mutation>) | Build(rows: seq<Mutation>) | Drop(root: PageId)

  ghost predicate JobOk(disk: map<PageId, Page>, job: Job, t: Option<Tree>) {
    match job
    case Change(root, muts) => WellFormed(disk, root, t) && AllStorable(muts)
    case Build(rows) => t.None? && AllStorable(rows)
    case Drop(root) => WellFormed(disk, root, t)
  }

  ghost function PagesOfForest(ts: seq<Option<Tree>>): multiset<PageId> {
    if ts == [] then multiset{} else PagesOfForest(ts[..|ts| - 1]) + PagesIn(ts[|ts| - 1])
  }

  ghost function RefsOfForest(ts: seq<Option<Tree>>): multiset<PayloadRef> {
    if ts == [] then multiset{} else RefsOfForest(ts[..|ts| - 1]) + RefsIn(ts[|ts| - 1])
  }

  /** Images made so far, and the allocator's fields. */
  datatype Book = Book(images: map<PageId, Page>, freed: seq<PageId>, added: seq<PayloadRef>, dropped: seq<PayloadRef>, next: PageId, reusable: seq<PageId>)

  ghost predicate Free(b: Book, x: PageId) {
    x >= b.next || x in b.reusable
  }

  ghost predicate Later(b0: Book, b: Book) {
    && b0.freed <= b.freed && b0.added <= b.added && b0.dropped <= b.dropped && b0.next <= b.next
    && (forall x :: Free(b, x) ==> Free(b0, x))
    && (forall x :: x in b.images ==> x in b0.images || (Free(b0, x) && !Free(b, x)))
    && (forall x :: x in b0.images ==> x in b.images && b.images[x] == b0.images[x])
  }

  ghost function FreedSince(b0: Book, b: Book): multiset<PageId>
    requires b0.freed <= b.freed
  {
    multiset(b.freed[|b0.freed|..])
  }

  ghost function AddedSince(b0: Book, b: Book): multiset<PayloadRef>
    requires b0.added <= b.added
  {
    multiset(b.added[|b0.added|..])
  }

  ghost function DroppedSince(b0: Book, b: Book): multiset<PayloadRef>
    requires b0.dropped <= b.dropped
  {
    multiset(b.dropped[|b0.dropped|..])
  }

  /** New trees are well formed on the images so far, and hold no id that is still free. */
  ghost predicate Stands(disk: map<PageId, Page>, b: Book, root: PageId, t: Option<Tree>) {
    WellFormed(disk + b.images, root, t) && forall x :: x in PagesIn(t) ==> x > 0 && !Free(b, x)
  }

  /** What the jobs on the trees `ts` made of them: `made` at `roots`. */
  ghost predicate Done(disk: map<PageId, Page>, b0: Book, b: Book, ts: seq<Option<Tree>>, made: seq<Option<Tree>>, roots: seq<PageId>) {
    && Later(b0, b) && |made| == |roots| == |ts|
    && FreedSince(b0, b) <= PagesOfForest(ts)
    && PagesOfForest(made) + FreedSince(b0, b) == PagesOfForest(ts) + multiset(b.images.Keys - b0.images.Keys)
    && RefsOfForest(made) + DroppedSince(b0, b) == RefsOfForest(ts) + AddedSince(b0, b)
    && forall j :: 0 <= j < |made| ==> Stands(disk, b, roots[j], made[j])
  }

  /** Every id taken in between is in use: for an image, or for what is `elsewhere`. */
  ghost predicate Spent(b: Book, c: Book, elsewhere: iset<PageId>) {
    forall x :: Free(b, x) && !Free(c, x) ==> x in c.images || x in elsewhere
  }

  lemma {:induction false} SpentTransitive(a: Book, b: Book, c: Book, elsewhere: iset<PageId>, more: iset<PageId>)
    requires Spent(a, b, elsewhere) && Spent(b, c, more) && elsewhere <= more && forall x :: x in b.images ==> x in c.images
    ensures Spent(a, c, more)
  {
    hide Free;
  }

  lemma {:induction false} SpentMore(b: Book, c: Book, elsewhere: iset<PageId>, more: iset<PageId>)
    requires Spent(b, c, elsewhere) && elsewhere <= more
    ensures Spent(b, c, more)
  {
    hide Free;
  }

  lemma {:induction false} NothingSpent(b: Book, elsewhere: iset<PageId>)
    ensures Spent(b, b, elsewhere)
  {
  }

  // ---------- one more job ----------

  lemma {:induction false} LaterTransitive(a: Book, b: Book, c: Book)
    requires Later(a, b) && Later(b, c) && forall x :: x in b.images ==> !Free(b, x)
    ensures Later(a, c)
    ensures FreedSince(a, c) == FreedSince(a, b) + FreedSince(b, c)
    ensures AddedSince(a, c) == AddedSince(a, b) + AddedSince(b, c)
    ensures DroppedSince(a, c) == DroppedSince(a, b) + DroppedSince(b, c)
  {
    assert c.freed[|a.freed|..] == b.freed[|a.freed|..] + c.freed[|b.freed|..];
    assert c.added[|a.added|..] == b.added[|a.added|..] + c.added[|b.added|..];
    assert c.dropped[|a.dropped|..] == b.dropped[|a.dropped|..] + c.dropped[|b.dropped|..];
  }

  /** Later images land on ids that were free, so finished trees stand. */
  lemma {:induction false} StillStands(disk: map<PageId, Page>, b: Book, c: Book, root: PageId, t: Option<Tree>)
    requires Later(b, c) && Stands(disk, b, root, t)
    ensures Stands(disk, c, root, t)
  {
    hide PagesOf, Spelled, Sorted, Flat, ShapedRoot;
    if t.Some? {
      assert AgreeOn(disk + b.images, disk + c.images, PagesOf(t.value));
      TreeFrame(disk + b.images, disk + c.images, t.value);
    }
  }

  /** A tree made over the committed pages stands although other images exist by now. */
  lemma {:induction false} MadeStands(disk: map<PageId, Page>, b0: Book, b: Book, c: Book, images: map<PageId, Page>, before: Option<Tree>, root: PageId, t: Option<Tree>)
    requires Later(b0, b) && b0.images == map[] && c.images == b.images + images
    requires forall x :: x in b.images ==> !Free(b, x)
    requires forall x :: x in images ==> Free(b, x)
    requires forall x :: x in PagesIn(before) ==> !Free(b0, x)
    requires forall x :: x in PagesIn(t) ==> x in images || x in PagesIn(before)
    requires WellFormed(disk + images, root, t) && forall x :: x in PagesIn(t) ==> x > 0 && !Free(c, x)
    ensures Stands(disk, c, root, t)
  {
    hide PagesOf, Spelled, Sorted, Flat, ShapedRoot;
    if t.Some? {
      assert AgreeOn(disk + images, disk + c.images, PagesOf(t.value));
      TreeFrame(disk + images, disk + c.images, t.value);
    }
  }

  lemma {:induction false} ForestSnoc(ts: seq<Option<Tree>>, t: Option<Tree>)
    ensures PagesOfForest(ts + [t]) == PagesOfForest(ts) + PagesIn(t)
    ensures RefsOfForest(ts + [t]) == RefsOfForest(ts) + RefsIn(t)
  {
    hide PagesIn, RefsIn;
    assert (ts + [t])[..|ts|] == ts;
  }

  /** What one job made of one tree, with the images of this job alone. */
  ghost predicate Made(disk: map<PageId, Page>, b: Book, c: Book, images: map<PageId, Page>, t: Option<Tree>, root: PageId, made: Option<Tree>) {
    && Later(b, c) && c.images == b.images + images
    && (forall x :: x in images ==> Free(b, x))
    && WellFormed(disk + images, root, made)
    && (forall x :: x in PagesIn(made) ==> x > 0 && !Free(c, x) && (x in images || x in PagesIn(t)))
    && FreedSince(b, c) <= PagesIn(t)
    && PagesIn(made) + FreedSince(b, c) == PagesIn(t) + multiset(images.Keys)
    && RefsIn(made) + DroppedSince(b, c) == RefsIn(t) + AddedSince(b, c)
  }

  lemma {:induction false} SumsAdd<T(!new)>(a: multiset<T>, f: multiset<T>, p: multiset<T>, i: multiset<T>, b: multiset<T>, g: multiset<T>, q: multiset<T>, j: multiset<T>)
    requires a + f == p + i && b + g == q + j
    ensures (a + b) + (f + g) == (p + q) + (i + j)
  {
    assert (a + b) + (f + g) == (a + f) + (b + g);
    assert (p + q) + (i + j) == (p + i) + (q + j);
  }

  lemma {:induction false} ImagesAdd(b0: Book, b: Book, images: map<PageId, Page>)
    requires b0.images == map[] && forall x :: x in images ==> x !in b.images
    ensures multiset((b.images + images).Keys - b0.images.Keys) == multiset(b.images.Keys - b0.images.Keys) + multiset(images.Keys)
  {
    assert (b.images + images).Keys - b0.images.Keys == b.images.Keys + images.Keys;
    assert b.images.Keys - b0.images.Keys == b.images.Keys;
    assert b.images.Keys !! images.Keys;
  }

  lemma {:induction false} OneMore(disk: map<PageId, Page>, b0: Book, b: Book, ts: seq<Option<Tree>>, made: seq<Option<Tree>>, roots: seq<PageId>,
                                   c: Book, images: map<PageId, Page>, t: Option<Tree>, root: PageId, made1: Option<Tree>)
    requires Done(disk, b0, b, ts, made, roots) && b0.images == map[]
    requires Made(disk, b, c, images, t, root, made1)
    requires forall x :: x in PagesIn(t) ==> !Free(b0, x)
    ensures Done(disk, b0, c, ts + [t], made + [made1], roots + [root])
  {
    hide WellFormed, PagesIn, RefsIn, PagesOfForest, RefsOfForest, FreedSince, AddedSince, DroppedSince;
    LaterTransitive(b0, b, c);
    MadeStands(disk, b0, b, c, images, t, root, made1);
    forall j | 0 <= j < |made| ensures Stands(disk, c, roots[j], made[j]) {
      StillStands(disk, b, c, roots[j], made[j]);
    }
    ForestSnoc(ts, t);
    ForestSnoc(made, made1);
    ImagesAdd(b0, b, images);
    SumsAdd(PagesOfForest(made), FreedSince(b0, b), PagesOfForest(ts), multiset(b.images.Keys - b0.images.Keys),
            PagesIn(made1), FreedSince(b, c), PagesIn(t), multiset(images.Keys));
    SumsAdd(RefsOfForest(made), DroppedSince(b0, b), RefsOfForest(ts), AddedSince(b0, b),
            RefsIn(made1), DroppedSince(b, c), RefsIn(t), AddedSince(b, c));
    assert FreedSince(b0, b) + FreedSince(b, c) <= PagesOfForest(ts) + PagesIn(t);
  }

  lemma {:induction false} NothingDone(disk: map<PageId, Page>, b: Book)
    ensures Done(disk, b, b, [], [], [])
  {
    assert b.freed[|b.freed|..] == [] && b.added[|b.added|..] == [] && b.dropped[|b.dropped|..] == [];
    assert b.images.Keys - b.images.Keys == {};
  }

  // ---------- running a job ----------

  ghost function BookOf(images: map<PageId, Page>, alloc: PageAllocator): Book
    reads alloc
  {
    Book(images, alloc.freed, alloc.addedPayloadRefs, alloc.droppedPayloadRefs, alloc.nextPageId, alloc.reusable)
  }

  lemma {:induction false} ChangeMade(disk: map<PageId, Page>, b: Book, c: Book, t: Option<Tree>, root: PageId, images: map<PageId, Page>, made: Option<Tree>)
    requires b.freed <= c.freed && b.added <= c.added && b.dropped <= c.dropped && b.next <= c.next && c.images == b.images + images
    requires WellFormed(disk + images, root, made)
    requires Conserves(PagesIn(t), FreedSince(b, c), images.Keys, PagesIn(made))
    requires forall x :: x in PagesIn(made) ==> x > 0 && !Free(c, x)
    requires forall x :: x in images ==> Free(b, x) && !Free(c, x)
    requires forall x :: Free(c, x) ==> Free(b, x)
    requires forall x :: x in b.images ==> !Free(b, x)
    requires RefsIn(made) + DroppedSince(b, c) == RefsIn(t) + AddedSince(b, c)
    ensures Made(disk, b, c, images, t, root, made)
  {
    hide WellFormed, PagesIn, RefsIn, FreedSince, AddedSince, DroppedSince, Conserves;
    ConservedPages(PagesIn(t), FreedSince(b, c), images.Keys, PagesIn(made));
  }

  lemma {:induction false} ConservedPages(before: multiset<PageId>, freed: multiset<PageId>, images: set<PageId>, after: multiset<PageId>)
    requires Conserves(before, freed, images, after)
    ensures freed <= before && after + freed == before + multiset(images)
    ensures forall x :: x in after ==> x in images || x in before
  {
    forall x | x in after ensures x in images || x in before {
      assert after[x] == (before - freed)[x] + multiset(images)[x];
    }
  }

  lemma {:induction false} DropMade(disk: map<PageId, Page>, b: Book, c: Book, t: Option<Tree>)
    requires b.images == c.images && b.added == c.added && b.next == c.next && b.reusable == c.reusable
    requires b.freed <= c.freed && b.dropped <= c.dropped
    requires FreedSince(b, c) == PagesIn(t) && DroppedSince(b, c) == RefsIn(t)
    ensures Made(disk, b, c, map[], t, 0, None)
  {
    hide PagesIn, RefsIn, WellFormed;
    var none: map<PageId, Page> := map[];
    assert none.Keys == {} && disk + none == disk && b.images + none == b.images;
    assert c.added[|b.added|..] == [];
    NoTree(disk);
  }

  lemma {:induction false} NoTree(disk: map<PageId, Page>)
    ensures WellFormed(disk, 0, None) && PagesIn(None) == multiset{} && RefsIn(None) == multiset{}
  {
    NoRefs();
  }

  /** Changes or drops one tree. */
  method RunJob(disk: map<PageId, Page>, job: Job, alloc: PageAllocator, images: map<PageId, Page>, ghost t: Option<Tree>)
    returns (ok: bool, root: PageId, after: map<PageId, Page>, ghost made: Option<Tree>)
    requires alloc.Valid() && JobOk(disk, job, t)
    requires forall x :: x in PagesIn(t) ==> x > 0 && !alloc.Available(x)
    requires forall x :: x in images ==> !alloc.Available(x)
    modifies alloc
    ensures ok ==> alloc.Valid() && (exists emitted :: Made(disk, old(BookOf(images, alloc)), BookOf(after, alloc), emitted, t, root, made))
    ensures ok ==> Fulfilled(job, t, made)
    ensures ok ==> Spent(old(BookOf(images, alloc)), BookOf(after, alloc), iset{}) && forall x :: x in images ==> x in after
    ensures ok ==> alloc.addedPayloadRefs[|old(alloc.addedPayloadRefs)|..] == RefsBy(job)
  {
    hide WellFormed, PagesIn, RefsIn, Conserves, Denoted, Override, Made, FreedSince, AddedSince, DroppedSince;
    ghost var b := BookOf(images, alloc);
    match job
    case Change(root0, muts) =>
      var built;
      built, made := ApplyValueMutations(disk, root0, muts, alloc, t);
      if built.Err? {
        return false, 0, images, made;
      }
      after := images + built.value.images;
      forall x ensures Free(BookOf(after, alloc), x) ==> Free(b, x) {
        assert Free(BookOf(after, alloc), x) == alloc.Available(x) && Free(b, x) == old(alloc.Available(x));
      }
      ChangeRan(disk, b, BookOf(after, alloc), t, built.value.root, built.value.images, made);
      return true, built.value.root, after, made;
    case Build(rows) =>
      var built, tree := BuildTree(rows, alloc);
      made := Some(tree);
      if built.Err? {
        return false, 0, images, made;
      }
      after := images + built.value.images;
      forall x ensures Free(BookOf(after, alloc), x) ==> Free(b, x) {
        assert Free(BookOf(after, alloc), x) == alloc.Available(x) && Free(b, x) == old(alloc.Available(x));
      }
      NoTree(disk);
      BuildRan(disk, b, BookOf(after, alloc), built.value.root, built.value.images, made, RefsGiven(rows));
      return true, built.value.root, after, made;
    case Drop(root0) =>
      var retired := TreeRetire.RetireTree(disk, root0, alloc, true);
      DropBooked(disk, root0, b, BookOf(images, alloc), t);
      DropRan(disk, b, BookOf(images, alloc), t);
      made := None;
      return true, 0, images, None;
  }

  lemma {:induction false} ChangeRan(disk: map<PageId, Page>, b: Book, c: Book, t: Option<Tree>, root: PageId, images: map<PageId, Page>, made: Option<Tree>)
    requires b.freed <= c.freed && b.added <= c.added && b.dropped <= c.dropped && b.next <= c.next && c.images == b.images + images
    requires WellFormed(disk + images, root, made)
    requires Conserves(PagesIn(t), multiset(c.freed[|b.freed|..]), images.Keys, PagesIn(made))
    requires forall x :: x in PagesIn(made) ==> x > 0 && !Free(c, x)
    requires forall x :: x in images ==> Free(b, x) && !Free(c, x)
    requires forall x :: Free(c, x) ==> Free(b, x)
    requires forall x :: x in b.images ==> !Free(b, x)
    requires RefsIn(made) + multiset(c.dropped[|b.dropped|..]) == RefsIn(t) + multiset(c.added[|b.added|..])
    ensures exists emitted :: Made(disk, b, c, emitted, t, root, made)
  {
    hide WellFormed, PagesIn, RefsIn, Conserves, Made;
    ChangeMade(disk, b, c, t, root, images, made);
  }

  lemma {:induction false} BuildRan(disk: map<PageId, Page>, b: Book, c: Book, root: PageId, images: map<PageId, Page>, made: Option<Tree>, given: seq<PayloadRef>)
    requires c.freed == b.freed && c.added == b.added + given && c.dropped == b.dropped && b.next <= c.next && c.images == b.images + images
    requires WellFormed(images, root, made) && PagesIn(made) == multiset(images.Keys) && RefsIn(made) == multiset(given)
    requires PagesIn(None) == multiset{} && RefsIn(None) == multiset{}
    requires forall x :: x in images ==> x > 0 && Free(b, x) && !Free(c, x)
    requires forall x :: Free(c, x) ==> Free(b, x)
    requires forall x :: x in b.images ==> !Free(b, x)
    ensures exists emitted :: Made(disk, b, c, emitted, None, root, made)
    ensures c.added[|b.added|..] == given
  {
    hide WellFormed, PagesIn, RefsIn, Made, Later;
    Overlaid(disk, images, root, made);
    BuildLater(b, c, images, given);
    BuildMade(disk, b, c, root, images, made, given);
  }

  lemma {:induction false} BuildLater(b: Book, c: Book, images: map<PageId, Page>, given: seq<PayloadRef>)
    requires c.freed == b.freed && c.added == b.added + given && c.dropped == b.dropped && b.next <= c.next && c.images == b.images + images
    requires forall x :: x in images ==> Free(b, x) && !Free(c, x)
    requires forall x :: Free(c, x) ==> Free(b, x)
    requires forall x :: x in b.images ==> !Free(b, x)
    ensures Later(b, c) && c.added[|b.added|..] == given
    ensures FreedSince(b, c) == multiset{} && AddedSince(b, c) == multiset(given) && DroppedSince(b, c) == multiset{}
  {
    hide Free;
    assert c.freed[|b.freed|..] == [] && c.added[|b.added|..] == given && c.dropped[|b.dropped|..] == [];
  }

  lemma {:induction false} BuildMade(disk: map<PageId, Page>, b: Book, c: Book, root: PageId, images: map<PageId, Page>, made: Option<Tree>, given: seq<PayloadRef>)
    requires Later(b, c) && c.images == b.images + images
    requires FreedSince(b, c) == multiset{} && AddedSince(b, c) == multiset(given) && DroppedSince(b, c) == multiset{}
    requires WellFormed(disk + images, root, made) && PagesIn(made) == multiset(images.Keys) && RefsIn(made) == multiset(given)
    requires PagesIn(None) == multiset{} && RefsIn(None) == multiset{}
    requires forall x :: x in images ==> x > 0 && Free(b, x) && !Free(c, x)
    ensures Made(disk, b, c, images, None, root, made)
  {
    hide WellFormed, PagesIn, RefsIn, Later, FreedSince, AddedSince, DroppedSince, Free;
    LaterGrows(b, c);
    NothingBefore(PagesIn(made), multiset(images.Keys), PagesIn(None), FreedSince(b, c));
    NothingBefore(RefsIn(made), AddedSince(b, c), RefsIn(None), DroppedSince(b, c));
    forall x | x in PagesIn(made) ensures x in images {
      InKeys(images, x);
    }
  }

  lemma {:induction false} NothingBefore<T(!new)>(after: multiset<T>, gained: multiset<T>, before: multiset<T>, lost: multiset<T>)
    requires after == gained && before == multiset{} && lost == multiset{}
    ensures lost <= before && after + lost == before + gained
  {
  }

  lemma {:induction false} InKeys(images: map<PageId, Page>, x: PageId)
    requires x in multiset(images.Keys)
    ensures x in images
  {
  }

  lemma {:induction false} LaterGrows(b: Book, c: Book)
    requires Later(b, c)
    ensures b.freed <= c.freed && b.added <= c.added && b.dropped <= c.dropped
  {
  }

  lemma {:induction false} Overlaid(disk: map<PageId, Page>, images: map<PageId, Page>, root: PageId, t: Option<Tree>)
    requires WellFormed(images, root, t)
    ensures WellFormed(disk + images, root, t)
  {
    hide PagesOf, Spelled, Sorted, Flat, ShapedRoot;
    if t.Some? {
      assert AgreeOn(images, disk + images, PagesOf(t.value));
      TreeFrame(images, disk + images, t.value);
    }
  }

  lemma {:induction false} DropBooked(disk: map<PageId, Page>, root: PageId, b: Book, c: Book, t: Option<Tree>)
    requires WellFormed(disk, root, t)
    requires root == 0 ==> c.freed == b.freed && c.dropped == b.dropped
    requires root != 0 && TreeRetire.Retirable(disk, root, true) ==>
      var u := TreeRetire.TreeOf(disk, TreeRetire.Visit(root, None), true);
      TreeRetire.Booked(b.freed, c.freed, b.dropped, c.dropped, true, PagesOf(u), multiset(Merging.RefsOf(Flat(u))))
    ensures root == 0 || TreeRetire.Retirable(disk, root, true)
    ensures TreeRetire.Booked(b.freed, c.freed, b.dropped, c.dropped, true, PagesIn(t), RefsIn(t))
  {
    hide WellFormed, PagesIn, RefsIn, TreeRetire.Retirable, TreeRetire.TreeOf, TreeRetire.Booked, PagesOf, Flat;
    if t.Some? {
      TreeRetire.WellFormedRetires(disk, root, t.value, true);
    } else {
      NoTree(disk);
      TreeRetire.NothingBooked(b.freed, b.dropped, true);
      RootOfNone(disk, root);
    }
  }

  lemma {:induction false} RootOfNone(disk: map<PageId, Page>, root: PageId)
    requires WellFormed(disk, root, None)
    ensures root == 0
  {
  }

  lemma {:induction false} DropRan(disk: map<PageId, Page>, b: Book, c: Book, t: Option<Tree>)
    requires b.images == c.images && b.added == c.added && b.next == c.next && b.reusable == c.reusable
    requires TreeRetire.Booked(b.freed, c.freed, b.dropped, c.dropped, true, PagesIn(t), RefsIn(t))
    ensures exists emitted :: Made(disk, b, c, emitted, t, 0, None)
    ensures c.added[|b.added|..] == []
  {
    hide PagesIn, RefsIn, Made;
    DropMade(disk, b, c, t);
  }

  // ---------- running them all ----------

  lemma {:induction false} InForest(ts: seq<Option<Tree>>, j: nat, x: PageId)
    requires j < |ts| && x in PagesIn(ts[j])
    ensures x in PagesOfForest(ts)
    decreases |ts|
  {
    hide PagesIn;
    if j < |ts| - 1 {
      InForest(ts[..|ts| - 1], j, x);
    }
  }

  /** What each job made of its tree. */
  ghost predicate Fulfilled(job: Job, t: Option<Tree>, made: Option<Tree>) {
    match job
    case Change(_, muts) => Denoted(made) == Override(Denoted(t), muts)
    case Build(rows) => made.Some? && Denoted(made) == Override(map[], rows)
    case Drop(_) => made == None
  }

  function RefsBy(job: Job): seq<PayloadRef> {
    match job
    case Change(_, muts) => RefsGiven(muts)
    case Build(rows) => RefsGiven(rows)
    case Drop(_) => []
  }

  function RefsNamed(jobs: seq<Job>): seq<PayloadRef> {
    if jobs == [] then []
    else RefsNamed(jobs[..|jobs| - 1]) + RefsBy(jobs[|jobs| - 1])
  }

  lemma {:induction false} NoJobs()
    ensures RefsNamed([]) == []
  {
  }

  lemma {:induction false} NextJob(jobs: seq<Job>, i: nat)
    requires i < |jobs|
    ensures RefsNamed(jobs[..i + 1]) == RefsNamed(jobs[..i]) + RefsBy(jobs[i])
  {
    hide RefsBy;
    assert jobs[..i + 1][..i] == jobs[..i];
  }

  /** Runs every job with one allocator, after what has been done to the trees `ts0`. */
  method RunJobs(disk: map<PageId, Page>, jobs: seq<Job>, alloc: PageAllocator, images0: map<PageId, Page>, roots0: seq<PageId>,
                 ghost b0: Book, ghost ts0: seq<Option<Tree>>, ghost made0: seq<Option<Tree>>, ghost ts: seq<Option<Tree>>)
    returns (ok: bool, images: map<PageId, Page>, roots: seq<PageId>, ghost made: seq<Option<Tree>>)
    requires alloc.Valid() && |ts| == |jobs| && forall j :: 0 <= j < |jobs| ==> JobOk(disk, jobs[j], ts[j])
    requires b0.images == map[] && Done(disk, b0, BookOf(images0, alloc), ts0, made0, roots0)
    requires forall x :: x in PagesOfForest(ts0 + ts) ==> x > 0 && !Free(b0, x)
    modifies alloc
    ensures ok ==> alloc.Valid() && |made| == |roots| == |jobs|
    ensures ok ==> Done(disk, b0, BookOf(images, alloc), ts0 + ts, made0 + made, roots0 + roots)
    ensures ok ==> Later(old(BookOf(images0, alloc)), BookOf(images, alloc))
    ensures ok ==> forall j :: 0 <= j < |jobs| ==> Fulfilled(jobs[j], ts[j], made[j])
    ensures ok ==> Spent(old(BookOf(images0, alloc)), BookOf(images, alloc), iset{})
    ensures ok ==> alloc.addedPayloadRefs[|old(alloc.addedPayloadRefs)|..] == RefsNamed(jobs)
  {
    hide WellFormed, PagesIn, Done, Made, JobOk, Fulfilled, PagesOfForest, RefsOfForest, RefsIn, Denoted, Override, Later, Free, Stands, RefsBy, RefsNamed, AllStorable, Spent;
    ghost var b1 := BookOf(images0, alloc);
    images, roots, made := images0, [], [];
    assert ts0 + ts[..0] == ts0 && made0 + made == made0 && roots0 + roots == roots0 && jobs[..0] == [];
    assert b1.added[|b1.added|..] == RefsNamed([]) by { NoJobs(); }
    NoLater(b1);
    NothingSpent(b1, iset{});
    while |roots| < |jobs|
      invariant |roots| == |made| <= |jobs| && alloc.Valid()
      invariant Done(disk, b0, BookOf(images, alloc), ts0 + ts[..|roots|], made0 + made, roots0 + roots)
      invariant Later(b1, BookOf(images, alloc))
      invariant forall j :: 0 <= j < |made| ==> Fulfilled(jobs[j], ts[j], made[j])
      invariant Spent(b1, BookOf(images, alloc), iset{})
      invariant b1.added <= alloc.addedPayloadRefs && alloc.addedPayloadRefs[|b1.added|..] == RefsNamed(jobs[..|roots|])
    {
      ghost var i, b := |roots|, BookOf(images, alloc);
      TreeUntouched(disk, b0, b, ts0 + ts[..i], made0 + made, roots0 + roots, ts0 + ts);
      assert (ts0 + ts)[|ts0 + ts[..i]|] == ts[i] && ts0 + ts[..i] == (ts0 + ts)[..|ts0| + i];
      assert forall x :: Free(b, x) == alloc.Available(x) by { FreeIs(images, alloc); }
      var done, root, after;
      ghost var one;
      done, root, after, one := RunJob(disk, jobs[|roots|], alloc, images, ts[i]);
      if !done {
        return false, images, roots, made;
      }
      ghost var c := BookOf(after, alloc);
      ghost var emitted :| Made(disk, b, c, emitted, ts[i], root, one);
      OneMore(disk, b0, b, ts0 + ts[..i], made0 + made, roots0 + roots, c, emitted, ts[i], root, one);
      NextJob(jobs, i);
      assert (ts0 + ts[..i]) + [ts[i]] == ts0 + ts[..i + 1];
      assert (made0 + made) + [one] == made0 + (made + [one]) && (roots0 + roots) + [root] == roots0 + (roots + [root]);
      MadeLater(disk, b, c, emitted, ts[i], root, one);
      LaterTransitive(b1, b, c);
      SpentTransitive(b1, b, c, iset{}, iset{});
      AddedGrows(b1.added, b.added, c.added);
      images, roots, made := after, roots + [root], made + [one];
    }
    assert ts[..|ts|] == ts && jobs[..|jobs|] == jobs;
    return true, images, roots, made;
  }

  lemma {:induction false} NoLater(b: Book)
    ensures Later(b, b)
  {
  }

  lemma {:induction false} FreeIs(images: map<PageId, Page>, alloc: PageAllocator)
    ensures forall x :: Free(BookOf(images, alloc), x) == alloc.Available(x)
  {
  }

  lemma {:induction false} MadeLater(disk: map<PageId, Page>, b: Book, c: Book, images: map<PageId, Page>, t: Option<Tree>, root: PageId, made: Option<Tree>)
    requires Made(disk, b, c, images, t, root, made)
    ensures Later(b, c) && b.added <= c.added
  {
    hide WellFormed, PagesIn, RefsIn, FreedSince, AddedSince, DroppedSince;
  }

  lemma {:induction false} AddedGrows(a: seq<PayloadRef>, b: seq<PayloadRef>, c: seq<PayloadRef>)
    requires a <= b <= c
    ensures a <= c && c[|a|..] == b[|a|..] + c[|b|..]
  {
  }

  /** A tree still to come has kept its pages from the allocator. */
  lemma {:induction false} TreeUntouched(disk: map<PageId, Page>, b0: Book, b: Book, ts: seq<Option<Tree>>, made: seq<Option<Tree>>, roots: seq<PageId>, all: seq<Option<Tree>>)
    requires Done(disk, b0, b, ts, made, roots) && b0.images == map[] && |ts| < |all|
    requires forall x :: x in PagesOfForest(all) ==> x > 0 && !Free(b0, x)
    ensures forall x :: x in PagesIn(all[|ts|]) ==> x > 0 && !Free(b0, x) && !Free(b, x)
    ensures forall x :: x in b.images ==> !Free(b, x)
  {
    hide WellFormed, PagesIn, RefsIn, FreedSince, AddedSince, DroppedSince, PagesOfForest, RefsOfForest;
    forall x | x in PagesIn(all[|ts|]) ensures x > 0 && !Free(b0, x) && !Free(b, x) {
      InForest(all, |ts|, x);
    }
  }
}
