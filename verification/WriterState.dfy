/** The pages a tree writer can see, what it has emitted and freed, and how that grows. */
module WriterState {
  import opened Keys
  import opened Pages
  import opened MergeSpec
  import opened Parts

  /** `base` holds the pages of the committed tree being replaced. */
  datatype State = State(
    disk: map<PageId, Page>,
    base: multiset<PageId>,
    freshPages: map<PageId, Page>,
    overflowImages: map<PageId, Page>,
    freed: seq<PageId>,
    added: seq<PayloadRef>,
    dropped: seq<PayloadRef>)

  predicate Known(s: State, x: PageId) {
    x in s.base || x in s.freshPages || x in s.overflowImages
  }

  function ViewOf(s: State): map<PageId, Page> {
    s.disk + s.overflowImages + s.freshPages
  }

  function LedgerOf(s: State): Books {
    Books(multiset(s.freed), multiset(s.freshPages.Keys) + multiset(s.overflowImages.Keys))
  }

  ghost predicate Apart(s: State) {
    && (forall x :: x in s.base ==> x !in s.freshPages && x !in s.overflowImages)
    && (forall x :: x in s.freshPages ==> x !in s.overflowImages && !s.freshPages[x].OverflowPage?)
    && (forall x :: x in s.overflowImages ==> s.overflowImages[x].OverflowPage?)
  }

  /** Later writer states only add images and only free pages of the committed tree. */
  ghost predicate Grown(s: State, s': State) {
    && s'.disk == s.disk && s'.base == s.base
    && s.freed <= s'.freed
    && (forall i :: |s.freed| <= i < |s'.freed| ==> s'.freed[i] in s.base)
    && (forall x :: x in s.freshPages ==> x in s'.freshPages && s'.freshPages[x] == s.freshPages[x])
    && (forall x :: x in s.overflowImages ==> x in s'.overflowImages && s'.overflowImages[x] == s.overflowImages[x])
  }

  lemma {:induction false} GrownReflexive(s: State)
    ensures Grown(s, s)
  {
  }

  lemma {:induction false} GrownTransitive(a: State, b: State, c: State)
    requires Grown(a, b) && Grown(b, c)
    ensures Grown(a, c)
  {
    forall i | |a.freed| <= i < |c.freed| ensures c.freed[i] in a.base {
      if i < |b.freed| {
        assert c.freed[i] == b.freed[i];
      }
    }
  }

  /** Subtrees of the committed tree. */
  ghost predicate Committed(s: State, t: Tree) {
    Spelled(s.disk, t) && PagesOf(t) <= s.base
  }

  ghost predicate PartLive(s: State, p: Part) {
    && PartSpelled(ViewOf(s), p)
    && (forall x :: x in PartPages(p) ==> Known(s, x))
    && (p.Kept? ==> Committed(s, p.tree))
  }

  ghost predicate PartsLive(s: State, ps: seq<Part>) {
    forall i :: 0 <= i < |ps| ==> PartLive(s, ps[i])
  }

  lemma {:induction false} ViewStable(s: State, s': State)
    requires Apart(s) && Apart(s') && Grown(s, s')
    ensures forall x :: Known(s, x) && x in ViewOf(s) ==> x in ViewOf(s') && ViewOf(s')[x] == ViewOf(s)[x]
  {
  }

  lemma {:induction false} PartStaysLive(s: State, s': State, p: Part)
    requires Apart(s) && Apart(s') && Grown(s, s') && PartLive(s, p)
    ensures PartLive(s', p)
  {
    ViewStable(s, s');
    PartFrame(ViewOf(s), ViewOf(s'), p);
  }

  lemma {:induction false} PartsStayLive(s: State, s': State, ps: seq<Part>)
    requires Apart(s) && Apart(s') && Grown(s, s') && PartsLive(s, ps)
    ensures PartsLive(s', ps)
  {
    forall i | 0 <= i < |ps| ensures PartLive(s', ps[i]) {
      PartStaysLive(s, s', ps[i]);
    }
  }

  /** A committed subtree is live, being untouched by anything emitted. */
  lemma {:induction false} CommittedIsLive(s: State, t: Tree)
    requires Apart(s) && Committed(s, t)
    ensures PartLive(s, Kept(t))
  {
    forall x | x in PagesOf(t) ensures x in s.base {
      assert s.base[x] >= PagesOf(t)[x];
    }
    TreeFrame(s.disk, ViewOf(s), t);
  }

  lemma {:induction false} CommittedKid(s: State, t: Tree, i: nat)
    requires Committed(s, t) && t.Node? && i < |t.kids|
    ensures Committed(s, t.kids[i])
  {
    KidPagesContained(t.kids, i);
  }

  /** The root page of a committed subtree can be freed once its cells are in a run. */
  lemma {:induction false} Dissolve(s: State, t: Tree)
    requires Apart(s) && Committed(s, t)
    ensures t.Leaf? ==> PartLive(s, LeafPart(t.entries))
    ensures t.Node? ==> PartLive(s, InnerPart(t.level, t.kids))
    ensures t.id in s.base
  {
    CommittedIsLive(s, t);
    assert t.id in PagesOf(t);
    assert s.base[t.id] >= PagesOf(t)[t.id];
  }

  function Freeing(s: State, id: PageId): State {
    s.(freed := s.freed + [id])
  }

  lemma {:induction false} FreeingBooks(s: State, id: PageId)
    ensures LedgerOf(Freeing(s, id)) == Books(LedgerOf(s).freed + multiset{id}, LedgerOf(s).emitted)
    ensures id in s.base ==> Grown(s, Freeing(s, id))
  {
  }

  function Emitting(s: State, id: PageId, page: Page): State {
    s.(freshPages := s.freshPages[id := page])
  }

  lemma {:induction false} MultisetOfAdd(k: set<PageId>, id: PageId)
    requires id !in k
    ensures multiset(k + {id}) == multiset(k) + multiset{id}
  {
  }

  lemma {:induction false} EmittingGrows(s: State, id: PageId, page: Page)
    requires Apart(s) && !Known(s, id) && !page.OverflowPage?
    ensures Apart(Emitting(s, id, page)) && Grown(s, Emitting(s, id, page))
    ensures id in ViewOf(Emitting(s, id, page)) && ViewOf(Emitting(s, id, page))[id] == page
  {
  }

  lemma {:induction false} EmittingBooks(s: State, id: PageId, page: Page)
    requires id !in s.freshPages
    ensures LedgerOf(Emitting(s, id, page)) == Books(LedgerOf(s).freed, LedgerOf(s).emitted + multiset{id})
  {
    var f, o := multiset(s.freshPages.Keys), multiset(s.overflowImages.Keys);
    assert s.freshPages[id := page].Keys == s.freshPages.Keys + {id};
    MultisetOfAdd(s.freshPages.Keys, id);
    assert (f + multiset{id}) + o == (f + o) + multiset{id};
  }

  // ---------- packing ----------

  /** `ts` are pages packed from `part`, and the books balance. */
  ghost predicate Packed(s: State, part: Part, s': State, ts: seq<Tree>, height: nat) {
    && Grown(s, s') && Apart(s')
    && FlatAll(ts) == PartFlat(part)
    && ShapedAll(ts, height)
    && PartLive(s', InnerPart(height + 1, ts))
    && Balanced(PartPages(part), LedgerOf(s), PagesOfAll(ts), LedgerOf(s'))
  }

  lemma {:induction false} TreesLiveSnoc(s: State, level: nat, ts: seq<Tree>, t: Tree)
    requires PartLive(s, InnerPart(level, ts))
    requires Spelled(ViewOf(s), t) && forall x :: x in PagesOf(t) ==> Known(s, x)
    ensures PartLive(s, InnerPart(level, ts + [t]))
  {
    PagesOfAllSnoc(ts, t);
  }

  /** Packing `group` under a new page `id` after packing `done` into `ts`. */
  lemma {:induction false} PackBalance(done: multiset<PageId>, group: multiset<PageId>, l: Books, ts: multiset<PageId>, l': Books, id: PageId)
    requires Balanced(done, l, ts, l')
    ensures Balanced(done + group, l, ts + (multiset{id} + group), Books(l'.freed, l'.emitted + multiset{id}))
  {
    var l'' := Books(l'.freed, l'.emitted + multiset{id});
    BalancedFrame(group, done, l, ts, l');
    BalancedEmit(multiset{id}, ts + group, l');
    BalancedTransitive(done + group, l, ts + group, l', ts + group + multiset{id}, l'');
    assert ts + group + multiset{id} == ts + (multiset{id} + group);
  }

  /** The page image of the root of a tree. */
  function RootPage(t: Tree): Page {
    match t case Leaf(_, es) => LeafPage(CellsOf(es)) case Node(_, level, kids) => InternalPage(level, ParentCells(kids))
  }

  function PartUnder(t: Tree): Part {
    match t case Leaf(_, es) => LeafPart(es) case Node(_, level, kids) => InnerPart(level, kids)
  }

  lemma {:induction false} PackStepLive(s: State, s': State, t: Tree, ts: seq<Tree>, height: nat)
    requires Apart(s) && Apart(s') && Grown(s, s')
    requires PartLive(s', InnerPart(height + 1, ts)) && PartLive(s, PartUnder(t)) && !Known(s', t.id)
    ensures Apart(Emitting(s', t.id, RootPage(t))) && Grown(s, Emitting(s', t.id, RootPage(t)))
    ensures PartLive(Emitting(s', t.id, RootPage(t)), InnerPart(height + 1, ts + [t]))
  {
    var s'' := Emitting(s', t.id, RootPage(t));
    EmittingGrows(s', t.id, RootPage(t));
    GrownTransitive(s, s', s'');
    PartStaysLive(s, s'', PartUnder(t));
    PartStaysLive(s', s'', InnerPart(height + 1, ts));
    TreesLiveSnoc(s'', height + 1, ts, t);
  }

  lemma {:induction false} PackStepBooks(s: State, s': State, done: Part, t: Tree, ts: seq<Tree>, whole: Part)
    requires Apart(s') && !Known(s', t.id)
    requires Balanced(PartPages(done), LedgerOf(s), PagesOfAll(ts), LedgerOf(s'))
    requires PartPages(whole) == PartPages(done) + PartPages(PartUnder(t))
    ensures Balanced(PartPages(whole), LedgerOf(s), PagesOfAll(ts + [t]), LedgerOf(Emitting(s', t.id, RootPage(t))))
  {
    EmittingBooks(s', t.id, RootPage(t));
    PagesOfAllSnoc(ts, t);
    assert PagesOf(t) == multiset{t.id} + PartPages(PartUnder(t));
    PackBalance(PartPages(done), PartPages(PartUnder(t)), LedgerOf(s), PagesOfAll(ts), LedgerOf(s'), t.id);
  }

  /** One more page packed. */
  lemma {:induction false} PackStep(s: State, s': State, done: Part, t: Tree, ts: seq<Tree>, height: nat, whole: Part)
    requires Apart(s) && Packed(s, done, s', ts, height)
    requires PartLive(s, PartUnder(t)) && !Known(s', t.id)
    requires Shaped(t) && Height(t) == height
    requires PartFlat(whole) == PartFlat(done) + PartFlat(PartUnder(t))
    requires PartPages(whole) == PartPages(done) + PartPages(PartUnder(t))
    ensures Packed(s, whole, Emitting(s', t.id, RootPage(t)), ts + [t], height)
  {
    hide Shaped, ShapedAll, PartLive, Grown, Apart, Balanced, LedgerOf, Emitting, PagesOfAll, FlatAll, PartPages, Known;
    var s'' := Emitting(s', t.id, RootPage(t));
    assert Grown(s, s'') && Apart(s'') && PartLive(s'', InnerPart(height + 1, ts + [t])) by {
      PackStepLive(s, s', t, ts, height);
    }
    assert Balanced(PartPages(whole), LedgerOf(s), PagesOfAll(ts + [t]), LedgerOf(s'')) by {
      PackStepBooks(s, s', done, t, ts, whole);
    }
    assert FlatAll(ts + [t]) == PartFlat(whole) by {
      FlatAllSnoc(ts, t);
      assert Flat(t) == PartFlat(PartUnder(t));
    }
    assert ShapedAll(ts + [t], height) by {
      ShapedAllSnoc(ts, t, height);
    }
  }

  // ---------- writing and releasing cells ----------

  function WritingChain(s: State, images: map<PageId, Page>): State {
    s.(overflowImages := s.overflowImages + images)
  }

  lemma {:induction false} WritingGrows(s: State, images: map<PageId, Page>)
    requires Apart(s)
    requires forall x :: x in images ==> !Known(s, x) && images[x].OverflowPage?
    ensures Apart(WritingChain(s, images)) && Grown(s, WritingChain(s, images))
    ensures forall x :: Known(WritingChain(s, images), x) <==> Known(s, x) || x in images
    ensures forall x :: x in images ==> x in ViewOf(WritingChain(s, images)) && ViewOf(WritingChain(s, images))[x] == images[x]
  {
  }

  function SetOf(ids: seq<PageId>): (r: set<PageId>)
    ensures forall x :: x in r <==> x in ids
  {
    set x | x in ids
  }

  lemma {:induction false} MultisetOfDistinct(k: set<PageId>, ids: seq<PageId>)
    requires forall i, j :: 0 <= i < j < |ids| ==> ids[i] != ids[j]
    requires forall x :: x in ids ==> x !in k
    ensures multiset(k + SetOf(ids)) == multiset(k) + multiset(ids)
    decreases |ids|
  {
    if ids == [] {
      assert k + SetOf(ids) == k;
    } else {
      var last, rest := ids[|ids| - 1], ids[..|ids| - 1];
      assert ids == rest + [last];
      assert last in ids && last !in rest;
      MultisetOfDistinct(k, rest);
      var grown := k + SetOf(rest);
      assert k + SetOf(ids) == grown + {last};
      MultisetOfAdd(grown, last);
      assert multiset(ids) == multiset(rest) + multiset{last};
    }
  }

  lemma {:induction false} SumShift(f: multiset<PageId>, o: multiset<PageId>, n: multiset<PageId>)
    ensures f + (o + n) == (f + o) + n
  {
  }

  lemma {:induction false} WritingBooks(s: State, ids: seq<PageId>, images: map<PageId, Page>)
    requires forall i, j :: 0 <= i < j < |ids| ==> ids[i] != ids[j]
    requires forall x :: x in images <==> x in ids
    requires forall x :: x in ids ==> x !in s.overflowImages
    ensures LedgerOf(WritingChain(s, images)) == Books(LedgerOf(s).freed, LedgerOf(s).emitted + multiset(ids))
  {
    assert (s.overflowImages + images).Keys == s.overflowImages.Keys + SetOf(ids);
    MultisetOfDistinct(s.overflowImages.Keys, ids);
    SumShift(multiset(s.freshPages.Keys), multiset(s.overflowImages.Keys), multiset(ids));
  }
}
