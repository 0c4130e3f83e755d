/** Growing and collapsing the root, as steps on writer states. */
module RootFinishing {
  import opened Keys
  import opened Pages
  import opened MergeSpec
  import opened Parts
  import opened WriterState
  import opened Normalizing
  import opened Packing

  ghost predicate NoDuplicates(m: multiset<PageId>) {
    forall x :: m[x] <= 1
  }

  /** From state `s0` on, only pages of the committed tree have been freed and nothing else in the books moved. */
  ghost predicate Since(s0: State, s: State) {
    && s.disk == s0.disk && s.base == s0.base
    && s0.freed <= s.freed
    && (forall i :: |s0.freed| <= i < |s.freed| ==> s.freed[i] in s0.base)
  }

  lemma {:induction false} GrownSince(s0: State, s: State, s': State)
    requires Since(s0, s) && Grown(s, s')
    ensures Since(s0, s')
  {
    forall i | |s0.freed| <= i < |s'.freed| ensures s'.freed[i] in s0.base {
      if i < |s.freed| {
        assert s'.freed[i] == s.freed[i];
      }
    }
  }

  /** A writer that started with no images on a tree without duplicate pages. */
  ghost predicate Fresh(s0: State) {
    s0.freshPages == map[] && s0.overflowImages == map[] && NoDuplicates(s0.base)
  }

  /** `ts` hold the entries `es` in pages of one height, and account for the whole committed tree. */
  ghost predicate Top(s0: State, s: State, es: seq<Entry>, ts: seq<Tree>, height: nat) {
    && Apart(s) && Since(s0, s)
    && FlatAll(ts) == es
    && ShapedAll(ts, height)
    && PartLive(s, InnerPart(height + 1, ts))
    && Balanced(s0.base, LedgerOf(s0), PagesOfAll(ts), LedgerOf(s))
  }

  lemma {:induction false} TopPacked(s0: State, s: State, part: Part, s': State, ts: seq<Tree>, height: nat)
    requires Since(s0, s) && Balanced(s0.base, LedgerOf(s0), PartPages(part), LedgerOf(s))
    requires Packed(s, part, s', ts, height)
    ensures Top(s0, s', PartFlat(part), ts, height)
  {
    hide PartLive, LedgerOf, Balanced, Grown, Apart, FlatAll, PagesOfAll, ShapedAll, PartFlat, PartPages, Since;
    GrownSince(s0, s, s');
    BalancedTransitive(s0.base, LedgerOf(s0), PartPages(part), LedgerOf(s), PagesOfAll(ts), LedgerOf(s'));
  }

  lemma {:induction false} TopRepacked(s0: State, s: State, es: seq<Entry>, kids: seq<Tree>, height: nat, s': State, ts: seq<Tree>)
    requires Top(s0, s, es, kids, height) && Packed(s, InnerPart(height + 1, kids), s', ts, height + 1)
    ensures Top(s0, s', es, ts, height + 1)
  {
    hide PartLive, LedgerOf, Balanced, Grown, Apart, FlatAll, PagesOfAll, ShapedAll, Since;
    TopPacked(s0, s, InnerPart(height + 1, kids), s', ts, height + 1);
  }

  lemma {:induction false} TopNonempty(s0: State, s: State, es: seq<Entry>, ts: seq<Tree>, height: nat)
    requires Top(s0, s, es, ts, height) && es != []
    ensures ts != []
  {
  }

  /** The root `t` of a finished tree, short of collapsing. */
  ghost predicate Rooted(s0: State, s: State, es: seq<Entry>, t: Tree) {
    && Apart(s) && Since(s0, s)
    && Flat(t) == es
    && Spelled(ViewOf(s), t)
    && (forall x :: x in PagesOf(t) ==> Known(s, x))
    && Balanced(s0.base, LedgerOf(s0), PagesOf(t), LedgerOf(s))
  }

  lemma {:induction false} TopRooted(s0: State, s: State, es: seq<Entry>, t: Tree, height: nat)
    requires Top(s0, s, es, [t], height)
    ensures Rooted(s0, s, es, t) && Shaped(t) && Height(t) == height
  {
    hide LedgerOf, Known, Apart, Flat, PagesOf, FlatAll, PagesOfAll, Shaped, Spelled, ViewOf, Since;
    OneTree(t);
    assert [t][0] == t;
  }

  /** Every page of the new tree is referenced once. */
  lemma {:induction false} RootedOnce(s0: State, s: State, es: seq<Entry>, t: Tree)
    requires Fresh(s0) && Rooted(s0, s, es, t)
    ensures NoDuplicates(PagesOf(t))
  {
    hide PagesOf, Spelled, Flat, Known, LedgerOf, Balanced, Apart;
    forall x: PageId ensures PagesOf(t)[x] <= 1 {
      ImagesOnce(s, x);
      NoImages(s0, s);
      CountOnce(s0.base, LedgerOf(s0), PagesOf(t), LedgerOf(s), x);
    }
  }

  lemma {:induction false} NoImages(s0: State, s: State)
    requires Fresh(s0) && Since(s0, s)
    ensures LedgerOf(s0).emitted == multiset{} && LedgerOf(s0).freed <= LedgerOf(s).freed
  {
    assert s.freed == s0.freed + s.freed[|s0.freed|..];
    assert multiset(s.freed) == multiset(s0.freed) + multiset(s.freed[|s0.freed|..]);
  }

  lemma {:induction false} CountOnce(base: multiset<PageId>, l0: Books, p: multiset<PageId>, l: Books, x: PageId)
    requires Balanced(base, l0, p, l) && l0.emitted == multiset{} && l0.freed <= l.freed
    requires base[x] <= 1 && l.emitted[x] <= 1 && (x in base ==> l.emitted[x] == 0)
    ensures p[x] <= 1
  {
    assert (p + l.freed + l0.emitted)[x] == (base + l0.freed + l.emitted)[x];
    assert l.freed[x] >= l0.freed[x];
  }

  lemma {:induction false} ImagesOnce(s: State, x: PageId)
    requires Apart(s)
    ensures LedgerOf(s).emitted[x] <= 1 && (x in s.base ==> LedgerOf(s).emitted[x] == 0)
  {
  }

  // ---------- collapsing ----------

  function Dropping(s: State, id: PageId): State {
    s.(freshPages := s.freshPages - {id})
  }

  lemma {:induction false} MultisetOfRemove(k: set<PageId>, id: PageId)
    requires id in k
    ensures multiset(k - {id}) + multiset{id} == multiset(k)
  {
    assert (k - {id}) + {id} == k;
    MultisetOfAdd(k - {id}, id);
  }

  lemma {:induction false} DroppingBooks(s: State, id: PageId)
    requires id in s.freshPages
    ensures LedgerOf(s) == Books(LedgerOf(Dropping(s, id)).freed, LedgerOf(Dropping(s, id)).emitted + multiset{id})
  {
    assert (s.freshPages - {id}).Keys == s.freshPages.Keys - {id};
    MultisetOfRemove(s.freshPages.Keys, id);
    var f, o := multiset(s.freshPages.Keys - {id}), multiset(s.overflowImages.Keys);
    assert (f + multiset{id}) + o == (f + o) + multiset{id};
  }

  lemma {:induction false} UnemitBalance(base: multiset<PageId>, l0: Books, p: multiset<PageId>, id: PageId, l: Books, l': Books)
    requires Balanced(base, l0, multiset{id} + p, l) && l == Books(l'.freed, l'.emitted + multiset{id})
    ensures Balanced(base, l0, p, l')
  {
    forall x: PageId ensures (p + l'.freed + l0.emitted)[x] == (base + l0.freed + l'.emitted)[x] {
      assert (multiset{id} + p + l.freed + l0.emitted)[x] == (base + l0.freed + l.emitted)[x];
    }
  }

  lemma {:induction false} OnlyKid(t: Tree)
    requires t.Node? && |t.kids| == 1 && Shaped(t)
    ensures PagesOf(t) == multiset{t.id} + PagesOf(t.kids[0])
    ensures Flat(t) == Flat(t.kids[0])
    ensures Shaped(t.kids[0]) && Height(t.kids[0]) == t.level - 1 && t.level > 0
    ensures ParentCells(t.kids) == [ParentCell(t.kids[0])]
  {
    hide PagesOf, Flat;
    assert t.kids == [t.kids[0]];
    OneTree(t.kids[0]);
    NodeUnfold(t);
  }

  lemma {:induction false} NodeUnfold(t: Tree)
    requires t.Node?
    ensures PagesOf(t) == multiset{t.id} + PagesOfAll(t.kids) && Flat(t) == FlatAll(t.kids)
  {
  }

  lemma {:induction false} OnlyKidStays(s0: State, s: State, es: seq<Entry>, t: Tree)
    requires Fresh(s0) && Rooted(s0, s, es, t) && t.Node? && |t.kids| == 1 && Shaped(t)
    ensures Spelled(ViewOf(s), t.kids[0]) && t.id !in PagesOf(t.kids[0])
    ensures forall x :: x in PagesOf(t.kids[0]) ==> Known(s, x)
  {
    hide PagesOf, Known, Flat, Shaped, ViewOf, LedgerOf;
    OnlyKid(t);
    RootedOnce(s0, s, es, t);
    var k := PagesOf(t.kids[0]);
    assert (multiset{t.id} + k)[t.id] <= 1;
    forall x | x in k ensures Known(s, x) {
      assert x in PagesOf(t);
    }
  }

  lemma {:induction false} AboveFacts(s0: State, s: State, es: seq<Entry>, t: Tree)
    requires Rooted(s0, s, es, t)
    ensures Apart(s) && Since(s0, s) && Known(s, t.id)
    ensures t.id in ViewOf(s) && (t.Node? ==> ViewOf(s)[t.id] == InternalPage(t.level, ParentCells(t.kids)))
    ensures t.Leaf? ==> ViewOf(s)[t.id] == LeafPage(CellsOf(t.entries))
  {
    assert t.id in PagesOf(t);
  }

  /** A single-child root written by this commit is dropped unpublished. */
  lemma {:induction false} CollapseFresh(s0: State, s: State, es: seq<Entry>, t: Tree)
    requires Fresh(s0) && Rooted(s0, s, es, t) && t.Node? && |t.kids| == 1 && Shaped(t) && t.id in s.freshPages
    ensures Rooted(s0, Dropping(s, t.id), es, t.kids[0])
    ensures !Known(Dropping(s, t.id), t.id)
  {
    var s', kid := Dropping(s, t.id), t.kids[0];
    assert Apart(s') && Since(s0, s') && !Known(s', t.id);
    assert Spelled(ViewOf(s'), kid) && forall x :: x in PagesOf(kid) ==> Known(s', x) by {
      hide PagesOf, Spelled, Shaped, Flat, LedgerOf;
      OnlyKidStays(s0, s, es, t);
      DroppingAgrees(s, t.id, PagesOf(kid));
      TreeFrame(ViewOf(s), ViewOf(s'), kid);
    }
    assert Flat(kid) == es && Balanced(s0.base, LedgerOf(s0), PagesOf(kid), LedgerOf(s')) by {
      hide PagesOf, Spelled, Shaped, Flat, LedgerOf, Known, ViewOf, Balanced;
      OnlyKid(t);
      DroppingBooks(s, t.id);
      UnemitBalance(s0.base, LedgerOf(s0), PagesOf(kid), t.id, LedgerOf(s), LedgerOf(s'));
    }
  }

  lemma {:induction false} DroppingAgrees(s: State, id: PageId, pages: multiset<PageId>)
    requires id !in pages
    ensures AgreeOn(ViewOf(s), ViewOf(Dropping(s, id)), pages)
    ensures forall x :: x in pages && Known(s, x) ==> Known(Dropping(s, id), x)
  {
  }

  lemma {:induction false} CommittedRoot(s0: State, s: State, es: seq<Entry>, t: Tree)
    requires Rooted(s0, s, es, t) && t.Node? && t.id !in s.freshPages
    ensures t.id in s.base
  {
    hide PagesOf, Flat, LedgerOf, Balanced, Since;
    AboveFacts(s0, s, es, t);
  }

  /** A single-child root of the committed tree is freed. */
  lemma {:induction false} CollapseCommitted(s0: State, s: State, es: seq<Entry>, t: Tree)
    requires Fresh(s0) && Rooted(s0, s, es, t) && t.Node? && |t.kids| == 1 && Shaped(t) && t.id !in s.freshPages
    ensures t.id in s.base && Rooted(s0, Freeing(s, t.id), es, t.kids[0])
  {
    hide PagesOf, Spelled, Shaped, Flat, LedgerOf, Known, ViewOf, Balanced, Fresh;
    var s', kid := Freeing(s, t.id), t.kids[0];
    CommittedRoot(s0, s, es, t);
    FreeingBooks(s, t.id);
    GrownSince(s0, s, s');
    OnlyKidStays(s0, s, es, t);
    FreeingKeepsView(s, t.id);
    OnlyKid(t);
    BalancedFree(t.id, PagesOf(kid), LedgerOf(s));
    BalancedTransitive(s0.base, LedgerOf(s0), PagesOf(t), LedgerOf(s), PagesOf(kid), LedgerOf(s'));
  }

  lemma {:induction false} FreeingKeepsView(s: State, id: PageId)
    ensures ViewOf(Freeing(s, id)) == ViewOf(s)
    ensures forall x :: Known(Freeing(s, id), x) <==> Known(s, x)
  {
  }

  /** The page at the root of a live tree is where `single_child` looks for it. */
  lemma {:induction false} RootIsReadable(s0: State, s: State, es: seq<Entry>, t: Tree)
    requires Rooted(s0, s, es, t)
    ensures t.id !in s.freshPages ==> t.id in s.disk && s.disk[t.id] == ViewOf(s)[t.id]
    ensures t.id in s.freshPages ==> s.freshPages[t.id] == ViewOf(s)[t.id]
  {
    hide PagesOf, Flat, LedgerOf, Balanced, Since;
    AboveFacts(s0, s, es, t);
  }

  /** An emptied tree becomes one empty leaf. */
  lemma {:induction false} EmptyRoot(s0: State, s: State, id: PageId)
    requires Apart(s) && Since(s0, s) && Balanced(s0.base, LedgerOf(s0), multiset{}, LedgerOf(s)) && !Known(s, id)
    ensures Rooted(s0, Emitting(s, id, LeafPage([])), [], Leaf(id, []))
  {
    hide LedgerOf, Balanced, Grown, Apart, Emitting, Since, PagesOf, Spelled, ViewOf;
    var s', leaf := Emitting(s, id, LeafPage([])), Leaf(id, []);
    EmittingGrows(s, id, LeafPage([]));
    EmittingBooks(s, id, LeafPage([]));
    GrownSince(s0, s, s');
    BalancedEmit(multiset{id}, multiset{}, LedgerOf(s));
    BalancedTransitive(s0.base, LedgerOf(s0), multiset{}, LedgerOf(s), multiset{} + multiset{id}, LedgerOf(s'));
    EmptyLeaf(s, id);
  }

  lemma {:induction false} EmptyLeaf(s: State, id: PageId)
    requires !Known(s, id)
    ensures var s' := Emitting(s, id, LeafPage([])); Spelled(ViewOf(s'), Leaf(id, [])) && Known(s', id)
    ensures PagesOf(Leaf(id, [])) == multiset{} + multiset{id} && Flat(Leaf(id, [])) == []
  {
    hide LedgerOf;
    assert CellsOf([]) == [];
    assert ChainPages([]) == multiset{};
  }
}
