/** The sequence of commits, and the page contents each of them stands for. */
module History {
  import opened Keys
  import opened Pages
  import opened WalScan
  import opened WalReplay

  /**
   * A commit: the transaction it logs, the payload bodies written straight into the main
   * file beforehand, and the pages its root reaches.
   */
  datatype Commit = Commit(tx: Tx, bodies: map<PageId, Bytes>, reach: set<PageId>)

  type Chronicle = seq<Commit>

  function Txs(h: Chronicle): (r: seq<Tx>)
    ensures |r| == |h|
  {
    seq(|h|, i requires 0 <= i < |h| => h[i].tx)
  }

  /** What every page holds once all commits of `h` are applied. */
  ghost function Content(h: Chronicle): MainFile
    decreases |h|
  {
    if h == [] then map[]
    else
      var last := h[|h| - 1];
      WriteAll(Content(h[..|h| - 1]) + last.bodies, last.tx.images)
  }

  /** The latest logged image of every page written after commit number `b`. */
  ghost function LogMap(h: Chronicle, b: nat): MainFile
    requires b < |h|
  {
    WriteAll(map[], AllImages(Txs(h[b + 1..])))
  }

  ghost predicate Touches(tx: Tx, p: PageId) {
    exists i :: 0 <= i < |tx.images| && tx.images[i].page == p
  }

  /**
   * `c` may follow `h`: ids and file size grow, the reachable pages are old, logged or payload
   * pages inside the file, and no page the last commit reaches is written again.
   */
  ghost predicate Extends(h: Chronicle, c: Commit)
    requires h != []
  {
    var last := h[|h| - 1];
    && TxValid(c.tx)
    && last.tx.txid < c.tx.txid
    && last.tx.next <= c.tx.next
    && (forall p :: p in c.reach ==> Touches(c.tx, p) || p in c.bodies || p in last.reach)
    && (forall p :: p in last.reach ==> !Touches(c.tx, p) && p !in c.bodies)
    && (forall p :: p in c.reach || p in c.bodies ==> p < c.tx.next)
    // payload extents and tree pages never share an id
    && (forall p :: p in c.bodies ==> !Touches(c.tx, p))
    && (forall i, p :: 0 <= i < |h| && p in c.bodies ==> !Touches(h[i].tx, p))
    && (forall i, p :: 0 <= i < |h| && p in h[i].bodies ==> !Touches(c.tx, p))
  }

  ghost predicate Valid(h: Chronicle) {
    && h != []
    && 0 < h[0].tx.root < h[0].tx.next
    && (forall p :: p in h[0].reach ==> p in Content(h[..1]))
    && (forall p :: p in h[0].reach || p in h[0].bodies ==> p < h[0].tx.next)
    && forall i :: 0 < i < |h| ==> Extends(h[..i], h[i])
  }

  // ---------- facts ----------

  lemma {:induction false} ValidSnoc(h: Chronicle, c: Commit)
    requires Valid(h) && Extends(h, c)
    ensures Valid(h + [c])
  {
    hide Extends, Content;
    var g := h + [c];
    assert g[..1] == h[..1];
    forall i | 0 < i < |g| ensures Extends(g[..i], g[i]) {
      if i < |h| {
        assert g[..i] == h[..i];
      } else {
        assert g[..i] == h;
      }
    }
  }

  lemma {:induction false} ValidPrefix(h: Chronicle, n: nat)
    requires Valid(h) && 0 < n <= |h|
    ensures Valid(h[..n])
  {
    hide Extends, Content;
    var g := h[..n];
    assert g[..1] == h[..1];
    forall i | 0 < i < |g| ensures Extends(g[..i], g[i]) {
      assert g[..i] == h[..i];
    }
  }

  lemma {:induction false} TxidsIncrease(h: Chronicle, i: nat, j: nat)
    requires Valid(h) && i < j < |h|
    ensures h[i].tx.txid < h[j].tx.txid && h[i].tx.next <= h[j].tx.next
    decreases j
  {
    hide Content;
    assert Extends(h[..j], h[j]);
    if i < j - 1 {
      TxidsIncrease(h, i, j - 1);
    }
  }

  lemma {:induction false} ContentSnoc(h: Chronicle, c: Commit)
    ensures Content(h + [c]) == WriteAll(Content(h) + c.bodies, c.tx.images)
  {
    assert (h + [c])[..|h|] == h;
  }

  lemma {:induction false} AllImagesAppend(a: seq<Tx>, b: seq<Tx>)
    ensures AllImages(a + b) == AllImages(a) + AllImages(b)
    decreases |a|
  {
    if a == [] {
      assert a + b == b;
    } else {
      assert (a + b)[1..] == a[1..] + b;
      AllImagesAppend(a[1..], b);
    }
  }

  lemma {:induction false} LogMapSnoc(h: Chronicle, c: Commit, b: nat)
    requires b < |h|
    ensures LogMap(h + [c], b) == WriteAll(LogMap(h, b), c.tx.images)
  {
    hide WriteAll, AllImages;
    var a := Txs(h[b + 1..]);
    assert (h + [c])[b + 1..] == h[b + 1..] + [c];
    assert Txs((h + [c])[b + 1..]) == a + [c.tx];
    AllImagesAppend(a, [c.tx]);
    OneTx(c.tx);
    WriteAllAppend(map[], AllImages(a), c.tx.images);
  }

  lemma {:induction false} OneTx(tx: Tx)
    ensures AllImages([tx]) == tx.images
  {
    assert AllImages([tx][1..]) == [];
  }

  lemma {:induction false} LogMapEmpty(h: Chronicle)
    requires h != []
    ensures LogMap(h, |h| - 1) == map[]
  {
    assert h[|h|..] == [];
    assert Txs([]) == [];
  }

  lemma {:induction false} TouchedIsLast(images: seq<Image>, p: PageId)
    ensures Last(images, p).Some? <==> exists i :: 0 <= i < |images| && images[i].page == p
    decreases |images|
  {
    if images != [] {
      TouchedIsLast(images[..|images| - 1], p);
    }
  }

  /** The effect of one transaction on one page. */
  lemma {:induction false} WriteTx(main: MainFile, tx: Tx, p: PageId)
    ensures p in WriteAll(main, tx.images) <==> Touches(tx, p) || p in main
    ensures !Touches(tx, p) && p in main ==> WriteAll(main, tx.images)[p] == main[p]
  {
    hide WriteAll, Last;
    WriteAllAt(main, tx.images, p);
    TouchedIsLast(tx.images, p);
  }

  /** A transaction writes the same image over any two files. */
  lemma {:induction false} WriteTxSame(a: MainFile, b: MainFile, tx: Tx, p: PageId)
    requires Touches(tx, p)
    ensures p in WriteAll(a, tx.images) && p in WriteAll(b, tx.images) && WriteAll(a, tx.images)[p] == WriteAll(b, tx.images)[p]
  {
    hide WriteAll, Last;
    WriteAllAt(a, tx.images, p);
    WriteAllAt(b, tx.images, p);
    TouchedIsLast(tx.images, p);
  }

  lemma {:induction false} LogMapTouched(h: Chronicle, b: nat, p: PageId)
    requires b < |h| && p in LogMap(h, b)
    ensures exists i :: b < i < |h| && Touches(h[i].tx, p)
    decreases |h|
  {
    hide WriteAll, Touches;
    var n := |h| - 1;
    if b == n {
      LogMapEmpty(h);
    } else {
      var g, c := h[..n], h[n];
      assert h == g + [c];
      LogMapSnoc(g, c, b);
      WriteTx(LogMap(g, b), c.tx, p);
      if !Touches(c.tx, p) {
        LogMapTouched(g, b, p);
        var i :| b < i < |g| && Touches(g[i].tx, p);
        assert Touches(h[i].tx, p);
      }
    }
  }

  /** Pages logged since commit `b` hold their latest logged image. */
  lemma {:induction false} LoggedContent(h: Chronicle, b: nat, p: PageId)
    requires Valid(h) && b < |h| && p in LogMap(h, b)
    ensures p in Content(h) && Content(h)[p] == LogMap(h, b)[p]
    decreases |h|
  {
    hide WriteAll, Touches, Content, LogMap;
    var n := |h| - 1;
    if b == n {
      LogMapEmpty(h);
    } else {
      var g, c := h[..n], h[n];
      assert h == g + [c];
      LogMapSnoc(g, c, b);
      ContentSnoc(g, c);
      if Touches(c.tx, p) {
        WriteTxSame(LogMap(g, b), Content(g) + c.bodies, c.tx, p);
      } else {
        WriteTx(LogMap(g, b), c.tx, p);
        WriteTx(Content(g) + c.bodies, c.tx, p);
        ValidPrefix(h, n);
        LoggedContent(g, b, p);
        LogMapTouched(g, b, p);
        assert Extends(h[..n], c);
      }
    }
  }

  /** One more commit leaves every page it neither logs nor writes as a body. */
  lemma {:induction false} ContentStep(h: Chronicle, c: Commit, p: PageId)
    requires h != [] && Extends(h, c)
    ensures !Touches(c.tx, p) && p in c.bodies ==> p in Content(h + [c]) && Content(h + [c])[p] == c.bodies[p]
    ensures !Touches(c.tx, p) && p !in c.bodies && p in Content(h) ==> p in Content(h + [c]) && Content(h + [c])[p] == Content(h)[p]
    ensures Touches(c.tx, p) ==> p in Content(h + [c])
  {
    hide WriteAll, Touches, Content;
    ContentSnoc(h, c);
    WriteTx(Content(h) + c.bodies, c.tx, p);
  }

  /** Every reachable page has contents. */
  lemma {:induction false} ReachHasContent(h: Chronicle, p: PageId)
    requires Valid(h) && p in h[|h| - 1].reach
    ensures p in Content(h)
    decreases |h|
  {
    hide WriteAll, Touches, Content;
    var n := |h| - 1;
    if n == 0 {
      assert h[..1] == h;
    } else {
      var g, c := h[..n], h[n];
      assert h == g + [c] && Extends(g, c);
      ContentStep(g, c, p);
      if p in g[n - 1].reach {
        ValidPrefix(h, n);
        ReachHasContent(g, p);
      }
    }
  }

  /** Everything a commit reaches or writes lies inside the file as the last commit leaves it. */
  lemma {:induction false} InsideFile(h: Chronicle, i: nat, p: PageId)
    requires Valid(h) && i < |h| && (p in h[i].reach || p in h[i].bodies)
    ensures p < h[|h| - 1].tx.next
  {
    hide Content, Touches;
    if i > 0 {
      assert Extends(h[..i], h[i]);
    }
    if i < |h| - 1 {
      TxidsIncrease(h, i, |h| - 1);
    }
  }
}
