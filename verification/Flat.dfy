/** Node records over flat attribute and child arrays. */
module Flat {
  import opened Graph
  import opened Heap

  datatype Record = Record(kind: string, id: string, attrStart: nat, attrCount: nat, kidStart: nat, kidCount: nat)

  /** The records tile the first `na` attributes and the first `nk` children without gaps. */
  predicate Tiles(recs: seq<Record>, na: nat, nk: nat)
    decreases |recs|
  {
    if recs == [] then na == 0 && nk == 0
    else
      var r := recs[|recs| - 1];
      && r.attrStart + r.attrCount == na && r.kidStart + r.kidCount == nk
      && Tiles(recs[..|recs| - 1], r.attrStart, r.kidStart)
  }

  lemma {:induction false} TilesAt(recs: seq<Record>, na: nat, nk: nat, i: nat)
    requires Tiles(recs, na, nk) && i < |recs|
    ensures recs[i].attrStart + recs[i].attrCount <= na && recs[i].kidStart + recs[i].kidCount <= nk
    ensures Tiles(recs[..i], recs[i].attrStart, recs[i].kidStart)
    decreases |recs|
  {
    var last := |recs| - 1;
    if i < last {
      TilesAt(recs[..last], recs[last].attrStart, recs[last].kidStart, i);
      assert recs[..last][..i] == recs[..i];
    }
  }

  /** The slices of a record lie within the arrays. */
  predicate Inside(r: Record, na: nat, nk: nat) {
    r.attrStart + r.attrCount <= na && r.kidStart + r.kidCount <= nk
  }

  predicate AllInside(recs: seq<Record>, na: nat, nk: nat) {
    forall i :: 0 <= i < |recs| ==> Inside(recs[i], na, nk)
  }

  lemma {:induction false} TilesInside(recs: seq<Record>, na: nat, nk: nat)
    requires Tiles(recs, na, nk)
    ensures AllInside(recs, na, nk)
  {
    forall i | 0 <= i < |recs|
      ensures Inside(recs[i], na, nk)
    {
      TilesAt(recs, na, nk, i);
    }
  }

  /** The node a record stands for. */
  function NodeAt(r: Record, attrs: seq<Attr>, kids: seq<int>): NodeVal
    requires Inside(r, |attrs|, |kids|)
  {
    NodeVal(r.kind, r.id, attrs[r.attrStart..r.attrStart + r.attrCount], kids[r.kidStart..r.kidStart + r.kidCount])
  }

  function View(recs: seq<Record>, attrs: seq<Attr>, kids: seq<int>): (nodes: seq<NodeVal>)
    requires AllInside(recs, |attrs|, |kids|)
    ensures |nodes| == |recs|
  {
    seq(|recs|, i requires 0 <= i < |recs| => assert Inside(recs[i], |attrs|, |kids|); NodeAt(recs[i], attrs, kids))
  }

  /** A record with its attributes and children put behind the others. */
  lemma {:induction false} ViewSnoc(
    recs: seq<Record>, attrs: seq<Attr>, kids: seq<int>, r: Record, xs: seq<Attr>, ks: seq<int>)
    requires Tiles(recs, |attrs|, |kids|)
    requires r.attrStart == |attrs| && r.attrCount == |xs| && r.kidStart == |kids| && r.kidCount == |ks|
    ensures AllInside(recs, |attrs|, |kids|)
    ensures Tiles(recs + [r], |attrs + xs|, |kids + ks|)
    ensures AllInside(recs + [r], |attrs + xs|, |kids + ks|)
    ensures View(recs + [r], attrs + xs, kids + ks) == View(recs, attrs, kids) + [NodeVal(r.kind, r.id, xs, ks)]
  {
    TilesInside(recs, |attrs|, |kids|);
    assert (recs + [r])[..|recs|] == recs;
    TilesInside(recs + [r], |attrs + xs|, |kids + ks|);
    var longer := recs + [r];
    forall i | 0 <= i < |longer|
      ensures View(longer, attrs + xs, kids + ks)[i] ==
        (View(recs, attrs, kids) + [NodeVal(r.kind, r.id, xs, ks)])[i]
    {
      if i < |recs| {
        assert Inside(recs[i], |attrs|, |kids|);
        SliceOld(attrs, xs, recs[i].attrStart, recs[i].attrStart + recs[i].attrCount);
        SliceOld(kids, ks, recs[i].kidStart, recs[i].kidStart + recs[i].kidCount);
      } else {
        assert (attrs + xs)[|attrs|..] == xs;
        assert (kids + ks)[|kids|..] == ks;
      }
    }
  }

  lemma {:induction false} SliceOld<T>(a: seq<T>, b: seq<T>, lo: nat, hi: nat)
    requires lo <= hi <= |a|
    ensures (a + b)[lo..hi] == a[lo..hi]
  {
  }

  /** The counts are the totals of the nodes. */
  lemma {:induction false} ViewTotals(recs: seq<Record>, attrs: seq<Attr>, kids: seq<int>)
    requires Tiles(recs, |attrs|, |kids|)
    ensures AllInside(recs, |attrs|, |kids|)
    ensures AttrTotal(View(recs, attrs, kids)) == |attrs| && ChildTotal(View(recs, attrs, kids)) == |kids|
    decreases |recs|
  {
    TilesInside(recs, |attrs|, |kids|);
    if recs != [] {
      var last := |recs| - 1;
      var r := recs[last];
      var a, k := attrs[..r.attrStart], kids[..r.kidStart];
      ViewTotals(recs[..last], a, k);
      ViewSnoc(recs[..last], a, k, r, attrs[r.attrStart..], kids[r.kidStart..]);
      assert recs[..last] + [r] == recs && a + attrs[r.attrStart..] == attrs && k + kids[r.kidStart..] == kids;
      TotalSnoc(View(recs[..last], a, k), NodeVal(r.kind, r.id, attrs[r.attrStart..], kids[r.kidStart..]));
    }
  }

  /** A record starts where the totals of the nodes before it end. */
  lemma {:induction false} ViewStart(recs: seq<Record>, attrs: seq<Attr>, kids: seq<int>, i: nat)
    requires Tiles(recs, |attrs|, |kids|) && i < |recs|
    ensures AllInside(recs, |attrs|, |kids|)
    ensures AttrTotal(View(recs, attrs, kids)[..i]) == recs[i].attrStart
    ensures ChildTotal(View(recs, attrs, kids)[..i]) == recs[i].kidStart
  {
    TilesInside(recs, |attrs|, |kids|);
    TilesAt(recs, |attrs|, |kids|, i);
    var a, k := attrs[..recs[i].attrStart], kids[..recs[i].kidStart];
    ViewTotals(recs[..i], a, k);
    forall j | 0 <= j < i
      ensures View(recs[..i], a, k)[j] == View(recs, attrs, kids)[j]
    {
      assert Inside(recs[..i][j], |a|, |k|);
      SliceOld(a, attrs[recs[i].attrStart..], recs[j].attrStart, recs[j].attrStart + recs[j].attrCount);
      SliceOld(k, kids[recs[i].kidStart..], recs[j].kidStart, recs[j].kidStart + recs[j].kidCount);
      assert a + attrs[recs[i].attrStart..] == attrs && k + kids[recs[i].kidStart..] == kids;
    }
    assert View(recs[..i], a, k) == View(recs, attrs, kids)[..i];
  }

  /** The arrays hold `nodes`. */
  predicate Holds(recs: seq<Record>, attrs: seq<Attr>, kids: seq<int>, nodes: seq<NodeVal>) {
    Tiles(recs, |attrs|, |kids|) && AllInside(recs, |attrs|, |kids|) && View(recs, attrs, kids) == nodes
  }

  lemma {:induction false} HoldsSnoc(
    recs: seq<Record>, attrs: seq<Attr>, kids: seq<int>, nodes: seq<NodeVal>, r: Record, xs: seq<Attr>, ks: seq<int>)
    requires Holds(recs, attrs, kids, nodes)
    requires r.attrStart == |attrs| && r.attrCount == |xs| && r.kidStart == |kids| && r.kidCount == |ks|
    ensures Holds(recs + [r], attrs + xs, kids + ks, nodes + [NodeVal(r.kind, r.id, xs, ks)])
  {
    hide View, Tiles;
    ViewSnoc(recs, attrs, kids, r, xs, ks);
  }

  lemma {:induction false} HoldsTotals(recs: seq<Record>, attrs: seq<Attr>, kids: seq<int>, nodes: seq<NodeVal>)
    requires Holds(recs, attrs, kids, nodes)
    ensures |recs| == |nodes| && AttrTotal(nodes) == |attrs| && ChildTotal(nodes) == |kids|
  {
    ViewTotals(recs, attrs, kids);
  }

  /** The survivors among the first `i` nodes leave room for the next one. */
  lemma {:induction false} RoomToSlide(
    recs: seq<Record>, attrs: seq<Attr>, kids: seq<int>, nodes: seq<NodeVal>, live: seq<bool>, i: nat)
    requires Holds(recs, attrs, kids, nodes) && |live| == |nodes| && i < |nodes|
    ensures Inside(recs[i], |attrs|, |kids|)
    ensures AttrTotal(Slide(nodes, live, i)) + recs[i].attrCount <= |attrs|
    ensures ChildTotal(Slide(nodes, live, i)) + recs[i].kidCount <= |kids|
    ensures nodes[i] == NodeAt(recs[i], attrs, kids)
  {
    hide Slide, Tiles;
    ViewStart(recs, attrs, kids, i);
    SlideSmaller(nodes, live, i);
    assert Inside(recs[i], |attrs|, |kids|);
  }
}
