/** Values up to the names of nodes. */
module Renaming {
  import opened Values

  predicate Injective(m: map<int, int>) {
    forall a, b :: a in m && b in m && m[a] == m[b] ==> a == b
  }

  predicate RenamedValue(m: map<int, int>, v: Value, w: Value) {
    if v.Node? then v.handle in m && w == Node(m[v.handle]) else w == v
  }

  predicate RenamedBy(m: map<int, int>, vs: seq<Value>, ws: seq<Value>) {
    |vs| == |ws| && forall i :: 0 <= i < |vs| ==> RenamedValue(m, vs[i], ws[i])
  }

  /** The same values up to an injective renaming of node handles. */
  ghost predicate Alike(vs: seq<Value>, ws: seq<Value>) {
    exists m :: Injective(m) && RenamedBy(m, vs, ws)
  }

  lemma {:induction false} AlikeSelf(vs: seq<Value>)
    ensures Alike(vs, vs)
  {
    var m := map v | v in vs && v.Node? :: v.handle := v.handle;
    assert RenamedBy(m, vs, vs);
  }

  lemma {:induction false} AlikePrefix(vs: seq<Value>, ws: seq<Value>, k: nat)
    requires Alike(vs, ws) && k <= |vs|
    ensures |vs| == |ws| && Alike(vs[..k], ws[..k])
  {
    var m :| Injective(m) && RenamedBy(m, vs, ws);
    assert RenamedBy(m, vs[..k], ws[..k]);
  }

  /** Renamings compose. */
  lemma {:induction false} AlikeTrans(us: seq<Value>, vs: seq<Value>, ws: seq<Value>)
    requires Alike(us, vs) && Alike(vs, ws)
    ensures Alike(us, ws)
  {
    var m :| Injective(m) && RenamedBy(m, us, vs);
    var n :| Injective(n) && RenamedBy(n, vs, ws);
    var both := map h | h in m && m[h] in n :: n[m[h]];
    forall i | 0 <= i < |us|
      ensures RenamedValue(both, us[i], ws[i])
    {
      assert RenamedValue(m, us[i], vs[i]) && RenamedValue(n, vs[i], ws[i]);
    }
    assert RenamedBy(both, us, ws);
  }
}
