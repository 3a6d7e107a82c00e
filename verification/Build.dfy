/** What the compiler produces can be stored: writing a linked program to a file and loading it gives the
    program back. */
module Build {
  import opened Values
  import opened Bytecode
  import opened Source
  import opened Layout
  import opened Machine
  import opened Emission
  import opened Linking
  import opened Adequacy
  import opened Jumps
  import A = Aibc1

  lemma {:induction false} Widen(c: seq<Sym>, lo: nat, hi: nat, more: nat)
    requires OperandsIn(c, lo, hi) && hi <= more
    ensures OperandsIn(c, 0, more)
  {
    forall s | s in c
      ensures OperandIn(s, 0, more)
    {
      assert OperandIn(s, lo, hi);
    }
  }

  /** Every operand of a linked text is in range. */
  lemma {:induction false} TextOperands(fns: Functions, boot: seq<Sym>, order: seq<string>, hi: nat)
    requires forall f :: f in order ==> f in fns && FnOk(fns[f], fns)
    requires OperandsIn(boot, 0, hi) && |TextOf(fns, boot, order)| <= hi
    ensures OperandsIn(TextOf(fns, boot, order), 0, hi)
    decreases |order|
  {
    hide OperandsIn, GenFn, FnOk;
    if order != [] {
      var n := |order| - 1;
      var f, before := order[n], TextOf(fns, boot, order[..n]);
      TextOperands(fns, boot, order[..n], hi);
      FnJumps(fns[f], fns, |before|);
      Widen(GenFn(fns[f], |before|), |before|, |before| + FnSize(fns[f]), hi);
      JumpsAppend(before, GenFn(fns[f], |before|), 0, hi);
    }
  }

  lemma {:induction false} BootOperands(fn: FnDef, entry: string, hi: nat)
    ensures OperandsIn(Boot(fn, entry), 0, hi)
  {
  }

  /** An entry point lies inside the code. */
  lemma {:induction false} EntryInside(
    fns: Functions, entry: string, order: seq<string>, code: seq<Instr>, consts: seq<Value>, entries: map<string, nat>,
    f: string)
    requires LinkResult(fns, entry, order, code, consts, entries) && f in entries
    ensures entries[f] <= |code|
  {
    hide TextOf, GenFn, Reaches, FnOk;
    var k :| 0 <= k < |order| && order[k] == f;
    PlacedFn(fns, Boot(fns[entry], entry), order, code, consts, entries, k);
  }

  lemma {:induction false} NoData(consts: seq<Value>, stringBytes: nat)
    requires PoolOk(consts, stringBytes)
    ensures A.BytesTotal(consts) == 0
  {
    assert forall i :: 0 <= i < |consts| ==> !consts[i].Bytes?;
    NoBytes(consts);
  }

  lemma {:induction false} NoBytes(consts: seq<Value>)
    requires forall i :: 0 <= i < |consts| ==> !consts[i].Bytes?
    ensures A.BytesTotal(consts) == 0
  {
    if consts != [] {
      NoBytes(consts[1..]);
    }
  }

  /** A linked program is one the file format can carry. */
  lemma {:induction false} LinkedPortable(
    fns: Functions, entry: string, order: seq<string>, code: seq<Instr>, consts: seq<Value>, entries: map<string, nat>,
    stringBytes: nat)
    requires LinkResult(fns, entry, order, code, consts, entries)
    requires |code| == |TextOf(fns, Boot(fns[entry], entry), order)| <= MAX_INSTRUCTIONS && PoolOk(consts, stringBytes)
    ensures A.Portable(Program(code, consts)) && code != []
  {
    hide TextOf, Reaches, FnOk, GenFn, Tiled;
    var boot := Boot(fns[entry], entry);
    var text := TextOf(fns, boot, order);
    BootOperands(fns[entry], entry, MAX_INSTRUCTIONS);
    TextOperands(fns, boot, order, MAX_INSTRUCTIONS);
    BootPlaced(fns, boot, order, code, consts, entries);
    forall k | 0 <= k < |code|
      ensures IsInt64(code[k].arg)
    {
      assert Realizes(code[0 + k], text[k], consts, entries);
      assert OperandIn(text[k], 0, MAX_INSTRUCTIONS);
      match text[k]
      case CallOf(f) => EntryInside(fns, entry, order, code, consts, entries, f);
      case _ =>
    }
    NoData(consts, stringBytes);
  }
}
