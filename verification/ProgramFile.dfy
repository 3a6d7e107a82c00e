/** The AiBC1 writer and loader as loops over program storage, proved against Aibc1.dfy. */
module ProgramFile {
  import opened Values
  import opened Bytecode
  import opened Machine
  import opened Aibc1

  datatype Report = Fine | Error(status: LoadStatus, offset: nat)

  /** The report that goes with a load result. */
  predicate Reports(r: Report, spec: LoadResult) {
    match spec
    case Loaded(_) => r == Fine
    case Rejected(status, offset) => r == Error(status, offset)
  }

  // ---------- writer ----------

  /** write_program_as_aibc1, on a growing file. */
  method WriteProgram(p: Program) returns (ok: bool, file: seq<byte>)
    requires IsProgram(p)
    ensures ok <==> Accepted(p)
    ensures ok ==> file == FileOf(p)
  {
    file := [];
    if p.code == [] {
      return false, file;
    }
    var size;
    ok, size := PoolSizeField(p.consts);
    if !ok || |p.code| > (U32 - 5) / 12 {
      return false, file;
    }
    file := Header(if p.consts == [] then 1 else 2);
    file := WriteCode(file, p.code);
    if p.consts != [] {
      file := WritePool(file, p.consts, size);
    }
  }

  /** The constants section's size, in 32 bits. */
  method PoolSizeField(consts: seq<Value>) returns (ok: bool, size: nat)
    requires forall i :: 0 <= i < |consts| ==> IsValue(consts[i])
    ensures ok <==> forall i :: 0 <= i < |consts| ==> LengthOk(consts[i])
    ensures ok ==> size == (4 + |PoolBytes(consts)|) % U32
  {
    hide Wrap, ConstBytes;
    size := 4;
    var i := 0;
    assert consts[0..] == consts;
    WrapIs(4);
    while i < |consts|
      invariant 0 <= i <= |consts|
      invariant forall j :: 0 <= j < i ==> LengthOk(consts[j])
      invariant Wrap(4 + |PoolBytes(consts)|) == Wrap(size + |PoolBytes(consts[i..])|) && Wrap(size) == size
    {
      var v := consts[i];
      if !LengthOk(v) {
        return false, size;
      }
      assert consts[i..][1..] == consts[i + 1..];
      var more := ConstSize(v);
      WrapAdd(size, more, |PoolBytes(consts[i + 1..])|);
      size := Wrap(size + more);
      i := i + 1;
    }
    assert PoolBytes(consts[|consts|..]) == [];
    WrapIs(4 + |PoolBytes(consts)|);
    ok := true;
  }

  function ConstSize(v: Value): (n: nat)
    requires IsValue(v)
    ensures n == |ConstBytes(v)|
  {
    match v
    case Int(_) => 9
    case Bool(_) => 2
    case Str(s) => 5 + |s|
    case Bytes(data) => 5 + |data|
    case _ => 1
  }

  /** Arithmetic on a uint32_t. */
  function Wrap(n: nat): nat {
    n % U32
  }

  lemma {:induction false} WrapIs(n: nat)
    ensures Wrap(n) == n % U32
  {
  }

  lemma {:induction false} WrapAdd(a: nat, b: nat, c: nat)
    ensures Wrap(Wrap(a + b) + c) == Wrap(a + (b + c)) && Wrap(Wrap(a + b)) == Wrap(a + b)
  {
    var q := (a + b) / U32;
    WrapMultiple((a + b) % U32 + c, q);
  }

  lemma {:induction false} WrapMultiple(x: nat, q: nat)
    ensures (q * U32 + x) % U32 == x % U32
    decreases q
  {
    if q != 0 {
      WrapMultiple(x, q - 1);
    }
  }

  method WriteCode(before: seq<byte>, code: seq<Instr>) returns (file: seq<byte>)
    requires forall i :: 0 <= i < |code| ==> IsInt64(code[i].arg)
    ensures file == before + CodeSection(code)
  {
    hide InstrBytes, WordBytes;
    file := before + WordBytes(1) + WordBytes(4 + 12 * |code|) + WordBytes(|code|);
    ghost var head := file;
    var i := 0;
    assert code[0..] == code;
    while i < |code|
      invariant 0 <= i <= |code| && head + CodeBytes(code) == file + CodeBytes(code[i..])
    {
      assert code[i..][1..] == code[i + 1..];
      file := file + InstrBytes(code[i]);
      i := i + 1;
    }
    assert CodeBytes(code[|code|..]) == [] && file + [] == file;
    assert before + CodeSection(code) == head + CodeBytes(code);
  }

  method WritePool(before: seq<byte>, consts: seq<Value>, size: nat) returns (file: seq<byte>)
    requires forall i :: 0 <= i < |consts| ==> IsValue(consts[i])
    requires size == (4 + |PoolBytes(consts)|) % U32
    ensures file == before + PoolSection(consts)
  {
    hide ConstBytes, WordBytes;
    file := before + WordBytes(2) + WordBytes(size) + WordBytes(|consts|);
    ghost var head := file;
    var i := 0;
    assert consts[0..] == consts;
    while i < |consts|
      invariant 0 <= i <= |consts| && head + PoolBytes(consts) == file + PoolBytes(consts[i..])
    {
      assert consts[i..][1..] == consts[i + 1..];
      file := file + ConstBytes(consts[i]);
      i := i + 1;
    }
    assert PoolBytes(consts[|consts|..]) == [] && file + [] == file;
    assert before + PoolSection(consts) == head + PoolBytes(consts);
  }

  // ---------- loader ----------

  class ProgramStore {
    const code: array<Instr>
    const consts: array<Value>
    var codeCount: nat
    var constCount: nat
    var stringUsed: nat
    var bytesUsed: nat

    ghost predicate Valid()
      reads this`codeCount, this`constCount
    {
      && code.Length == MAX_INSTRUCTIONS && consts.Length == MAX_CONSTANTS
      && codeCount <= MAX_INSTRUCTIONS && constCount <= MAX_CONSTANTS
    }

    ghost function Abs(hasCode: bool, hasPool: bool): Loading
      requires Valid()
      reads this, code, consts
    {
      Loading(Program(code[..codeCount], consts[..constCount]), stringUsed, bytesUsed, hasCode, hasPool)
    }

    constructor ()
      ensures Valid() && fresh(code) && fresh(consts)
    {
      code := new Instr[MAX_INSTRUCTIONS](_ => Instr(NOP, 0));
      consts := new Value[MAX_CONSTANTS](_ => Void);
      codeCount, constCount, stringUsed, bytesUsed := 0, 0, 0, 0;
    }

    /** aivm_program_load_aibc1 */
    method LoadFile(b: array<byte>) returns (r: Report)
      requires Valid()
      modifies this, code, consts
      ensures Valid() && Reports(r, Aibc1.Load(b[..]))
      ensures r == Fine ==> exists hasCode, hasPool :: Aibc1.Load(b[..]) == Loaded(Abs(hasCode, hasPool))
    {
      hide LoadSections, LoadSection;
      codeCount, constCount, stringUsed, bytesUsed := 0, 0, 0, 0;
      if b.Length < 16 {
        return Error(Truncated, b.Length);
      }
      if b[0] != 0x41 || b[1] != 0x49 || b[2] != 0x42 || b[3] != 0x43 {
        return Error(BadMagic, 0);
      }
      assert b[..][..4] == [0x41, 0x49, 0x42, 0x43];
      var version := Word(b, 4);
      if version != 2 {
        return Error(Unsupported, 4);
      }
      var sections := Word(b, 12);
      if sections > MAX_SECTIONS {
        return Error(SectionLimit, 12);
      }
      assert code[..0] == [] && consts[..0] == [];
      assert Abs(false, false) == NOTHING;
      r := LoadAll(b, sections);
    }

    method Word(b: array<byte>, at: nat) returns (n: nat)
      requires at + 4 <= b.Length
      ensures n == ReadWord(b[..], at)
    {
      n := b[at] as nat + 0x100 * (b[at + 1] as nat) + 0x1_0000 * (b[at + 2] as nat) + 0x100_0000 * (b[at + 3] as nat);
    }

    method Long(b: array<byte>, at: nat) returns (v: int)
      requires at + 8 <= b.Length
      ensures v == ReadLong(b[..], at)
    {
      var low := Word(b, at);
      var high := Word(b, at + 4);
      v := low + U32 * high;
      if v >= U64 / 2 {
        v := v - U64;
      }
    }

    method LoadAll(b: array<byte>, sections: nat) returns (r: Report)
      requires Valid() && b.Length >= 16 && Abs(false, false) == NOTHING
      modifies this, code, consts
      ensures Valid() && Reports(r, LoadSections(b[..], 16, sections, NOTHING))
      ensures r == Fine ==> exists hasCode, hasPool ::
        LoadSections(b[..], 16, sections, NOTHING) == Loaded(Abs(hasCode, hasPool))
    {
      hide LoadSection;
      var cursor: nat, i: nat := 16, 0;
      var hasCode, hasPool := false, false;
      while i < sections
        invariant 0 <= i <= sections && cursor <= b.Length && Valid()
        invariant LoadSections(b[..], 16, sections, NOTHING) ==
          LoadSections(b[..], cursor, sections - i, Abs(hasCode, hasPool))
      {
        if cursor + 8 > b.Length {
          return Error(Truncated, cursor);
        }
        var kind := Word(b, cursor);
        var size := Word(b, cursor + 4);
        var start := cursor + 8;
        if start + size > b.Length {
          return Error(SectionOob, start);
        }
        r, hasCode, hasPool := LoadOne(b, kind, start, start + size, hasCode, hasPool);
        if r != Fine {
          return;
        }
        cursor := start + size;
        i := i + 1;
      }
      assert LoadSections(b[..], cursor, 0, Abs(hasCode, hasPool)) == Loaded(Abs(hasCode, hasPool));
      r := Fine;
    }

    /** One section.  A second section of a known kind is an error, unknown kinds are skipped. */
    method LoadOne(b: array<byte>, kind: nat, at: nat, end: nat, hasCode: bool, hasPool: bool)
      returns (r: Report, hadCode: bool, hadPool: bool)
      requires Valid() && at <= end <= b.Length
      modifies this, code, consts
      ensures Valid() && Reports(r, LoadSection(b[..], kind, at, end, old(Abs(hasCode, hasPool))))
      ensures r == Fine ==>
        LoadSection(b[..], kind, at, end, old(Abs(hasCode, hasPool))) == Loaded(Abs(hadCode, hadPool))
    {
      hide LoadCode, LoadPool;
      hadCode, hadPool, r := hasCode, hasPool, Fine;
      if kind == 1 {
        if hasCode || end - at < 4 {
          return Error(InvalidSection, at), hadCode, hadPool;
        }
        hadCode := true;
        var n := Word(b, at);
        if n > MAX_INSTRUCTIONS {
          return Error(InstructionLimit, at), hadCode, hadPool;
        }
        if end - at != 4 + 12 * n {
          return Error(InvalidSection, at), hadCode, hadPool;
        }
        r := LoadInstructions(b, at + 4, n, hadPool);
      } else if kind == 2 {
        if hasPool || end - at < 4 {
          return Error(InvalidSection, at), hadCode, hadPool;
        }
        hadPool := true;
        var n := Word(b, at);
        if n > MAX_CONSTANTS {
          return Error(ConstantLimit, at), hadCode, hadPool;
        }
        r := LoadConstants(b, at + 4, end, n, hadCode);
      }
    }

    method LoadInstructions(b: array<byte>, at: nat, n: nat, hasPool: bool) returns (r: Report)
      requires Valid() && at + 12 * n <= b.Length && n <= MAX_INSTRUCTIONS
      modifies this`codeCount, code
      ensures Valid() && Reports(r, LoadCode(b[..], at, n, [], old(Abs(true, hasPool))))
      ensures r == Fine ==> LoadCode(b[..], at, n, [], old(Abs(true, hasPool))) == Loaded(Abs(true, hasPool))
    {
      hide ReadWord, ReadLong, FromNumber;
      var i: nat, cursor: nat := 0, at;
      ghost var l := Abs(true, hasPool);
      assert code[..0] == [];
      while i < n
        invariant 0 <= i <= n && cursor == at + 12 * i && Valid() && codeCount == old(codeCount)
        invariant LoadCode(b[..], at, n, [], l) == LoadCode(b[..], cursor, n - i, code[..i], l)
      {
        var raw := Word(b, cursor);
        var operand := Long(b, cursor + 4);
        if raw >= OPCODE_COUNT {
          return Error(BadOpcode, cursor);
        }
        ghost var before := code[..i];
        code[i] := Instr(FromNumber(raw), operand);
        assert code[..i + 1] == before + [Instr(FromNumber(raw), operand)];
        cursor := cursor + 12;
        i := i + 1;
      }
      codeCount := n;
      r := Fine;
    }

    method LoadConstants(b: array<byte>, at: nat, end: nat, n: nat, hasCode: bool) returns (r: Report)
      requires Valid() && at <= end <= b.Length && n <= MAX_CONSTANTS
      modifies this`constCount, this`stringUsed, this`bytesUsed, consts
      ensures Valid() && Reports(r, LoadPool(b[..], at, end, n, [], old(Abs(hasCode, true))))
      ensures r == Fine ==> LoadPool(b[..], at, end, n, [], old(Abs(hasCode, true))) == Loaded(Abs(hasCode, true))
    {
      hide LoadConst;
      var i: nat, cursor: nat := 0, at;
      ghost var l := Abs(hasCode, true);
      assert consts[..0] == [];
      while i < n
        invariant 0 <= i <= n && cursor <= end && Valid() && constCount == old(constCount)
        invariant LoadPool(b[..], at, end, n, [], l) ==
          LoadPool(b[..], cursor, end, n - i, consts[..i], l.(stringUsed := stringUsed, bytesUsed := bytesUsed))
      {
        var v, next;
        r, v, next := LoadConstant(b, cursor, end);
        if r != Fine {
          return;
        }
        ghost var before := consts[..i];
        consts[i] := v;
        assert consts[..i + 1] == before + [v];
        cursor := next;
        i := i + 1;
      }
      if cursor != end {
        return Error(InvalidSection, cursor);
      }
      constCount := n;
      r := Fine;
    }

    method LoadConstant(b: array<byte>, at: nat, end: nat) returns (r: Report, v: Value, next: nat)
      requires at <= end <= b.Length
      modifies this`stringUsed, this`bytesUsed
      ensures match LoadConst(b[..], at, end, old(stringUsed), old(bytesUsed))
        case Bad(status, offset) => r == Error(status, offset)
        case Got(w, after, su, bu) => r == Fine && v == w && next == after && stringUsed == su && bytesUsed == bu
    {
      hide ReadWord, ReadLong, CString;
      r, v, next := Fine, Void, at;
      if at >= end {
        r := Error(InvalidSection, at);
        return;
      }
      var kind := b[at];
      var c := at + 1;
      if kind == 1 {
        if c + 8 > end {
          r := Error(InvalidSection, c);
          return;
        }
        var n := Long(b, c);
        v, next := Int(n), c + 8;
      } else if kind == 2 {
        if c + 1 > end {
          r := Error(InvalidSection, c);
          return;
        }
        v, next := Bool(b[c] != 0), c + 1;
      } else if kind == 6 {
        v, next := Null, c;
      } else if kind == 3 || kind == 5 {
        if c + 4 > end {
          r := Error(InvalidSection, c);
          return;
        }
        var n := Word(b, c);
        r, v, next := LoadBlob(b, kind == 3, c + 4, n, end);
      } else if kind == 4 {
        v, next := Void, c;
      } else {
        r := Error(InvalidConstant, at);
      }
    }

    method LoadBlob(b: array<byte>, isString: bool, at: nat, n: nat, end: nat) returns (r: Report, v: Value, next: nat)
      requires at <= end <= b.Length
      modifies this`stringUsed, this`bytesUsed
      ensures match LoadText(b[..], isString, at, n, end, old(stringUsed), old(bytesUsed))
        case Bad(status, offset) => r == Error(status, offset)
        case Got(w, after, su, bu) => r == Fine && v == w && next == after && stringUsed == su && bytesUsed == bu
    {
      hide CString;
      r, v, next := Fine, Void, at;
      if at + n > end {
        r := Error(InvalidSection, at);
        return;
      }
      assert b[..][at..at + n] == b[at..at + n];
      if isString {
        if stringUsed + n + 1 > MAX_STRING_BYTES {
          r := Error(StringLimit, at);
          return;
        }
        var s := ReadCString(b, at, n);
        stringUsed := stringUsed + n + 1;
        v := Str(s);
      } else {
        if bytesUsed + n > MAX_BYTES_STORAGE {
          r := Error(StringLimit, at);
          return;
        }
        bytesUsed := bytesUsed + n;
        v := Bytes(b[at..at + n]);
      }
      next := at + n;
    }

    /** The C string that `n` stored bytes and a terminator make. */
    method ReadCString(b: array<byte>, at: nat, n: nat) returns (s: string)
      requires at + n <= b.Length
      ensures s == CString(b[at..at + n])
    {
      s := [];
      var i := 0;
      while i < n && b[at + i] != 0
        invariant 0 <= i <= n
        invariant CString(b[at..at + n]) == s + CString(b[at + i..at + n])
      {
        assert b[at + i..at + n][1..] == b[at + i + 1..at + n];
        s := s + [b[at + i] as char];
        i := i + 1;
      }
      assert CString(b[at + i..at + n]) == [];
    }
  }
}
