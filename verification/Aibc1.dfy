/** The AiBC1 container: what the writer puts in a file and what the checked loader makes of any input. */
module Aibc1 {
  import opened Values
  import opened Bytecode
  import opened Machine

  const MAX_SECTIONS := 32
  const U32 := 0x1_0000_0000
  const U64 := 0x1_0000_0000_0000_0000

  // ---------- numbers ----------

  function WordBytes(n: nat): (b: seq<byte>)
    ensures |b| == 4
  {
    [(n % 0x100) as byte, (n / 0x100 % 0x100) as byte, (n / 0x1_0000 % 0x100) as byte, (n / 0x100_0000 % 0x100) as byte]
  }

  /** Two's complement. */
  function Unsigned(v: int): (u: nat)
    requires IsInt64(v)
    ensures u < U64
  {
    if v < 0 then v + U64 else v
  }

  function LongBytes(v: int): (b: seq<byte>)
    requires IsInt64(v)
    ensures |b| == 8
  {
    WordBytes(Unsigned(v) % U32) + WordBytes(Unsigned(v) / U32)
  }

  function ReadWord(b: seq<byte>, at: nat): (n: nat)
    requires at + 4 <= |b|
    ensures n < U32
  {
    b[at] as nat + 0x100 * (b[at + 1] as nat) + 0x1_0000 * (b[at + 2] as nat) + 0x100_0000 * (b[at + 3] as nat)
  }

  function ReadLong(b: seq<byte>, at: nat): (v: int)
    requires at + 8 <= |b|
    ensures IsInt64(v)
  {
    var u := ReadWord(b, at) + U32 * ReadWord(b, at + 4);
    if u >= U64 / 2 then u - U64 else u
  }

  // ---------- opcodes ----------

  const OPCODE_COUNT := 50

  function FromNumber(n: nat): Opcode
    requires n < OPCODE_COUNT
  {
    match n
    case 0 => NOP case 1 => HALT case 2 => STUB case 3 => PUSH_INT case 4 => POP case 5 => STORE_LOCAL
    case 6 => LOAD_LOCAL case 7 => ADD_INT case 8 => JUMP case 9 => JUMP_IF_FALSE case 10 => PUSH_BOOL
    case 11 => CALL case 12 => RET case 13 => EQ_INT case 14 => EQ case 15 => CONST case 16 => STR_CONCAT
    case 17 => TO_STRING case 18 => STR_ESCAPE case 19 => RETURN case 20 => STR_SUBSTRING case 21 => STR_REMOVE
    case 22 => CALL_SYS case 23 => ASYNC_CALL case 24 => ASYNC_CALL_SYS case 25 => AWAIT case 26 => PAR_BEGIN
    case 27 => PAR_FORK case 28 => PAR_JOIN case 29 => PAR_CANCEL case 30 => STR_UTF8_BYTE_COUNT
    case 31 => NODE_KIND case 32 => NODE_ID case 33 => ATTR_COUNT case 34 => ATTR_KEY
    case 35 => ATTR_VALUE_KIND case 36 => ATTR_VALUE_STRING case 37 => ATTR_VALUE_INT
    case 38 => ATTR_VALUE_BOOL case 39 => CHILD_COUNT case 40 => CHILD_AT case 41 => MAKE_BLOCK
    case 42 => APPEND_CHILD case 43 => MAKE_ERR case 44 => MAKE_LIT_STRING case 45 => MAKE_LIT_INT
    case 46 => MAKE_LIT_BOOL case 47 => MAKE_NODE case 48 => MAKE_FIELD_STRING case _ => MAKE_MAP
  }

  function Number(op: Opcode): (n: nat)
    ensures n < OPCODE_COUNT && FromNumber(n) == op
  {
    match op
    case NOP => 0 case HALT => 1 case STUB => 2 case PUSH_INT => 3 case POP => 4
    case STORE_LOCAL => 5 case LOAD_LOCAL => 6 case ADD_INT => 7 case JUMP => 8 case JUMP_IF_FALSE => 9
    case PUSH_BOOL => 10 case CALL => 11 case RET => 12 case EQ_INT => 13 case EQ => 14
    case CONST => 15 case STR_CONCAT => 16 case TO_STRING => 17 case STR_ESCAPE => 18 case RETURN => 19
    case STR_SUBSTRING => 20 case STR_REMOVE => 21 case CALL_SYS => 22 case ASYNC_CALL => 23
    case ASYNC_CALL_SYS => 24 case AWAIT => 25 case PAR_BEGIN => 26 case PAR_FORK => 27 case PAR_JOIN => 28
    case PAR_CANCEL => 29 case STR_UTF8_BYTE_COUNT => 30 case NODE_KIND => 31 case NODE_ID => 32
    case ATTR_COUNT => 33 case ATTR_KEY => 34 case ATTR_VALUE_KIND => 35 case ATTR_VALUE_STRING => 36
    case ATTR_VALUE_INT => 37 case ATTR_VALUE_BOOL => 38 case CHILD_COUNT => 39 case CHILD_AT => 40
    case MAKE_BLOCK => 41 case APPEND_CHILD => 42 case MAKE_ERR => 43 case MAKE_LIT_STRING => 44
    case MAKE_LIT_INT => 45 case MAKE_LIT_BOOL => 46 case MAKE_NODE => 47 case MAKE_FIELD_STRING => 48
    case MAKE_MAP => 49
  }

  // ---------- writing ----------

  function TextBytes(s: string): (b: seq<byte>)
    requires IsText(s)
    ensures |b| == |s|
  {
    seq(|s|, i requires 0 <= i < |s| => (s[i] as int) as byte)
  }

  /** Values as the C runtime holds them. */
  predicate IsValue(v: Value) {
    match v
    case Int(n) => IsInt64(n)
    case Str(s) => IsText(s)
    case _ => true
  }

  predicate IsProgram(p: Program) {
    && (forall i :: 0 <= i < |p.code| ==> IsInt64(p.code[i].arg))
    && (forall i :: 0 <= i < |p.consts| ==> IsValue(p.consts[i]))
  }

  function InstrBytes(i: Instr): (b: seq<byte>)
    requires IsInt64(i.arg)
    ensures |b| == 12
  {
    WordBytes(Number(i.op)) + LongBytes(i.arg)
  }

  /** Any other kind of value is written as void. */
  function ConstBytes(v: Value): (b: seq<byte>)
    requires IsValue(v)
    ensures |b| >= 1
  {
    match v
    case Int(n) => [1] + LongBytes(n)
    case Bool(x) => [2, if x then 1 else 0]
    case Null => [6]
    case Str(s) => [3] + WordBytes(|s|) + TextBytes(s)
    case Bytes(data) => [5] + WordBytes(|data|) + data
    case _ => [4]
  }

  function CodeBytes(code: seq<Instr>): (b: seq<byte>)
    requires forall i :: 0 <= i < |code| ==> IsInt64(code[i].arg)
    ensures |b| == 12 * |code|
  {
    if code == [] then [] else InstrBytes(code[0]) + CodeBytes(code[1..])
  }

  function PoolBytes(consts: seq<Value>): (b: seq<byte>)
    requires forall i :: 0 <= i < |consts| ==> IsValue(consts[i])
  {
    if consts == [] then [] else ConstBytes(consts[0]) + PoolBytes(consts[1..])
  }

  function Header(sections: nat): (b: seq<byte>)
    ensures |b| == 16
  {
    [0x41, 0x49, 0x42, 0x43] + WordBytes(2) + WordBytes(0) + WordBytes(sections)
  }

  function CodeSection(code: seq<Instr>): (b: seq<byte>)
    requires forall i :: 0 <= i < |code| ==> IsInt64(code[i].arg)
  {
    WordBytes(1) + WordBytes(4 + 12 * |code|) + WordBytes(|code|) + CodeBytes(code)
  }

  /** The size field is computed in 32 bits. */
  function PoolSection(consts: seq<Value>): (b: seq<byte>)
    requires forall i :: 0 <= i < |consts| ==> IsValue(consts[i])
  {
    WordBytes(2) + WordBytes((4 + |PoolBytes(consts)|) % U32) + WordBytes(|consts|) + PoolBytes(consts)
  }

  predicate LengthOk(v: Value) {
    match v
    case Str(s) => |s| < U32
    case Bytes(data) => |data| < U32
    case _ => true
  }

  /** The writer gives up on an empty program and on sizes its fields cannot hold. */
  predicate Accepted(p: Program) {
    && p.code != [] && |p.code| <= (U32 - 5) / 12
    && forall i :: 0 <= i < |p.consts| ==> LengthOk(p.consts[i])
  }

  /** write_program_as_aibc1 */
  function FileOf(p: Program): seq<byte>
    requires IsProgram(p)
  {
    if p.consts == [] then Header(1) + CodeSection(p.code)
    else Header(2) + CodeSection(p.code) + PoolSection(p.consts)
  }

  // ---------- loading ----------

  datatype LoadStatus =
    | Truncated | BadMagic | Unsupported | SectionOob | SectionLimit | InstructionLimit | InvalidSection
    | BadOpcode | ConstantLimit | InvalidConstant | StringLimit

  /** What has been loaded so far. */
  datatype Loading = Loading(
    p: Program, stringUsed: nat, bytesUsed: nat, hasCode: bool, hasPool: bool)

  datatype LoadResult = Loaded(l: Loading) | Rejected(status: LoadStatus, offset: nat)

  /** A C string ends at its first zero byte. */
  function CString(b: seq<byte>): (s: string)
    ensures IsText(s) && |s| <= |b|
  {
    if b == [] || b[0] == 0 then [] else [b[0] as char] + CString(b[1..])
  }

  function LoadCode(b: seq<byte>, at: nat, n: nat, done: seq<Instr>, l: Loading): (r: LoadResult)
    requires at + 12 * n <= |b|
    decreases n
  {
    if n == 0 then Loaded(l.(p := l.p.(code := done)))
    else if ReadWord(b, at) >= OPCODE_COUNT then Rejected(BadOpcode, at)
    else LoadCode(b, at + 12, n - 1, done + [Instr(FromNumber(ReadWord(b, at)), ReadLong(b, at + 4))], l)
  }

  datatype ConstResult = Got(v: Value, next: nat, stringUsed: nat, bytesUsed: nat) | Bad(status: LoadStatus, offset: nat)

  /** One constant of a section that ends at `end`. */
  function LoadConst(b: seq<byte>, at: nat, end: nat, stringUsed: nat, bytesUsed: nat): (r: ConstResult)
    requires end <= |b|
    ensures r.Got? ==> at < r.next <= end
    ensures r.Bad? ==> r.offset <= at || r.offset <= end
  {
    if at >= end then Bad(InvalidSection, at)
    else
      var c := at + 1;
      if b[at] == 1 then
        if c + 8 > end then Bad(InvalidSection, c) else Got(Int(ReadLong(b, c)), c + 8, stringUsed, bytesUsed)
      else if b[at] == 2 then
        if c + 1 > end then Bad(InvalidSection, c) else Got(Bool(b[c] != 0), c + 1, stringUsed, bytesUsed)
      else if b[at] == 6 then Got(Null, c, stringUsed, bytesUsed)
      else if b[at] == 3 || b[at] == 5 then
        if c + 4 > end then Bad(InvalidSection, c)
        else LoadText(b, b[at] == 3, c + 4, ReadWord(b, c), end, stringUsed, bytesUsed)
      else if b[at] == 4 then Got(Void, c, stringUsed, bytesUsed)
      else Bad(InvalidConstant, at)
  }

  function LoadText(
    b: seq<byte>, isString: bool, at: nat, n: nat, end: nat, stringUsed: nat, bytesUsed: nat): (r: ConstResult)
    requires at <= end <= |b|
    ensures r.Got? ==> at <= r.next <= end
    ensures r.Bad? ==> r.offset <= end
  {
    if at + n > end then Bad(InvalidSection, at)
    else if isString then
      if stringUsed + n + 1 > MAX_STRING_BYTES then Bad(StringLimit, at)
      else Got(Str(CString(b[at..at + n])), at + n, stringUsed + n + 1, bytesUsed)
    else
      if bytesUsed + n > MAX_BYTES_STORAGE then Bad(StringLimit, at)
      else Got(Bytes(b[at..at + n]), at + n, stringUsed, bytesUsed + n)
  }

  function LoadPool(b: seq<byte>, at: nat, end: nat, n: nat, done: seq<Value>, l: Loading): (r: LoadResult)
    requires end <= |b|
    decreases n
  {
    if n == 0 then
      if at != end then Rejected(InvalidSection, at) else Loaded(l.(p := l.p.(consts := done)))
    else
      match LoadConst(b, at, end, l.stringUsed, l.bytesUsed)
      case Bad(status, offset) => Rejected(status, offset)
      case Got(v, next, su, bu) => LoadPool(b, next, end, n - 1, done + [v], l.(stringUsed := su, bytesUsed := bu))
  }

  /** The payload of one section, from `at` to `end`. */
  function LoadSection(b: seq<byte>, kind: nat, at: nat, end: nat, l: Loading): (r: LoadResult)
    requires at <= end <= |b|
  {
    if kind == 1 then
      if l.hasCode || end - at < 4 then Rejected(InvalidSection, at)
      else
        var n := ReadWord(b, at);
        if n > MAX_INSTRUCTIONS then Rejected(InstructionLimit, at)
        else if end - at != 4 + 12 * n then Rejected(InvalidSection, at)
        else LoadCode(b, at + 4, n, [], l.(hasCode := true))
    else if kind == 2 then
      if l.hasPool || end - at < 4 then Rejected(InvalidSection, at)
      else
        var n := ReadWord(b, at);
        if n > MAX_CONSTANTS then Rejected(ConstantLimit, at)
        else LoadPool(b, at + 4, end, n, [], l.(hasPool := true))
    else Loaded(l)
  }

  function LoadSections(b: seq<byte>, at: nat, n: nat, l: Loading): (r: LoadResult)
    requires at <= |b|
    decreases n
  {
    if n == 0 then Loaded(l)
    else if at + 8 > |b| then Rejected(Truncated, at)
    else
      var start := at + 8;
      var end := start + ReadWord(b, at + 4);
      if end > |b| then Rejected(SectionOob, start)
      else
        match LoadSection(b, ReadWord(b, at), start, end, l)
        case Rejected(status, offset) => Rejected(status, offset)
        case Loaded(m) => LoadSections(b, end, n - 1, m)
  }

  const NOTHING := Loading(Program([], []), 0, 0, false, false)

  /** aivm_program_load_aibc1 */
  function Load(b: seq<byte>): LoadResult {
    if |b| < 16 then Rejected(Truncated, |b|)
    else if b[..4] != [0x41, 0x49, 0x42, 0x43] then Rejected(BadMagic, 0)
    else if ReadWord(b, 4) != 2 then Rejected(Unsupported, 4)
    else if ReadWord(b, 12) > MAX_SECTIONS then Rejected(SectionLimit, 12)
    else LoadSections(b, 16, ReadWord(b, 12), NOTHING)
  }

  // ---------- failures point into the input ----------

  lemma {:induction false} CodeOffset(b: seq<byte>, at: nat, n: nat, done: seq<Instr>, l: Loading)
    requires at + 12 * n <= |b|
    ensures LoadCode(b, at, n, done, l).Rejected? ==> LoadCode(b, at, n, done, l).offset <= |b|
    decreases n
  {
    if n != 0 && ReadWord(b, at) < OPCODE_COUNT {
      CodeOffset(b, at + 12, n - 1, done + [Instr(FromNumber(ReadWord(b, at)), ReadLong(b, at + 4))], l);
    }
  }

  lemma {:induction false} PoolOffset(b: seq<byte>, at: nat, end: nat, n: nat, done: seq<Value>, l: Loading)
    requires at <= end <= |b|
    ensures LoadPool(b, at, end, n, done, l).Rejected? ==> LoadPool(b, at, end, n, done, l).offset <= |b|
    decreases n
  {
    hide LoadConst;
    if n != 0 {
      match LoadConst(b, at, end, l.stringUsed, l.bytesUsed)
      case Bad(_, _) =>
      case Got(v, next, su, bu) => PoolOffset(b, next, end, n - 1, done + [v], l.(stringUsed := su, bytesUsed := bu));
    }
  }

  lemma {:induction false} SectionsOffset(b: seq<byte>, at: nat, n: nat, l: Loading)
    requires at <= |b|
    ensures LoadSections(b, at, n, l).Rejected? ==> LoadSections(b, at, n, l).offset <= |b|
    decreases n
  {
    hide LoadSection;
    if n != 0 && at + 8 <= |b| {
      var start := at + 8;
      var end := start + ReadWord(b, at + 4);
      if end <= |b| {
        SectionOffset(b, ReadWord(b, at), start, end, l);
        match LoadSection(b, ReadWord(b, at), start, end, l)
        case Rejected(_, _) =>
        case Loaded(m) => SectionsOffset(b, end, n - 1, m);
      }
    }
  }

  lemma {:induction false} SectionOffset(b: seq<byte>, kind: nat, at: nat, end: nat, l: Loading)
    requires at <= end <= |b|
    ensures LoadSection(b, kind, at, end, l).Rejected? ==> LoadSection(b, kind, at, end, l).offset <= |b|
  {
    hide LoadCode, LoadPool;
    if end - at >= 4 {
      var n := ReadWord(b, at);
      if end - at == 4 + 12 * n {
        CodeOffset(b, at + 4, n, [], l.(hasCode := true));
      }
      PoolOffset(b, at + 4, end, n, [], l.(hasPool := true));
    }
  }

  /** Whatever the input, a failed load reports an offset inside it or at its end. */
  lemma {:induction false} FailureInside(b: seq<byte>)
    ensures Load(b).Rejected? ==> Load(b).offset <= |b|
  {
    hide LoadSections;
    if |b| >= 16 {
      SectionsOffset(b, 16, ReadWord(b, 12), NOTHING);
    }
  }

  // ---------- what is loaded is what is there ----------

  lemma {:induction false} LongBack(b: seq<byte>, at: nat)
    requires at + 8 <= |b|
    ensures LongBytes(ReadLong(b, at)) == b[at..at + 8]
  {
    hide ReadWord, WordBytes;
    WordBytesBack(b, at);
    WordBytesBack(b, at + 4);
    var lo, hi := ReadWord(b, at), ReadWord(b, at + 4);
    assert Unsigned(ReadLong(b, at)) == lo + U32 * hi;
    assert (lo + U32 * hi) % U32 == lo && (lo + U32 * hi) / U32 == hi;
    assert b[at..at + 4] + b[at + 4..at + 8] == b[at..at + 8];
  }

  /** Four bytes are the bytes of the number they are read as. */
  lemma {:induction false} WordBytesBack(b: seq<byte>, at: nat)
    requires at + 4 <= |b|
    ensures WordBytes(ReadWord(b, at)) == b[at..at + 4]
  {
    var n := ReadWord(b, at);
    var w0, w1, w2, w3 := b[at] as nat, b[at + 1] as nat, b[at + 2] as nat, b[at + 3] as nat;
    Digits4(w0, w1, w2, w3);
    assert WordBytes(n) == [w0 as byte, w1 as byte, w2 as byte, w3 as byte];
  }

  lemma {:induction false} Digits4(w0: nat, w1: nat, w2: nat, w3: nat)
    requires w0 < 0x100 && w1 < 0x100 && w2 < 0x100 && w3 < 0x100
    ensures var n := w0 + 0x100 * w1 + 0x1_0000 * w2 + 0x100_0000 * w3;
      n % 0x100 == w0 && n / 0x100 % 0x100 == w1 && n / 0x1_0000 % 0x100 == w2 && n / 0x100_0000 % 0x100 == w3
  {
    var n := w0 + 0x100 * w1 + 0x1_0000 * w2 + 0x100_0000 * w3;
    assert n / 0x100 == w1 + 0x100 * w2 + 0x1_0000 * w3;
    assert n / 0x1_0000 == w2 + 0x100 * w3;
    assert n / 0x100_0000 == w3;
  }

  lemma {:induction false} OpcodeBack(n: nat)
    requires n < OPCODE_COUNT
    ensures Number(FromNumber(n)) == n
  {
    hide FromNumber, Number;
    if n < 25 {
      LowOpcodeBack(n);
    } else {
      HighOpcodeBack(n);
    }
  }

  lemma {:induction false} LowOpcodeBack(n: nat)
    requires n < 25
    ensures Number(FromNumber(n)) == n
  {
  }

  lemma {:induction false} HighOpcodeBack(n: nat)
    requires 25 <= n < OPCODE_COUNT
    ensures Number(FromNumber(n)) == n
  {
  }

  /** Instructions are loaded exactly as they lie in the file. */
  lemma {:induction false} CodeBack(b: seq<byte>, at: nat, n: nat, done: seq<Instr>, l: Loading)
    requires at + 12 * n <= |b|
    ensures var r := LoadCode(b, at, n, done, l);
      r.Loaded? ==>
        && |r.l.p.code| == |done| + n && r.l.p.code[..|done|] == done
        && (forall i :: |done| <= i < |r.l.p.code| ==> IsInt64(r.l.p.code[i].arg))
        && CodeBytes(r.l.p.code[|done|..]) == b[at..at + 12 * n]
    decreases n
  {
    hide ReadWord, ReadLong, WordBytes, LongBytes, FromNumber, Number;
    var r := LoadCode(b, at, n, done, l);
    if r.Loaded? && n == 0 {
      assert done[|done|..] == [];
    } else if r.Loaded? {
      var i := Instr(FromNumber(ReadWord(b, at)), ReadLong(b, at + 4));
      CodeBack(b, at + 12, n - 1, done + [i], l);
      OpcodeBack(ReadWord(b, at));
      WordBytesBack(b, at);
      LongBack(b, at + 4);
      var code := r.l.p.code;
      assert InstrBytes(i) == b[at..at + 12];
      assert code[|done|] == (done + [i])[|done|] == code[..|done| + 1][|done|];
      assert code[..|done|] == code[..|done| + 1][..|done|];
      assert code[|done|..][1..] == code[|done| + 1..];
      assert b[at..at + 12] + b[at + 12..at + 12 * n] == b[at..at + 12 * n];
    }
  }

  /** The constant `v` lies in the file from `at` to `next`, except that any byte but 0 means true, and text ends at
      its first zero byte. */
  ghost predicate LiesAs(b: seq<byte>, at: nat, next: nat, v: Value)
    requires at < next <= |b|
  {
    IsValue(v) &&
    match v
    case Bool(x) => next == at + 2 && b[at] == 2 && (x <==> b[at + 1] != 0)
    case Str(t) => exists text :: b[at..next] == [3] + WordBytes(|text|) + text && UpToZero(text, t)
    case v => ConstBytes(v) == b[at..next]
  }

  /** A constant is loaded as it lies in the file. */
  lemma {:induction false} ConstBack(b: seq<byte>, at: nat, end: nat, stringUsed: nat, bytesUsed: nat)
    requires end <= |b| && LoadConst(b, at, end, stringUsed, bytesUsed).Got?
    ensures var r := LoadConst(b, at, end, stringUsed, bytesUsed); LiesAs(b, at, r.next, r.v)
  {
    hide ReadWord, ReadLong, WordBytes, LongBytes, CString, LiesAs, LoadText;
    var c := at + 1;
    if b[at] == 1 {
      IntBack(b, at);
    } else if b[at] == 3 || b[at] == 5 {
      TextBack(b, at, end, stringUsed, bytesUsed);
    } else {
      PlainBack(b, at, LoadConst(b, at, end, stringUsed, bytesUsed).next);
    }
  }

  lemma {:induction false} IntBack(b: seq<byte>, at: nat)
    requires at + 9 <= |b| && b[at] == 1
    ensures LiesAs(b, at, at + 9, Int(ReadLong(b, at + 1)))
  {
    hide ReadLong, LongBytes;
    LongBack(b, at + 1);
    assert b[at..at + 9] == [b[at]] + b[at + 1..at + 9];
  }

  lemma {:induction false} PlainBack(b: seq<byte>, at: nat, next: nat)
    requires at < next <= |b|
    ensures b[at] == 2 && next == at + 2 ==> LiesAs(b, at, next, Bool(b[at + 1] != 0))
    ensures b[at] == 6 && next == at + 1 ==> LiesAs(b, at, next, Null)
    ensures b[at] == 4 && next == at + 1 ==> LiesAs(b, at, next, Void)
  {
  }

  lemma {:induction false} TextBack(b: seq<byte>, at: nat, end: nat, stringUsed: nat, bytesUsed: nat)
    requires at + 5 <= end <= |b| && (b[at] == 3 || b[at] == 5)
    ensures var r := LoadText(b, b[at] == 3, at + 5, ReadWord(b, at + 1), end, stringUsed, bytesUsed);
      r.Got? ==> LiesAs(b, at, r.next, r.v)
  {
    hide ReadWord, CString, LiesAs;
    var n := ReadWord(b, at + 1);
    if at + 5 + n <= end {
      DataBack(b, at, n);
    }
  }

  lemma {:induction false} DataBack(b: seq<byte>, at: nat, n: nat)
    requires at + 5 + n <= |b| && n == ReadWord(b, at + 1)
    ensures var data := b[at + 5..at + 5 + n];
      && (b[at] == 3 ==> LiesAs(b, at, at + 5 + n, Str(CString(data))))
      && (b[at] == 5 ==> LiesAs(b, at, at + 5 + n, Bytes(data)))
  {
    hide ReadWord, WordBytes, CString, UpToZero;
    var data := b[at + 5..at + 5 + n];
    WordBytesBack(b, at + 1);
    ThreeParts(b, at, n);
    CutAtZero(data);
    if b[at] == 3 {
      assert b[at..at + 5 + n] == [3] + WordBytes(|data|) + data;
    }
  }

  lemma {:induction false} ThreeParts(b: seq<byte>, at: nat, n: nat)
    requires at + 5 + n <= |b|
    ensures b[at..at + 5 + n] == [b[at]] + b[at + 1..at + 5] + b[at + 5..at + 5 + n]
  {
  }

  /** `t` is the text in front of the first zero byte. */
  predicate UpToZero(data: seq<byte>, t: string) {
    && |t| <= |data| && (|t| < |data| ==> data[|t|] == 0)
    && forall i :: 0 <= i < |t| ==> data[i] != 0 && t[i] as int == data[i] as int
  }

  lemma {:induction false} CutAtZero(data: seq<byte>)
    ensures UpToZero(data, CString(data))
    decreases |data|
  {
    if data != [] && data[0] != 0 {
      CutAtZero(data[1..]);
    }
  }

  // ---------- what a failure says ----------

  /** The reported offset points at what the status complains of. */
  predicate Explains(b: seq<byte>, status: LoadStatus, at: nat) {
    match status
    case Truncated => (at == |b| && |b| < 16) || (16 <= at <= |b| && at + 8 > |b|)
    case BadMagic => at == 0 && |b| >= 16 && b[..4] != [0x41, 0x49, 0x42, 0x43]
    case Unsupported => at == 4 && |b| >= 16 && ReadWord(b, 4) != 2
    case SectionLimit => at == 12 && |b| >= 16 && ReadWord(b, 12) > 32
    case SectionOob => 24 <= at <= |b| && at + ReadWord(b, at - 4) > |b|
    case InstructionLimit => 24 <= at && at + 4 <= |b| && ReadWord(b, at - 8) == 1 && ReadWord(b, at) > 16384
    case ConstantLimit => 24 <= at && at + 4 <= |b| && ReadWord(b, at - 8) == 2 && ReadWord(b, at) > 1024
    case BadOpcode => 28 <= at && at + 12 <= |b| && ReadWord(b, at) >= 50
    case InvalidConstant => 28 <= at < |b| && (b[at] == 0 || b[at] > 6)
    case StringLimit => 33 <= at <= |b| && (b[at - 5] == 3 || b[at - 5] == 5) && at + ReadWord(b, at - 4) <= |b|
    case InvalidSection => 24 <= at <= |b|
  }

  lemma {:induction false} CodeMeans(b: seq<byte>, at: nat, n: nat, done: seq<Instr>, l: Loading)
    requires 28 <= at && at + 12 * n <= |b|
    ensures var r := LoadCode(b, at, n, done, l); r.Rejected? ==> r.status == BadOpcode && Explains(b, BadOpcode, r.offset)
    decreases n
  {
    hide ReadWord, ReadLong, FromNumber;
    if n != 0 && ReadWord(b, at) < OPCODE_COUNT {
      CodeMeans(b, at + 12, n - 1, done + [Instr(FromNumber(ReadWord(b, at)), ReadLong(b, at + 4))], l);
    }
  }

  lemma {:induction false} ConstMeans(b: seq<byte>, at: nat, end: nat, stringUsed: nat, bytesUsed: nat)
    requires 28 <= at <= end <= |b|
    ensures var r := LoadConst(b, at, end, stringUsed, bytesUsed);
      r.Bad? ==> r.status in {InvalidSection, InvalidConstant, StringLimit} && Explains(b, r.status, r.offset)
  {
    hide ReadWord, ReadLong, CString;
  }

  lemma {:induction false} PoolMeans(b: seq<byte>, at: nat, end: nat, n: nat, done: seq<Value>, l: Loading)
    requires 28 <= at <= end <= |b|
    ensures var r := LoadPool(b, at, end, n, done, l); r.Rejected? ==> Explains(b, r.status, r.offset)
    decreases n
  {
    hide LoadConst;
    if n != 0 {
      ConstMeans(b, at, end, l.stringUsed, l.bytesUsed);
      match LoadConst(b, at, end, l.stringUsed, l.bytesUsed)
      case Bad(_, _) =>
      case Got(v, next, su, bu) => PoolMeans(b, next, end, n - 1, done + [v], l.(stringUsed := su, bytesUsed := bu));
    }
  }

  lemma {:induction false} SectionMeans(b: seq<byte>, at: nat, end: nat, l: Loading)
    requires 24 <= at <= end <= |b|
    ensures var r := LoadSection(b, ReadWord(b, at - 8), at, end, l); r.Rejected? ==> Explains(b, r.status, r.offset)
  {
    hide LoadCode, LoadPool, ReadWord;
    if end - at >= 4 {
      var n := ReadWord(b, at);
      if end - at == 4 + 12 * n {
        CodeMeans(b, at + 4, n, [], l.(hasCode := true));
      }
      PoolMeans(b, at + 4, end, n, [], l.(hasPool := true));
    }
  }

  lemma {:induction false} SectionsMeans(b: seq<byte>, at: nat, n: nat, l: Loading)
    requires 16 <= at <= |b|
    ensures var r := LoadSections(b, at, n, l); r.Rejected? ==> Explains(b, r.status, r.offset)
    decreases n
  {
    hide LoadSection, ReadWord;
    if n != 0 && at + 8 <= |b| {
      var start := at + 8;
      var end := start + ReadWord(b, at + 4);
      if end <= |b| {
        SectionMeans(b, start, end, l);
        match LoadSection(b, ReadWord(b, at), start, end, l)
        case Rejected(_, _) =>
        case Loaded(m) => SectionsMeans(b, end, n - 1, m);
      }
    }
  }

  /** Whatever the input, the status and the offset of a failed load say what is wrong and where; and a header that
      is too short, of another kind or version, or announces too many sections is always refused. */
  lemma {:induction false} FailureMeans(b: seq<byte>)
    ensures Load(b).Rejected? ==> Explains(b, Load(b).status, Load(b).offset)
    ensures Load(b).Loaded? ==>
      |b| >= 16 && b[..4] == [0x41, 0x49, 0x42, 0x43] && ReadWord(b, 4) == 2 && ReadWord(b, 12) <= 32
  {
    hide LoadSections, ReadWord;
    if |b| >= 16 {
      SectionsMeans(b, 16, ReadWord(b, 12), NOTHING);
    }
  }

  // ---------- what is loaded is within the limits ----------

  function TextSize(v: Value): nat {
    match v case Str(s) => |s| + 1 case _ => 0
  }

  function DataSize(v: Value): nat {
    match v case Bytes(data) => |data| case _ => 0
  }

  function TextTotal(consts: seq<Value>): nat {
    if consts == [] then 0 else TextSize(consts[0]) + TextTotal(consts[1..])
  }

  function BytesTotal(consts: seq<Value>): nat {
    if consts == [] then 0 else DataSize(consts[0]) + BytesTotal(consts[1..])
  }

  /** Kinds of value that survive a file. */
  predicate IsConstant(v: Value) {
    IsValue(v) && !v.Node? && !v.Unknown?
  }

  /** Programs the format can carry. */
  predicate Portable(p: Program) {
    && |p.code| <= MAX_INSTRUCTIONS && |p.consts| <= MAX_CONSTANTS
    && (forall i :: 0 <= i < |p.code| ==> IsInt64(p.code[i].arg))
    && (forall i :: 0 <= i < |p.consts| ==> IsConstant(p.consts[i]))
    && TextTotal(p.consts) <= MAX_STRING_BYTES && BytesTotal(p.consts) <= MAX_BYTES_STORAGE
  }

  lemma {:induction false} TotalsSnoc(consts: seq<Value>, v: Value)
    ensures TextTotal(consts + [v]) == TextTotal(consts) + TextSize(v)
    ensures BytesTotal(consts + [v]) == BytesTotal(consts) + DataSize(v)
  {
    if consts == [] {
      assert (consts + [v])[1..] == [];
    } else {
      TotalsSnoc(consts[1..], v);
      assert (consts + [v])[1..] == consts[1..] + [v];
    }
  }

  /** A load in progress keeps within the limits. */
  predicate Fit(l: Loading) {
    Portable(l.p) && l.stringUsed <= MAX_STRING_BYTES && l.bytesUsed <= MAX_BYTES_STORAGE
  }

  lemma {:induction false} CodePortable(b: seq<byte>, at: nat, n: nat, done: seq<Instr>, l: Loading)
    requires at + 12 * n <= |b| && |done| + n <= MAX_INSTRUCTIONS && Fit(l)
    requires forall i :: 0 <= i < |done| ==> IsInt64(done[i].arg)
    ensures var r := LoadCode(b, at, n, done, l); r.Loaded? ==> Fit(r.l)
    decreases n
  {
    hide TextTotal, BytesTotal, ReadLong, IsConstant;
    if n != 0 && ReadWord(b, at) < OPCODE_COUNT {
      CodePortable(b, at + 12, n - 1, done + [Instr(FromNumber(ReadWord(b, at)), ReadLong(b, at + 4))], l);
    }
  }

  lemma {:induction false} ConstPortable(b: seq<byte>, at: nat, end: nat, stringUsed: nat, bytesUsed: nat)
    requires end <= |b| && stringUsed <= MAX_STRING_BYTES && bytesUsed <= MAX_BYTES_STORAGE
    ensures var r := LoadConst(b, at, end, stringUsed, bytesUsed);
      r.Got? ==>
        && IsConstant(r.v) && r.stringUsed <= MAX_STRING_BYTES && r.bytesUsed <= MAX_BYTES_STORAGE
        && stringUsed + TextSize(r.v) <= r.stringUsed && bytesUsed + DataSize(r.v) <= r.bytesUsed
  {
    hide CString, ReadLong, ReadWord;
  }

  lemma {:induction false} PoolPortable(b: seq<byte>, at: nat, end: nat, n: nat, done: seq<Value>, l: Loading)
    requires end <= |b| && |done| + n <= MAX_CONSTANTS && Fit(l)
    requires forall i :: 0 <= i < |done| ==> IsConstant(done[i])
    requires TextTotal(done) <= l.stringUsed && BytesTotal(done) <= l.bytesUsed
    ensures var r := LoadPool(b, at, end, n, done, l); r.Loaded? ==> Fit(r.l)
    decreases n
  {
    hide LoadConst, TextTotal, BytesTotal, IsConstant;
    if n != 0 {
      ConstPortable(b, at, end, l.stringUsed, l.bytesUsed);
      match LoadConst(b, at, end, l.stringUsed, l.bytesUsed)
      case Bad(_, _) =>
      case Got(v, next, su, bu) =>
        TotalsSnoc(done, v);
        PoolPortable(b, next, end, n - 1, done + [v], l.(stringUsed := su, bytesUsed := bu));
    }
  }

  lemma {:induction false} SectionsPortable(b: seq<byte>, at: nat, n: nat, l: Loading)
    requires at <= |b| && Fit(l)
    ensures var r := LoadSections(b, at, n, l); r.Loaded? ==> Fit(r.l)
    decreases n
  {
    hide LoadSection, Fit;
    if n != 0 && at + 8 <= |b| {
      var start := at + 8;
      var end := start + ReadWord(b, at + 4);
      if end <= |b| {
        SectionPortable(b, ReadWord(b, at), start, end, l);
        match LoadSection(b, ReadWord(b, at), start, end, l)
        case Rejected(_, _) =>
        case Loaded(m) => SectionsPortable(b, end, n - 1, m);
      }
    }
  }

  lemma {:induction false} SectionPortable(b: seq<byte>, kind: nat, at: nat, end: nat, l: Loading)
    requires at <= end <= |b| && Fit(l)
    ensures var r := LoadSection(b, kind, at, end, l); r.Loaded? ==> Fit(r.l)
  {
    hide LoadCode, LoadPool, Portable;
    if end - at >= 4 {
      var n := ReadWord(b, at);
      if n <= MAX_INSTRUCTIONS && end - at == 4 + 12 * n {
        CodePortable(b, at + 4, n, [], l.(hasCode := true));
      }
      if n <= MAX_CONSTANTS {
        PoolPortable(b, at + 4, end, n, [], l.(hasPool := true));
      }
    }
  }

  /** Every program the loader accepts is one the format can carry. */
  lemma {:induction false} LoadedPortable(b: seq<byte>)
    ensures Load(b).Loaded? ==> Portable(Load(b).l.p)
  {
    hide LoadSections;
    if |b| >= 16 {
      SectionsPortable(b, 16, ReadWord(b, 12), NOTHING);
    }
  }

  // ---------- round trip ----------

  /** `piece` lies in `b` at `at`. */
  predicate Lies(b: seq<byte>, at: nat, piece: seq<byte>) {
    at + |piece| <= |b| && b[at..at + |piece|] == piece
  }

  lemma {:induction false} LiesSplit(b: seq<byte>, at: nat, x: seq<byte>, y: seq<byte>)
    requires Lies(b, at, x + y)
    ensures Lies(b, at, x) && Lies(b, at + |x|, y)
  {
    var all := b[at..at + |x + y|];
    assert b[at..at + |x|] == all[..|x|] == x;
    assert b[at + |x|..at + |x| + |y|] == all[|x|..] == y;
  }

  lemma {:induction false} LiesSplit3(b: seq<byte>, at: nat, x: seq<byte>, y: seq<byte>, z: seq<byte>)
    requires Lies(b, at, x + y + z)
    ensures Lies(b, at, x) && Lies(b, at + |x|, y) && Lies(b, at + |x| + |y|, z)
  {
    hide Lies;
    LiesSplit(b, at, x + y, z);
    LiesSplit(b, at, x, y);
  }

  lemma {:induction false} LiesAt(b: seq<byte>, at: nat, piece: seq<byte>, i: nat)
    requires Lies(b, at, piece) && i < |piece|
    ensures b[at + i] == piece[i]
  {
    assert b[at..at + |piece|][i] == b[at + i];
  }

  lemma {:induction false} WordRound(b: seq<byte>, at: nat, n: nat)
    requires n < U32 && Lies(b, at, WordBytes(n))
    ensures ReadWord(b, at) == n
  {
    var w := WordBytes(n);
    LiesAt(b, at, w, 0);
    LiesAt(b, at, w, 1);
    LiesAt(b, at, w, 2);
    LiesAt(b, at, w, 3);
    assert n / 0x1_0000 == n / 0x100 / 0x100 && n / 0x100_0000 == n / 0x100 / 0x100 / 0x100;
  }

  lemma {:induction false} LongRound(b: seq<byte>, at: nat, v: int)
    requires IsInt64(v) && Lies(b, at, LongBytes(v))
    ensures ReadLong(b, at) == v
  {
    hide ReadWord, WordBytes;
    var u := Unsigned(v);
    LiesSplit(b, at, WordBytes(u % U32), WordBytes(u / U32));
    WordRound(b, at, u % U32);
    WordRound(b, at + 4, u / U32);
  }

  lemma {:induction false} CodeRound(b: seq<byte>, at: nat, code: seq<Instr>, done: seq<Instr>, l: Loading)
    requires forall i :: 0 <= i < |code| ==> IsInt64(code[i].arg)
    requires Lies(b, at, CodeBytes(code))
    ensures at + 12 * |code| <= |b| && LoadCode(b, at, |code|, done, l) == Loaded(l.(p := l.p.(code := done + code)))
    decreases |code|
  {
    hide ReadWord, ReadLong, WordBytes, LongBytes, Number;
    if code == [] {
      assert done + code == done;
    } else {
      var i := code[0];
      LiesSplit(b, at, InstrBytes(i), CodeBytes(code[1..]));
      LiesSplit(b, at, WordBytes(Number(i.op)), LongBytes(i.arg));
      WordRound(b, at, Number(i.op));
      LongRound(b, at + 4, i.arg);
      CodeRound(b, at + 12, code[1..], done + [i], l);
      assert done + [i] + code[1..] == done + code;
    }
  }

  lemma {:induction false} TextRound(s: string)
    requires IsText(s)
    ensures CString(TextBytes(s)) == s
  {
    if s != [] {
      TextRound(s[1..]);
      assert TextBytes(s)[1..] == TextBytes(s[1..]);
      assert [s[0]] + s[1..] == s;
    }
  }

  lemma {:induction false} ConstRound(b: seq<byte>, at: nat, end: nat, v: Value, stringUsed: nat, bytesUsed: nat)
    requires IsConstant(v) && Lies(b, at, ConstBytes(v)) && at + |ConstBytes(v)| <= end <= |b|
    requires stringUsed + TextSize(v) <= MAX_STRING_BYTES && bytesUsed + DataSize(v) <= MAX_BYTES_STORAGE
    ensures LoadConst(b, at, end, stringUsed, bytesUsed) ==
      Got(v, at + |ConstBytes(v)|, stringUsed + TextSize(v), bytesUsed + DataSize(v))
  {
    hide LoadConst, ConstBytes;
    match v
    case Int(_) => IntRound(b, at, end, v, stringUsed, bytesUsed);
    case Str(_) => StrRound(b, at, end, v, stringUsed, bytesUsed);
    case Bytes(_) => BytesRound(b, at, end, v, stringUsed, bytesUsed);
    case _ => SmallRound(b, at, end, v, stringUsed, bytesUsed);
  }

  lemma {:induction false} SmallRound(b: seq<byte>, at: nat, end: nat, v: Value, stringUsed: nat, bytesUsed: nat)
    requires (v.Bool? || v.Null? || v.Void?) && Lies(b, at, ConstBytes(v)) && at + |ConstBytes(v)| <= end <= |b|
    ensures LoadConst(b, at, end, stringUsed, bytesUsed) == Got(v, at + |ConstBytes(v)|, stringUsed, bytesUsed)
  {
    hide LoadText, ReadLong, ReadWord;
    LiesAt(b, at, ConstBytes(v), 0);
    if v.Bool? {
      LiesAt(b, at, ConstBytes(v), 1);
    }
  }

  lemma {:induction false} IntRound(b: seq<byte>, at: nat, end: nat, v: Value, stringUsed: nat, bytesUsed: nat)
    requires v.Int? && IsValue(v) && Lies(b, at, ConstBytes(v)) && at + |ConstBytes(v)| <= end <= |b|
    ensures LoadConst(b, at, end, stringUsed, bytesUsed) == Got(v, at + |ConstBytes(v)|, stringUsed, bytesUsed)
  {
    hide LoadText, ReadLong, ReadWord, LongBytes;
    LiesAt(b, at, ConstBytes(v), 0);
    LiesSplit(b, at, [1], LongBytes(v.n));
    LongRound(b, at + 1, v.n);
  }

  lemma {:induction false} StrRound(b: seq<byte>, at: nat, end: nat, v: Value, stringUsed: nat, bytesUsed: nat)
    requires v.Str? && IsValue(v) && Lies(b, at, ConstBytes(v)) && at + |ConstBytes(v)| <= end <= |b|
    requires stringUsed + |v.s| + 1 <= MAX_STRING_BYTES
    ensures LoadConst(b, at, end, stringUsed, bytesUsed) ==
      Got(v, at + |ConstBytes(v)|, stringUsed + |v.s| + 1, bytesUsed)
  {
    hide ReadLong, ReadWord, WordBytes, LoadText, IsText, Lies;
    LiesSplit3(b, at, [3], WordBytes(|v.s|), TextBytes(v.s));
    LiesAt(b, at, [3], 0);
    WordRound(b, at + 1, |v.s|);
    TextLoads(b, at + 5, v.s, end, stringUsed, bytesUsed);
  }

  lemma {:induction false} BytesRound(b: seq<byte>, at: nat, end: nat, v: Value, stringUsed: nat, bytesUsed: nat)
    requires v.Bytes? && Lies(b, at, ConstBytes(v)) && at + |ConstBytes(v)| <= end <= |b|
    requires bytesUsed + |v.data| <= MAX_BYTES_STORAGE
    ensures LoadConst(b, at, end, stringUsed, bytesUsed) ==
      Got(v, at + |ConstBytes(v)|, stringUsed, bytesUsed + |v.data|)
  {
    hide ReadLong, ReadWord, WordBytes, LoadText, Lies;
    LiesSplit3(b, at, [5], WordBytes(|v.data|), v.data);
    LiesAt(b, at, [5], 0);
    WordRound(b, at + 1, |v.data|);
    DataLoads(b, at + 5, v.data, end, stringUsed, bytesUsed);
  }

  lemma {:induction false} TextLoads(b: seq<byte>, at: nat, s: string, end: nat, stringUsed: nat, bytesUsed: nat)
    requires IsText(s) && Lies(b, at, TextBytes(s)) && at + |s| <= end <= |b| && stringUsed + |s| + 1 <= MAX_STRING_BYTES
    ensures LoadText(b, true, at, |s|, end, stringUsed, bytesUsed) ==
      Got(Str(s), at + |s|, stringUsed + |s| + 1, bytesUsed)
  {
    hide CString;
    TextRound(s);
  }

  lemma {:induction false} DataLoads(b: seq<byte>, at: nat, data: seq<byte>, end: nat, stringUsed: nat, bytesUsed: nat)
    requires Lies(b, at, data) && at + |data| <= end <= |b| && bytesUsed + |data| <= MAX_BYTES_STORAGE
    ensures LoadText(b, false, at, |data|, end, stringUsed, bytesUsed) ==
      Got(Bytes(data), at + |data|, stringUsed, bytesUsed + |data|)
  {
    hide CString;
  }

  lemma {:induction false} PoolRound(
    b: seq<byte>, at: nat, end: nat, consts: seq<Value>, done: seq<Value>, l: Loading)
    requires forall i :: 0 <= i < |consts| ==> IsConstant(consts[i]) && IsValue(consts[i])
    requires Lies(b, at, PoolBytes(consts)) && at + |PoolBytes(consts)| == end <= |b|
    requires l.stringUsed + TextTotal(consts) <= MAX_STRING_BYTES
    requires l.bytesUsed + BytesTotal(consts) <= MAX_BYTES_STORAGE
    ensures LoadPool(b, at, end, |consts|, done, l) == Loaded(l.(
      p := l.p.(consts := done + consts),
      stringUsed := l.stringUsed + TextTotal(consts), bytesUsed := l.bytesUsed + BytesTotal(consts)))
    decreases |consts|
  {
    hide LoadConst, ConstBytes, IsConstant;
    if consts == [] {
      assert done + consts == done;
    } else {
      var v := consts[0];
      LiesSplit(b, at, ConstBytes(v), PoolBytes(consts[1..]));
      ConstRound(b, at, end, v, l.stringUsed, l.bytesUsed);
      PoolRound(b, at + |ConstBytes(v)|, end, consts[1..], done + [v],
        l.(stringUsed := l.stringUsed + TextSize(v), bytesUsed := l.bytesUsed + DataSize(v)));
      assert done + [v] + consts[1..] == done + consts;
    }
  }

  lemma {:induction false} ConstantValue(consts: seq<Value>)
    requires forall i :: 0 <= i < |consts| ==> IsConstant(consts[i])
    ensures forall i :: 0 <= i < |consts| ==> IsValue(consts[i])
  {
  }

  /** The pool's size field does not wrap. */
  lemma {:induction false} PoolSize(consts: seq<Value>)
    requires forall i :: 0 <= i < |consts| ==> IsConstant(consts[i])
    ensures (forall i :: 0 <= i < |consts| ==> IsValue(consts[i]))
    ensures |PoolBytes(consts)| <= 9 * |consts| + TextTotal(consts) + BytesTotal(consts)
  {
    ConstantValue(consts);
    if consts != [] {
      PoolSize(consts[1..]);
    }
  }

  lemma {:induction false} CodeSectionRound(b: seq<byte>, at: nat, code: seq<Instr>, l: Loading)
    requires (forall i :: 0 <= i < |code| ==> IsInt64(code[i].arg)) && |code| <= MAX_INSTRUCTIONS && !l.hasCode
    requires Lies(b, at, CodeSection(code))
    ensures at + 12 + 12 * |code| <= |b|
    ensures ReadWord(b, at) == 1 && ReadWord(b, at + 4) == 4 + 12 * |code|
    ensures LoadSection(b, 1, at + 8, at + 12 + 12 * |code|, l) ==
      Loaded(l.(p := l.p.(code := code), hasCode := true))
  {
    hide ReadWord, WordBytes, CodeBytes, LoadCode;
    var n := |code|;
    LiesSplit(b, at, WordBytes(1) + WordBytes(4 + 12 * n) + WordBytes(n), CodeBytes(code));
    LiesSplit(b, at, WordBytes(1) + WordBytes(4 + 12 * n), WordBytes(n));
    LiesSplit(b, at, WordBytes(1), WordBytes(4 + 12 * n));
    WordRound(b, at, 1);
    WordRound(b, at + 4, 4 + 12 * n);
    WordRound(b, at + 8, n);
    CodeRound(b, at + 12, code, [], l.(hasCode := true));
    assert [] + code == code;
  }

  lemma {:induction false} PoolSectionRound(b: seq<byte>, at: nat, p: Program, l: Loading)
    requires Portable(p) && !l.hasPool && l.stringUsed == l.bytesUsed == 0
    requires IsProgram(p) && Lies(b, at, PoolSection(p.consts))
    ensures ReadWord(b, at) == 2 && ReadWord(b, at + 4) == 4 + |PoolBytes(p.consts)|
    ensures at + 12 + |PoolBytes(p.consts)| <= |b|
    ensures LoadSection(b, 2, at + 8, at + 12 + |PoolBytes(p.consts)|, l) ==
      Loaded(l.(p := l.p.(consts := p.consts), stringUsed := TextTotal(p.consts), bytesUsed := BytesTotal(p.consts),
        hasPool := true))
  {
    hide ReadWord, WordBytes, PoolBytes, LoadPool, TextTotal, BytesTotal, IsConstant;
    var consts, size := p.consts, 4 + |PoolBytes(p.consts)|;
    PoolSize(consts);
    LiesSplit(b, at, WordBytes(2) + WordBytes(size) + WordBytes(|consts|), PoolBytes(consts));
    LiesSplit(b, at, WordBytes(2) + WordBytes(size), WordBytes(|consts|));
    LiesSplit(b, at, WordBytes(2), WordBytes(size));
    WordRound(b, at, 2);
    WordRound(b, at + 4, size);
    WordRound(b, at + 8, |consts|);
    PoolRound(b, at + 12, at + 8 + size, consts, [], l.(hasPool := true));
    assert [] + consts == consts;
  }

  lemma {:induction false} HeaderRound(b: seq<byte>, n: nat)
    requires n <= MAX_SECTIONS && Lies(b, 0, Header(n))
    ensures Load(b) == LoadSections(b, 16, n, NOTHING)
  {
    hide ReadWord, WordBytes, LoadSections;
    var magic: seq<byte> := [0x41, 0x49, 0x42, 0x43];
    LiesSplit(b, 0, magic + WordBytes(2) + WordBytes(0), WordBytes(n));
    LiesSplit(b, 0, magic + WordBytes(2), WordBytes(0));
    LiesSplit(b, 0, magic, WordBytes(2));
    WordRound(b, 4, 2);
    WordRound(b, 12, n);
    assert b[..4] == b[0..4];
  }

  lemma {:induction false} PortableIs(p: Program)
    requires Portable(p)
    ensures IsProgram(p)
  {
  }

  /** Loading the file of a program gives the program back, instruction for instruction and constant for
      constant. */
  lemma {:induction false} RoundTrip(p: Program)
    requires Portable(p) && p.code != []
    ensures IsProgram(p) && Accepted(p)
    ensures Load(FileOf(p)) == Loaded(Loading(p, TextTotal(p.consts), BytesTotal(p.consts), true, p.consts != []))
  {
    hide Header, CodeSection, PoolSection, LoadSection, LoadSections, Load, TextTotal, BytesTotal, ReadWord, PoolBytes,
      IsConstant, Accepted, Lies, FileOf, IsProgram;
    PortableIs(p);
    PortableLengths(p);
    FileParts(p);
    var b, n, next := FileOf(p), if p.consts == [] then 1 else 2, 28 + 12 * |p.code|;
    HeaderRound(b, n);
    CodeSectionRound(b, 16, p.code, NOTHING);
    var l := NOTHING.(p := NOTHING.p.(code := p.code), hasCode := true);
    SectionsStep(b, 16, n, next, NOTHING, l);
    if p.consts != [] {
      PoolSectionRound(b, next, p, l);
      var m := l.(p := p, stringUsed := TextTotal(p.consts), bytesUsed := BytesTotal(p.consts), hasPool := true);
      SectionsStep(b, next, 1, next + 12 + |PoolBytes(p.consts)|, l, m);
      SectionsEnd(b, next + 12 + |PoolBytes(p.consts)|, m);
    } else {
      NoTotals(p.consts);
      SectionsEnd(b, next, l);
    }
  }

  /** The pieces of a file. */
  lemma {:induction false} FileParts(p: Program)
    requires IsProgram(p)
    ensures Lies(FileOf(p), 0, Header(if p.consts == [] then 1 else 2)) && Lies(FileOf(p), 16, CodeSection(p.code))
    ensures p.consts != [] ==> Lies(FileOf(p), 28 + 12 * |p.code|, PoolSection(p.consts))
    ensures forall i :: 0 <= i < |p.code| ==> IsInt64(p.code[i].arg)
  {
    hide Header, CodeSection, PoolSection;
    var n := if p.consts == [] then 1 else 2;
    var pool := if p.consts == [] then [] else PoolSection(p.consts);
    var b := Header(n) + CodeSection(p.code) + pool;
    assert b == FileOf(p);
    SectionLength(p.code);
    assert Lies(b, 0, b);
    LiesSplit(b, 0, Header(n) + CodeSection(p.code), pool);
    LiesSplit(b, 0, Header(n), CodeSection(p.code));
  }

  lemma {:induction false} SectionsEnd(b: seq<byte>, at: nat, l: Loading)
    requires at <= |b|
    ensures LoadSections(b, at, 0, l) == Loaded(l)
  {
  }

  lemma {:induction false} NoTotals(consts: seq<Value>)
    requires consts == []
    ensures TextTotal(consts) == 0 && BytesTotal(consts) == 0
  {
  }

  lemma {:induction false} SectionLength(code: seq<Instr>)
    requires forall i :: 0 <= i < |code| ==> IsInt64(code[i].arg)
    ensures |CodeSection(code)| == 12 + 12 * |code|
  {
  }

  lemma {:induction false} SectionsStep(b: seq<byte>, at: nat, n: nat, next: nat, l: Loading, m: Loading)
    requires n >= 1 && at + 8 <= next <= |b| && next == at + 8 + ReadWord(b, at + 4)
    requires LoadSection(b, ReadWord(b, at), at + 8, next, l) == Loaded(m)
    ensures LoadSections(b, at, n, l) == LoadSections(b, next, n - 1, m)
  {
    hide LoadSection, ReadWord;
  }

  lemma {:induction false} PortableLengths(p: Program)
    requires Portable(p) && p.code != []
    ensures Accepted(p)
  {
    hide TextTotal, BytesTotal;
    forall i | 0 <= i < |p.consts|
      ensures LengthOk(p.consts[i])
    {
      PartOfTotal(p.consts, i);
    }
  }

  lemma {:induction false} PartOfTotal(consts: seq<Value>, i: nat)
    requires i < |consts|
    ensures TextSize(consts[i]) <= TextTotal(consts) && DataSize(consts[i]) <= BytesTotal(consts)
  {
    if i != 0 {
      PartOfTotal(consts[1..], i - 1);
    }
  }

  /** Loading, writing and loading again changes nothing. */
  lemma {:induction false} Stable(b: seq<byte>)
    requires Load(b).Loaded? && Load(b).l.p.code != []
    ensures IsProgram(Load(b).l.p) && Accepted(Load(b).l.p)
    ensures Load(FileOf(Load(b).l.p)).Loaded? && Load(FileOf(Load(b).l.p)).l.p == Load(b).l.p
  {
    hide Load, Portable;
    LoadedPortable(b);
    RoundTrip(Load(b).l.p);
  }

  // ---------- one file, byte by byte ----------

  const SAMPLE := Program(
    [Instr(PUSH_INT, 258), Instr(HALT, 0)], [Str("hi"), Int(-1), Bool(true), Null, Bytes([7])])

  const SAMPLE_PUSH: seq<byte> := [3, 0, 0, 0, 2, 1, 0, 0, 0, 0, 0, 0]
  const SAMPLE_HALT: seq<byte> := [1, 0, 0, 0, 0, 0, 0, 0, 0, 0, 0, 0]
  const SAMPLE_TEXT: seq<byte> := [3, 2, 0, 0, 0, 0x68, 0x69]
  const SAMPLE_INT: seq<byte> := [1, 0xFF, 0xFF, 0xFF, 0xFF, 0xFF, 0xFF, 0xFF, 0xFF]
  const SAMPLE_BYTES: seq<byte> := [5, 1, 0, 0, 0, 7]

  /** Type, size, count, instructions. */
  function SampleCodeSection(): seq<byte> {
    [1, 0, 0, 0] + [28, 0, 0, 0] + [2, 0, 0, 0] + (SAMPLE_PUSH + SAMPLE_HALT)
  }

  /** Type, size, count, constants. */
  function SamplePoolSection(): seq<byte> {
    [2, 0, 0, 0] + [29, 0, 0, 0] + [5, 0, 0, 0] + (SAMPLE_TEXT + (SAMPLE_INT + ([2, 1] + ([6] + SAMPLE_BYTES))))
  }

  const SAMPLE_HEADER: seq<byte> := [0x41, 0x49, 0x42, 0x43] + [2, 0, 0, 0] + [0, 0, 0, 0] + [2, 0, 0, 0]

  lemma {:induction false} SampleWords()
    ensures WordBytes(1) == [1, 0, 0, 0] && WordBytes(2) == [2, 0, 0, 0] && WordBytes(5) == [5, 0, 0, 0]
    ensures WordBytes(28) == [28, 0, 0, 0] && WordBytes(29) == [29, 0, 0, 0] && WordBytes(0) == [0, 0, 0, 0]
  {
  }

  lemma {:induction false} SampleInstructions()
    ensures InstrBytes(Instr(PUSH_INT, 258)) == SAMPLE_PUSH && InstrBytes(Instr(HALT, 0)) == SAMPLE_HALT
  {
    assert WordBytes(258) == [2, 1, 0, 0];
  }

  lemma {:induction false} SampleCode()
    ensures CodeSection(SAMPLE.code) == SampleCodeSection()
  {
    hide InstrBytes, WordBytes;
    var push, halt := Instr(PUSH_INT, 258), Instr(HALT, 0);
    SampleInstructions();
    SampleWords();
    assert CodeBytes([]) == [];
    assert CodeBytes([halt]) == InstrBytes(halt) + [];
    assert [push, halt][1..] == [halt];
    assert CodeBytes([push, halt]) == InstrBytes(push) + CodeBytes([halt]);
  }

  lemma {:induction false} SampleText()
    ensures IsText("hi") && ConstBytes(Str("hi")) == SAMPLE_TEXT
  {
    assert TextBytes("hi") == [0x68, 0x69];
  }

  lemma {:induction false} SampleInt()
    ensures ConstBytes(Int(-1)) == SAMPLE_INT
  {
    assert Unsigned(-1) == 0xFFFF_FFFF_FFFF_FFFF;
    assert WordBytes(0xFFFF_FFFF) == [0xFF, 0xFF, 0xFF, 0xFF];
  }

  lemma {:induction false} SamplePlain()
    ensures ConstBytes(Bool(true)) == [2, 1] && ConstBytes(Null) == [6] && ConstBytes(Bytes([7])) == SAMPLE_BYTES
  {
  }

  lemma {:induction false} SampleTexts()
    ensures IsText("hi") && ConstBytes(Str("hi")) == SAMPLE_TEXT && ConstBytes(Int(-1)) == SAMPLE_INT
    ensures ConstBytes(Bool(true)) == [2, 1] && ConstBytes(Null) == [6] && ConstBytes(Bytes([7])) == SAMPLE_BYTES
  {
    hide ConstBytes, IsText;
    SampleText();
    SampleInt();
    SamplePlain();
  }

  lemma {:induction false} PoolCons(v: Value, rest: seq<Value>)
    requires IsValue(v) && forall i :: 0 <= i < |rest| ==> IsValue(rest[i])
    ensures (forall i :: 0 <= i < |[v] + rest| ==> IsValue(([v] + rest)[i]))
    ensures PoolBytes([v] + rest) == ConstBytes(v) + PoolBytes(rest)
  {
    assert ([v] + rest)[1..] == rest;
  }

  lemma {:induction false} SamplePool()
    ensures (forall i :: 0 <= i < |SAMPLE.consts| ==> IsValue(SAMPLE.consts[i]))
    ensures PoolSection(SAMPLE.consts) == SamplePoolSection()
  {
    hide ConstBytes, WordBytes, PoolBytes;
    SampleTexts();
    SampleWords();
    var a, b, c, d, e := Str("hi"), Int(-1), Bool(true), Null, Bytes([7]);
    NoPool();
    PoolCons(e, []);
    PoolCons(d, [e] + []);
    PoolCons(c, [d] + ([e] + []));
    PoolCons(b, [c] + ([d] + ([e] + [])));
    PoolCons(a, [b] + ([c] + ([d] + ([e] + []))));
    assert [a] + ([b] + ([c] + ([d] + ([e] + [])))) == SAMPLE.consts;
    assert SAMPLE_BYTES + [] == SAMPLE_BYTES;
  }

  lemma {:induction false} NoPool()
    ensures PoolBytes([]) == []
  {
  }

  lemma {:induction false} SampleTotals()
    ensures Portable(SAMPLE)
  {
    hide TextTotal, BytesTotal;
    SampleTexts();
    TotalsSnoc([], Str("hi"));
    TotalsSnoc([Str("hi")], Int(-1));
    TotalsSnoc([Str("hi"), Int(-1)], Bool(true));
    TotalsSnoc([Str("hi"), Int(-1), Bool(true)], Null);
    TotalsSnoc([Str("hi"), Int(-1), Bool(true), Null], Bytes([7]));
    EmptyTotals();
    assert [] + [Str("hi")] == [Str("hi")];
    assert [Str("hi"), Int(-1), Bool(true), Null] + [Bytes([7])] == SAMPLE.consts;
    assert [Str("hi"), Int(-1), Bool(true)] + [Null] == [Str("hi"), Int(-1), Bool(true), Null];
    assert [Str("hi"), Int(-1)] + [Bool(true)] == [Str("hi"), Int(-1), Bool(true)];
    assert [Str("hi")] + [Int(-1)] == [Str("hi"), Int(-1)];
  }

  lemma {:induction false} EmptyTotals()
    ensures TextTotal([]) == 0 && BytesTotal([]) == 0
  {
  }

  /** The writer's file for a small program, and the loader's reading of it. */
  lemma {:induction false} SampleFile()
    ensures IsProgram(SAMPLE) && FileOf(SAMPLE) == SAMPLE_HEADER + SampleCodeSection() + SamplePoolSection()
    ensures Load(SAMPLE_HEADER + SampleCodeSection() + SamplePoolSection()).Loaded?
    ensures Load(SAMPLE_HEADER + SampleCodeSection() + SamplePoolSection()).l.p == SAMPLE
  {
    hide PoolSection, CodeSection, Load;
    SampleCode();
    SamplePool();
    SampleWords();
    SampleTotals();
    RoundTrip(SAMPLE);
  }
}
