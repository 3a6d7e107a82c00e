/** Runtime values of the VM (aivm_types.h).  Text is a C string without its terminator: a `string`
    whose characters stand for bytes. */
module Values {

  const STACK_CAPACITY := 4096
  const LOCALS_CAPACITY := 16384

  newtype byte = x: int | 0 <= x < 0x100

  datatype Value =
    | Void
    | Int(n: int)
    | Bool(b: bool)
    | Null
    | Str(s: string)
    | Bytes(data: seq<byte>)
    | Node(handle: int)
    | Unknown

  /** The text of a C string: its characters are non-zero bytes. */
  predicate IsText(s: string) {
    forall i :: 0 <= i < |s| ==> 0 < s[i] as int < 0x100
  }

  /** Values held in a C `int64_t`. */
  predicate IsInt64(n: int) {
    -0x8000_0000_0000_0000 <= n < 0x8000_0000_0000_0000
  }
}
