/** Machine words, address constants and the small types every other module shares. */
module Words {

  datatype Option<+T> = None | Some(value: T)

  /** One unsigned 32-bit word in host order (obl_uint); the byte swap of the file is undone on reading. */
  type Word = w: int | 0 <= w < 0x1_0000_0000

  /** One 16-bit code unit of a string (UChar). */
  type Unit = u: int | 0 <= u < 0x1_0000

  /** The value both address types use for "not assigned". */
  const UNASSIGNED: Word := 0

  /** Words in one object chunk, which is also the number of slots of an address map page. */
  const CHUNK_SIZE: int := 256
  /** A page occupies its shape word, its height word and its slots. */
  const PAGE_SIZE: int := 258

  /** The fifteen topmost logical addresses name constant objects outside the file. */
  const FIXED_ADDR_MIN: Word := 0xFFFF_FFF1
  const NIL_ADDR: Word := 0xFFFF_FFF1
  const INTEGER_SHAPE_ADDR: Word := 0xFFFF_FFF4
  const STRING_SHAPE_ADDR: Word := 0xFFFF_FFF8
  const FIXED_SHAPE_ADDR: Word := 0xFFFF_FFF9
  const ADDRTREEPAGE_SHAPE_ADDR: Word := 0xFFFF_FFFB
  const ALLOCATOR_SHAPE_ADDR: Word := 0xFFFF_FFFC
  const STUB_SHAPE_ADDR: Word := 0xFFFF_FFFF

  predicate IsFixedAddr(a: Word) {
    a >= FIXED_ADDR_MIN
  }

  /** Only words in [from, to) change. */
  ghost predicate Confined(w: seq<Word>, w': seq<Word>, from: int, to: int) {
    |w'| == |w| && forall x | 0 <= x < |w| && !(from <= x < to) :: w'[x] == w[x]
  }
}
