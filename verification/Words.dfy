/** Optional results and 64-bit words with explicit wrap-around. */
module Words {

  datatype Option<+T> = None | Some(value: T) {
    predicate IsFailure() {
      None?
    }

    function PropagateFailure<U>(): Option<U>
      requires None?
    {
      None
    }

    function Extract(): T
      requires Some?
    {
      value
    }
  }

  const WORD_SIZE: int := 0x1_0000_0000_0000_0000
  const WORD_MAX: Word := 0xFFFF_FFFF_FFFF_FFFF

  type Word = x: int | 0 <= x < WORD_SIZE

  /** The cells that a program may touch, by address. */
  type Memory = map<Word, Word>

  /** Machine addition: the carry out of bit 63 is dropped. */
  function WAdd(a: Word, b: Word): Word
  {
    if a + b < WORD_SIZE then a + b else a + b - WORD_SIZE
  }

  /** Machine subtraction: a borrow wraps. */
  function WSub(a: Word, b: Word): Word
  {
    if b <= a then a - b else a - b + WORD_SIZE
  }

  lemma WordArithmeticIsModular(a: Word, b: Word)
    ensures WAdd(a, b) == (a + b) % WORD_SIZE
    ensures WSub(a, b) == (a - b) % WORD_SIZE
  {}

  /** The guest's saturating addition, which detects the carry by comparing the machine
      sum with a summand. */
  function AddSat(a: Word, b: Word): (r: Word)
    ensures r == if a + b < WORD_SIZE then a + b else WORD_MAX
  {
    if WAdd(a, b) < a then WORD_MAX else WAdd(a, b)
  }

  function MinWord(a: Word, b: Word): (r: Word)
    ensures r <= a && r <= b && (r == a || r == b)
  {
    if a < b then a else b
  }
}
