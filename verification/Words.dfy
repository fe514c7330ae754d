/** Machine words and small shared datatypes. */
module Words {
  const UINT16_VALUES: int := 0x1_0000
  const UINT32_VALUES: int := 0x1_0000_0000
  const UINT64_VALUES: int := 0x1_0000_0000_0000_0000

  type uint16 = n: int | 0 <= n < UINT16_VALUES
  type uint64 = n: int | 0 <= n < UINT64_VALUES

  datatype Option<+T> = None | Some(value: T)

  /** The implicit conversion of a wider C integer to uint16_t. */
  function ToUint16(n: int): uint16 {
    n % UINT16_VALUES
  }

  /** An unsigned type keeps what a number is modulo the number of its values. */
  lemma ConversionsCongruent(n: int)
    ensures 0 <= ToUint16(n) < 65_536 && (n - ToUint16(n)) % 65_536 == 0
    ensures 0 <= ToUint64(n) < 18_446_744_073_709_551_616 && (n - ToUint64(n)) % 18_446_744_073_709_551_616 == 0
  {
  }

  /** The implicit conversion of a C integer to uint64_t. */
  function ToUint64(n: int): uint64 {
    n % UINT64_VALUES
  }
}
