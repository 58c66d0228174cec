/** Types that several modules share. */
module Common {
  datatype Option<+T> = None | Some(value: T)

  /** The capacity of the scheduler's register and of the list of path combinations. */
  const MAX_NUM_RED_SK: nat := 24

  /** The state of a TCP socket that recovers from a loss. */
  const TCP_CA_RECOVERY: nat := 3

  type Byte = b: int | 0 <= b < 256
  type Bytes = seq<Byte>
  type Half = h: Bytes | |h| == 2 witness [0, 0]

  /** The low 16 bits of a number, high byte first. */
  function Be16(x: int): Half {
    [x / 0x100 % 0x100, x % 0x100]
  }

  lemma SubsetSize<T>(a: set<T>, b: set<T>)
    requires a <= b
    ensures |a| <= |b|
  {
    assert b == a + (b - a);
  }
}
