/** Notions shared by several components. */
module Common {

  datatype Option<T> = None | Some(value: T)

  /** The states of a connection. */
  datatype ConnState = Connecting | Connected | Disconnecting | Disconnected

  /** C division by a positive number truncates towards zero; the remainder has the sign of `a`. */
  function Quot(a: int, b: int): int
    requires b > 0
  {
    if a >= 0 then a / b else -((-a) / b)
  }

  function Rem(a: int, b: int): int
    requires b > 0
  {
    a - b * Quot(a, b)
  }

  predicate Int32(x: int) { -0x8000_0000 <= x < 0x8000_0000 }
}
