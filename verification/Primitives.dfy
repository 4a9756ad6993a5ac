/** Machine integers and the error type every component returns (src/error.rs). */
module Primitives {

  const U16_LIMIT: int := 0x1_0000
  const U32_LIMIT: int := 0x1_0000_0000
  const U64_LIMIT: int := 0x1_0000_0000_0000_0000

  type byte = x: int | 0 <= x < 0x100
  type u16 = x: int | 0 <= x < 0x1_0000
  type u32 = x: int | 0 <= x < 0x1_0000_0000
  type u64 = x: int | 0 <= x < 0x1_0000_0000_0000_0000
  type usize = u64

  datatype DownReason = Stop | Reset | Revoked | SurpriseRemoval

  datatype DeviceError =
    | Down(why: DownReason)
    | InvalidLayout(reason: string)
    | InvalidQueue(queue: u16, reason: string)
    | DmaRange(gpa: u64, length: usize)
    | Malformed(reason: string) // `DeviceError::Descriptor`
    | Io

  datatype Result<+T> = Ok(value: T) | Err(error: DeviceError) {
    predicate IsFailure() {
      Err?
    }

    function PropagateFailure<U>(): Result<U>
      requires Err?
    {
      Err(error)
    }

    function Extract(): T
      requires Ok?
    {
      value
    }
  }

  datatype Option<+T> = None | Some(value: T)

  function Min(a: int, b: int): int {
    if a <= b then a else b
  }
}
