/** CAN frames as the network layer hands them over. */
module Frames {

  datatype Option<+T> = None | Some(value: T)

  const CANFD_MAX_DLEN: nat := 64

  /** A `canfd_frame` with the flag of its socket buffer that says whether it is an FD
      frame. `data` is the payload array, of which the first `len` bytes count. */
  datatype Frame = Frame(canId: bv32, len: nat, flags: bv8, data: seq<bv8>, fd: bool)
}
