/** Shared vocabulary: Go byte strings, optional values, results and the
    error codes the filesystem hands back to the FUSE bridge. */
module Base {

  /** A Go `byte`: an unsigned 8-bit value. */
  type byte = b: int | 0 <= b < 256

  /** A Go `uint64`. */
  type uint64 = x: int | 0 <= x < 0x1_0000_0000_0000_0000

  /** `1 << k`. */
  function Pow2(k: nat): (r: nat)
    ensures r >= 1
  {
    if k == 0 then 1 else 2 * Pow2(k - 1)
  }

  /** A Go `string` is an immutable sequence of bytes; `[]byte(s)` is the
      identity on the bytes, so one type serves for both. */
  type GoString = seq<byte>

  datatype Option<+T> = None | Some(value: T)

  datatype Result<+T, +E> = Ok(value: T) | Err(error: E)

  /** The FUSE errno values this layer produces (`fuse.EIO`, `fuse.ENOENT`). */
  datatype Errno = EIO | ENOENT

  /** An error value produced by a collaborator (the Vault client, the JSON
      encoder, the FUSE bridge) that this layer only passes along. */
  datatype ExtError = ExtError(message: string)
}
