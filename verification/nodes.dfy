/** The records the filesystem hands to the FUSE bridge, and the Vault store
    the nodes read from. */
module Nodes {
  import opened Base
  import opened Inode

  /** A Go `uint32`, the width of `os.FileMode`. */
  type uint32 = x: int | 0 <= x < 0x1_0000_0000

  /** A Vault secret (`*api.Secret`). Only its `Data` map is modelled, with
      string values; this layer never inspects the secret, it only hands it
      to the serialiser. */
  datatype Secret = Secret(data: map<GoString, GoString>)

  /** The Vault client's logical backend, as seen by the filesystem.
      `read(p)` is `Logical().Read(p)`: an error, no secret at `p` (`nil`),
      or the secret. `list(p)` is `Logical().List(p)`: an error, a listing
      without a `keys` entry, or the keys, directories carrying a trailing
      `/`. */
  datatype Store = Store(
    read: GoString -> Result<Option<Secret>, ExtError>,
    list: GoString -> Result<Option<seq<GoString>>, ExtError>)

  /** The fields every node carries: its inode, its name, and the key prefix
      of the filesystem it belongs to. */
  datatype Node = Node(inode: uint64, name: GoString, prefix: GoString)

  /** A directory node, reading through the store. */
  datatype Dir = Dir(node: Node, logic: Store)

  /** A file node, holding the secret it was looked up with. */
  datatype File = File(node: Node, secret: Secret)

  /** `fuse.Dirent`: one entry of a directory listing. */
  datatype Dirent = Dirent(name: GoString, inode: uint64, typ: DirentType)

  /** The part of `fuse.Attr` this layer writes. */
  datatype Attr = Attr(inode: uint64, mode: uint32, size: uint64)

  /** `os.ModeDir`, the top bit of an `os.FileMode`. */
  const ModeDir: uint32 := 0x8000_0000

  /** Permission bits 0555 (r-xr-xr-x) and 0444 (r--r--r--). */
  const PermReadExec: uint32 := 0x16D
  const PermRead: uint32 := 0x124

  /** The directory bit of a mode. */
  predicate IsDirMode(mode: uint32) {
    mode >= ModeDir
  }

  /** The nine permission bits of a mode. */
  function Perm(mode: uint32): int {
    mode % 0x200
  }

  /** Bit `k` of a mode. */
  predicate HasBit(mode: uint32, k: nat)
    requires k < 32
  {
    (mode / Pow2(k)) % 2 == 1
  }

  /** Some write bit (0200, 0020 or 0002) is set. */
  predicate Writable(mode: uint32) {
    HasBit(mode, 7) || HasBit(mode, 4) || HasBit(mode, 1)
  }

  /** Some read bit (0400, 0040 or 0004) is clear. */
  predicate ReadRestricted(mode: uint32) {
    !HasBit(mode, 8) || !HasBit(mode, 5) || !HasBit(mode, 2)
  }

  /** `os.ModeDir | 0555`, the mode of every directory. */
  const DirMode: uint32 := ModeDir + PermReadExec

  /** `0444`, the mode of every file. */
  const FileMode: uint32 := PermRead

  /** A directory is a directory, readable and searchable by all, and
      writable by none. */
  lemma DirModeBits()
    ensures IsDirMode(DirMode) && Perm(DirMode) == PermReadExec
    ensures !Writable(DirMode) && !ReadRestricted(DirMode)
    ensures HasBit(DirMode, 6) && HasBit(DirMode, 3) && HasBit(DirMode, 0)
  {
    assert Pow2(8) == 256;
  }

  /** A file is a plain file, readable by all, and writable and executable
      by none. */
  lemma FileModeBits()
    ensures !IsDirMode(FileMode) && Perm(FileMode) == PermRead
    ensures !Writable(FileMode) && !ReadRestricted(FileMode)
    ensures !HasBit(FileMode, 6) && !HasBit(FileMode, 3) && !HasBit(FileMode, 0)
  {
    assert Pow2(8) == 256;
  }
}
