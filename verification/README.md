# vaultfs path-to-node layer, modelled in Dafny

vaultfs presents a Vault key tree as a read-only FUSE filesystem. A directory
stands for a key prefix. A file stands for a secret. Reading a file returns the
secret serialised. This project models the layer between Vault and FUSE:

- the inode every node gets (`HashInode`, a CRC-64/ISO checksum of
  `"<kind>:<path>"`);
- how a directory listing becomes typed entries (`Dir.ReadDirAll` and its
  trailing-slash classifier);
- how a point read becomes EIO, ENOENT or a file node (`Dir.Lookup`);
- the attributes of directories and files (`Dir.Attr`, `File.Attr`,
  `getSize`, `ReadAll`);
- the filesystem value (`New`, `Root`) and the guarded `Unmount` sequence.

Modules, leaf first:

- `Base` (base.dfy): Go byte strings, `uint64`, powers of two, `Option`,
  `Result`, and the errno values.
- `GoPath` (gopath.dfy): Go's `path.Join` and `path.Clean`, concretely.
  - Split at slashes.
  - Resolve `.` and `..` left to right.
  - Render with single slashes.
  - Proved: cleaning is idempotent; a trailing slash changes nothing; joining
    a plain name onto a directory appends exactly one element.
- `Crc64` (crc64.dfy): `hash/crc64` with the ISO table.
  - The 64-bit register is modelled as its 64 bits, least significant first.
  - `MakeTable`'s entries are eight bits of reflected polynomial division.
  - `Checksum` inverts the register, runs the byte-at-a-time table loop,
    then inverts again.
  - Proved equal to the bit-at-a-time definition of CRC-64/ISO.
- `Inode` (inode.dfy): the text `fmt.Sprintf("%d:%s", dt, path)` and
  `HashInode`.
  - Proved: the text parses back to exactly its (kind, path) pair. So two
    inodes can coincide only through a checksum collision, never through the
    text.
- `Nodes` (nodes.dfy): the store, `Node`, `Dir`, `File`, `fuse.Dirent`,
  the written part of `fuse.Attr`, and the mode bits.
- `DirNode` (dir.dfy): `Dir.String`, `Dir.Attr`, `Dir.Lookup`, `NewNode`,
  the classifier and `Dir.ReadDirAll`.
- `FileNode` (file.dfy): `ReadAll`, `getSize` and `File.Attr`.
- `VaultFs` (vaultfs.dfy): `VaultFS`, `New`, `Root` and `Unmount`.

Collaborators become parameters:

- The Vault client's `Logical().Read` and `Logical().List` are the two
  function fields of `Nodes.Store`.
- `api.NewClient`'s outcome is an argument of `New`.
- The JSON encoder is a `Serializer` argument.
- `fuse.Unmount`, `conn.Close()` and `conn.MountError` are, respectively,
  an argument of `Unmount` and the fields of `Conn`.

Several places in the Go code do not compile. Where the core depends on
them, the model follows their evident intent:

- Nodes carry the prefix and the store handle, although those fields are
  commented out.
- `getSize` (fs/file.go:34) calls `f.Secret.ReadAll(ctx)`, a method
  `*api.Secret` does not have. The model reads the file's own `ReadAll`
  (fs/file.go:59-61) instead: the size is the length of the file's content.
- `getSize`'s `nil` size becomes the error case.
- `Attr`'s undefined `content` is the size `getSize` computed.
- `NewNode` declares an error result it always leaves nil, while `NewDir`
  and `NewFile` use its two results as one value. The model's `NewNode`
  returns the node alone.

`listContents` and the `2` indent of `json.MarshalIndent` do not compile
either; both are under "Left out".

Quirks of the code are kept as written:

- `Lookup` derives a file's inode with the directory kind.
- A listing entry's inode is derived from the bare name, not the absolute
  path.
- `NewNode` ignores the kind it is given.

Looked-up files keep the DT_Dir inode. `Lookup` fetches the secret once,
and `ReadAll` only serialises the node it holds; no node fetches again.

## Model

| member | source | states |
|---|---|---|
| `Crc64.ChecksumIsBitwise` | fs/fs.go:28-33 | The table-driven checksum Go computes with `crc64.MakeTable(crc64.ISO)` equals CRC-64/ISO defined bit by bit (inverted register, reflected polynomial 0xD800000000000000). |
| `Crc64.TableUpdateIsBitUpdate` | fs/fs.go:28-33 | For any register and input, the byte-at-a-time table loop equals eight bits of polynomial division per byte. |
| `Crc64.TableStepIsEightShifts` | fs/fs.go:28 | One lookup `tab[byte(crc)^v] ^ crc>>8` does the work of eight division steps on `crc ^ v`. |
| `Crc64.ShiftsLinear` | fs/fs.go:28 | Any number of division steps is linear over GF(2): dividing `a ^ b` is dividing each and xoring. |
| `Crc64.ShiftsClearLow` | fs/fs.go:28 | A register whose low `n` bits are clear is just shifted right by `n` under division. |
| `Crc64.WordOfValue` | fs/fs.go:32-33 | Reading a 64-bit register as a `uint64` and back gives the same bits. |
| `Crc64.WordValueOf` | fs/fs.go:32-33 | Every `uint64` is the value of its own 64 bits, so the register and the number are one and the same. |
| `Inode.DecimalRoundTrip` | fs/fs.go:31 | The `%d` rendering of a number reads back as that number. |
| `Inode.ParseHashInputRoundTrip` | fs/fs.go:31 | The checksummed text is the decimal kind, one colon and the path, and nothing else: it parses back to exactly (kind, path). |
| `Inode.HashInputInjective` | fs/fs.go:30-34 | Two (path, kind) pairs give the same checksummed text exactly when they are equal. |
| `GoPath.Join` | fs/dir.go:45 | `path.Join` is empty exactly when both parts are, and otherwise returns a clean path. |
| `GoPath.CleanIdempotent` | fs/dir.go:45 | Cleaning a cleaned path changes nothing. |
| `GoPath.CleanTrailingSlash` | fs/dir.go:60 | A trailing slash does not change what a non-empty path cleans to. |
| `GoPath.JoinPlainChild` | fs/dir.go:60 | Joining a plain element (no slash, not `.` or `..`) onto a path appends it to the cleaned path, so it never climbs out. |
| `DirNode.DirString` | fs/dir.go:44-46 | A directory's key path is empty only when prefix and name both are, and is otherwise already clean. |
| `DirNode.DirAttr` | fs/dir.go:49-56 | `Dir.Attr` always succeeds: the directory's own inode, the mode exactly `os.ModeDir \| 0555` (the directory bit, read and search for all, no write bit), and the size left as it was. |
| `DirNode.Lookup` | fs/dir.go:59-87 | A failed read is EIO, also when no secret came back; a missing secret is ENOENT; otherwise a file named `name` with the inode of (absolute path, DT_Dir), the directory's prefix and the secret that was read. |
| `DirNode.LookupPathIsChild` | fs/dir.go:60 | For a plain name, the key `Lookup` reads is the directory's path with that name appended as one element. |
| `DirNode.NewNode` | fs/dir.go:89-95 | `NewNode` gives the inode of (path, DT_Dir) and leaves name and prefix empty. |
| `DirNode.NewNodeIgnoresKind` | fs/dir.go:89-95 | The kind passed to `NewNode` has no effect on the node. |
| `DirNode.ClassifyRoundTrip` | fs/dir.go:182-186 | The classifier loses nothing: re-adding one slash to a directory name (and nothing to a file name) gives back the key; the kind is Dir exactly when the key ends in `/`. |
| `DirNode.UnclassifyRoundTrip` | fs/dir.go:182-186 | Exactly one slash is stripped: a directory name followed by `/` classifies back to that name even if it ends in `/` itself; a file name without a trailing slash classifies to itself. |
| `DirNode.Entry` | fs/dir.go:180-192 | One entry per key: its name and kind give back the key, the kind is Dir exactly for a trailing slash and File otherwise, and the inode is `HashInode(name, kind)` of the bare name. |
| `DirNode.ReadDirAll` | fs/dir.go:160-198 | A failed listing is EIO; a listing without keys is an empty list; otherwise one entry per key in the store's order, each recovering its key and hashed from its bare name and kind. |
| `DirNode.ListingAndLookupHashDiffer` | fs/dir.go:188-191 | For a file key, the listing checksums (bare name, DT_File) and the lookup checksums (absolute path, DT_Dir): different texts, so the two inodes agree only by collision. |
| `Nodes.DirModeBits` | fs/dir.go:54 | `os.ModeDir \| 0555` has the directory bit, read and search for all, and no write bit. |
| `Nodes.FileModeBits` | fs/file.go:47 | `0444` is not a directory, is readable by all, and has no write or execute bit. |
| `FileNode.ToUint64` | fs/file.go:40 | `uint64(len(content))` is the length itself for every length below 2^64. |
| `FileNode.GetSize` | fs/file.go:33-42 | `getSize` fails exactly when the content fails, with the same error; otherwise it is the content's byte length. |
| `FileNode.FileAttr` | fs/file.go:45-56 | `File.Attr` writes the node's inode and the mode exactly `0444` (not a directory, readable by all, no write or execute bit) in every case; it is EIO exactly when the content fails, and then leaves the size alone; otherwise the size is the content's length. |
| `FileNode.AttrSizeMatchesReadAll` | fs/file.go:45-61 | When the content can be produced, `Attr` succeeds and reports exactly the length of what `ReadAll` returns. |
| `VaultFs.New` | fs/fs.go:45-57 | `New` fails exactly when the client cannot be built, with that error; otherwise it keeps the client, prefix and mount point and is not mounted. |
| `VaultFs.Root` | fs/fs.go:103-118 | The root has the empty name, the inode of ("", DT_Dir), the filesystem's prefix and store, and stands for `path.Join(prefix, "")`. |
| `VaultFs.RootStandsForPrefix` | fs/fs.go:112 | For a non-empty prefix, the root directory's path is the cleaned prefix. (The empty prefix gives the empty path, by `DirNode.DirString`.) |
| `VaultFs.RootOfNew` | fs/fs.go:103-118 | The root of a freshly built filesystem carries the configured prefix and the new client unchanged. |
| `VaultFs.Unmount` | fs/fs.go:78-100 | Not mounted exactly when there is no connection, and then nothing is called; success exactly when unmount, close and the mount error are all clean; close is called only after a clean unmount, and the wait only after a clean close. |
| `VaultFs.UnmountReportsFirstFailure` | fs/fs.go:83-99 | On a mounted filesystem the error returned is the first failed step in the order unmount, close, mount error, and the calls made are exactly the steps up to it. |
| `VaultFs.UnmountAfterNew` | fs/fs.go:79-81 | A filesystem fresh from `New` refuses to unmount and calls nothing. |

## Left out

- `Mount` (fs/fs.go:59-75): mounting and the `fs.Serve` loop are the kernel bridge and I/O.
- `Unmount`'s blocking wait on `conn.Ready` is recorded as an `AwaitReady` call, not modelled as blocking.
- `listContents` (fs/dir.go:111-157): an incoherent goroutine duplicate of `ReadDirAll`. Its body does not type-check, and it is never called.
- `NewDir` and `NewFile` (fs/dir.go:97-109): unused helpers that only wrap `NewNode`.
- Nodes carry the prefix and the store directly instead of the `v *VaultFS` back-reference, which nothing in the core reads.
- Logging (every `logrus` call) and the context argument: there is no cancellation; the code has a TODO for it.
- `api.NewClient` and `SetToken`: the client's construction is the `clientResult` argument of `New`, and the token is not modelled.
- `FileNode.ReadAll`: the JSON output of `json.MarshalIndent` is library behaviour. The model only says that the content is a function of the file node and involves no store call. The `2` indent argument, which does not compile, is not modelled.
- `Nodes.Secret`: only the `Data` map of `*api.Secret` is modelled, with string values. Vault's secret also carries the request and lease fields, warnings, auth and wrap info, and its data values are arbitrary JSON. `json.MarshalIndent` serialises all of that. So the model cannot tell apart two secrets that differ only in those parts, although Go's content and size can differ for them.
- The `api.Secret` of a listing is modelled as an error, no `keys`, or the keys. A nil listing secret without an error is not modelled; Go would dereference nil there.
- The type assertions `.([]interface{})` and `.(string)` (fs/dir.go:179-180) become a well-typed key list. A non-string key, which would panic in Go, is not modelled.
- Other `fuse.Attr` fields (link count, owner, times) are neither written by this layer nor modelled.
- Go's `crc64.Update` processes long inputs eight bytes at a time with larger tables. That path computes the same value, and only the byte-at-a-time loop is modelled.
- `Crc64.TableEntry`: the table is not materialised as an array. Each entry is computed on demand as `MakeTable` defines it.
