/** File nodes: their content is the serialised node, their attributes a
    read-only mode and the content's length. */
module FileNode {
  import opened Base
  import opened Nodes

  /** The JSON encoder `ReadAll` hands the node to: a deterministic function
      of the node that either yields bytes or fails. */
  type Serializer = File -> Result<seq<byte>, ExtError>

  /** `uint64(n)` for a non-negative `int`: the low 64 bits. */
  function ToUint64(n: nat): (r: uint64)
    ensures n < 0x1_0000_0000_0000_0000 ==> r == n
  {
    n % 0x1_0000_0000_0000_0000
  }

  /** `File.ReadAll`: the content of a file is its node serialised; no store
      is consulted. */
  function ReadAll(f: File, marshal: Serializer): Result<seq<byte>, ExtError> {
    marshal(f)
  }

  /** `getSize`: the byte length of the content, or the content's error
      passed on unchanged with no size. */
  function GetSize(f: File, marshal: Serializer): (r: Result<uint64, ExtError>)
    ensures r.Err? <==> ReadAll(f, marshal).Err?
    ensures r.Err? ==> r.error == ReadAll(f, marshal).error
    ensures r.Ok? ==> r.value == ToUint64(|ReadAll(f, marshal).value|)
  {
    match ReadAll(f, marshal)
    case Err(e) => Err(e)
    case Ok(content) => Ok(ToUint64(|content|))
  }

  /** `File.Attr`: writes the node's inode and mode 0444 into the attributes
      it is handed, then the size; when the content cannot be produced it
      returns EIO, with the inode and mode already written and the size as
      it was. */
  function FileAttr(f: File, a: Attr, marshal: Serializer): (r: (Attr, Option<Errno>))
    ensures r.0.inode == f.node.inode
    ensures r.0.mode == FileMode
    ensures !IsDirMode(r.0.mode) && Perm(r.0.mode) == PermRead
    ensures !Writable(r.0.mode) && !ReadRestricted(r.0.mode)
    ensures !HasBit(r.0.mode, 6) && !HasBit(r.0.mode, 3) && !HasBit(r.0.mode, 0)
    ensures r.1 == Some(EIO) <==> ReadAll(f, marshal).Err?
    ensures r.1 == None <==> ReadAll(f, marshal).Ok?
    ensures r.1 == None ==> r.0.size == ToUint64(|ReadAll(f, marshal).value|)
    ensures r.1 != None ==> r.0.size == a.size
  {
    FileModeBits();
    var b := a.(inode := f.node.inode, mode := FileMode);
    match GetSize(f, marshal)
    case Err(_) => (b, Some(EIO))
    case Ok(size) => (b.(size := size), None)
  }

  /** The size `Attr` reports is the length of what reading the file
      returns, for any content Go can hold in memory. */
  lemma AttrSizeMatchesReadAll(f: File, a: Attr, marshal: Serializer)
    requires ReadAll(f, marshal).Ok?
    requires |ReadAll(f, marshal).value| < 0x1_0000_0000_0000_0000
    ensures FileAttr(f, a, marshal).1 == None
    ensures FileAttr(f, a, marshal).0.size == |ReadAll(f, marshal).value|
  {
  }
}
