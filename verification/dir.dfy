/** Directory nodes: the path a directory stands for, its attributes, looking
    a name up in it, and listing it. */
module DirNode {
  import opened Base
  import opened GoPath
  import opened Inode
  import opened Nodes

  /** `Dir.String`: the directory's key path, `path.Join(prefix, name)`. */
  function DirString(d: Dir): (s: GoString)
    ensures s == [] <==> d.node.prefix == [] && d.node.name == []
    ensures s != [] ==> Clean(s) == s
  {
    Join(d.node.prefix, d.node.name)
  }

  /** `Dir.Attr`: writes the inode and a read-only directory mode into the
      attributes it is handed and leaves the size alone; it cannot fail. */
  function DirAttr(d: Dir, a: Attr): (r: Attr)
    ensures r.inode == d.node.inode
    ensures r.mode == DirMode
    ensures IsDirMode(r.mode) && Perm(r.mode) == PermReadExec
    ensures !Writable(r.mode) && !ReadRestricted(r.mode)
    ensures HasBit(r.mode, 6) && HasBit(r.mode, 3) && HasBit(r.mode, 0)
    ensures r.size == a.size
  {
    DirModeBits();
    a.(inode := d.node.inode, mode := DirMode)
  }

  /** The key `Dir.Lookup` reads: `path.Join(d.String(), name)`. */
  function LookupPath(d: Dir, name: GoString): GoString {
    Join(DirString(d), name)
  }

  /** `Dir.Lookup`: a failed read is EIO, a missing secret is ENOENT, and a
      found secret becomes a file node named `name` whose inode is derived
      from the absolute path with the directory kind. */
  function Lookup(d: Dir, name: GoString): (r: Result<File, Errno>)
    ensures r == Err(EIO) <==> d.logic.read(LookupPath(d, name)).Err?
    ensures r == Err(ENOENT) <==> d.logic.read(LookupPath(d, name)) == Ok(None)
    ensures r.Ok? <==> d.logic.read(LookupPath(d, name)).Ok? && d.logic.read(LookupPath(d, name)).value.Some?
    ensures r.Ok? ==>
      && d.logic.read(LookupPath(d, name)) == Ok(Some(r.value.secret))
      && r.value.node.name == name
      && r.value.node.inode == HashInode(LookupPath(d, name), DT_Dir)
      && r.value.node.prefix == d.node.prefix
  {
    var abspath := LookupPath(d, name);
    match d.logic.read(abspath)
    case Err(_) => Err(EIO)
    case Ok(None) => Err(ENOENT)
    case Ok(Some(secret)) =>
      Ok(File(Node(HashInode(abspath, DT_Dir), name, d.node.prefix), secret))
  }

  /** Joining onto an already clean path with an empty element gives the path. */
  lemma JoinCleanEmpty(p: GoString)
    requires p != [] ==> Clean(p) == p
    ensures Join(p, []) == p
  {
    if p != [] {
      assert p + [Slash] + [] == p + [Slash];
      CleanTrailingSlash(p);
    }
  }

  /** A plain name is looked up directly inside the directory's path: the
      lookup key is the directory path with one more element, and never
      outside it. */
  lemma LookupPathIsChild(d: Dir, name: GoString)
    requires Plain(name)
    ensures LookupPath(d, name) == Child(DirString(d), name)
  {
    JoinPlainChild(DirString(d), name);
    JoinCleanEmpty(DirString(d));
  }

  /** `NewNode(abspath, dt)`: the inode is derived from the path with the
      directory kind, whatever kind is asked for; nothing else is set. */
  function NewNode(abspath: GoString, dt: DirentType): (n: Node)
    ensures n.inode == HashInode(abspath, DT_Dir)
    ensures n.name == [] && n.prefix == []
  {
    Node(HashInode(abspath, DT_Dir), [], [])
  }

  /** The kind passed to `NewNode` has no effect on the node. */
  lemma NewNodeIgnoresKind(abspath: GoString, d1: DirentType, d2: DirentType)
    ensures NewNode(abspath, d1) == NewNode(abspath, d2)
    ensures NewNode(abspath, d1).inode == HashInode(abspath, DT_Dir)
  {
  }

  /** `strings.HasSuffix(key, "/")`. */
  predicate EndsInSlash(key: GoString) {
    key != [] && key[|key| - 1] == Slash
  }

  /** The classifier in `Dir.ReadDirAll`: a trailing slash marks a directory
      and exactly that one slash is removed; anything else is a file. */
  function Classify(key: GoString): (GoString, DirentType) {
    if EndsInSlash(key) then (key[..|key| - 1], DT_Dir) else (key, DT_File)
  }

  /** The key a classified entry came from. */
  function Unclassify(name: GoString, dt: DirentType): GoString {
    if dt == DT_Dir then name + [Slash] else name
  }

  /** Classification loses nothing: the key is recovered from the entry. */
  lemma ClassifyRoundTrip(key: GoString)
    ensures Unclassify(Classify(key).0, Classify(key).1) == key
    ensures Classify(key).1 == DT_Dir <==> EndsInSlash(key)
    ensures Classify(key).1 == DT_Dir || Classify(key).1 == DT_File
  {
  }

  /** Entries classify back to themselves: a directory name gets exactly one
      slash back (even if it already ends in one), a file name is unchanged
      as long as it has no trailing slash. */
  lemma UnclassifyRoundTrip(name: GoString, dt: DirentType)
    requires dt == DT_Dir || (dt == DT_File && !EndsInSlash(name))
    ensures Classify(Unclassify(name, dt)) == (name, dt)
  {
    if dt == DT_Dir {
      assert (name + [Slash])[..|name|] == name;
    }
  }

  /** One directory entry, named and typed by the classifier, with the inode
      derived from the bare name. */
  function Entry(key: GoString): (e: Dirent)
    ensures Unclassify(e.name, e.typ) == key
    ensures e.typ == DT_Dir <==> EndsInSlash(key)
    ensures e.typ == DT_Dir || e.typ == DT_File
    ensures e.inode == HashInode(e.name, e.typ)
  {
    ClassifyRoundTrip(key);
    var (name, dt) := Classify(key);
    Dirent(name, HashInode(name, dt), dt)
  }

  /** The entries of a key list: the loop appends the classification of
      each key in turn, so entry `i` comes from key `i`. */
  function Entries(keys: seq<GoString>): seq<Dirent> {
    seq(|keys|, i requires 0 <= i < |keys| => Entry(keys[i]))
  }

  /** `Dir.ReadDirAll`: lists the directory's own path; a failed listing is
      EIO, a listing without keys is empty, and otherwise there is one entry
      per key, in order. */
  function ReadDirAll(d: Dir): (r: Result<seq<Dirent>, Errno>)
    ensures r == Err(EIO) <==> d.logic.list(DirString(d)).Err?
    ensures d.logic.list(DirString(d)) == Ok(None) ==> r == Ok([])
    ensures d.logic.list(DirString(d)).Ok? && d.logic.list(DirString(d)).value.Some? ==>
      var keys := d.logic.list(DirString(d)).value.value;
      && r.Ok?
      && |r.value| == |keys|
      && forall i :: 0 <= i < |keys| ==>
           && Unclassify(r.value[i].name, r.value[i].typ) == keys[i]
           && (r.value[i].typ == DT_Dir <==> EndsInSlash(keys[i]))
           && (r.value[i].typ == DT_Dir || r.value[i].typ == DT_File)
           && r.value[i].inode == HashInode(r.value[i].name, r.value[i].typ)
  {
    match d.logic.list(DirString(d))
    case Err(_) => Err(EIO)
    case Ok(None) => Ok([])
    case Ok(Some(keys)) => Ok(Entries(keys))
  }

  /** A file's listing inode and its lookup inode are checksums of different
      texts, so they agree only by a CRC-64 collision: the listing hashes the
      bare name with the file kind, the lookup hashes the absolute path with
      the directory kind. */
  lemma ListingAndLookupHashDiffer(d: Dir, key: GoString)
    requires !EndsInSlash(key)
    ensures Entry(key).typ == DT_File
    ensures HashInput(Entry(key).name, Entry(key).typ) != HashInput(LookupPath(d, key), DT_Dir)
  {
    HashInputInjective(key, DT_File, LookupPath(d, key), DT_Dir);
  }
}
