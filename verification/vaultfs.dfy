/** The filesystem value: construction, its root directory, and the
    unmount sequence with its order of failures. */
module VaultFs {
  import opened Base
  import opened GoPath
  import opened Inode
  import opened Nodes
  import opened DirNode

  /** The outcomes of a mounted FUSE connection that `Unmount` observes:
      what `conn.Close()` returns, and `conn.MountError` once the connection
      reports ready. */
  datatype Conn = Conn(closeResult: Option<ExtError>, mountError: Option<ExtError>)

  /** `VaultFS`: the Vault client (seen through its logical backend), the key
      prefix, the FUSE connection once mounted, and the mount point. */
  datatype VaultFS = VaultFS(client: Store, prefix: GoString, conn: Option<Conn>, mountpoint: GoString)

  /** `New`: fails exactly when the client cannot be built, with that error;
      otherwise keeps the prefix and mount point as given, not yet mounted.
      `clientResult` is what `api.NewClient(config)` returned. */
  function New(clientResult: Result<Store, ExtError>, mountpoint: GoString, prefix: GoString): (r: Result<VaultFS, ExtError>)
    ensures r.Err? <==> clientResult.Err?
    ensures r.Err? ==> r.error == clientResult.error
    ensures r.Ok? ==>
      && r.value.client == clientResult.value
      && r.value.prefix == prefix
      && r.value.mountpoint == mountpoint
      && r.value.conn == None
  {
    match clientResult
    case Err(e) => Err(e)
    case Ok(client) => Ok(VaultFS(client, prefix, None, mountpoint))
  }

  /** `Root`: the directory with the empty name, the inode of the empty path
      with the directory kind, the filesystem's prefix, and the client's
      logical backend. */
  function Root(v: VaultFS): (d: Dir)
    ensures d.node.name == []
    ensures d.node.inode == HashInode([], DT_Dir)
    ensures d.node.prefix == v.prefix
    ensures d.logic == v.client
    ensures DirString(d) == Join(v.prefix, [])
  {
    var name: GoString := [];
    Dir(Node(HashInode(name, DT_Dir), name, v.prefix), v.client)
  }

  /** The root directory stands for the cleaned prefix itself. */
  lemma RootStandsForPrefix(v: VaultFS)
    requires v.prefix != []
    ensures DirString(Root(v)) == Clean(v.prefix)
  {
    assert v.prefix + [Slash] + [] == v.prefix + [Slash];
    CleanTrailingSlash(v.prefix);
  }

  /** A root built from a fresh filesystem carries exactly the configured
      prefix. */
  lemma RootOfNew(clientResult: Result<Store, ExtError>, mountpoint: GoString, prefix: GoString)
    requires New(clientResult, mountpoint, prefix).Ok?
    ensures Root(New(clientResult, mountpoint, prefix).value).node.prefix == prefix
    ensures Root(New(clientResult, mountpoint, prefix).value).logic == clientResult.value
  {
  }

  /** Why `Unmount` failed. */
  datatype UnmountError = NotMounted | Failed(cause: ExtError)

  /** The calls `Unmount` makes on its collaborators, in order. */
  datatype Call = UnmountCall(mountpoint: GoString) | CloseCall | AwaitReady

  /** `Unmount`: refuses when not mounted; otherwise unmounts the mount point,
      closes the connection and waits for it to be ready, stopping at the
      first failure and returning it. `unmount` is `fuse.Unmount`. The
      result pairs the error, if any, with the calls made. */
  function Unmount(v: VaultFS, unmount: GoString -> Option<ExtError>): (r: (Option<UnmountError>, seq<Call>))
    ensures r.0 == Some(NotMounted) <==> v.conn == None
    ensures v.conn == None ==> r.1 == []
    ensures r.0 == None <==>
      v.conn.Some? && unmount(v.mountpoint) == None
      && v.conn.value.closeResult == None && v.conn.value.mountError == None
    ensures v.conn.Some? ==> r.1 != [] && r.1[0] == UnmountCall(v.mountpoint)
    ensures CloseCall in r.1 ==> unmount(v.mountpoint) == None
    ensures AwaitReady in r.1 ==> v.conn.value.closeResult == None
  {
    match v.conn
    case None => (Some(NotMounted), [])
    case Some(conn) =>
      match unmount(v.mountpoint)
      case Some(e) => (Some(Failed(e)), [UnmountCall(v.mountpoint)])
      case None =>
        match conn.closeResult
        case Some(e) => (Some(Failed(e)), [UnmountCall(v.mountpoint), CloseCall])
        case None =>
          var calls := [UnmountCall(v.mountpoint), CloseCall, AwaitReady];
          match conn.mountError
          case Some(e) => (Some(Failed(e)), calls)
          case None => (None, calls)
  }

  /** The outcomes of the three steps, in the order they are attempted. */
  function Outcomes(conn: Conn, unmountResult: Option<ExtError>): seq<Option<ExtError>> {
    [unmountResult, conn.closeResult, conn.mountError]
  }

  /** The calls of a complete unmount, one per step of `Outcomes`. */
  function Steps(mountpoint: GoString): seq<Call> {
    [UnmountCall(mountpoint), CloseCall, AwaitReady]
  }

  /** Reference: the position of the first failed outcome, or the length
      when none failed. */
  function FirstFailure(outcomes: seq<Option<ExtError>>): (k: nat)
    ensures k <= |outcomes|
    ensures forall j :: 0 <= j < k ==> outcomes[j] == None
    ensures k < |outcomes| ==> outcomes[k].Some?
    decreases |outcomes|
  {
    if outcomes == [] then 0
    else if outcomes[0].Some? then 0
    else 1 + FirstFailure(outcomes[1..])
  }

  /** On a mounted filesystem, `Unmount` reports the first failed step and
      makes exactly the calls up to and including it: the error precedence
      is unmount, then close, then the mount error. */
  lemma UnmountReportsFirstFailure(v: VaultFS, unmount: GoString -> Option<ExtError>)
    requires v.conn.Some?
    ensures var outcomes := Outcomes(v.conn.value, unmount(v.mountpoint));
      var k := FirstFailure(outcomes);
      && (k < 3 ==> Unmount(v, unmount).0 == Some(Failed(outcomes[k].value)))
      && (k == 3 ==> Unmount(v, unmount).0 == None)
      && Unmount(v, unmount).1 == Steps(v.mountpoint)[..if k < 3 then k + 1 else 3]
  {
    var conn := v.conn.value;
    var outcomes := Outcomes(conn, unmount(v.mountpoint));
    assert outcomes[1..] == [conn.closeResult, conn.mountError];
    assert outcomes[1..][1..] == [conn.mountError];
    assert outcomes[1..][1..][1..] == [];
    var steps := Steps(v.mountpoint);
    assert steps[..1] == [UnmountCall(v.mountpoint)];
    assert steps[..2] == [UnmountCall(v.mountpoint), CloseCall];
    assert steps[..3] == steps;
    if unmount(v.mountpoint).Some? {
      assert FirstFailure(outcomes) == 0;
    } else if conn.closeResult.Some? {
      assert FirstFailure(outcomes) == 1;
    } else if conn.mountError.Some? {
      assert FirstFailure(outcomes[1..][1..]) == 0;
      assert FirstFailure(outcomes) == 2;
    } else {
      assert FirstFailure(outcomes[1..][1..][1..]) == 0;
      assert FirstFailure(outcomes[1..][1..]) == 1;
      assert FirstFailure(outcomes) == 3;
    }
  }

  /** A filesystem fresh from `New` has never been mounted: unmounting it
      fails without calling anything. */
  lemma UnmountAfterNew(clientResult: Result<Store, ExtError>, mountpoint: GoString, prefix: GoString,
                        unmount: GoString -> Option<ExtError>)
    requires New(clientResult, mountpoint, prefix).Ok?
    ensures Unmount(New(clientResult, mountpoint, prefix).value, unmount) == (Some(NotMounted), [])
  {
  }
}
