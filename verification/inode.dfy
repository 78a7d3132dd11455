/** Inode derivation (`HashInode`): the CRC-64/ISO checksum of the text
    `"<kind>:<path>"`, where `<kind>` is the FUSE directory-entry type
    printed in decimal. */
module Inode {
  import opened Base
  import Crc64

  /** `fuse.DirentType`, a 32-bit unsigned integer. */
  type DirentType = x: nat | x < 0x1_0000_0000

  /** `fuse.DT_Dir` and `fuse.DT_File`: the S_IFDIR and S_IFREG file-type
      bits shifted right by twelve. */
  const DT_Dir: DirentType := 4
  const DT_File: DirentType := 8

  const Colon: byte := 0x3A

  /** The ASCII digits '0' to '9'. */
  const DigitBytes: seq<byte> := [0x30, 0x31, 0x32, 0x33, 0x34, 0x35, 0x36, 0x37, 0x38, 0x39]

  predicate IsDigit(b: byte) {
    0x30 <= b <= 0x39
  }

  function DigitValue(b: byte): (d: nat)
    requires IsDigit(b)
    ensures d < 10 && DigitBytes[d] == b
  {
    if b == 0x30 then 0 else if b == 0x31 then 1 else if b == 0x32 then 2
    else if b == 0x33 then 3 else if b == 0x34 then 4 else if b == 0x35 then 5
    else if b == 0x36 then 6 else if b == 0x37 then 7 else if b == 0x38 then 8
    else 9
  }

  /** `%d`: the decimal digits of `n`, most significant first, no leading zero. */
  function Decimal(n: nat): (s: GoString)
    ensures |s| >= 1
    ensures forall i :: 0 <= i < |s| ==> IsDigit(s[i])
    decreases n
  {
    if n < 10 then [DigitBytes[n]] else Decimal(n / 10) + [DigitBytes[n % 10]]
  }

  /** The number a string of decimal digits denotes. */
  function DecimalValue(s: GoString): nat
    requires forall i :: 0 <= i < |s| ==> IsDigit(s[i])
    decreases |s|
  {
    if s == [] then 0 else DecimalValue(s[..|s| - 1]) * 10 + DigitValue(s[|s| - 1])
  }

  /** The bytes `HashInode` checksums: `fmt.Sprintf("%d:%s", dt, path)`. */
  function HashInput(path: GoString, dt: DirentType): GoString {
    Decimal(dt) + [Colon] + path
  }

  /** `HashInode(path, dt)`: a pure function of its two arguments. */
  function HashInode(path: GoString, dt: DirentType): uint64 {
    Crc64.Checksum(HashInput(path, dt))
  }

  /** Position of the first colon, or the length when there is none. */
  function ColonIndex(s: GoString): (i: nat)
    ensures i <= |s|
    ensures forall j :: 0 <= j < i ==> s[j] != Colon
    ensures i < |s| ==> s[i] == Colon
  {
    if s == [] then 0
    else if s[0] == Colon then 0
    else 1 + ColonIndex(s[1..])
  }

  /** Reads a checksummed text back into the kind and the path. */
  function ParseHashInput(s: GoString): Option<(DirentType, GoString)> {
    var i := ColonIndex(s);
    if i == |s| || i == 0 then None
    else if exists j :: 0 <= j < i && !IsDigit(s[j]) then None
    else
      var v := DecimalValue(s[..i]);
      if v < 0x1_0000_0000 then Some((v, s[i + 1..])) else None
  }

  lemma {:induction false} DecimalRoundTrip(n: nat)
    ensures DecimalValue(Decimal(n)) == n
    decreases n
  {
    if n >= 10 {
      DecimalRoundTrip(n / 10);
      var s := Decimal(n);
      assert s == Decimal(n / 10) + [DigitBytes[n % 10]];
      assert s[..|s| - 1] == Decimal(n / 10);
      assert DigitValue(s[|s| - 1]) == n % 10;
      assert DecimalValue(s) == DecimalValue(Decimal(n / 10)) * 10 + n % 10;
      assert (n / 10) * 10 + n % 10 == n;
    }
  }

  /** The checksummed text is the decimal kind, one colon and the path,
      and nothing else: it reads back as exactly the pair it was made from. */
  lemma ParseHashInputRoundTrip(path: GoString, dt: DirentType)
    ensures ParseHashInput(HashInput(path, dt)) == Some((dt, path))
  {
    var d := Decimal(dt);
    var s := HashInput(path, dt);
    assert forall j :: 0 <= j < |d| ==> s[j] == d[j];
    ColonIndexAfterDigits(s, |d|);
    assert s[..|d|] == d;
    assert s[|d| + 1..] == path;
    DecimalRoundTrip(dt);
  }

  lemma ColonIndexAfterDigits(s: GoString, k: nat)
    requires k < |s| && s[k] == Colon
    requires forall j :: 0 <= j < k ==> IsDigit(s[j])
    ensures ColonIndex(s) == k
  {
  }

  /** Distinct (path, kind) pairs are checksummed over distinct texts, so two
      inodes can only coincide by a CRC-64 collision. */
  lemma HashInputInjective(p1: GoString, d1: DirentType, p2: GoString, d2: DirentType)
    ensures HashInput(p1, d1) == HashInput(p2, d2) <==> p1 == p2 && d1 == d2
  {
    if HashInput(p1, d1) == HashInput(p2, d2) {
      ParseHashInputRoundTrip(p1, d1);
      ParseHashInputRoundTrip(p2, d2);
    }
  }
}
