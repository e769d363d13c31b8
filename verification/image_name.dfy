/**
 The executable name of a path (utils.go:88-108): the last component after
 trailing `\` bytes and the volume name are removed. Only `\` counts here,
 so `/` survives both the trimming and the component search, even though the
 volume name itself may be spelled with `/`.
 */
module ImageName {
  import opened Ascii
  import opened Volume

  /** The length of `p[..k]` once its trailing run of `\` bytes is removed. */
  function TrimmedLength(p: seq<byte>, k: nat): (n: nat)
    requires k <= |p|
    ensures n <= k
    ensures n == 0 || p[n - 1] != BACKSLASH
    ensures forall j :: n <= j < k ==> p[j] == BACKSLASH
    decreases k
  {
    if k > 0 && p[k - 1] == BACKSLASH then TrimmedLength(p, k - 1)
    else k
  }

  /** `p` without its trailing run of `\` bytes; a trailing `/` stays. */
  function TrimTrailingBackslashes(p: seq<byte>): (t: seq<byte>)
    ensures t <= p
    ensures t == [] || t[|t| - 1] != BACKSLASH
    ensures forall j :: |t| <= j < |p| ==> p[j] == BACKSLASH
  {
    p[..TrimmedLength(p, |p|)]
  }

  /** The index of the last `\` in `s[..k]`, or -1 when there is none. */
  function LastBackslash(s: seq<byte>, k: nat): (i: int)
    requires k <= |s|
    ensures -1 <= i < k
    ensures i >= 0 ==> s[i] == BACKSLASH
    ensures forall j :: i < j < k ==> s[j] != BACKSLASH
    decreases k
  {
    if k == 0 then -1
    else if s[k - 1] == BACKSLASH then k - 1
    else LastBackslash(s, k - 1)
  }

  /**
   `r` is the last `\`-separated component of `s`: a suffix of `s` holding no
   `\`, and either all of `s` or preceded in `s` by a `\`.
   */
  ghost predicate IsLastComponent(s: seq<byte>, r: seq<byte>) {
    |r| <= |s| && r == s[|s| - |r|..]
    && BACKSLASH !in r
    && (|r| == |s| || s[|s| - |r| - 1] == BACKSLASH)
  }

  /** `s` after its volume name. */
  function DropVolume(s: seq<byte>): seq<byte> {
    s[VolumeNameLen(s)..]
  }

  /** Dropping the volume name leaves a suffix of `s`, and all of `s` exactly when there is no volume name. */
  lemma DropVolumeIsSuffix(s: seq<byte>)
    ensures |DropVolume(s)| <= |s| && DropVolume(s) == s[|s| - |DropVolume(s)|..]
    ensures VolumeNameLen(s) == 0 <==> DropVolume(s) == s
  {
    if DropVolume(s) == s {
      assert |s[VolumeNameLen(s)..]| == |s| - VolumeNameLen(s);
    }
  }

  /** The part of `s` after its last `\`, or all of `s` when it holds none. */
  function LastComponent(s: seq<byte>): (r: seq<byte>)
    ensures IsLastComponent(s, r)
  {
    var i := LastBackslash(s, |s|);
    if i >= 0 then
      assert |s| - |s[i + 1..]| == i + 1;
      s[i + 1..]
    else s
  }

  /** The source's `GetImageName`. */
  function GetImageName(p: seq<byte>): (r: seq<byte>)
    ensures p == [] ==> r == []
    ensures BACKSLASH !in r
    ensures IsLastComponent(DropVolume(TrimTrailingBackslashes(p)), r)
  {
    if p == [] then []
    else LastComponent(DropVolume(TrimTrailingBackslashes(p)))
  }

  /** A string has exactly one last component, so the contract above pins the result down. */
  lemma LastComponentUnique(s: seq<byte>, r1: seq<byte>, r2: seq<byte>)
    requires IsLastComponent(s, r1) && IsLastComponent(s, r2)
    ensures r1 == r2
  {
  }

  /** The result is a contiguous piece of the input. */
  lemma ImageNameIsInfix(p: seq<byte>) returns (k: nat)
    ensures k + |GetImageName(p)| <= |p|
    ensures p[k..k + |GetImageName(p)|] == GetImageName(p)
  {
    var t := TrimTrailingBackslashes(p);
    k := LastComponentOfPrefix(p, t, VolumeNameLen(t), GetImageName(p));
  }

  /** The last component of a prefix, past its first `v` bytes, sits inside `p`. */
  lemma LastComponentOfPrefix(p: seq<byte>, t: seq<byte>, v: nat, r: seq<byte>) returns (k: nat)
    requires t <= p && v <= |t|
    requires IsLastComponent(t[v..], r)
    ensures k + |r| <= |p| && p[k..k + |r|] == r
  {
    SuffixOfPrefix(p, t, t[v..], r);
    k := |t| - |r|;
  }

  /** A suffix of a suffix of a prefix of `p` is a contiguous piece of `p`. */
  lemma SuffixOfPrefix(p: seq<byte>, t: seq<byte>, rest: seq<byte>, r: seq<byte>)
    requires t <= p && |rest| <= |t| && rest == t[|t| - |rest|..]
    requires |r| <= |rest| && r == rest[|rest| - |r|..]
    ensures p[|t| - |r|..|t|] == r
  {
  }

  /** A path with no `\` and no volume name is its own image name. */
  lemma PlainNameUnchanged(p: seq<byte>)
    requires BACKSLASH !in p && VolumeNameLen(p) == 0
    ensures GetImageName(p) == p
  {
    var t := TrimTrailingBackslashes(p);
    assert t == p;
    var r := GetImageName(p);
    LastComponentUnique(p, r, p);
  }

  /**
   Applying the extraction twice changes nothing, provided the first result
   does not itself start with a volume name.
   */
  lemma IdempotentWithoutVolume(p: seq<byte>)
    requires VolumeNameLen(GetImageName(p)) == 0
    ensures GetImageName(GetImageName(p)) == GetImageName(p)
  {
    PlainNameUnchanged(GetImageName(p));
  }

  /**
   The result for a path that is `t` followed by a run of `\` bytes, when
   the last component of `t` past its volume name is `r`.
   */
  lemma ImageNameFromParts(p: seq<byte>, t: seq<byte>, r: seq<byte>)
    requires t <= p && (t == [] || t[|t| - 1] != BACKSLASH)
    requires forall j :: |t| <= j < |p| ==> p[j] == BACKSLASH
    requires IsLastComponent(DropVolume(t), r)
    ensures GetImageName(p) == r
  {
    assert TrimTrailingBackslashes(p) == t;
    if p == [] {
      assert DropVolume(t) == [];
    } else {
      LastComponentUnique(DropVolume(t), GetImageName(p), r);
    }
  }

  /** `C:\D:foo` */
  const DriveThenDrive: seq<byte> := [0x43, 0x3A, 0x5C, 0x44, 0x3A, 0x66, 0x6F, 0x6F]
  /** `D:foo` */
  const DriveFoo: seq<byte> := [0x44, 0x3A, 0x66, 0x6F, 0x6F]
  /** `foo` */
  const Foo: seq<byte> := [0x66, 0x6F, 0x6F]

  /**
   The extraction is not idempotent in general: a drive letter left inside
   the last component survives one pass, `C:\D:foo` naming `D:foo` ...
   */
  lemma NotIdempotentFirstPass()
    ensures GetImageName(DriveThenDrive) == DriveFoo
  {
    var p, r := DriveThenDrive, DriveFoo;
    assert HasDriveLetter(p) && DropVolume(p) == p[2..];
    assert p[2..][1..] == r;
    ImageNameFromParts(p, p, r);
  }

  /** ... and is removed by a second pass, `D:foo` naming `foo`. */
  lemma NotIdempotentSecondPass()
    ensures GetImageName(DriveFoo) == Foo
  {
    var p, r := DriveFoo, Foo;
    assert HasDriveLetter(p) && DropVolume(p) == p[2..];
    assert p[2..] == r;
    ImageNameFromParts(p, p, r);
  }

  /** `C:\foo\bar.exe` */
  const DrivePath: seq<byte> := [0x43, 0x3A, 0x5C, 0x66, 0x6F, 0x6F, 0x5C, 0x62, 0x61, 0x72, 0x2E, 0x65, 0x78, 0x65]
  /** `bar.exe` */
  const BarExe: seq<byte> := [0x62, 0x61, 0x72, 0x2E, 0x65, 0x78, 0x65]

  /** A drive path names its last component: `C:\foo\bar.exe` names `bar.exe`. */
  lemma DrivePathExample()
    ensures GetImageName(DrivePath) == BarExe
  {
    var p, r := DrivePath, BarExe;
    assert HasDriveLetter(p) && DropVolume(p) == p[2..];
    assert p[2..][4] == BACKSLASH && p[2..][5..] == r;
    ImageNameFromParts(p, p, r);
  }

  /** `C:\foo\bar\\` */
  const TrailingBackslashesPath: seq<byte> := [0x43, 0x3A, 0x5C, 0x66, 0x6F, 0x6F, 0x5C, 0x62, 0x61, 0x72, 0x5C, 0x5C]
  /** `bar` */
  const Bar: seq<byte> := [0x62, 0x61, 0x72]

  /** Trailing `\` bytes are ignored: `C:\foo\bar\\` names `bar`. */
  lemma TrailingBackslashesExample()
    ensures GetImageName(TrailingBackslashesPath) == Bar
  {
    var p, r := TrailingBackslashesPath, Bar;
    var t := p[..10];
    assert HasDriveLetter(t) && DropVolume(t) == t[2..];
    assert t[2..][4] == BACKSLASH && t[2..][5..] == r;
    ImageNameFromParts(p, t, r);
  }

  /** `C:\foo/` */
  const ForwardSlashPath: seq<byte> := [0x43, 0x3A, 0x5C, 0x66, 0x6F, 0x6F, 0x2F]
  /** `foo/` */
  const FooSlash: seq<byte> := [0x66, 0x6F, 0x6F, 0x2F]

  /** `/` is neither trimmed nor searched for: `C:\foo/` names `foo/`. */
  lemma ForwardSlashKept()
    ensures GetImageName(ForwardSlashPath) == FooSlash
  {
    var p, r := ForwardSlashPath, FooSlash;
    assert HasDriveLetter(p) && DropVolume(p) == p[2..];
    assert p[2..][1..] == r;
    ImageNameFromParts(p, p, r);
  }

  /** The source's first loop: drop trailing `\` bytes one at a time. */
  method ScanTrim(p: seq<byte>) returns (path: seq<byte>)
    ensures path == TrimTrailingBackslashes(p)
  {
    path := p;
    while |path| > 0 && path[|path| - 1] == BACKSLASH
      invariant path == p[..|path|]
      invariant TrimmedLength(p, |path|) == TrimmedLength(p, |p|)
    {
      path := path[0..|path| - 1];
    }
  }

  /** The source's second loop: scan backward from the end for a `\`. */
  method ScanLastBackslash(path: seq<byte>) returns (i: int)
    ensures i == LastBackslash(path, |path|)
  {
    i := |path| - 1;
    while i >= 0 && path[i] != BACKSLASH
      invariant -1 <= i < |path|
      invariant forall j :: i < j < |path| ==> path[j] != BACKSLASH
    {
      i := i - 1;
    }
    LastBackslashIsUnique(path, |path|, i);
  }

  /** A `\` with none after it, or -1 when there is none at all, is the last one. */
  lemma LastBackslashIsUnique(s: seq<byte>, k: nat, i: int)
    requires -1 <= i < k <= |s|
    requires i >= 0 ==> s[i] == BACKSLASH
    requires forall j :: i < j < k ==> s[j] != BACKSLASH
    ensures LastBackslash(s, k) == i
  {
  }

  /**
   The source's `GetImageName` with its loops: trailing `\` bytes are
   dropped, the volume name is cut off, and a backward scan finds the last `\`.
   */
  method ScanImageName(p: seq<byte>) returns (name: seq<byte>)
    ensures name == GetImageName(p)
  {
    if p == [] {
      return [];
    }
    var path := ScanTrim(p);
    path := path[VolumeNameLen(path)..];
    assert path == DropVolume(TrimTrailingBackslashes(p));
    var i := ScanLastBackslash(path);
    if i >= 0 {
      path := path[i + 1..];
    }
    return path;
  }
}
