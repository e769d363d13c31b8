/**
 Whether a Windows path is absolute (utils.go:72-86): a reserved device name
 is, and otherwise the path needs a volume name followed by a separator.
 */
module Absolute {
  import opened Ascii
  import opened Reserved
  import opened Volume

  /**
   The source's `WindowsIsAbs`. A path is absolute exactly when it is a
   device name, a drive letter followed by a separator, or a UNC
   `\\server\share` prefix followed by anything at all.
   */
  function WindowsIsAbs(p: seq<byte>): (b: bool)
    ensures |p| == 0 ==> !b
    ensures b <==>
              IsReservedName(p)
              || (HasDriveLetter(p) && |p| > 2 && IsSlash(p[2]))
              || (exists server: nat, n: nat :: IsUncPrefix(p, server, n) && n < |p|)
  {
    SeparatorAfterVolumeIff(p);
    if IsReservedName(p) then true
    else
      var l := VolumeNameLen(p);
      if l == 0 then false
      else
        var rest := p[l..];
        if rest == [] then false
        else IsSlash(rest[0])
  }

  /**
   A volume name followed by a separator, stated without the volume-length
   arithmetic: a drive letter followed by a separator, or a UNC prefix with
   at least one more byte, which is then necessarily a separator.
   */
  lemma SeparatorAfterVolumeIff(p: seq<byte>)
    ensures (0 < VolumeNameLen(p) < |p| && IsSlash(p[VolumeNameLen(p)])) <==>
              (HasDriveLetter(p) && |p| > 2 && IsSlash(p[2]))
              || (exists server: nat, n: nat :: IsUncPrefix(p, server, n) && n < |p|)
  {
    var v := VolumeNameLen(p);
    if v != 0 && v != 2 {
      UncSound(p);
    }
    if exists server: nat, n: nat :: IsUncPrefix(p, server, n) && n < |p| {
      var server: nat, n: nat :| IsUncPrefix(p, server, n) && n < |p|;
      UncComplete(p, server, n);
    }
    if v == 2 {
      DriveLetterIff(p);
    }
  }

  /** `C:foo` */
  const DriveRelativePath: seq<byte> := [0x43, 0x3A, 0x66, 0x6F, 0x6F]

  /** A drive letter without a separator after it is relative: `C:foo`. */
  lemma DriveRelative()
    ensures !WindowsIsAbs(DriveRelativePath)
  {
    var p := DriveRelativePath;
    ReservedNameShape(p);
    assert HasDriveLetter(p);
  }

  /** `C:\foo` */
  const DriveAbsolutePath: seq<byte> := [0x43, 0x3A, 0x5C, 0x66, 0x6F, 0x6F]

  /** A drive letter followed by a separator is absolute: `C:\foo`. */
  lemma DriveAbsolute()
    ensures WindowsIsAbs(DriveAbsolutePath)
  {
    var p := DriveAbsolutePath;
    ReservedNameShape(p);
    assert HasDriveLetter(p);
  }

  /** `\\server\share` */
  const BareShare: seq<byte> := [0x5C, 0x5C, 0x73, 0x65, 0x72, 0x76, 0x65, 0x72, 0x5C, 0x73, 0x68, 0x61, 0x72, 0x65]

  /** A bare UNC prefix is relative: `\\server\share`. */
  lemma BareShareIsRelative()
    ensures !WindowsIsAbs(BareShare)
  {
    var p := BareShare;
    ShareVolume(p);
  }

  /** `\\server\share\` */
  const ShareWithSeparator: seq<byte> := [0x5C, 0x5C, 0x73, 0x65, 0x72, 0x76, 0x65, 0x72, 0x5C, 0x73, 0x68, 0x61, 0x72, 0x65, 0x5C]

  /** A UNC prefix with a separator after the share name is absolute: `\\server\share\`. */
  lemma ShareWithSeparatorIsAbsolute()
    ensures WindowsIsAbs(ShareWithSeparator)
  {
    var p := ShareWithSeparator;
    ShareVolume(p);
  }

  /** `\\server\share`, alone or followed by `\`, has a 14-byte volume name and is not reserved. */
  lemma ShareVolume(p: seq<byte>)
    requires |p| == 14 || (|p| == 15 && p[14] == BACKSLASH)
    requires p[..14] == [0x5C, 0x5C, 0x73, 0x65, 0x72, 0x76, 0x65, 0x72, 0x5C, 0x73, 0x68, 0x61, 0x72, 0x65]
    ensures !IsReservedName(p) && VolumeNameLen(p) == 14
  {
    ReservedNameShape(p);
    assert p[..14][8] == p[8];
    assert NoSlashIn(p, 2, 8) && NoSlashIn(p, 9, 14) by {
      assert forall i :: 0 <= i < 14 ==> p[..14][i] == p[i];
    }
    UncComplete(p, 8, 14);
  }

  /** `PRN` */
  const PrnUpper: seq<byte> := [0x50, 0x52, 0x4E]
  /** `prn` */
  const PrnLower: seq<byte> := [0x70, 0x72, 0x6E]

  /** Device names are absolute in any letter case: `PRN`, `prn`. */
  lemma DeviceNamesAreAbsolute()
    ensures WindowsIsAbs(PrnUpper) && WindowsIsAbs(PrnLower)
  {
    assert ReservedNames[1] == PrnUpper;
    assert Upper(PrnUpper) == PrnUpper && Upper(PrnLower) == PrnUpper;
    EqualFoldIffSameUpper(PrnUpper, ReservedNames[1]);
    EqualFoldIffSameUpper(PrnLower, ReservedNames[1]);
  }

  /** `folder\PRN` */
  const DeviceInFolder: seq<byte> := [0x66, 0x6F, 0x6C, 0x64, 0x65, 0x72, 0x5C, 0x50, 0x52, 0x4E]

  /** The device-name match is on the whole path: `folder\PRN` is relative. */
  lemma DeviceNameInsideFolder()
    ensures !WindowsIsAbs(DeviceInFolder)
  {
    var p := DeviceInFolder;
    ReservedNameShape(p);
  }
}
