/**
 Windows reserved device names (utils.go:11-32): a path that is exactly one
 of these names, in any letter case, denotes a device.
 */
module Reserved {
  import opened Ascii

  /** The reserved names, in the order the source lists them. */
  const ReservedNames: seq<seq<byte>> := [
    Bytes("CON"), Bytes("PRN"), Bytes("AUX"), Bytes("NUL"),
    Bytes("COM1"), Bytes("COM2"), Bytes("COM3"), Bytes("COM4"), Bytes("COM5"),
    Bytes("COM6"), Bytes("COM7"), Bytes("COM8"), Bytes("COM9"),
    Bytes("LPT1"), Bytes("LPT2"), Bytes("LPT3"), Bytes("LPT4"), Bytes("LPT5"),
    Bytes("LPT6"), Bytes("LPT7"), Bytes("LPT8"), Bytes("LPT9")
  ]

  /** Whether `p` folds to one of the table's entries from index `i` on. */
  function MatchesFrom(p: seq<byte>, i: nat): (b: bool)
    requires i <= |ReservedNames|
    ensures b <==> exists j :: i <= j < |ReservedNames| && EqualFold(p, ReservedNames[j])
    decreases |ReservedNames| - i
  {
    if i == |ReservedNames| then false
    else EqualFold(p, ReservedNames[i]) || MatchesFrom(p, i + 1)
  }

  /** The source's `isReservedName`: whole-string, case-insensitive table lookup. */
  function IsReservedName(p: seq<byte>): (b: bool)
    ensures |p| == 0 ==> !b
    ensures b <==> exists j :: 0 <= j < |ReservedNames| && EqualFold(p, ReservedNames[j])
  {
    if |p| == 0 then false
    else MatchesFrom(p, 0)
  }

  /**
   An independent description of the table: the four three-letter devices,
   and `COM` or `LPT` followed by one digit from 1 to 9.
   */
  ghost predicate IsDeviceName(u: seq<byte>) {
    u in {Bytes("CON"), Bytes("PRN"), Bytes("AUX"), Bytes("NUL")}
    || (|u| == 4 && u[..3] in {Bytes("COM"), Bytes("LPT")} && 0x31 <= u[3] <= 0x39)
  }

  /** Every table entry is already upper case and is a device name. */
  lemma TableIsUpperDevices(j: nat)
    requires j < |ReservedNames|
    ensures Upper(ReservedNames[j]) == ReservedNames[j]
    ensures IsDeviceName(ReservedNames[j])
  {
    var name := ReservedNames[j];
    if 4 <= j < 13 {
      assert name[..3] == Bytes("COM");
    } else if 13 <= j {
      assert name[..3] == Bytes("LPT");
    }
  }

  /**
   The table lookup agrees with the description: a path is reserved exactly
   when its upper-case image is a device name.
   */
  lemma ReservedIffDeviceName(p: seq<byte>)
    ensures IsReservedName(p) <==> IsDeviceName(Upper(p))
  {
    var u := Upper(p);
    if IsReservedName(p) {
      var j :| 0 <= j < |ReservedNames| && EqualFold(p, ReservedNames[j]);
      EqualFoldIffSameUpper(p, ReservedNames[j]);
      TableIsUpperDevices(j);
    }
    if IsDeviceName(u) {
      var j := DeviceIndex(u);
      TableIsUpperDevices(j);
      EqualFoldIffSameUpper(p, ReservedNames[j]);
    }
  }

  /** The table position holding a device name. */
  lemma DeviceIndex(u: seq<byte>) returns (j: nat)
    requires IsDeviceName(u)
    ensures j < |ReservedNames| && ReservedNames[j] == u
  {
    if |u| == 3 {
      j := if u == Bytes("CON") then 0 else if u == Bytes("PRN") then 1
           else if u == Bytes("AUX") then 2 else 3;
    } else {
      var base := if u[..3] == Bytes("COM") then 4 else 13;
      j := base + (u[3] as int - 0x31);
      assert u == u[..3] + [u[3]];
    }
  }

  /** Every table entry is three or four bytes, each an upper-case letter or a digit from 1 to 9. */
  lemma TableEntryBytes(j: nat)
    requires j < |ReservedNames|
    ensures 3 <= |ReservedNames[j]| <= 4
    ensures forall i :: 0 <= i < |ReservedNames[j]| ==>
              IsUpper(ReservedNames[j][i]) || 0x31 <= ReservedNames[j][i] <= 0x39
  {
  }

  /**
   The match is on the whole string: a reserved name is three or four bytes
   long and holds no separator, so `folder\PRN` is not reserved.
   */
  lemma ReservedNameShape(p: seq<byte>)
    ensures IsReservedName(p) ==> 3 <= |p| <= 4
    ensures IsReservedName(p) ==>
              forall i :: 0 <= i < |p| ==> p[i] != BACKSLASH && p[i] != SLASH && p[i] != COLON
  {
    if IsReservedName(p) {
      var j :| 0 <= j < |ReservedNames| && EqualFold(p, ReservedNames[j]);
      EqualFoldIffSameUpper(p, ReservedNames[j]);
      TableEntryBytes(j);
      forall i | 0 <= i < |p|
        ensures p[i] != BACKSLASH && p[i] != SLASH && p[i] != COLON
      {
        assert Upper(p)[i] == ToUpper(p[i]);
      }
    }
  }
}
