/**
 Separators and the leading volume name of a Windows path (utils.go:7-9 and
 utils.go:34-70): a drive letter such as `C:`, or a UNC `\\server\share`
 prefix, where either `\` or `/` may stand for a separator.
 */
module Volume {
  import opened Ascii

  /** The source's `isSlash`: both `\` and `/` separate path components. */
  predicate IsSlash(c: byte): (b: bool)
    ensures b ==> !IsLetter(c) && c != COLON && c != DOT
  {
    c == BACKSLASH || c == SLASH
  }

  /** Every byte of `p[lo..hi]` is something other than a separator. */
  ghost predicate NoSlashIn(p: seq<byte>, lo: int, hi: int)
    requires 0 <= lo && hi <= |p|
  {
    forall j :: lo <= j < hi ==> !IsSlash(p[j])
  }

  /**
   A drive letter followed by `:`. Neither byte is a separator, so a drive
   letter and a UNC prefix never overlap.
   */
  predicate HasDriveLetter(p: seq<byte>): (b: bool)
    ensures b ==> |p| >= 2 && !IsSlash(p[0]) && !IsSlash(p[1])
  {
    |p| >= 2 && p[1] == COLON && IsLetter(p[0])
  }

  /** The first separator at or after `from`, or `|p|` when there is none. */
  function FirstSlash(p: seq<byte>, from: nat): (k: nat)
    requires from <= |p|
    ensures from <= k <= |p|
    ensures NoSlashIn(p, from, k)
    ensures k < |p| ==> IsSlash(p[k])
    decreases |p| - from
  {
    if from == |p| then from
    else if IsSlash(p[from]) then from
    else FirstSlash(p, from + 1)
  }

  /**
   `p` starts with a UNC prefix `\\server\share` ending at `n`, with the
   server's terminating separator at index `server`: both names are non-empty,
   hold no separator and do not start with `.`, and the share ends at a
   separator or at the end of the path.
   */
  ghost predicate IsUncPrefix(p: seq<byte>, server: nat, n: nat) {
    2 < server && server + 1 < n <= |p|
    && IsSlash(p[0]) && IsSlash(p[1])
    && p[2] != DOT && NoSlashIn(p, 2, server)
    && IsSlash(p[server])
    && p[server + 1] != DOT && NoSlashIn(p, server + 1, n)
    && (n == |p| || IsSlash(p[n]))
  }

  /**
   The source's `volumeNameLen`: the length of the leading volume name, 2 for
   a drive letter, the end of the share name for a UNC prefix, 0 otherwise.
   */
  function VolumeNameLen(p: seq<byte>): (n: nat)
    ensures n <= |p|
  {
    if |p| < 2 then 0
    else if p[1] == COLON && IsLetter(p[0]) then 2
    else if |p| >= 5 && IsSlash(p[0]) && IsSlash(p[1]) && !IsSlash(p[2]) && p[2] != DOT then
      var server := FirstSlash(p, 3);
      if server < |p| - 1 && !IsSlash(p[server + 1]) && p[server + 1] != DOT then
        FirstSlash(p, server + 1)
      else 0
    else 0
  }

  /**
   The volume length is 0 for paths shorter than 2 bytes and 2 for a drive
   letter. Any other non-zero length is at least 5, needs two leading
   separators and a third byte that is neither a separator nor `.`, and ends
   at a separator or at the end of the path.
   */
  lemma VolumeNameLenShape(p: seq<byte>)
    ensures |p| < 2 ==> VolumeNameLen(p) == 0
    ensures HasDriveLetter(p) ==> VolumeNameLen(p) == 2
    ensures var n := VolumeNameLen(p);
            n != 0 && n != 2 ==>
              5 <= n && 5 <= |p| && IsSlash(p[0]) && IsSlash(p[1])
              && !IsSlash(p[2]) && p[2] != DOT
              && (n == |p| || IsSlash(p[n]))
  {
  }

  /** A result of 2 means a drive letter, and nothing else yields 2. */
  lemma DriveLetterIff(p: seq<byte>)
    ensures VolumeNameLen(p) == 2 <==> HasDriveLetter(p)
  {
  }

  /** Every other non-zero result is the end of a well-formed UNC prefix. */
  lemma UncSound(p: seq<byte>)
    requires VolumeNameLen(p) != 0 && VolumeNameLen(p) != 2
    ensures IsUncPrefix(p, FirstSlash(p, 3), VolumeNameLen(p))
  {
    var server := FirstSlash(p, 3);
    assert NoSlashIn(p, 2, server);
  }

  /** Every well-formed UNC prefix is recognised, with exactly its length. */
  lemma UncComplete(p: seq<byte>, server: nat, n: nat)
    requires IsUncPrefix(p, server, n)
    ensures VolumeNameLen(p) == n
  {
    assert !HasDriveLetter(p);
    FirstSlashIsUnique(p, 3, server);
    FirstSlashIsUnique(p, server + 1, n);
  }

  /** A position that ends a separator-free run at a separator or at the end is the first separator. */
  lemma FirstSlashIsUnique(p: seq<byte>, from: nat, k: nat)
    requires from <= k <= |p|
    requires NoSlashIn(p, from, k)
    requires k == |p| || IsSlash(p[k])
    ensures FirstSlash(p, from) == k
  {
  }

  /** A share name that is empty or starts with `.` rejects the whole UNC prefix. */
  lemma BadShareRejected(p: seq<byte>, server: nat)
    requires 3 <= server < |p| - 1
    requires IsSlash(p[0]) && IsSlash(p[1]) && NoSlashIn(p, 2, server) && IsSlash(p[server])
    requires IsSlash(p[server + 1]) || p[server + 1] == DOT
    ensures VolumeNameLen(p) == 0
  {
    FirstSlashIsUnique(p, 3, server);
  }

  /** An empty server name, or one that starts with `.`, is not a UNC prefix. */
  lemma BadServerRejected(p: seq<byte>)
    requires |p| >= 3 && IsSlash(p[0]) && IsSlash(p[1])
    requires IsSlash(p[2]) || p[2] == DOT
    ensures VolumeNameLen(p) == 0
  {
  }

  /**
   The source's loop, statement for statement: the server scan stops before
   the last byte, so after stepping over the separator the next read is still
   in bounds, and the share scan stops at the next separator or the end.
   */
  method ScanVolumeNameLen(p: seq<byte>) returns (r: nat)
    ensures r == VolumeNameLen(p)
  {
    var l := |p|;
    if l < 2 {
      return 0;
    }
    var c := p[0];
    if p[1] == COLON && IsLetter(c) {
      return 2;
    }
    if l >= 5 && IsSlash(p[0]) && IsSlash(p[1]) && !IsSlash(p[2]) && p[2] != DOT {
      var n := 3;
      while n < l - 1
        invariant 3 <= n <= l - 1
        invariant NoSlashIn(p, 3, n)
      {
        if IsSlash(p[n]) {
          ghost var server := n;
          FirstSlashIsUnique(p, 3, server);
          n := n + 1;
          assert n <= l - 1;
          if !IsSlash(p[n]) {
            if p[n] == DOT {
              break;
            }
            while n < l
              invariant server + 1 <= n <= l
              invariant NoSlashIn(p, server + 1, n)
            {
              if IsSlash(p[n]) {
                break;
              }
              n := n + 1;
            }
            FirstSlashIsUnique(p, server + 1, n);
            return n;
          }
          break;
        }
        n := n + 1;
      }
    }
    return 0;
  }
}
