# Windows path analysis, verified

A Dafny model of `utils.go`, a pure, byte-wise lexical analyser for
Windows-style path strings. It is copied from Go's
`path/filepath/path_windows.go` and never touches the filesystem. It answers
two questions about a path: is it absolute (`WindowsIsAbs`), and what is its
last component, the executable name (`GetImageName`). Both rest on three
helpers. `isSlash` says whether a byte separates components. `isReservedName`
says whether the whole path is a device name such as `PRN`. `volumeNameLen`
gives the length of a leading drive letter (`C:`) or UNC prefix
(`\\server\share`).

Paths are modelled as `seq<byte>`, because the Go code indexes raw bytes
(`Ascii.byte`, 0..255). `Ascii.Bytes` turns an ASCII string literal into bytes
to build the reserved-name table. The worked examples name their paths as
byte constants, each with its text in a comment.

Modules:

- `Ascii` (ascii.dfy): the byte type, letter classification, and
  ASCII case folding. `EqualFold` walks both strings in step, the way
  `strings.EqualFold` does. It is proved to agree with comparing upper-case
  images.
- `Reserved` (reserved.dfy): the 22-entry device table and the lookup. The
  lookup is proved equal to a separate description: `CON`, `PRN`, `AUX` or
  `NUL`, or `COM`/`LPT` followed by a digit from 1 to 9. It compares the
  upper-case image of the path.
- `Volume` (volume.dfy): `IsSlash` is true exactly for `\` and `/`, and
  that is its whole definition. `VolumeNameLen` is a functional definition
  built on a first-separator search. `IsUncPrefix` describes a UNC prefix
  declaratively, and the function is proved sound and complete against it.
  `ScanVolumeNameLen` is the source's nested loop, statement for statement.
  It is proved to read only in-bounds bytes and to agree with the function.
- `Absolute` (absolute.dfy): `WindowsIsAbs`, and a characterisation of its
  result that avoids the length arithmetic. A path is absolute when it is a
  device name, a drive letter followed by a separator, or a UNC prefix with
  anything after it.
- `ImageName` (image_name.dfy): `GetImageName`, specified as the last
  `\`-separated component of the trimmed, volume-stripped path. That
  specification determines the result uniquely. `ScanImageName` is the
  source's pair of loops, proved to agree with the function.

Two consequences of the code are worth stating:

- A bare `\\server\share` is not absolute, because nothing follows the
  volume name (utils.go:81-84).
- Extracting the image name is not idempotent, even when the first result
  holds no separator: `C:\D:foo` gives `D:foo`, and that gives `foo`.
  Idempotence is proved only when the first result has no volume name.

## Model

| member | source | states |
|---|---|---|
| `Ascii.EqualFold` | utils.go:27 | the step-by-step case-insensitive comparison only holds between strings of equal length, and always holds between equal strings |
| `Ascii.EqualFoldIffSameUpper` | utils.go:27 | the step-by-step case-insensitive comparison holds exactly when the two strings have the same upper-case image |
| `Reserved.TableIsUpperDevices` | utils.go:14-18 | every entry of the reserved-name table is upper case and is a three-letter device name or `COM`/`LPT` with a digit 1-9 |
| `Reserved.MatchesFrom` | utils.go:26-31 | the scan over the table from a position succeeds exactly when some later entry equals the path up to case |
| `Reserved.IsReservedName` | utils.go:22-32 | the empty path is not reserved; otherwise a path is reserved exactly when some table entry equals it up to case |
| `Reserved.ReservedIffDeviceName` | utils.go:14-32 | a path is reserved exactly when its upper-case image is CON, PRN, AUX, NUL, COM1-COM9 or LPT1-LPT9 |
| `Reserved.TableEntryBytes` | utils.go:14-18 | every table entry is three or four bytes, each an upper-case letter or a digit from 1 to 9 |
| `Reserved.ReservedNameShape` | utils.go:22-32 | the match is on the whole string: a reserved path is 3 or 4 bytes long and contains no `\`, `/` or `:` |
| `Volume.IsSlash` | utils.go:7-9 | defined as true exactly for `\` and `/`; a separator is never a letter, `:` or `.`, so the separator tests never overlap the drive-letter and dot tests |
| `Volume.HasDriveLetter` | utils.go:41-42 | the drive-letter test: an ASCII letter followed by `:`; neither byte is a separator, so a drive letter and a UNC prefix never overlap |
| `Volume.FirstSlash` | utils.go:58-62 | the forward scan stops at the first separator at or after its start, or at the end of the path, and skips only non-separators |
| `Volume.VolumeNameLen` | utils.go:36-70 | the volume length never exceeds the path length, so the callers' `path[l:]` is always in bounds |
| `Volume.VolumeNameLenShape` | utils.go:37-69 | the volume length is 0 for paths shorter than 2 and 2 for a drive letter; any other non-zero length is at least 5, needs two leading separators and a third byte that is neither a separator nor `.`, and ends at a separator or at the end of the path |
| `Volume.FirstSlashIsUnique` | utils.go:49-62 | a position that ends a separator-free run at a separator or at the end of the path is where the forward scan stops |
| `Volume.DriveLetterIff` | utils.go:40-44 | the volume length is 2 exactly when the path starts with an ASCII letter followed by `:` |
| `Volume.UncSound` | utils.go:45-69 | every non-zero length other than 2 ends a well-formed `\\server\share` prefix: both names are non-empty, hold no separator and do not start with `.` |
| `Volume.UncComplete` | utils.go:45-69 | every well-formed `\\server\share` prefix is recognised, and its exact length is returned |
| `Volume.BadShareRejected` | utils.go:51-65 | an empty share name, or one that starts with `.`, makes the volume length 0 |
| `Volume.BadServerRejected` | utils.go:46-47 | an empty server name, or one that starts with `.`, makes the volume length 0 |
| `Volume.ScanVolumeNameLen` | utils.go:36-70 | the source's nested index scan reads only in-bounds bytes and returns exactly the volume length |
| `Absolute.WindowsIsAbs` | utils.go:73-86 | the empty path is relative; a path is absolute exactly when it is a reserved name, a drive letter followed by a separator, or a well-formed UNC prefix followed by at least one more byte |
| `Absolute.SeparatorAfterVolumeIff` | utils.go:77-85 | a non-empty volume name followed by a separator means exactly a drive letter followed by a separator, or a UNC prefix followed by at least one more byte |
| `Absolute.DriveRelative` | utils.go:77-85 | `C:foo` (`DriveRelativePath`) is relative: the drive letter is not followed by a separator |
| `Absolute.DriveAbsolute` | utils.go:77-85 | `C:\foo` is absolute |
| `Absolute.BareShareIsRelative` | utils.go:81-84 | `\\server\share` is relative, because nothing follows its volume name |
| `Absolute.ShareWithSeparatorIsAbsolute` | utils.go:81-85 | `\\server\share\` is absolute |
| `Absolute.ShareVolume` | utils.go:36-70 | `\\server\share`, alone or followed by `\`, is not reserved and has a 14-byte volume name |
| `Absolute.DeviceNamesAreAbsolute` | utils.go:74-76 | `PRN` and `prn` are absolute |
| `Absolute.DeviceNameInsideFolder` | utils.go:74-85 | `folder\PRN` is relative: the device-name match is on the whole path, and the path has no volume name |
| `ImageName.TrimmedLength` | utils.go:94-96 | the trimmed length of a prefix leaves a prefix that does not end in `\`, and every byte it drops is a `\` |
| `ImageName.TrimTrailingBackslashes` | utils.go:93-96 | the trimmed path is a prefix of the input that does not end in `\`, and every byte removed was a `\` |
| `ImageName.DropVolumeIsSuffix` | utils.go:98 | cutting off the volume name (`DropVolume`) leaves a suffix of the path, and leaves the whole path exactly when its volume length is 0 |
| `ImageName.LastComponent` | utils.go:99-106 | the part after the last `\`, or the whole string without a `\`, is its last `\`-separated component |
| `ImageName.LastBackslash` | utils.go:99-103 | the backward scan over the first `k` bytes returns -1 or the index of a `\`, with no `\` after it among those bytes |
| `ImageName.LastBackslashIsUnique` | utils.go:100-103 | a `\` with none after it, or -1 when there is no `\` at all, is exactly where the backward scan stops |
| `ImageName.GetImageName` | utils.go:89-108 | the empty path yields the empty name; the name contains no `\`; it is the last `\`-separated component of the path after trailing `\` and the volume name are removed |
| `ImageName.LastComponentUnique` | utils.go:99-107 | a string has only one last component, so the contract of `GetImageName` fixes its result |
| `ImageName.ImageNameIsInfix` | utils.go:89-108 | the name is a contiguous substring of the input |
| `ImageName.LastComponentOfPrefix` | utils.go:94-107 | the last component of a prefix, past its volume name, sits at a known offset inside the whole path |
| `ImageName.SuffixOfPrefix` | utils.go:94-107 | a suffix of a suffix of a prefix of the path is a contiguous piece of the path |
| `ImageName.ImageNameFromParts` | utils.go:89-108 | a path that is `t` followed only by `\` bytes, where `t` does not end in `\`, names the last component of `t` past its volume name |
| `ImageName.PlainNameUnchanged` | utils.go:94-107 | a path with no `\` and no volume name is its own image name |
| `ImageName.IdempotentWithoutVolume` | utils.go:89-108 | extracting the name twice gives the same result when the first result has no volume name |
| `ImageName.NotIdempotentFirstPass` | utils.go:98 | `C:\D:foo` names `D:foo` |
| `ImageName.NotIdempotentSecondPass` | utils.go:98 | `D:foo` names `foo`, so the extraction is not idempotent in general |
| `ImageName.DrivePathExample` | utils.go:98-107 | `C:\foo\bar.exe` names `bar.exe` |
| `ImageName.TrailingBackslashesExample` | utils.go:93-107 | `C:\foo\bar\\` names `bar` |
| `ImageName.ForwardSlashKept` | utils.go:93-107 | `C:\foo/` names `foo/`, because `/` is neither trimmed nor searched for |
| `ImageName.ScanTrim` | utils.go:94-96 | the source's trimming loop removes exactly the trailing run of `\` bytes |
| `ImageName.ScanLastBackslash` | utils.go:100-103 | the source's backward scan stops at the last `\`, or at -1 when there is none |
| `ImageName.ScanImageName` | utils.go:89-108 | the source's trimming loop and backward scan compute exactly the image name |

## Left out

- Unicode case folding: `strings.EqualFold` folds Unicode runes, and the model folds ASCII bytes only. This is exact here. No reserved name contains `K` or `S`, the only ASCII letters whose fold orbits reach non-ASCII runes (the Kelvin sign and the long s). Any other non-ASCII byte cannot match an ASCII table entry in either model.
- UTF-8 decoding: the analysed code indexes raw bytes, and so does the model.
- The model covers `utils.go` only; the rest of the program is not part of this model.
