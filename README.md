# Fix_BCD core in Dafny

Fix_BCD repairs the Windows boot configuration database (BCD) hive after a
disk is cloned or moved to new hardware. Each Windows boot entry stores the
partition GUID and the disk GUID it boots from inside a binary "device
locator" value. When those GUIDs no longer match the host, Windows will not
boot. The tool works in four steps:

1. It exports the hive with `reged -x` to a text dump.
2. It parses the dump into an ordered tree of dictionaries (`registry_dict.py`).
3. It finds the two GUIDs in every device locator, checks them against the
   partitions the host has, and rewrites the wrong ones (`fix_boot_bcd.py`).
4. It writes the tree back in the dump format, for `reged -I` to import.

This project models that core and proves its properties. The files are:

- `text.dfy` (`Text`): the Python string operations used, the line ends
  of text-mode files, and the exceptions (`Fault`) as a `Result`.
- `reg_tree.dfy` (`RegTree`): the ordered tree of dictionaries. A branch is
  a sequence of `Entry(key, node)` in insertion order. Also `add_to_dict`,
  both as a recursive function and as the source's loop.
- `reg_parse.dfy` (`RegParse`): `reg_to_dict` as a line-by-line state
  machine. The state is the header, the tree, the current branch (a path)
  and the current leaf.
- `reg_write.dfy` (`RegWrite`): `output_elem`'s comma wrapping,
  `output_regsub` and `output_reg`, all producing text.
- `reg_roundtrip.dfy` (`RegRoundTrip`): the line layout of the writer's
  output, and the round trip "parse after write is the identity". It also
  gives the two kinds of tree that do not read back.
- `hex.dfy` (`HexValues`): `int(x, 16)`, `f"{v:02x}"` and `arr_from_hexstr`.
- `guid.dfy` (`Guid`): `counts`, `uuidstr`, `is_uuidfmt` and `uuid_bytes`.
  These cover the mixed-endian GUID text of section 3 of RFC 4122, in which
  the first three fields are little-endian as Microsoft stores them.
- `guid_scan.dfy` (`GuidScan`): `find_part_disk`, the scan for GUID windows.
- `guid_correct.dfy` (`GuidCorrect`): `correct_uuid`, the 47-character splice.
- `boot_entries.dfy` (`BootEntries`): `list_and_correct_entries`. Its inputs
  are the host topology (`PartUUIDs`, `PartDisks`, `PartDskNm`) as maps and
  `select_uuid` as an oracle.
- `disk_names.dfy` (`DiskNames`): `multiws_split`, `strip_part`
  (`find_loop` over a given `/dev/mapper` listing) and `partkey`.

Every loop of the source is a Dafny `method` with its loop. Each method is
proved equal to a specification function, and the properties are proved
about those functions. The source mutates dictionaries in place through
references. The model instead rebuilds the tree: `Put` for `d[k] = v`, and
`ReplaceAt` for a write through the parser's current branch, which is a path
from the root.

Points where the code behaves differently from what its names, docstrings
or comments suggest. The model follows the code:

- **Back-to-back GUIDs.** After a match the scan moves on 16 + 4 bytes, and
  it demands a zero byte right after a window. So two windows it reports are
  at least 20 bytes apart. A partition GUID stored directly before the disk
  GUID is never reported together with it (`GuidScan.NotBackToBack`).
- **Leaf lines.** A leaf line is split at every `=` and unpacked into two
  parts. A line with two `=` raises ValueError rather than splitting at the
  first one (`RegParse.LeafLineNeedsOneEquals`).
- **Leaves before any branch.** A leaf line read while no branch is current
  is dropped, or taken as the header when there is none yet. The same
  happens to a leaf directly after `[\]`. So the assertion at
  `registry_dict.py:91` that a branch is current is unreachable
  (`RegParse.HeaderLines`, `RegRoundTrip.RootLeafBecomesHeader`).
- **Wrap columns.** `output_elem` sets `wrap = 66`, but it cuts after the
  first comma at or after index 64, then 74. It cuts only values longer
  than 66, then 76 (`RegWrite.ChunksCuts`, `RegWrite.ChunksLimits`).
- **Round trip.** The module reads a dump into a dictionary and writes it
  back. Reading back what `output_reg` writes is proved to give the same
  tree and header for every `RegRoundTrip.Dumpable` tree:
  - the root holds no leaves, and in every branch the leaves precede the
    sub-branches and no key occurs twice;
  - a leaf key is non-empty and holds no `"`, `=`, `\n` or `\r`
    (`LeafKeyOk`);
  - a branch key is non-empty and holds no `\`, `\n` or `\r`
    (`BranchKeyOk`);
  - a value is non-empty, holds no `=`, `\n` or `\r`, does not end in `\`
    or `,`, and is one `output_elem` finishes on (`ValueOk`);
  - the header is empty, or one line that does not start with `[`.

  Other trees can come back changed or make the reader raise. A leaf after
  a sub-branch moves into it (`RegRoundTrip.LeafAfterBranchMoves`). A root
  leaf becomes the header (`RegRoundTrip.RootLeafBecomesHeader`). A value
  holding `=` makes its line fail the two-part unpack
  (`RegParse.LeafLineNeedsOneEquals`). The reader uses universal newlines,
  so a lone `\r` also ends a line (`Text.SplitLinesCr`).
- **Separators in `multiws_split`.** It cuts a field at the next blank. It
  looks for a tab only when no blank follows, so earlier fields may hold tabs
  (`DiskNames.FieldsShape`).
- **Asking the user.** The user can be asked once per locator, so twice per
  entry. They are not asked again in an entry once an answer was usable, and
  never under `nochange` (`BootEntries.ObjectEffect`).

## Model

| member | source | states |
|---|---|---|
| Text.FindMeans | registry_dict.py:127 | `find` returns the first occurrence at or after the start, and -1 exactly when there is none |
| Text.SplitCount | registry_dict.py:117 | `split` yields one piece more than there are separators |
| Text.JoinSplit | registry_dict.py:51 | joining the pieces of a split with the same separator gives the text back |
| Text.SplitJoin | registry_dict.py:51 | splitting pieces joined by a separator they lack gives the pieces back |
| Text.SplitUnlines | registry_dict.py:68 | iterating over a file read with universal newlines yields the written `\n`-terminated lines, when none holds `\n` or `\r`, then the lines of what follows |
| Text.SplitLinesCr | registry_dict.py:68 | a lone `\r`, and `\r\n`, also end a line: the text after them starts the next line |
| Text.SplitCrlfUnlines | registry_dict.py:146 | lines written to a file opened with `newline="\r\n"` read back as the same lines |
| HexValues.ParseHex02 | registry_dict.py:117 | reading `f"{v:02x}"` back with `int(_, 16)` gives `v`, for every number |
| HexValues.Hex02OfParse | fix_boot_bcd.py:136-140 | two lower-case hex digits are exactly what `:02x` prints for the byte they spell |
| HexValues.ArrFromHexstr | registry_dict.py:109-117 | a value without `hex(7):` or `hex:` raises ValueError; on success there is one number per comma-separated field, and element i is field i read as hexadecimal |
| HexValues.DecodedLength | registry_dict.py:117 | the decoded list has one element more than the commas after the tag |
| HexValues.DecodeHexList | registry_dict.py:109-117 | a tagged comma-joined two-digit spelling of bytes decodes back to those bytes |
| HexValues.HexListLength | fix_boot_bcd.py:214-215 | n bytes take 3n - 1 characters, so a 16-byte window takes 47 |
| HexValues.SplitHexList | registry_dict.py:117 | the comma-separated fields of that spelling are the bytes' `:02x` texts |
| Guid.Counts | fix_boot_bcd.py:124-133 | the loop returns the number of zero bytes and the number of bytes in 32..122 |
| Guid.CountsBound | fix_boot_bcd.py:124-133 | the two counts together never exceed the length, since 0 is not in 32..122 |
| Guid.UuidStrAt | fix_boot_bcd.py:136-140 | in `uuidstr` of a window, pair k (at its fixed position) spells byte `Order[k]`, with dashes at 8, 13, 18 and 23 |
| Guid.UuidStrShape | fix_boot_bcd.py:136-140 | `uuidstr` of any 16 bytes is 36 characters with dashes at 8, 13, 18, 23 and lower-case hex digits elsewhere, so `is_uuidfmt` accepts it |
| Guid.FieldsAt | fix_boot_bcd.py:201-205 | `uuid_bytes` takes byte i from pair `Order[i]` of the GUID text |
| Guid.UuidBytesOfStr | fix_boot_bcd.py:201-205 | `uuid_bytes(uuidstr(w))` is the comma-joined two-digit text of `w` in order: the two byte swaps cancel |
| Guid.UuidStrOfValue | fix_boot_bcd.py:136-140 | every lower-case GUID text is `uuidstr` of the bytes it stands for |
| Guid.UuidBytesOfValue | fix_boot_bcd.py:201-205 | a lower-case GUID text gives 47 characters that spell the bytes it stands for |
| GuidScan.SkipZeros | fix_boot_bcd.py:151-152 | the zero skip stops on a non-zero byte a multiple of 4 further on, and otherwise raises IndexError |
| GuidScan.SkipZerosMeans | fix_boot_bcd.py:151-152 | it stops at the first non-zero byte it visits, and fails exactly when every visited byte is zero |
| GuidScan.StepOverZeros | fix_boot_bcd.py:151-152 | the inner loop stops where `SkipZeros` does, or runs past the end exactly when `SkipZeros` fails |
| GuidScan.TestWindow | fix_boot_bcd.py:155-156 | the window test is `Accepted`: fewer than 2 zeros, at most 10 bytes in 32..122, then the end of the data or a zero |
| GuidScan.Advance | fix_boot_bcd.py:153-160 | one round of the outer loop keeps its invariant: a taken window appends its GUID text and offset and moves 20 on, otherwise 4 |
| GuidScan.ScanGuids | fix_boot_bcd.py:148-161 | the two nested loops compute the ids and offsets of the specification `FoundIn` |
| GuidScan.FindPartDisk | fix_boot_bcd.py:143-161 | `find_part_disk` decodes and scans exactly as `PartDiskIds` says |
| GuidScan.IdsAt | fix_boot_bcd.py:155-158 | each reported id is `uuidstr` of the window at its offset |
| GuidScan.ScanFinds | fix_boot_bcd.py:149-160 | every offset the scan reports is a window it took, and consecutive ones are at least 20 apart |
| GuidScan.PartDiskOffsets | fix_boot_bcd.py:149-160 | as many ids as offsets; each offset at least 32, a multiple of 4, on a non-zero byte, with the window inside the data and accepted; each id that window's text; offsets at least 20 apart |
| GuidScan.NotBackToBack | fix_boot_bcd.py:156-160 | no reported window starts right where the previous one ends |
| GuidScan.UntaggedFails | fix_boot_bcd.py:147 | a value without a `hex:` or `hex(7):` tag raises ValueError before any scanning |
| GuidScan.PaddingToEnd | fix_boot_bcd.py:150-152 | zero padding that reaches the end of the data raises IndexError instead of ending the scan |
| GuidScan.AcceptedFirst | fix_boot_bcd.py:155-160 | an accepted window at the scan position is reported first, and the scan resumes 20 bytes later |
| GuidCorrect.TagColon | fix_boot_bcd.py:212-214 | the first ':' of a tagged value is the tag's own |
| GuidCorrect.CorrectSplice | fix_boot_bcd.py:208-215 | the assertion fails exactly when the value has no ':'; when the 47 characters fit, the value keeps its length and only those characters change, to `uuid_bytes(uuid)` |
| GuidCorrect.HexListAround | fix_boot_bcd.py:212-215 | the text of a byte list is the bytes before the window, a comma, the window's 47 characters, and the rest |
| GuidCorrect.CorrectDecoded | fix_boot_bcd.py:208-215 | correcting a tagged value writes the GUID's 16 bytes at the offset, and every byte outside the window decodes as before |
| GuidCorrect.CorrectUuidElement | fix_boot_bcd.py:208-215 | a successful correction replaces the dictionary's `Element` with the corrected text and leaves every other key alone |
| RegTree.IndexOf | registry_dict.py:52 | the position of the first entry with the key, or -1 exactly when no entry has it |
| RegTree.Put | registry_dict.py:96 | after `d[k] = n`, `k` maps to `n` and no other key changes; a new key goes last, and an existing key keeps its place and the key order stays |
| RegTree.PutTwice | registry_dict.py:96 | assigning a key twice is assigning it the second value |
| RegTree.AddToDictWalk | registry_dict.py:46-59 | the loop down the path builds the same tree as `AddToDict`, or raises the same error |
| RegTree.AddToDictCreatesPath | registry_dict.py:46-59 | afterwards every proper prefix of the path is a dictionary and the whole path names the node handed back |
| RegTree.AddToDictExisting | registry_dict.py:52-53 | a path that already exists is walked without any change: dictionaries are reused, not replaced |
| RegTree.AddToDictFails | registry_dict.py:51-57 | the walk fails exactly when a proper prefix of the path names a value string |
| RegTree.AddToDictOnlyTypeError | registry_dict.py:52-56 | the only failure is TypeError (a value string indexed or assigned by key) |
| RegTree.FreshPathSucceeds | registry_dict.py:55-57 | any path can be added to an empty dictionary |
| RegTree.AddToDictKeeps | registry_dict.py:46-59 | every path present before is present after; a value string is unchanged, and a dictionary keeps its keys in order at the front |
| RegTree.AddToDictOnlyAlongPath | registry_dict.py:46-59 | every path the walk adds is a prefix of the path walked |
| RegTree.AddToDictChild | registry_dict.py:55-57 | a new key under an existing branch appends an empty dictionary there |
| RegParse.DropBackslash | registry_dict.py:93-94 | exactly one trailing backslash is removed, and only if there is one |
| RegParse.StripBackslashesMeans | registry_dict.py:85-86 | stripping removes the leading backslashes and nothing else, and fails with IndexError exactly on text of backslashes only |
| RegParse.ReadLine | registry_dict.py:69-105 | the loop body for one line computes `Step` |
| RegParse.RegToDict | registry_dict.py:62-106 | the loop over the lines computes `ParseDump`: the first exception, or the tree and the header |
| RegParse.RunKeepsAttached | registry_dict.py:87-105 | the current branch always names a node of the tree (a value, when a bracket line names an existing value), and a leaf is current only while a branch is |
| RegParse.HeaderLines | registry_dict.py:69-72 | while no branch is current, non-bracket lines (leaves included) are dropped, except that the first non-blank one becomes the missing header |
| RegParse.DumpHeader | registry_dict.py:69-72 | the header is the first non-blank line before the first bracket line |
| RegParse.BracketLine | registry_dict.py:80-88 | `[` + any backslashes + `a\b` + `]` adds the path `a`, `b` and makes it the current branch |
| RegParse.BracketFailures | registry_dict.py:80-86 | a bracket line not ending in `]` fails its assertion; `[\]` changes nothing; a path of backslashes only raises IndexError |
| RegParse.LeafLine | registry_dict.py:90-98 | `"k"=v` sets entry k of the current branch to v minus one trailing backslash, changes nothing else, and makes k the current leaf |
| RegParse.LeafLineNeedsOneEquals | registry_dict.py:92 | a leaf line without exactly one `=` raises ValueError |
| RegParse.ContinuationLine | registry_dict.py:100-105 | a two-space line appends its text, minus one trailing backslash, to the current leaf |
| RegParse.BlankLine | registry_dict.py:76-79 | a blank line leaves no branch and no leaf current and changes nothing else |
| RegParse.OtherLine | registry_dict.py:89-105 | a line of any other shape is ignored while a branch is current |
| RegWrite.OutputElem | registry_dict.py:120-130 | the wrapping loop prints `ElemText(val)`, for every value on which it terminates |
| RegWrite.Cut | registry_dict.py:127-130 | one cut splits the value right after the first ',' past the width's limit, and the rest is cut at width 76 |
| RegWrite.ChunksRebuild | registry_dict.py:120-130 | the chunks put back together are the value |
| RegWrite.ChunksCuts | registry_dict.py:127-130 | each cut ends right after the first ',' at or after index 64 of the remaining text (first cut) or 74 (later cuts) |
| RegWrite.ChunksLimits | registry_dict.py:123-126 | the final chunk has at most 66 characters if it is the first, 76 otherwise; an empty first cut happens only when no ',' follows index 64 |
| RegWrite.ChunksTail | registry_dict.py:123 | an empty value prints nothing, not even a line end; a value not ending in ',' has a non-empty final chunk |
| RegWrite.Diverges | registry_dict.py:127-130 | a value over 76 characters with no ',' at or after index 64 makes the loop run forever |
| RegWrite.KeepsLooping | registry_dict.py:127-130 | at width 76, a remainder over 76 characters with no ',' after index 74 is never cut |
| RegWrite.OutputRegsub | registry_dict.py:133-141 | the recursive loop prints `EntriesText`: each branch as a blank line, `[pre\key]` and its entries, each leaf as `"key"=` and its wrapped value, in insertion order |
| RegWrite.OutputReg | registry_dict.py:144-151 | the writer prints `RegText`: the header and a blank line if there is a header, `[\]`, the entries, a final blank line |
| RegRoundTrip.LeafTextLines | registry_dict.py:140-141 | `"k"=` and the wrapped value are the lines `"k"=` + first piece, then each further piece indented by two spaces |
| RegRoundTrip.LeafPieces | registry_dict.py:120-130 | a printable value's pieces are non-empty and free of `=`, and removing one trailing backslash from each and joining them gives the value |
| RegRoundTrip.EntriesTextLines | registry_dict.py:133-141 | the text `output_regsub` prints is the line layout `EntriesLines`, depth first in insertion order |
| RegRoundTrip.RegTextLines | registry_dict.py:144-151 | the text `output_reg` writes is the header, a blank line, `[\]`, the entries' lines and a blank line |
| RegRoundTrip.PathPrefixJoin | registry_dict.py:137-138 | the prefix the writer puts in the bracket line of a branch is two backslashes and its path joined by backslashes |
| RegRoundTrip.ContinuationLines | registry_dict.py:100-105 | indented lines append their pieces, each without one trailing backslash, to the current leaf |
| RegRoundTrip.LeafParse | registry_dict.py:90-105 | reading the lines written for a leaf sets exactly that key of the current branch to the value |
| RegRoundTrip.ParseEntries | registry_dict.py:76-105 | reading the lines written for the entries of a branch appends exactly those entries to it |
| RegRoundTrip.RoundTrip | registry_dict.py:62-151 | reading back the text `output_reg` writes gives the tree and the header it was written from, both as printed and as it lands in the file with `\r\n` line ends. This holds for every `Dumpable` tree: no leaf under the root; in each branch, leaves before sub-branches and no key twice; leaf keys non-empty without `"`, `=`, `\n`, `\r` (`LeafKeyOk`); branch keys non-empty without `\`, `\n`, `\r` (`BranchKeyOk`); values non-empty without `=`, `\n`, `\r`, not ending in `\` or `,`, and finished by `output_elem` (`ValueOk`); a header that is empty or one line not starting with `[` |
| RegRoundTrip.LeafAfterBranchMoves | registry_dict.py:133-141 | a leaf written after a sub-branch is read back into that sub-branch |
| RegRoundTrip.RootLeafBecomesHeader | registry_dict.py:69-72 | a leaf directly under the root is not read back; its first line becomes the header |
| DiskNames.FindSep | fix_boot_bcd.py:39-41 | the next separator is a blank, or a tab only when no blank follows, or -1 |
| DiskNames.SkipBlanks | fix_boot_bcd.py:45-46 | the inner loop stops at the first non-white-space character or the end |
| DiskNames.MultiwsSplit | fix_boot_bcd.py:34-52 | the loop returns the fields `Fields(stg)` |
| DiskNames.FieldsOfJoin | fix_boot_bcd.py:34-52 | splitting words joined by single blanks gives the words back |
| DiskNames.FieldsCons | fix_boot_bcd.py:34-52 | a word, a blank and a text starting with a word split into that word and the text's fields |
| DiskNames.FieldsShape | fix_boot_bcd.py:34-52 | no field holds a blank, and every field but the first is non-empty and starts with a non-white-space character |
| DiskNames.FindLoop | fix_boot_bcd.py:70-76 | the answer is a `loop…` entry that links to the name, and None only when no `loop…` entry does |
| DiskNames.DropDigits | fix_boot_bcd.py:87-89 | trailing digits are dropped, leaving text that ends in a non-digit; a name of digits only raises IndexError |
| DiskNames.FindLoopScan | fix_boot_bcd.py:70-76 | the loop over the `loop…` entries of the listing returns what `FindLoop` specifies: the first one linking to the name, or None |
| DiskNames.DropDigitsLoop | fix_boot_bcd.py:88-89 | the loop computes `DropDigits` |
| DiskNames.StripPart | fix_boot_bcd.py:79-92 | the method computes `strip_part` as written: None for a name not ending in a digit or a `dm` name without a loop device, otherwise the name (or its loop device) without the last character, the digits before it and a final `p` |
| DiskNames.UndigitedPartition | fix_boot_bcd.py:81-89 | for a partition name, the digit stripping leaves the disk name, followed by the `p` separator when there is one |
| DiskNames.StripPartOfPartition | fix_boot_bcd.py:79-92 | a partition name gives back its disk name when that name does not end in `p` |
| DiskNames.StripPartRefuses | fix_boot_bcd.py:81-88 | an empty name raises IndexError; a name not ending in a digit, or a `dm` name with no loop device, gives None; a name of digits only raises IndexError |
| DiskNames.StripPartSdp | fix_boot_bcd.py:90-91 | as written, `sdp1` gives `sd`; as intended, `sdp` |
| DiskNames.WholeDiskOfPartition | fix_boot_bcd.py:90-91 | with the intended rule, every partition name gives back its disk name (the ambiguous case is a disk name that ends in a digit and `p`) |
| DiskNames.KeyOfPartition | fix_boot_bcd.py:164-168 | the intended key of partition k of disk d is d and k in two digits |
| DiskNames.PartKeyOrder | fix_boot_bcd.py:164-168 | with the intended key, the partitions of one disk sort by number |
| DiskNames.PartKeyGroups | fix_boot_bcd.py:164-168 | with the intended key, all partitions of a disk sort before those of a later disk with a name of the same length |
| DiskNames.PartKeyCollides | fix_boot_bcd.py:164-168 | as written, `sda1` and `sdb1` both get the key `sd01`, which sorts before `sda10` |
| BootEntries.ListAndCorrectEntries | fix_boot_bcd.py:219-277 | the loop over the objects computes `ListAndCorrect` |
| BootEntries.CorrectObject | fix_boot_bcd.py:230-276 | the body for one object computes `Object`: skipped without a description `Element`, otherwise its two locators in turn |
| BootEntries.CorrectLocator | fix_boot_bcd.py:242-248 | one locator: scan its `Element`, then apply the rules |
| BootEntries.ApplyRules | fix_boot_bcd.py:245-276 | a count other than 2 adds 1 to unfixed; an unknown or overwritten partition and a known one take their branches |
| BootEntries.FixUnknown | fix_boot_bcd.py:249-262 | the user is asked only without a usable answer and not under `nochange` |
| BootEntries.FixAnswered | fix_boot_bcd.py:253-262 | without a usable answer or under `nochange` the locator is unfixed; otherwise it is reassigned and fixes grow by 2 |
| BootEntries.ReassignLocator | fix_boot_bcd.py:256-262 | both windows are rewritten, then the rescan is checked against the answer and its disk |
| BootEntries.FixKnown | fix_boot_bcd.py:263-276 | a known partition with no known disk is unfixed; a different disk is rewritten (unfixed under `nochange`); a match needs the disk name |
| BootEntries.FoundLengths | fix_boot_bcd.py:157-158 | a successful scan has one offset per id |
| BootEntries.ScannedHasColon | fix_boot_bcd.py:212-213 | a value the scan accepted has a ':', so `correct_uuid`'s assertion holds on it |
| BootEntries.LocatorEffect | fix_boot_bcd.py:241-276 | one locator adds at most 2 fixes and 1 unfixed; it changes elements only when it fixes, and only under its key; it asks at most once, never when an answer is at hand, never under `nochange` |
| BootEntries.LocatorsEffect | fix_boot_bcd.py:240-276 | the same bounds summed over the locator keys; once the first answer is usable, no second question is asked |
| BootEntries.ObjectEffect | fix_boot_bcd.py:230-276 | a skipped object is untouched; at most 4 fixes, 2 unfixed and 2 questions per object, one when the first answer is usable; no change without a fix; `nochange` fixes and asks nothing |
| BootEntries.ObjectsEffect | fix_boot_bcd.py:230-277 | the object keys and their order stay; skipped objects are untouched; nothing changes unless fixes grow; at most 2 questions per object |
| BootEntries.RunEffect | fix_boot_bcd.py:219-277 | only `Objects` changes, with its keys in order; skipped objects are untouched; no fixes means the tree as it was; `nochange` means no fixes, no questions and the tree as it was |
| BootEntries.LocatorUnfixed | fix_boot_bcd.py:245-276 | a count other than 2, or a known partition without a known disk, adds 1 to unfixed and leaves the locator as it was; a matching disk changes nothing but needs the disk name |
| BootEntries.MismatchFix | fix_boot_bcd.py:268-274 | a known partition on a different disk gets only the disk window at the second offset rewritten to the host's disk GUID, with fixes up by 1; under `nochange` unfixed grows instead |
| BootEntries.KnownMismatch | fix_boot_bcd.py:268-274 | the rules on a disk mismatch rewrite the second window (fixes + 1), or add 1 to unfixed under `nochange` |
| BootEntries.UnknownFix | fix_boot_bcd.py:249-262 | an unknown or overwritten partition is unfixed under `nochange` or without a usable answer; a fix adds exactly 2, and the rescan then finds the answer and its disk first |
| BootEntries.ReassignMeans | fix_boot_bcd.py:256-262 | a successful reassignment means the answer has a known disk, and the rescan finds the answer and that disk first |
| BootEntries.UnknownReassigned | fix_boot_bcd.py:249-262 | outside `nochange`, with a usable answer in force (the one at hand, else the user's), the run raises or the locator is fixed. The answer has a known disk. `Element` becomes the value with the partition window set to the answer and the disk window set to that disk. The answer is kept, and fixes grow by exactly 2 |
| BootEntries.UnknownIsAnswered | fix_boot_bcd.py:251-253 | outside `nochange`, the answer used is the one at hand when usable; otherwise `select_uuid` is asked once and its answer is used |
| BootEntries.AnsweredReassigned | fix_boot_bcd.py:253-258 | with a usable answer outside `nochange`, the run raises or the locator is replaced by the one with both windows rewritten, with fixes + 2 |
| BootEntries.ReassignValue | fix_boot_bcd.py:256-257 | a successful reassignment sets `Element` to the value with the partition window spliced to the answer, then the disk window spliced to the answer's disk |
| BootEntries.ScanGap | fix_boot_bcd.py:156-160 | a value in which the scan reports two windows has a ':', and the windows are at least 20 bytes apart, so the two splices do not overlap |
| GuidCorrect.TwoSplices | fix_boot_bcd.py:256-257 | two `correct_uuid` splices at byte offsets at least 20 apart rewrite exactly the two 47-character windows, to the two GUIDs' `uuid_bytes`, and keep every other character and the length |
| GuidCorrect.SpliceAtKept | fix_boot_bcd.py:212-214 | a splice after the first ':' keeps that ':' first, so a second splice lands where it would on the original value |

## Left out

- `dump_reg`, `write_reg` and `RegDict` run `reged` and handle temporary
  files, the backup copy and their removal (`registry_dict.py:27-43`,
  `154-189`). These are file and process I/O. The model works on the text
  the reader reads and the writer writes.
- UTF-8 encoding and decoding are file I/O, so text is a sequence of `char`.
  The line handling of text-mode files is modelled: universal newlines on
  reading (`Text.SplitLines`) and `\r\n` line ends on writing (`Text.Crlf`).
- `disk_uuid` and `collect_partuuids` (`fix_boot_bcd.py:55-67`, `95-121`)
  probe the host with `fdisk` and `/dev/disk/by-partuuid/`. Their results
  are the `Topology` maps. A disk GUID that `fdisk` did not report is `None`
  in `partDisks`.
- `find_loop` reads `/dev/mapper`. Its listing, in directory order, with each
  entry's link target, is a parameter.
- `select_uuid` (`fix_boot_bcd.py:177-198`) is terminal I/O, so it is an
  oracle: its n-th call returns `ask(n)`. The model does not capture three
  things about it:
  - An answer that contains ',' raises TypeError at line 192
    (`ans.split[","]`). The branch that would add an entry to `PartDisks`
    is therefore unreachable.
  - The oracle is not restricted to answers the prompt loop would return.
  - End of input on `input()` is not modelled.
- `usage`, `main`, option parsing, the module-level `which`/`geteuid`
  checks, all `print` output and `__repr__` are CLI glue and logging. The
  exceptions the logging can raise are kept: building the description
  (`BootEntries.DescFault`) and `PartDskNm` at line 276.
- Python's `int(x, 16)` also accepts blanks, a sign, `0x` and `_`. A field here is
  non-empty hexadecimal digits only; anything else is ValueError.
- `str.isdigit` is modelled on the ASCII digits; other Unicode digits are
  not. `str.isspace` is modelled on every character Python counts as white
  space (`Text.IsSpace`).
- In-place mutation and aliasing are not modelled. The source writes through
  references into nested dictionaries; the model returns a rebuilt tree. A
  value shared between two places of a dump cannot arise from the reader.
- RegWrite.OutputElem: requires `Terminates(val)`, because on other values
  the source loop never ends (`RegWrite.Diverges`).
- RegWrite.OutputRegsub: requires `Writable(es)`, and RegWrite.OutputReg
  requires `root.Branch? && Writable(root.entries)`: the writer's entry
  points carry the same restriction, every leaf's value must be one on
  which `output_elem` finishes.
- RegRoundTrip.RoundTrip: proved only for `Dumpable` trees.
  `LeafAfterBranchMoves` and `RootLeafBecomesHeader` show two kinds of tree
  that do not read back. A key, value or header holding `\n` or `\r` is
  excluded because the reader ends a line there (`Text.SplitLinesCr`). Some
  trees outside `Dumpable` still read back, such as a short value ending
  in `,` or a leaf with key `""`, but the model does not prove this.
- Idempotence of the correction loop (a second run fixes nothing) is not
  proved. It does not hold in general: a partition in the overwrite list is
  reassigned, and counted as 2 fixes, on every run.
- Byte values are unbounded naturals, as `int(x, 16)` gives. `Hex02` prints
  more than two digits for values over 255, as `:02x` does.

## Findings

| source | as written | input that shows it | evidently intended | confidence | as-written member | corrected member |
|---|---|---|---|---|---|---|
| fix_boot_bcd.py:90-91 | `strip_part` drops a final `p` after any disk name | `sdp1` gives `sd` | drop the `p` only after a disk name ending in a digit, so `sdp1` gives `sdp` (`nvme0n1p2` still gives `nvme0n1`) | not executed | DiskNames.StripPartSdp | DiskNames.WholeDiskOfPartition |
| fix_boot_bcd.py:164-168 | `partkey` replaces the character before the last digit with `0` | `sda1` and `sdb1` both give `sd01`, and `sdb1` sorts before `sda10` | insert a `0` before a single-digit partition number | not executed | DiskNames.PartKeyCollides | DiskNames.PartKeyOrder |
