# olympus-omd: a verified model of the image downloader

olympus-omd is a command-line client for the Wi-Fi HTTP interface of
Olympus OM-D cameras. It lists the images on the camera's card and
downloads them into a local directory, optionally resuming from a given
file name and optionally overwriting files that already exist.

This project models the decision logic of the `Olympus` class and of the
`list` command in `main`, on top of an abstract filesystem:

- `strings.dfy` (module `Strings`): Python's `str.split` with a
  one-character separator, its inverse `Join`, `str.startswith`, and
  `unicode.strip()` with Python 2's set of space characters, and the ASCII
  test behind Python 2's implicit conversions between text and bytes.
- `listing.dfy` (module `Listing`): `Olympus.list`, starting from the
  text already extracted from the image-list page. The text is split on
  `'\n'`. A raw line is kept when it is non-empty and does not start with
  `VER_`, and the kept lines are stripped.
- `records.dfy` (module `Records`): records as the comma-split fields of a
  listed line; the position of the first record that has no field 1, and
  of the first one the download loop cannot format into a URL.
- `resume.dfy` (module `Resume`): the `first_image` logic. The names list
  of line 46 is built first. Then a generator search and `list.index` find
  the resume position, and the queue is cut at it. If the name is not
  listed, the whole list is queued and a warning is printed.
- `transfer.dfy` (module `Transfer`): the download loop as a
  specification function `Run`. It gives, for each queued record, the
  source URL, the destination, the transfer-or-skip decision and the status
  line. The lemmas about `Run` prove the policy, the frame and the failure
  behaviour.
- `camera.dfy` (module `Camera`): the state-changing part. A class `Disk`
  holds the set of existing paths and the history of transfers. A class
  `Olympus` (the camera address) has `Download`, the loop written as a
  method, proved equal to `Run`. `ListCommand` is `main`'s `list` loop.

Consequences of the code as written, which the model keeps:

- The filter of line 33 tests the raw line before stripping. So a line of
  spaces survives as `""` (`Listing.BlankLineKept`), and `"  VER_x"`
  survives as `"VER_x"` (`Listing.IndentedVersionLineKept`). Such an empty
  entry has no field 1, and `list` and `download` stop with an
  `IndexError` on it.
- The code reads only fields 0 and 1 of a record. Any record with at least
  two fields is accepted, and the other fields are never looked at.
- `if first_image:` is Python truthiness, so an empty name behaves like no
  name.
- When a resume name is given, the names list of line 46 reads field 1 of
  EVERY record. A short record anywhere in the list therefore fails the run
  before any transfer, even when it lies before the resume point.
- Without a resume name, a short record fails the run at line 54. The
  records before it have already been processed by then, and their files
  stay on disk.
- The fields come from the page as Python 2 `unicode` text, while the URL
  and destination templates of lines 54-55 are byte strings. Formatting a
  non-ASCII field 0 or 1 into them raises `UnicodeEncodeError` at line 54,
  before that record's status line. The model fails the loop on such a
  record just as on a short one (`Records.Addressable`).
- The resume name arrives from the command line as a byte string. Python 2
  finds it equal to a file name only when its bytes are ASCII; a non-ASCII
  argument matches no record, so the warning is printed and the whole list
  is queued.

## Model

| member | source | states |
|---|---|---|
| Strings.Split | olympus-omd.py:44 | `split(',')` never returns an empty list, no part contains the separator, and joining the parts with the separator gives back the line exactly |
| Strings.SplitJoin | olympus-omd.py:44 | splitting the join of separator-free parts returns those parts, so fields are recovered unchanged |
| Strings.IsSpace | olympus-omd.py:33 | the characters Python 2.7's `unicode.strip()` removes: 0x09-0x0D, 0x1C-0x20, 0x85, 0xA0, 0x1680, 0x180E, 0x2000-0x200A, 0x2028, 0x2029, 0x202F, 0x205F, 0x3000 |
| Strings.IsAscii | olympus-omd.py:46-47 | the text the ASCII codec accepts: every character below 128; the implicit conversions between byte strings and text at lines 46-47 and 54 succeed exactly on it |
| Strings.Strip | olympus-omd.py:33 | `strip()` removes exactly the all-space prefix and the all-space suffix; the result neither starts nor ends with a space character |
| Strings.StripEmpty | olympus-omd.py:33 | a line strips to `""` exactly when it consists of space characters |
| Strings.StripAfterSpaces | olympus-omd.py:33 | space characters in front of a line do not change its strip |
| Strings.StripKeepsPrefix | olympus-omd.py:33 | a line opening with a prefix whose ends are not space characters still opens with it once stripped |
| Strings.StartsWith | olympus-omd.py:33 | `s.startswith(prefix)`: the prefix is no longer than `s` and equals its first characters |
| Strings.StripIdempotent | olympus-omd.py:33 | stripping a stripped line changes nothing |
| Strings.StripUnchanged | olympus-omd.py:33 | a line with no space character at either end is its own strip |
| Records.SplitRecords | olympus-omd.py:44 | one record per listed line, each non-empty, each joining back to its line, no field containing a comma |
| Records.HasName | olympus-omd.py:46 | `record[1]` can be indexed: the record has at least two fields (also at lines 54 and 95) |
| Records.Addressable | olympus-omd.py:54 | the URL of line 54 can be formatted: field 1 exists and fields 0 and 1 are ASCII; otherwise line 54 raises `IndexError` or `UnicodeEncodeError` |
| Records.FirstShort | olympus-omd.py:46 | the position where reading field 1 of each record in turn first fails: every earlier record has a field 1, the one there does not |
| Records.Names | olympus-omd.py:46 | the names list has one entry per record, and entry i is field 1 of record i |
| Records.FirstUnaddressable | olympus-omd.py:54 | the position where formatting the URL first fails: every earlier record has a field 1 and ASCII fields 0 and 1, the one there does not |
| Records.NameBetweenCommas | olympus-omd.py:54-55 | field 1 of a record is exactly the text between the line's first and second commas |
| Listing.Kept | olympus-omd.py:33 | the comprehension's test on the raw line: non-empty and not starting with `VER_`; `BlankLineKept` and `IndentedVersionLineKept` show what it lets through |
| Listing.FilterLines | olympus-omd.py:33 | the comprehension has as many entries as kept raw lines; `FilterLinesExact` and `FilterLinesOrigin` give each entry |
| Listing.ImageList | olympus-omd.py:33 | `Olympus.list` has at most one entry per line of the page text; `ImageListExact` and `ImageListEntries` give each entry |
| Listing.FilterLinesExact | olympus-omd.py:33 | the listing has one entry per kept raw line (non-empty, not starting with `VER_`), and kept line j appears stripped at the position given by the number of kept lines before it, so input order is kept |
| Listing.NthKept | olympus-omd.py:33 | the k-th kept raw line is kept and has exactly k kept lines before it |
| Listing.FilterLinesOrigin | olympus-omd.py:33 | every entry of the listing is the stripped k-th kept raw line |
| Listing.ImageListExact | olympus-omd.py:33 | for a page text, the entries are exactly the stripped kept lines of its `'\n'`-split, in order, and there are as many entries as kept lines |
| Listing.ImageListEntries | olympus-omd.py:33 | no entry contains a line break, and no entry starts or ends with a space character |
| Listing.BlankLineKept | olympus-omd.py:33 | a raw line made only of space characters passes the filter and yields an empty entry |
| Listing.IndentedVersionLineKept | olympus-omd.py:33 | a `VER_` line indented by any non-empty run of space characters passes the filter and yields the version line itself, stripped, which starts with `VER_` |
| Resume.Resuming | olympus-omd.py:45 | `if first_image:` holds for a present, non-empty name only |
| Resume.FirstWithName | olympus-omd.py:47 | `next(...)` finds the first record whose field 1 is the resume name |
| Resume.IndexOf | olympus-omd.py:47 | `images.index(r)` is the first position holding a record equal to `r` |
| Resume.IndexOfFirstWithName | olympus-omd.py:47 | the `index` of the record `next` found is that record's own position |
| Resume.SelectQueue | olympus-omd.py:45-50 | with no name or an empty name, the full list and no warning; with a name, a failure when any record lacks field 1; otherwise, for an ASCII name, the suffix from the first record carrying it; for a name that no record carries or that is not ASCII, the full list with the warning |
| Resume.SelectionSuffix | olympus-omd.py:45-50 | a selected queue is a suffix of the list; with a name, every queued record has a field 1 |
| Resume.SelectionWarning | olympus-omd.py:46-50 | the warning is printed exactly when a name is given and it is not ASCII or no record carries it |
| Resume.ResumeExample | olympus-omd.py:45-50 | `[A,B,C,D]` resumed from `C` queues `[C,D]`; resumed from an unlisted `Z` it queues all four, with the warning |
| Transfer.Run | olympus-omd.py:53-61 | at most one status line per queued record and at most one transfer per status line, and no existing path removed; `RunShape`, `RunFetches`, `RunPolicy` and `RunFrame` give the rest |
| Transfer.Url | olympus-omd.py:54 | the source URL `http://ip/field0/field1` of a record; `RunFetches` states that every transfer uses it |
| Transfer.Dest | olympus-omd.py:55 | the destination `directory/field1`; `DestInjective` states that distinct names give distinct destinations |
| Transfer.DestInjective | olympus-omd.py:55 | within one output directory, distinct file names have distinct destinations |
| Transfer.RunShape | olympus-omd.py:53-61 | one status line per queued record up to the first record without field 1 or with a non-ASCII field 0 or 1, in queue order and naming that record; the run fails exactly when such a record is queued; the existing paths afterwards are the initial ones plus the destinations of the processed records |
| Transfer.RunFetches | olympus-omd.py:53-58 | the transfers are, in order, the `(url, destination)` pairs of the records reported OK, with url `http://ip/field0/field1` and destination `directory/field1`; with `force` they are those of all processed records |
| Transfer.RunPolicy | olympus-omd.py:56-61 | record k is transferred (OK) if and only if `force` is set or its destination is absent from the paths existing at its turn: the initial paths plus the destinations of the records before it |
| Transfer.ForceTransfersAll | olympus-omd.py:57-59 | with `force`, every processed record is transferred |
| Transfer.RepeatedNameSkipped | olympus-omd.py:55-61 | without `force`, a record whose file name an earlier queued record already had is reported SKIPPED |
| Transfer.RunFrame | olympus-omd.py:53-58 | after the loop, every processed record's destination exists, no existing path is removed, and every new path is the destination of a processed record |
| Camera.Disk.Exists | olympus-omd.py:57 | `os.path.exists(dest)` is membership in the disk's set of paths; `DownloadQueue` tests it for the transfer-or-skip decision |
| Camera.Disk.Retrieve | olympus-omd.py:58 | a transfer makes its destination exist and is recorded; nothing else on disk changes |
| Camera.Olympus.Download | olympus-omd.py:43-50 | the queue is the one the resume step selects from the listing, and the run on it is exactly what `Run` specifies; when the resume step fails, nothing is reported or written |
| Camera.Olympus.DownloadQueue | olympus-omd.py:53-61 | the loop over the queue leaves exactly what `Run` specifies: its status lines, whether it failed, the existing paths, and its transfers appended to the disk's history |
| Camera.ListCommand | olympus-omd.py:91-95 | `list` prints field 1 of each listed record in order, and stops with a failure exactly at the first record that has no field 1 |

## Left out

- HTTP: `info` (`get_caminfo.cgi`), the request of `list`, the image
  transfer of `urlretrieve`, and `power_off` (`exec_pwoff.cgi`) are network
  I/O. The model starts from the page's extracted text. It treats a
  transfer as a step that makes its destination exist.
- Camera.Disk.Retrieve: a transfer always succeeds in the model. A
  transport failure (no connection, a dropped one) raises in the code and
  aborts the remaining queue; that path is not modelled. An HTTP error
  status does not raise in Python 2's `urllib.urlretrieve`: the error page
  is written to the destination, which the model's transfer reproduces.
- Camera.Disk.Exists: paths are their own identities. There is no
  normalisation, no case folding, and no resolution of a trailing `/`, of
  `.` or `..`, or of a `/` inside a file name. So a record with an empty
  file name has destination `directory/`, which `os.path.exists` finds (the
  directory itself, created at lines 51-52), and the code reports it
  SKIPPED (or, with `force`, fails writing to a directory); the model
  reports it OK. Likewise names `.` and `..`, names that differ only by
  case on a case-insensitive file system, and a directory given with a
  trailing slash are not aliased. `os.makedirs('')` failing for an empty
  output directory is not modelled either.
- Markup extraction with BeautifulSoup (the camera model name, the text of
  the list page) is a foreign library and is not part of this model.
- `os.makedirs` of the output directory (lines 51-52) is a filesystem side
  effect with no decision logic. The directory path is not added to the
  disk's set of paths.
- Argument parsing (`arguments`) and `main`'s banner, exit code, error
  message, "Done." line and power-off call are command-line plumbing. Only
  the `list` loop of `main` is modelled (`Camera.ListCommand`).
- Printing a non-ASCII file name in the `list` output of line 95 succeeds
  or raises depending on the encoding of the console, which the model does
  not know; printing is taken to succeed. `Camera.ListCommand` therefore fails only on a record without a
  field 1.
- The resume argument is modelled as its bytes, one character per byte;
  the locale's decoding of the command line is not modelled.
- Console output is modelled as data: status lines as `(name, OK | SKIPPED)`
  reports, the warning as a flag, the `list` output as a sequence of names.
  The exact spacing of Python 2's `print x,` soft space is not modelled, and
  neither is the name being printed before its transfer starts.
