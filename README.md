# drive-utils: duplicate finder and photo date fixer

A Dafny model of two Google Drive maintenance scripts of the drive-utils
repository.

- **Deduper** (`deduper/dedup.py`). It lists the user's files and keeps
  only those that carry an MD5 checksum. It groups them by checksum, and
  every group with more than one member is a set of duplicates. It reports
  the bytes taken by every member but the first of each set. If the user
  confirms, it trashes those extra members with batched requests. A batch
  is executed once it holds 1000 requests, and a last batch is always
  executed.
- **Photo date fixer** (`photo-date-fixer/datefix.py`). Some images carry
  an EXIF capture date (`YYYY:MM:DD HH:MM:SS`). For each one, the script
  sets Drive's modified date to that date in Drive's form
  (`YYYY-MM-DDTHH:MM:SS.0Z`). An image is skipped when its modified date
  already equals that form, when the EXIF date is missing or empty, or
  when the EXIF date does not parse. The files are handled in chunks of
  100, with one batch of patch requests per chunk.

The Drive API is replaced by plain values:

- A listing page is a sequence of `Item` records, or of `ImageFile`
  records.
- A batch of requests is the sequence of what it would send: file ids to
  trash, or `Patch(fileId, modifiedDate)` records.
- The user's answer to the confirmation prompt is a boolean.

Files:

- `wrappers.dfy`: `Option`.
- `seqs.dfy`: `Flatten`, `FlatMap` and `MapParts` over sequences of
  sequences, and their lemmas.
- `dedup.dfy`: module `Dedup`.
- `datefix.dfy`: module `DateFix`.

`DateFix.ParseDate` (the `strptime` call of `parseDate`) and
`DateFix.NewModifiedDate` (the per-file decision of `batch_patch_dates`)
carry no contract of their own; they are specified by the lemmas
`ParseDateOnlyExif`, `ParseDateAcceptsExif` and `NewModifiedDateSpec`.

The source builds its lists and dictionaries step by step in loops. Those
steps are modelled as methods with loops, each proved against a recursive
specification function (`WithChecksum`, `Group`, `TrashList`, `SumQuota`,
`PatchesFor`, `BatchPlan`). The lemmas state the properties of those
functions. Neither script keeps an object whose fields change across
calls, so the model has no classes.

## Model

| member | source | states |
|---|---|---|
| Dedup.KeepChecksummed | deduper/dedup.py:72-74 | appending one page's items to the results adds exactly the page's checksummed items, turned into files, in page order |
| Dedup.WithChecksumMembers | deduper/dedup.py:72-74 | a file is kept if and only if some item of the page carries a checksum and becomes that file |
| Dedup.WithChecksumAppend | deduper/dedup.py:65-74 | filtering page by page equals filtering the whole listing at once, so listing order is kept across pages |
| Dedup.GroupMembers | deduper/dedup.py:81-84 | `index[k]` holds every listed file with checksum k and no other file |
| Dedup.GroupCount | deduper/dedup.py:81-84 | the size of `index[k]` is the number of times k occurs among the listing's checksums |
| Dedup.GroupOrder | deduper/dedup.py:83-84 | `index[k]` lists its files in listing order: its j-th file is the file at the j-th ascending position holding k, and every such position is used |
| Dedup.GroupUniqueIds | deduper/dedup.py:83-84 | a group of a listing with distinct ids has distinct ids |
| Dedup.FindDupes | deduper/dedup.py:79-88 | every reported set is the complete group of one checksum and has at least two members; no two sets share a checksum; every checksum that occurs at least twice has its set |
| Dedup.RepeatedGroups | deduper/dedup.py:85-87 | taking the index's keys in any order, the result holds exactly the entries with more than one member, each once |
| Dedup.GroupsShareChecksum | deduper/dedup.py:83-87 | every member of a reported set is a listed file with the set's checksum, and it belongs to no other set |
| Dedup.ReportedIffRepeated | deduper/dedup.py:79-88 | a listed file is reported if and only if its checksum occurs at least twice; a file with a unique checksum is never reported |
| Dedup.DupesUniqueUpToOrder | deduper/dedup.py:85-88 | any two results allowed for one listing hold the same sets, so dictionary order changes only the order of the sets |
| Dedup.WastedBytes | deduper/dedup.py:101-107 | the total is the sum of `quotaBytesUsed` over every member but the first of each set |
| Dedup.PlanTrash | deduper/dedup.py:113-120 | the batches executed, read in order, are the ids of every member but the first of each set, in set order; every batch but the last holds exactly 1000 requests; the last holds fewer and is executed even when empty |
| Dedup.Enqueue | deduper/dedup.py:116-119 | adding one request to the open batch queues exactly that request; a batch that reaches 1000 requests is executed and replaced by an empty one; no executed batch holds anything but 1000 requests |
| Dedup.TrashListMembers | deduper/dedup.py:114-116 | a file is queued for trashing if and only if it is a member, other than the first, of some set |
| Dedup.TrashesEachExtraOnce | deduper/dedup.py:114-116 | when Drive ids are distinct, no id is queued twice, the first file of each set is never queued, and every other member of every set is queued |
| Dedup.TrashUniqueIds | deduper/dedup.py:114-116 | when Drive ids are distinct, the queued files have distinct ids |
| Dedup.Dedupe | deduper/dedup.py:91-123 | the run stops with nothing to do if and only if no checksum occurs twice; otherwise it reports the duplicate sets and the wasted bytes of their extra members; it trashes if and only if there are duplicates and the user confirmed, and the batches then queue exactly the extra members' ids, at most 1000 per batch |
| DateFix.Chunks | photo-date-fixer/datefix.py:76-79 | the chunks, concatenated, give back the list; each chunk is non-empty and holds at most n elements; every chunk but the last holds exactly n; the number of chunks is the length divided by n, rounded up |
| DateFix.ParseDateOnlyExif | photo-date-fixer/datefix.py:87-89 | whatever the parser accepts is a valid date (real day of the month, hour < 24, minute and second < 60), and the input is exactly that date written in EXIF form |
| DateFix.ParseDateAcceptsExif | photo-date-fixer/datefix.py:87-89 | every valid date written in EXIF form is parsed back to itself |
| DateFix.FormatDate | photo-date-fixer/datefix.py:82-84 | the Drive form is 22 characters long, with `-` at positions 4 and 7, `T` at 10, `:` at 13 and 16, and `.0Z` at the end |
| DateFix.FormatDateFields | photo-date-fixer/datefix.py:82-84 | each field of the date can be read back from its fixed digit positions in the Drive form |
| DateFix.FormatDateInjective | photo-date-fixer/datefix.py:82-84 | distinct valid dates have distinct Drive forms, so a stored modified date in the `.0Z` form equals the formatted date only for that same date |
| DateFix.NewModifiedDateSpec | photo-date-fixer/datefix.py:96-108 | a file without image metadata, without an EXIF date, or whose EXIF date does not parse is skipped; a file is patched if and only if its EXIF date is the EXIF form of a valid date whose Drive form differs from the modified date, and the patch then sets that Drive form |
| DateFix.PatchedNeedsNoPatch | photo-date-fixer/datefix.py:104-110 | a file whose `modifiedDate` already holds the Drive form of its parsed EXIF date (the string a patch sets) gets no patch |
| DateFix.SecondRunPatchesNothing | photo-date-fixer/datefix.py:92-111 | over files whose `modifiedDate` holds exactly the string their patch set, the decision issues no request |
| DateFix.ChunkBatch | photo-date-fixer/datefix.py:96-110 | the batch of one chunk holds, in chunk order, exactly one patch per file that needs one |
| DateFix.BatchPatchDates | photo-date-fixer/datefix.py:92-111 | one batch is executed per 100-file chunk, and each holds its chunk's patches |
| DateFix.BatchPatchDatesPlan | photo-date-fixer/datefix.py:94-111 | the batches, read in order, issue exactly the patches of the whole listing in listing order; there is one batch per chunk; no batch holds more than 100 requests |

## Left out

- OAuth authorisation and client creation (`create_client`), and every call to the Drive API. A listing arrives as a sequence of pages. A batch is the sequence of what it would send, so `len(batch._order)` becomes the length of that sequence.
- The paging loop of the deduper's `fetch_all_metadata` (page tokens, `maxResults=100`) is modelled only through `Dedup.WithChecksumAppend`. The date fixer's fetch adds no filtering, so the model starts from its result.
- Console output and the confirmation prompt. `Dedup.Dedupe` takes the answer's outcome (`conf.strip() == 'y'`) as a boolean. It does not model whitespace stripping.
- The division by `ONE_GIG` that prints the waste in gigabytes is floating-point output. The model keeps the exact byte total.
- `quotaBytesUsed` arrives from Drive as a decimal string that `int()` converts. The model holds it as a natural number.
- The date fixer's `main` and its JPEG-only query: they are I/O around `batch_patch_dates`.
- Dedup.FindDupes: the order of the sets follows Python's dictionary iteration, which the model does not fix. The result is specified up to that order, and `Dedup.DupesUniqueUpToOrder` shows nothing else is left open.
- Dedup.TrashesEachExtraOnce: it assumes Drive file ids are distinct within one listing. Drive guarantees this, but the script does not check it.
- DateFix.ParseDateOnlyExif: the model's parser accepts only the fixed-width form (four-digit year, two digits for every other field, one space between date and time). `strptime` also accepts one-digit month, day, hour, minute and second fields (`2015:1:5 9:3:7`), a space-padded day (`2015:01: 5 09:03:07`), and any run of whitespace where the format has its space (`2015:01:05  09:03:07`, or a tab). Such stamps are skipped by the model but patched by the script.
- DateFix.SecondRunPatchesNothing: it assumes Drive reports back, as `modifiedDate`, exactly the string the patch sent (`Patched` sets it). If Drive reports the time in another form (say with milliseconds, `.000Z`), the comparison at datefix.py:107 never matches and a real second run patches every image again; the lemma then speaks only of the decision on files whose stored string equals the formatted date.
- DateFix.Chunks: it requires a positive chunk size. With a step of 0, `xrange` raises an error, and the script only uses 100.
- A `ValueError` from `strptime` is the only failure modelled, as `None` from `ParseDate`. Errors from the Drive API (HTTP failures inside a batch) are not modelled.
