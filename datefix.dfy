/**
 * The photo date fixer of photo-date-fixer/datefix.py: for every JPEG image
 * whose EXIF metadata carries a capture date, Drive's modified date is set to
 * that capture date, with patch requests sent in batches that follow chunks
 * of 100 files.
 *
 * The Drive API is replaced by plain values: the listing arrives as a
 * sequence of file records and the patch requests leave as a sequence of
 * batches.
 */
module DateFix {
  import opened Wrappers
  import opened Seqs

  // ---------------------------------------------------------------------------
  // chunks

  /** Successive n-sized slices of l; the last one may be shorter. */
  function Chunks<T>(l: seq<T>, n: nat): (r: seq<seq<T>>)
    requires n > 0
    ensures Flatten(r) == l
    ensures forall i :: 0 <= i < |r| ==> 0 < |r[i]| <= n
    ensures forall i :: 0 <= i < |r| - 1 ==> |r[i]| == n
    ensures (|r| - 1) * n < |l| <= |r| * n
    decreases |l|
  {
    if |l| == 0 then []
    else
      var m := if |l| < n then |l| else n;
      var rest := Chunks(l[m..], n);
      FlattenCons(l[..m], rest);
      assert l[..m] + l[m..] == l;
      ChunkCountStep(|rest|, |l|, m, n);
      [l[..m]] + rest
  }

  /** Taking one more chunk of m elements keeps the count of chunks the
      ceiling of the length over n. */
  lemma ChunkCountStep(k: nat, len: nat, m: nat, n: nat)
    requires 0 < m <= n && m <= len
    requires m == n || m == len
    requires (k - 1) * n < len - m <= k * n
    ensures k * n < len <= (k + 1) * n
  {
    if m < n {
      assert (k - 1) * n == k * n - n;
      SmallMultiple(k, n);
    } else {
      assert (k + 1) * n == k * n + n;
      assert (k - 1) * n == k * n - n;
    }
  }

  lemma SmallMultiple(k: nat, n: nat)
    requires k * n < n
    ensures k == 0
  {
  }

  // ---------------------------------------------------------------------------
  // Dates

  /** A calendar date and time of day, as datetime holds it after strptime. */
  datatype DateTime = DateTime(year: int, month: int, day: int, hour: int, minute: int, second: int)

  predicate IsLeapYear(y: int)
  {
    y % 4 == 0 && (y % 100 != 0 || y % 400 == 0)
  }

  function DaysInMonth(y: int, m: int): int
    requires 1 <= m <= 12
  {
    if m == 2 then (if IsLeapYear(y) then 29 else 28)
    else if m == 4 || m == 6 || m == 9 || m == 11 then 30
    else 31
  }

  /** The values a datetime accepts: years 1 to 9999, real calendar days, and
      times of day without a leap second. */
  predicate ValidDate(d: DateTime)
  {
    && 1 <= d.year <= 9999
    && 1 <= d.month <= 12
    && 1 <= d.day <= DaysInMonth(d.year, d.month)
    && 0 <= d.hour < 24
    && 0 <= d.minute < 60
    && 0 <= d.second < 60
  }

  predicate IsDigit(c: char)
  {
    '0' <= c <= '9'
  }

  predicate AllDigits(s: string)
  {
    forall i :: 0 <= i < |s| ==> IsDigit(s[i])
  }

  function Pow10(w: nat): nat
  {
    if w == 0 then 1 else 10 * Pow10(w - 1)
  }

  /** x in decimal, zero-padded (or cut) to width digits. */
  function Digits(x: nat, width: nat): (s: string)
    ensures |s| == width && AllDigits(s)
  {
    if width == 0 then [] else Digits(x / 10, width - 1) + [('0' as int + x % 10) as char]
  }

  /** The number a string of decimal digits denotes. */
  function DigitsValue(s: string): (v: nat)
    requires AllDigits(s)
    ensures v < Pow10(|s|)
  {
    if s == [] then 0
    else DigitsValue(s[..|s| - 1]) * 10 + (s[|s| - 1] as int - '0' as int)
  }

  lemma {:induction false} DigitsRoundTrip(x: nat, width: nat)
    requires x < Pow10(width)
    ensures DigitsValue(Digits(x, width)) == x
  {
    if width > 0 {
      DigitsRoundTrip(x / 10, width - 1);
      var s := Digits(x, width);
      assert s[..|s| - 1] == Digits(x / 10, width - 1);
    }
  }

  lemma {:induction false} DigitsValueRoundTrip(s: string)
    requires AllDigits(s)
    ensures Digits(DigitsValue(s), |s|) == s
  {
    if s != [] {
      var n := |s|;
      var v := DigitsValue(s[..n - 1]);
      DigitsValueRoundTrip(s[..n - 1]);
      var d := s[n - 1] as int - '0' as int;
      var x := DigitsValue(s);
      assert x == v * 10 + d;
      assert x / 10 == v && x % 10 == d;
      assert (('0' as int + d) as char) == s[n - 1];
      assert Digits(x, n) == Digits(v, n - 1) + [s[n - 1]];
      assert s == s[..n - 1] + [s[n - 1]];
    }
  }

  /** The EXIF form of a date, `YYYY:MM:DD HH:MM:SS`. */
  function ExifText(d: DateTime): string
    requires ValidDate(d)
  {
    Digits(d.year, 4) + ":" + Digits(d.month, 2) + ":" + Digits(d.day, 2) + " " +
    Digits(d.hour, 2) + ":" + Digits(d.minute, 2) + ":" + Digits(d.second, 2)
  }

  /** Reads an EXIF date `YYYY:MM:DD HH:MM:SS`; None where strptime would
      raise ValueError. */
  function ParseDate(s: string): Option<DateTime>
  {
    if |s| == 19 && s[4] == ':' && s[7] == ':' && s[10] == ' ' && s[13] == ':' && s[16] == ':'
       && AllDigits(s[0..4]) && AllDigits(s[5..7]) && AllDigits(s[8..10])
       && AllDigits(s[11..13]) && AllDigits(s[14..16]) && AllDigits(s[17..19])
    then
      var d := DateTime(DigitsValue(s[0..4]), DigitsValue(s[5..7]), DigitsValue(s[8..10]),
                        DigitsValue(s[11..13]), DigitsValue(s[14..16]), DigitsValue(s[17..19]));
      if ValidDate(d) then Some(d) else None
    else None
  }

  lemma ParsedFieldsRender(s: string)
    requires |s| == 19 && s[4] == ':' && s[7] == ':' && s[10] == ' ' && s[13] == ':' && s[16] == ':'
    requires AllDigits(s[0..4]) && AllDigits(s[5..7]) && AllDigits(s[8..10])
    requires AllDigits(s[11..13]) && AllDigits(s[14..16]) && AllDigits(s[17..19])
    ensures Digits(DigitsValue(s[0..4]), 4) + ":" + Digits(DigitsValue(s[5..7]), 2) + ":" +
            Digits(DigitsValue(s[8..10]), 2) + " " + Digits(DigitsValue(s[11..13]), 2) + ":" +
            Digits(DigitsValue(s[14..16]), 2) + ":" + Digits(DigitsValue(s[17..19]), 2) == s
  {
    var year, month, day := s[0..4], s[5..7], s[8..10];
    var hour, minute, second := s[11..13], s[14..16], s[17..19];
    DigitsValueRoundTrip(year);
    DigitsValueRoundTrip(month);
    DigitsValueRoundTrip(day);
    DigitsValueRoundTrip(hour);
    DigitsValueRoundTrip(minute);
    DigitsValueRoundTrip(second);
    SplitExif(s);
  }

  lemma SplitExif(s: string)
    requires |s| == 19 && s[4] == ':' && s[7] == ':' && s[10] == ' ' && s[13] == ':' && s[16] == ':'
    ensures s == s[0..4] + ":" + s[5..7] + ":" + s[8..10] + " " + s[11..13] + ":" + s[14..16] + ":" + s[17..19]
  {
  }

  /** Whatever ParseDate accepts is the EXIF form of a valid date. */
  lemma ParseDateOnlyExif(s: string)
    ensures ParseDate(s).Some? ==> ValidDate(ParseDate(s).value) && ExifText(ParseDate(s).value) == s
  {
    if ParseDate(s).Some? {
      ParsedFieldsRender(s);
    }
  }

  /** Every valid date written in EXIF form is read back as itself. */
  lemma ParseDateAcceptsExif(d: DateTime)
    requires ValidDate(d)
    ensures ParseDate(ExifText(d)) == Some(d)
  {
    var s := ExifText(d);
    assert s[0..4] == Digits(d.year, 4);
    assert s[5..7] == Digits(d.month, 2);
    assert s[8..10] == Digits(d.day, 2);
    assert s[11..13] == Digits(d.hour, 2);
    assert s[14..16] == Digits(d.minute, 2);
    assert s[17..19] == Digits(d.second, 2);
    DigitsRoundTrip(d.year, 4);
    DigitsRoundTrip(d.month, 2);
    DigitsRoundTrip(d.day, 2);
    DigitsRoundTrip(d.hour, 2);
    DigitsRoundTrip(d.minute, 2);
    DigitsRoundTrip(d.second, 2);
  }

  /** The Drive form of a date: ISO 8601 `YYYY-MM-DDTHH:MM:SS` followed by `.0Z`. */
  function FormatDate(d: DateTime): (r: string)
    requires ValidDate(d)
    ensures |r| == 22 && r[10] == 'T' && r[19..] == ".0Z"
    ensures r[4] == '-' && r[7] == '-' && r[13] == ':' && r[16] == ':'
  {
    Digits(d.year, 4) + "-" + Digits(d.month, 2) + "-" + Digits(d.day, 2) + "T" +
    Digits(d.hour, 2) + ":" + Digits(d.minute, 2) + ":" + Digits(d.second, 2) + ".0Z"
  }

  /** Distinct dates have distinct Drive forms, so a stored modified date in
      the `.0Z` form equals the formatted date only for that same date. */
  lemma FormatDateInjective(d1: DateTime, d2: DateTime)
    requires ValidDate(d1) && ValidDate(d2)
    requires FormatDate(d1) == FormatDate(d2)
    ensures d1 == d2
  {
    FormatDateFields(d1);
    FormatDateFields(d2);
  }

  lemma FormatDateFields(d: DateTime)
    requires ValidDate(d)
    ensures AllDigits(FormatDate(d)[0..4]) && DigitsValue(FormatDate(d)[0..4]) == d.year
    ensures AllDigits(FormatDate(d)[5..7]) && DigitsValue(FormatDate(d)[5..7]) == d.month
    ensures AllDigits(FormatDate(d)[8..10]) && DigitsValue(FormatDate(d)[8..10]) == d.day
    ensures AllDigits(FormatDate(d)[11..13]) && DigitsValue(FormatDate(d)[11..13]) == d.hour
    ensures AllDigits(FormatDate(d)[14..16]) && DigitsValue(FormatDate(d)[14..16]) == d.minute
    ensures AllDigits(FormatDate(d)[17..19]) && DigitsValue(FormatDate(d)[17..19]) == d.second
  {
    var s := FormatDate(d);
    assert s[0..4] == Digits(d.year, 4);
    assert s[5..7] == Digits(d.month, 2);
    assert s[8..10] == Digits(d.day, 2);
    assert s[11..13] == Digits(d.hour, 2);
    assert s[14..16] == Digits(d.minute, 2);
    assert s[17..19] == Digits(d.second, 2);
    DigitsRoundTrip(d.year, 4);
    DigitsRoundTrip(d.month, 2);
    DigitsRoundTrip(d.day, 2);
    DigitsRoundTrip(d.hour, 2);
    DigitsRoundTrip(d.minute, 2);
    DigitsRoundTrip(d.second, 2);
  }

  // ---------------------------------------------------------------------------
  // The per-file decision

  /** The `imageMediaMetadata` of a listed image; `date` is the EXIF capture date. */
  datatype ImageMeta = ImageMeta(date: Option<string>)

  /** A listed image with the fields the patch decision reads. */
  datatype ImageFile = ImageFile(id: string, imageMediaMetadata: Option<ImageMeta>, modifiedDate: string)

  /** A request to set a file's modified date (setModifiedDate=True). */
  datatype Patch = Patch(fileId: string, modifiedDate: string)

  /** The EXIF date text the guard lets through: present and non-empty. */
  function ExifStamp(f: ImageFile): Option<string>
  {
    match f.imageMediaMetadata
    case None => None
    case Some(meta) =>
      match meta.date
      case None => None
      case Some(stamp) => if stamp == "" then None else Some(stamp)
  }

  /** The modified date a file is patched to, or None when it is skipped. */
  function NewModifiedDate(f: ImageFile): Option<string>
  {
    match ExifStamp(f)
    case None => None
    case Some(stamp) =>
      match ParseDate(stamp)
      case None => None
      case Some(d) =>
        var formatted := FormatDate(d);
        if formatted == f.modifiedDate then None else Some(formatted)
  }

  /** A file is patched exactly when it carries a non-empty EXIF date that
      parses and whose Drive form differs from its modified date; the new
      modified date is then the Drive form of that EXIF date. A file without
      image metadata, without an EXIF date, or with an EXIF date that does not
      parse is skipped without error. */
  lemma NewModifiedDateSpec(f: ImageFile)
    ensures f.imageMediaMetadata.None? ==> NewModifiedDate(f).None?
    ensures f.imageMediaMetadata.Some? && f.imageMediaMetadata.value.date.None? ==> NewModifiedDate(f).None?
    ensures ExifStamp(f).Some? && ParseDate(ExifStamp(f).value).None? ==> NewModifiedDate(f).None?
    ensures NewModifiedDate(f).Some? <==>
              exists d :: ValidDate(d) && ExifStamp(f) == Some(ExifText(d)) && FormatDate(d) != f.modifiedDate
    ensures forall d :: ValidDate(d) && ExifStamp(f) == Some(ExifText(d)) && FormatDate(d) != f.modifiedDate ==>
              NewModifiedDate(f) == Some(FormatDate(d))
  {
    if ExifStamp(f).Some? {
      var stamp := ExifStamp(f).value;
      ParseDateOnlyExif(stamp);
      if ParseDate(stamp).Some? {
        var d0 := ParseDate(stamp).value;
        forall d | ValidDate(d) && ExifStamp(f) == Some(ExifText(d))
          ensures d == d0
        {
          ParseDateAcceptsExif(d);
        }
      } else {
        forall d | ValidDate(d) && ExifStamp(f) == Some(ExifText(d))
          ensures false
        {
          ParseDateAcceptsExif(d);
        }
      }
    }
  }

  /** The file once its patch is applied, assuming Drive reports back as
      `modifiedDate` exactly the string the patch sent. */
  function Patched(f: ImageFile): ImageFile
  {
    match NewModifiedDate(f)
    case None => f
    case Some(m) => f.(modifiedDate := m)
  }

  /** A file whose modified date already holds the string its patch would
      set gets no patch. */
  lemma PatchedNeedsNoPatch(f: ImageFile)
    ensures NewModifiedDate(Patched(f)) == None
  {
    assert ExifStamp(Patched(f)) == ExifStamp(f);
  }

  /** The patch issued for one file, if any. */
  function PatchOf(f: ImageFile): seq<Patch>
  {
    match NewModifiedDate(f)
    case None => []
    case Some(m) => [Patch(f.id, m)]
  }

  /** The patches issued for a sequence of files, in order. */
  function PatchesFor(files: seq<ImageFile>): seq<Patch>
  {
    FlatMap(PatchOf, files)
  }

  /** A second run over the patched files issues nothing. */
  lemma SecondRunPatchesNothing(files: seq<ImageFile>)
    ensures PatchesFor(seq(|files|, i requires 0 <= i < |files| => Patched(files[i]))) == []
  {
    var fixed := seq(|files|, i requires 0 <= i < |files| => Patched(files[i]));
    forall i | 0 <= i < |fixed|
      ensures PatchOf(fixed[i]) == []
    {
      PatchedNeedsNoPatch(files[i]);
    }
    FlatMapNone(PatchOf, fixed);
  }

  // ---------------------------------------------------------------------------
  // batch_patch_dates

  /** Files are handled this many at a time, one batch per chunk. */
  const ChunkSize: nat := 100

  /** One batch per chunk, holding that chunk's patches. */
  function BatchPlan(chunks: seq<seq<ImageFile>>): seq<seq<Patch>>
  {
    MapParts(PatchOf, chunks)
  }

  /** One batch per chunk of 100 files, each executed even when empty. */
  method BatchPatchDates(files: seq<ImageFile>) returns (batches: seq<seq<Patch>>)
    ensures batches == BatchPlan(Chunks(files, ChunkSize))
  {
    var chunks := Chunks(files, ChunkSize);
    batches := [];
    var c := 0;
    while c < |chunks|
      invariant 0 <= c <= |chunks|
      invariant batches == BatchPlan(chunks[..c])
    {
      var batch := ChunkBatch(chunks[c]);
      MapPartsPush(PatchOf, chunks, c);
      batches := batches + [batch];
      c := c + 1;
    }
    assert chunks[..|chunks|] == chunks;
  }

  /** batch_patch_dates issues exactly the patches of the whole listing, in
      listing order, with one batch per 100-file chunk holding that chunk's
      patches, and at most 100 requests in a batch. */
  lemma BatchPatchDatesPlan(files: seq<ImageFile>)
    ensures Flatten(BatchPlan(Chunks(files, ChunkSize))) == PatchesFor(files)
    ensures |BatchPlan(Chunks(files, ChunkSize))| == |Chunks(files, ChunkSize)|
    ensures forall i :: 0 <= i < |Chunks(files, ChunkSize)| ==>
              BatchPlan(Chunks(files, ChunkSize))[i] == PatchesFor(Chunks(files, ChunkSize)[i])
    ensures forall i :: 0 <= i < |BatchPlan(Chunks(files, ChunkSize))| ==>
              |BatchPlan(Chunks(files, ChunkSize))[i]| <= ChunkSize
  {
    var chunks := Chunks(files, ChunkSize);
    MapPartsShape(PatchOf, chunks);
    forall i | 0 <= i < |chunks|
      ensures |BatchPlan(chunks)[i]| <= ChunkSize
    {
      forall j | 0 <= j < |chunks[i]|
        ensures |PatchOf(chunks[i][j])| <= 1
      {
      }
      FlatMapAtMostOne(PatchOf, chunks[i]);
    }
  }

  /** The inner loop of batch_patch_dates: the requests one chunk adds to its batch. */
  method ChunkBatch(chunk: seq<ImageFile>) returns (batch: seq<Patch>)
    ensures batch == PatchesFor(chunk)
  {
    batch := [];
    var i := 0;
    while i < |chunk|
      invariant 0 <= i <= |chunk|
      invariant batch == PatchesFor(chunk[..i])
    {
      var f := chunk[i];
      FlatMapPush(PatchOf, chunk, i);
      i := i + 1;
      if !(f.imageMediaMetadata.Some? && f.imageMediaMetadata.value.date.Some?
           && f.imageMediaMetadata.value.date.value != "") {
        continue;
      }
      var realDate := ParseDate(f.imageMediaMetadata.value.date.value);
      if realDate.None? {
        continue;
      }
      var newDate := FormatDate(realDate.value);
      if newDate == f.modifiedDate {
        continue;
      }
      batch := batch + [Patch(f.id, newDate)];
    }
    assert chunk[..|chunk|] == chunk;
  }
}
