/**
 * The duplicate finder of deduper/dedup.py: files listed from Drive are
 * grouped by their MD5 checksum, every group with more than one member is a
 * set of duplicates, the first member of each set is kept and the others are
 * queued for trashing in batches of at most 1000 requests.
 *
 * The Drive API is replaced by plain values: the listing arrives as a
 * sequence of items, and the trash requests leave as a sequence of batches of
 * file ids. The checksum is an opaque key; it is never computed here.
 */
module Dedup {
  import opened Wrappers
  import opened Seqs

  /** One entry of a listing page, with the fields the fetch asks for.
      Folders and native Google documents carry no checksum. */
  datatype Item = Item(id: string, md5Checksum: Option<string>, title: string,
                       alternateLink: string, quotaBytesUsed: nat)

  /** A listed file that carries a checksum. */
  datatype File = File(id: string, checksum: string, title: string, link: string,
                       quotaBytesUsed: nat)

  /** What one run of the deduper ends with. */
  datatype Report =
    | NoDuplicates
    | Declined(dupes: seq<seq<File>>, wasted: nat)
    | Trashed(dupes: seq<seq<File>>, wasted: nat, batches: seq<seq<string>>)

  /** A trash batch is executed once it holds this many requests. */
  const MaxBatch: nat := 1000

  function ToFile(item: Item): File
    requires item.md5Checksum.Some?
  {
    File(item.id, item.md5Checksum.value, item.title, item.alternateLink, item.quotaBytesUsed)
  }

  // ---------------------------------------------------------------------------
  // Keeping only the items that carry a checksum

  /** The files of a page that carry a checksum, in page order. */
  function WithChecksum(items: seq<Item>): seq<File>
  {
    if items == [] then []
    else
      var last := items[|items| - 1];
      WithChecksum(items[..|items| - 1]) + (if last.md5Checksum.Some? then [ToFile(last)] else [])
  }

  /** Appends the checksummed items of one page to the results gathered so far. */
  method KeepChecksummed(results: seq<File>, page: seq<Item>) returns (r: seq<File>)
    ensures r == results + WithChecksum(page)
  {
    r := results;
    var i := 0;
    while i < |page|
      invariant 0 <= i <= |page|
      invariant r == results + WithChecksum(page[..i])
    {
      assert page[..i + 1][..i] == page[..i];
      if page[i].md5Checksum.Some? {
        r := r + [ToFile(page[i])];
      }
      i := i + 1;
    }
    assert page[..|page|] == page;
  }

  /** A file is kept exactly when some item of the page carries a checksum
      and becomes that file. */
  lemma {:induction false} WithChecksumMembers(items: seq<Item>, f: File)
    ensures f in WithChecksum(items) <==>
            exists i :: 0 <= i < |items| && items[i].md5Checksum.Some? && ToFile(items[i]) == f
  {
    if items != [] {
      var n := |items|;
      WithChecksumMembers(items[..n - 1], f);
      if f in WithChecksum(items[..n - 1]) {
        var i :| 0 <= i < n - 1 && items[..n - 1][i].md5Checksum.Some? && ToFile(items[..n - 1][i]) == f;
        assert items[i] == items[..n - 1][i];
      }
      if i :| 0 <= i < n && items[i].md5Checksum.Some? && ToFile(items[i]) == f {
        if i < n - 1 {
          assert items[..n - 1][i] == items[i];
        }
      }
    }
  }

  /** Filtering is done page by page: the filter of a listing is the filter
      of its first part followed by the filter of the rest, so the kept files
      keep the listing's order. */
  lemma {:induction false} WithChecksumAppend(a: seq<Item>, b: seq<Item>)
    ensures WithChecksum(a + b) == WithChecksum(a) + WithChecksum(b)
    decreases |b|
  {
    if b == [] {
      assert a + b == a;
    } else {
      var n := |b|;
      assert (a + b)[..|a + b| - 1] == a + b[..n - 1];
      WithChecksumAppend(a, b[..n - 1]);
    }
  }

  // ---------------------------------------------------------------------------
  // Grouping by checksum

  /** The checksums of a listing, in order. */
  function Checksums(files: seq<File>): seq<string>
  {
    seq(|files|, i requires 0 <= i < |files| => files[i].checksum)
  }

  /** The files with checksum k, in listing order: what `index[k]` holds
      once every file has been appended. */
  function Group(files: seq<File>, k: string): seq<File>
  {
    if files == [] then []
    else
      var last := files[|files| - 1];
      Group(files[..|files| - 1], k) + (if last.checksum == k then [last] else [])
  }

  /** The positions of the files with checksum k, ascending. */
  function Positions(files: seq<File>, k: string): seq<nat>
  {
    if files == [] then []
    else
      var n := |files|;
      Positions(files[..n - 1], k) + (if files[n - 1].checksum == k then [n - 1] else [])
  }

  /** A group holds exactly the files of the listing with its checksum. */
  lemma {:induction false} GroupMembers(files: seq<File>, k: string)
    ensures forall x :: x in Group(files, k) ==> x in files && x.checksum == k
    ensures forall x :: x in files && x.checksum == k ==> x in Group(files, k)
  {
    if files != [] {
      var n := |files|;
      GroupMembers(files[..n - 1], k);
      assert files == files[..n - 1] + [files[n - 1]];
    }
  }

  /** The group of k is as long as k occurs in the listing's checksums. */
  lemma {:induction false} GroupCount(files: seq<File>, k: string)
    ensures |Group(files, k)| == multiset(Checksums(files))[k]
  {
    if files != [] {
      var n := |files|;
      GroupCount(files[..n - 1], k);
      assert Checksums(files) == Checksums(files[..n - 1]) + [files[n - 1].checksum];
    }
  }

  /** A group lists its files in the listing's order: its j-th file sits at
      the j-th of the ascending positions holding checksum k, and every such
      position is used. */
  lemma {:induction false} GroupOrder(files: seq<File>, k: string)
    ensures |Positions(files, k)| == |Group(files, k)|
    ensures forall j :: 0 <= j < |Positions(files, k)| ==>
              Positions(files, k)[j] < |files| && Group(files, k)[j] == files[Positions(files, k)[j]]
    ensures forall a, b :: 0 <= a < b < |Positions(files, k)| ==> Positions(files, k)[a] < Positions(files, k)[b]
    ensures forall p :: 0 <= p < |files| && files[p].checksum == k ==> p in Positions(files, k)
  {
    if files != [] {
      var n := |files|;
      var pre := files[..n - 1];
      GroupOrder(pre, k);
      forall j | 0 <= j < |Positions(pre, k)|
        ensures files[Positions(pre, k)[j]] == pre[Positions(pre, k)[j]]
      {
      }
      forall p | 0 <= p < n - 1 && files[p].checksum == k
        ensures p in Positions(pre, k)
      {
        assert pre[p] == files[p];
      }
    }
  }

  /** Two files with one id are one file. */
  ghost predicate UniqueIds(files: seq<File>)
  {
    forall i, j :: 0 <= i < |files| && 0 <= j < |files| && files[i].id == files[j].id ==> i == j
  }

  lemma {:induction false} GroupUniqueIds(files: seq<File>, k: string)
    requires UniqueIds(files)
    ensures UniqueIds(Group(files, k))
  {
    if files != [] {
      var n := |files|;
      var pre := files[..n - 1];
      assert UniqueIds(pre) by {
        forall i, j | 0 <= i < |pre| && 0 <= j < |pre| && pre[i].id == pre[j].id
          ensures i == j
        {
          assert files[i] == pre[i] && files[j] == pre[j];
        }
      }
      GroupUniqueIds(pre, k);
      GroupMembers(pre, k);
      var g := Group(pre, k);
      if files[n - 1].checksum == k {
        forall x | x in g
          ensures x.id != files[n - 1].id
        {
          var p :| 0 <= p < |pre| && pre[p] == x;
          assert files[p] == x;
        }
        assert Group(files, k) == g + [files[n - 1]];
      }
    }
  }

  // ---------------------------------------------------------------------------
  // find_dupes

  /** The groups of `dupes` as find_dupes leaves them, in some order: each is
      the full group of its checksum and has at least two members, no two
      share a checksum, and every checksum occurring twice has its group. */
  ghost predicate WellFormedGroups(files: seq<File>, dupes: seq<seq<File>>)
  {
    && (forall i :: 0 <= i < |dupes| ==>
          |dupes[i]| >= 2 && dupes[i] == Group(files, dupes[i][0].checksum))
    && (forall i, j :: 0 <= i < j < |dupes| ==> dupes[i][0].checksum != dupes[j][0].checksum)
  }

  ghost predicate IsDupesOf(files: seq<File>, dupes: seq<seq<File>>)
  {
    && WellFormedGroups(files, dupes)
    && (forall f :: f in files && |Group(files, f.checksum)| >= 2 ==>
          exists i :: 0 <= i < |dupes| && dupes[i][0].checksum == f.checksum)
  }

  method FindDupes(files: seq<File>) returns (dupes: seq<seq<File>>)
    ensures IsDupesOf(files, dupes)
  {
    var index: map<string, seq<File>> := map[];
    var i := 0;
    while i < |files|
      invariant 0 <= i <= |files|
      invariant forall k :: k in index ==> index[k] == Group(files[..i], k) && index[k] != []
      invariant forall k :: k !in index ==> Group(files[..i], k) == []
    {
      var f := files[i];
      var members := if f.checksum in index then index[f.checksum] else [];
      index := index[f.checksum := members + [f]];
      forall k
        ensures Group(files[..i + 1], k) == Group(files[..i], k) + (if f.checksum == k then [f] else [])
      {
        GroupPush(files, i, k);
      }
      i := i + 1;
    }
    assert files[..|files|] == files;

    forall k | k in index
      ensures index[k] != [] && index[k][0].checksum == k
    {
      GroupHead(files, k);
    }
    dupes := RepeatedGroups(index);
    forall f | f in files && |Group(files, f.checksum)| >= 2
      ensures exists j :: 0 <= j < |dupes| && dupes[j][0].checksum == f.checksum
    {
      assert f.checksum in index;
    }
  }

  /** The second half of find_dupes: every group of the index with more than
      one member, taken in whatever order the keys come. */
  method RepeatedGroups(index: map<string, seq<File>>) returns (dupes: seq<seq<File>>)
    requires forall k :: k in index ==> index[k] != [] && index[k][0].checksum == k
    ensures forall j :: 0 <= j < |dupes| ==>
              |dupes[j]| >= 2 && dupes[j][0].checksum in index && dupes[j] == index[dupes[j][0].checksum]
    ensures forall a, b :: 0 <= a < b < |dupes| ==> dupes[a][0].checksum != dupes[b][0].checksum
    ensures forall k :: k in index && |index[k]| >= 2 ==>
              exists j :: 0 <= j < |dupes| && dupes[j][0].checksum == k
  {
    dupes := [];
    var pending := index.Keys;
    ghost var done: set<string> := {};
    while pending != {}
      invariant pending <= index.Keys && done == index.Keys - pending
      invariant forall j :: 0 <= j < |dupes| ==>
                  |dupes[j]| >= 2 && dupes[j][0].checksum in done && dupes[j] == index[dupes[j][0].checksum]
      invariant forall a, b :: 0 <= a < b < |dupes| ==> dupes[a][0].checksum != dupes[b][0].checksum
      invariant forall k :: k in done && |index[k]| >= 2 ==>
                  exists j :: 0 <= j < |dupes| && dupes[j][0].checksum == k
      decreases pending
    {
      var k :| k in pending;
      var v := index[k];
      if |v| > 1 {
        ghost var before: seq<seq<File>> := dupes;
        dupes := dupes + [v];
        forall k' | k' in done && |index[k']| >= 2
          ensures exists j :: 0 <= j < |dupes| && dupes[j][0].checksum == k'
        {
          var j :| 0 <= j < |before| && before[j][0].checksum == k';
          assert dupes[j] == before[j];
        }
        assert dupes[|before|][0].checksum == k;
      }
      pending := pending - {k};
      done := done + {k};
    }
  }

  lemma GroupPush(files: seq<File>, i: nat, k: string)
    requires i < |files|
    ensures Group(files[..i + 1], k) ==
            Group(files[..i], k) + (if files[i].checksum == k then [files[i]] else [])
  {
    assert files[..i + 1][..i] == files[..i];
  }

  lemma {:induction false} GroupHead(files: seq<File>, k: string)
    requires Group(files, k) != []
    ensures Group(files, k)[0].checksum == k
  {
    GroupMembers(files, k);
    assert Group(files, k)[0] in Group(files, k);
  }

  /** Every file of a reported group has the group's checksum and comes from
      the listing, and it sits in no other group. */
  lemma GroupsShareChecksum(files: seq<File>, dupes: seq<seq<File>>, i: nat, x: File)
    requires WellFormedGroups(files, dupes)
    requires i < |dupes| && x in dupes[i]
    ensures x.checksum == dupes[i][0].checksum && x in files
    ensures forall j :: 0 <= j < |dupes| && x in dupes[j] ==> j == i
  {
    GroupMembers(files, dupes[i][0].checksum);
    forall j | 0 <= j < |dupes| && x in dupes[j]
      ensures j == i
    {
      GroupMembers(files, dupes[j][0].checksum);
    }
  }

  /** A file of the listing is reported exactly when its checksum occurs at
      least twice; a file with a unique checksum is never reported. */
  lemma ReportedIffRepeated(files: seq<File>, dupes: seq<seq<File>>, f: File)
    requires IsDupesOf(files, dupes)
    requires f in files
    ensures (exists i :: 0 <= i < |dupes| && f in dupes[i]) <==> multiset(Checksums(files))[f.checksum] >= 2
  {
    GroupCount(files, f.checksum);
    GroupMembers(files, f.checksum);
    if i :| 0 <= i < |dupes| && f in dupes[i] {
      GroupsShareChecksum(files, dupes, i, f);
    }
    if |Group(files, f.checksum)| >= 2 {
      var i :| 0 <= i < |dupes| && dupes[i][0].checksum == f.checksum;
      assert f in dupes[i];
    }
  }

  /** A sequence without repeated elements holds each of them once. */
  lemma {:induction false} DistinctCounts<T>(s: seq<T>, x: T)
    requires forall a, b :: 0 <= a < b < |s| ==> s[a] != s[b]
    ensures multiset(s)[x] == if x in s then 1 else 0
  {
    if s != [] {
      var n := |s|;
      DistinctCounts(s[..n - 1], x);
      assert s == s[..n - 1] + [s[n - 1]];
    }
  }

  /** find_dupes is deterministic up to the order of its groups (which in
      the source follows dictionary iteration). */
  lemma DupesUniqueUpToOrder(files: seq<File>, d1: seq<seq<File>>, d2: seq<seq<File>>)
    requires IsDupesOf(files, d1) && IsDupesOf(files, d2)
    ensures multiset(d1) == multiset(d2)
  {
    forall g: seq<File> | g in d1
      ensures g in d2
    {
      var i :| 0 <= i < |d1| && d1[i] == g;
      assert g[0] in g;
      GroupMembers(files, g[0].checksum);
      var j :| 0 <= j < |d2| && d2[j][0].checksum == g[0].checksum;
    }
    forall g: seq<File> | g in d2
      ensures g in d1
    {
      var i :| 0 <= i < |d2| && d2[i] == g;
      assert g[0] in g;
      GroupMembers(files, g[0].checksum);
      var j :| 0 <= j < |d1| && d1[j][0].checksum == g[0].checksum;
    }
    forall g: seq<File>
      ensures multiset(d1)[g] == multiset(d2)[g]
    {
      DistinctCounts(d1, g);
      DistinctCounts(d2, g);
    }
  }

  // ---------------------------------------------------------------------------
  // The files to trash and the wasted bytes

  /** Every member of every group except the group's first, group after group. */
  function TrashList(dupes: seq<seq<File>>): seq<File>
  {
    if dupes == [] then []
    else
      var g := dupes[|dupes| - 1];
      TrashList(dupes[..|dupes| - 1]) + (if g == [] then [] else g[1..])
  }

  function Ids(files: seq<File>): seq<string>
  {
    seq(|files|, i requires 0 <= i < |files| => files[i].id)
  }

  function SumQuota(files: seq<File>): nat
  {
    if files == [] then 0 else SumQuota(files[..|files| - 1]) + files[|files| - 1].quotaBytesUsed
  }

  lemma IdsAppend(a: seq<File>, b: seq<File>)
    ensures Ids(a + b) == Ids(a) + Ids(b)
  {
  }

  lemma PushPrefix(done: seq<File>, tail: seq<File>, j: nat)
    requires j < |tail|
    ensures done + tail[..j + 1] == (done + tail[..j]) + [tail[j]]
  {
    assert tail[..j + 1] == tail[..j] + [tail[j]];
  }

  lemma SumQuotaPush(a: seq<File>, x: File)
    ensures SumQuota(a + [x]) == SumQuota(a) + x.quotaBytesUsed
  {
    assert (a + [x])[..|a|] == a;
  }

  /** The tail of group g is what TrashList adds for it. */
  lemma TrashListPush(dupes: seq<seq<File>>, gi: nat)
    requires gi < |dupes|
    ensures TrashList(dupes[..gi + 1]) ==
            TrashList(dupes[..gi]) + (if dupes[gi] == [] then [] else dupes[gi][1..])
  {
    assert dupes[..gi + 1][..gi] == dupes[..gi];
  }

  /** The total of quotaBytesUsed over every member but the first of each group. */
  method WastedBytes(dupes: seq<seq<File>>) returns (total: nat)
    ensures total == SumQuota(TrashList(dupes))
  {
    total := 0;
    var gi := 0;
    while gi < |dupes|
      invariant 0 <= gi <= |dupes|
      invariant total == SumQuota(TrashList(dupes[..gi]))
    {
      var g := dupes[gi];
      var tail := if g == [] then [] else g[1..];
      var j := 0;
      assert TrashList(dupes[..gi]) + tail[..0] == TrashList(dupes[..gi]);
      while j < |tail|
        invariant 0 <= j <= |tail|
        invariant total == SumQuota(TrashList(dupes[..gi]) + tail[..j])
      {
        PushPrefix(TrashList(dupes[..gi]), tail, j);
        SumQuotaPush(TrashList(dupes[..gi]) + tail[..j], tail[j]);
        total := total + tail[j].quotaBytesUsed;
        j := j + 1;
      }
      assert tail[..|tail|] == tail;
      TrashListPush(dupes, gi);
      gi := gi + 1;
    }
    assert dupes[..|dupes|] == dupes;
  }

  /** Queues a trash request for every member but the first of each group,
      executing the batch whenever it reaches MaxBatch requests, and executes
      the last batch at the end, even when it is empty. */
  method PlanTrash(dupes: seq<seq<File>>) returns (batches: seq<seq<string>>)
    ensures Flatten(batches) == Ids(TrashList(dupes))
    ensures |batches| >= 1
    ensures forall i :: 0 <= i < |batches| - 1 ==> |batches[i]| == MaxBatch
    ensures |batches[|batches| - 1]| < MaxBatch
  {
    batches := [];
    var batch: seq<string> := [];
    var gi := 0;
    while gi < |dupes|
      invariant 0 <= gi <= |dupes|
      invariant Flatten(batches) + batch == Ids(TrashList(dupes[..gi]))
      invariant forall i :: 0 <= i < |batches| ==> |batches[i]| == MaxBatch
      invariant |batch| < MaxBatch
    {
      var g := dupes[gi];
      var tail := if g == [] then [] else g[1..];
      ghost var done := TrashList(dupes[..gi]);
      var j := 0;
      while j < |tail|
        invariant 0 <= j <= |tail|
        invariant Flatten(batches) + batch == Ids(done + tail[..j])
        invariant forall i :: 0 <= i < |batches| ==> |batches[i]| == MaxBatch
        invariant |batch| < MaxBatch
      {
        PushPrefix(done, tail, j);
        IdsAppend(done + tail[..j], [tail[j]]);
        batches, batch := Enqueue(batches, batch, tail[j].id);
        j := j + 1;
      }
      assert tail[..|tail|] == tail;
      TrashListPush(dupes, gi);
      gi := gi + 1;
    }
    assert dupes[..|dupes|] == dupes;
    FlattenAppend(batches, [batch]);
    assert Flatten([batch]) == batch by { assert [batch][..0] == []; }
    batches := batches + [batch];
  }

  /** One trash request is added to the open batch; a batch that reaches
      MaxBatch requests is executed and a new one is opened. */
  method Enqueue(batches: seq<seq<string>>, batch: seq<string>, id: string)
    returns (batches': seq<seq<string>>, batch': seq<string>)
    requires forall i :: 0 <= i < |batches| ==> |batches[i]| == MaxBatch
    requires |batch| < MaxBatch
    ensures Flatten(batches') + batch' == Flatten(batches) + batch + [id]
    ensures forall i :: 0 <= i < |batches'| ==> |batches'[i]| == MaxBatch
    ensures |batch'| < MaxBatch
    ensures batches' == batches || batches' == batches + [batch + [id]]
  {
    batch' := batch + [id];
    batches' := batches;
    if |batch'| == MaxBatch {
      FlattenAppend(batches', [batch']);
      assert Flatten([batch']) == batch' by { assert [batch'][..0] == []; }
      batches' := batches' + [batch'];
      batch' := [];
    }
  }

  /** A file is queued for trashing exactly when it is a member, other than
      the first, of some group. */
  lemma {:induction false} TrashListMembers(dupes: seq<seq<File>>, x: File)
    ensures x in TrashList(dupes) <==>
            exists i, j :: 0 <= i < |dupes| && 1 <= j < |dupes[i]| && dupes[i][j] == x
  {
    if dupes != [] {
      var n := |dupes|;
      var pre := dupes[..n - 1];
      var g := dupes[n - 1];
      var tail := if g == [] then [] else g[1..];
      assert TrashList(dupes) == TrashList(pre) + tail;
      TrashListMembers(pre, x);
      assert x in TrashList(dupes) <==> x in TrashList(pre) || x in tail;
      if x in TrashList(pre) {
        var i, j :| 0 <= i < |pre| && 1 <= j < |pre[i]| && pre[i][j] == x;
        assert dupes[i] == pre[i];
      } else if x in tail {
        var k :| 0 <= k < |tail| && tail[k] == x;
        assert dupes[n - 1][k + 1] == x;
      }
      if i, j :| 0 <= i < n && 1 <= j < |dupes[i]| && dupes[i][j] == x {
        if i < n - 1 {
          assert pre[i] == dupes[i];
        } else {
          assert tail[j - 1] == x;
        }
      }
    }
  }

  /** Two queued files with one id are the same listed file, hence in the same
      group. */
  lemma SameIdSameGroup(files: seq<File>, dupes: seq<seq<File>>, i: nat, j: nat, x: File, y: File)
    requires WellFormedGroups(files, dupes) && UniqueIds(files)
    requires i < |dupes| && j < |dupes| && x in dupes[i] && y in dupes[j] && x.id == y.id
    ensures i == j && x == y
  {
    GroupsShareChecksum(files, dupes, i, x);
    GroupsShareChecksum(files, dupes, j, y);
    var p :| 0 <= p < |files| && files[p] == x;
    var q :| 0 <= q < |files| && files[q] == y;
    assert p == q;
  }

  /** With unique Drive ids: no id is queued twice, the first file of a group
      is never queued, and every other member of a group is queued. */
  lemma {:induction false} TrashesEachExtraOnce(files: seq<File>, dupes: seq<seq<File>>)
    requires WellFormedGroups(files, dupes) && UniqueIds(files)
    ensures UniqueIds(TrashList(dupes))
    ensures forall i :: 0 <= i < |dupes| ==> dupes[i][0].id !in Ids(TrashList(dupes))
    ensures forall i, j :: 0 <= i < |dupes| && 1 <= j < |dupes[i]| ==> dupes[i][j].id in Ids(TrashList(dupes))
  {
    var trash := TrashList(dupes);
    forall i | 0 <= i < |dupes|
      ensures dupes[i][0].id !in Ids(trash)
    {
      if dupes[i][0].id in Ids(trash) {
        var p :| 0 <= p < |trash| && Ids(trash)[p] == dupes[i][0].id;
        TrashListMembers(dupes, trash[p]);
        var i', j :| 0 <= i' < |dupes| && 1 <= j < |dupes[i']| && dupes[i'][j] == trash[p];
        SameIdSameGroup(files, dupes, i', i, trash[p], dupes[i][0]);
        GroupUniqueIds(files, dupes[i][0].checksum);
        assert false;
      }
    }
    forall i, j | 0 <= i < |dupes| && 1 <= j < |dupes[i]|
      ensures dupes[i][j].id in Ids(trash)
    {
      TrashListMembers(dupes, dupes[i][j]);
      var p :| 0 <= p < |trash| && trash[p] == dupes[i][j];
      assert Ids(trash)[p] == dupes[i][j].id;
    }
    TrashUniqueIds(files, dupes);
  }

  lemma {:induction false} TrashUniqueIds(files: seq<File>, dupes: seq<seq<File>>)
    requires WellFormedGroups(files, dupes) && UniqueIds(files)
    ensures UniqueIds(TrashList(dupes))
  {
    if dupes != [] {
      var n := |dupes|;
      var pre := dupes[..n - 1];
      assert WellFormedGroups(files, pre) by {
        forall i | 0 <= i < |pre| ensures pre[i] == dupes[i] { }
      }
      TrashUniqueIds(files, pre);
      var g := dupes[n - 1];
      var tail: seq<File> := g[1..];
      GroupUniqueIds(files, g[0].checksum);
      var a: seq<File> := TrashList(pre);
      forall p, q | 0 <= p < |a| && 0 <= q < |tail| ensures a[p].id != tail[q].id {
        CrossIdsDiffer(files, dupes, a[p], tail[q]);
      }
      assert UniqueIds(tail) by {
        forall p, q | 0 <= p < |tail| && 0 <= q < |tail| && tail[p].id == tail[q].id
          ensures p == q
        {
          assert g[p + 1].id == g[q + 1].id;
        }
      }
      UniqueIdsAppend(a, tail);
    }
  }

  lemma UniqueIdsAppend(a: seq<File>, b: seq<File>)
    requires UniqueIds(a) && UniqueIds(b)
    requires forall p, q :: 0 <= p < |a| && 0 <= q < |b| ==> a[p].id != b[q].id
    ensures UniqueIds(a + b)
  {
    forall p, q | 0 <= p < |a + b| && 0 <= q < |a + b| && (a + b)[p].id == (a + b)[q].id
      ensures p == q
    {
      if p >= |a| && q >= |a| {
        assert b[p - |a|].id == b[q - |a|].id;
      }
    }
  }

  /** A queued member of an earlier group and a member of the last group
      never share an id. */
  lemma CrossIdsDiffer(files: seq<File>, dupes: seq<seq<File>>, x: File, y: File)
    requires WellFormedGroups(files, dupes) && UniqueIds(files) && |dupes| > 0
    requires x in TrashList(dupes[..|dupes| - 1]) && y in dupes[|dupes| - 1]
    ensures x.id != y.id
  {
    var n := |dupes|;
    var pre := dupes[..n - 1];
    TrashListMembers(pre, x);
    var i, j :| 0 <= i < |pre| && 1 <= j < |pre[i]| && pre[i][j] == x;
    assert dupes[i] == pre[i];
    if x.id == y.id {
      SameIdSameGroup(files, dupes, i, n - 1, x, y);
    }
  }

  // ---------------------------------------------------------------------------
  // main

  /** One run over a full listing: report the duplicates and the bytes they
      waste, then trash the extras when the user confirms. */
  method Dedupe(files: seq<File>, confirmed: bool) returns (report: Report)
    ensures report.NoDuplicates? <==>
            forall f :: f in files ==> multiset(Checksums(files))[f.checksum] < 2
    ensures !report.NoDuplicates? ==>
              && IsDupesOf(files, report.dupes) && report.dupes != []
              && report.wasted == SumQuota(TrashList(report.dupes))
    ensures report.Trashed? <==> !report.NoDuplicates? && confirmed
    ensures report.Trashed? ==>
              && Flatten(report.batches) == Ids(TrashList(report.dupes))
              && |report.batches| >= 1
              && (forall i :: 0 <= i < |report.batches| - 1 ==> |report.batches[i]| == MaxBatch)
              && |report.batches[|report.batches| - 1]| < MaxBatch
  {
    var dupes := FindDupes(files);
    if |dupes| == 0 {
      forall f | f in files
        ensures multiset(Checksums(files))[f.checksum] < 2
      {
        ReportedIffRepeated(files, dupes, f);
      }
      return NoDuplicates;
    }
    assert dupes[0][0] in dupes[0];
    GroupsShareChecksum(files, dupes, 0, dupes[0][0]);
    ReportedIffRepeated(files, dupes, dupes[0][0]);
    var total := WastedBytes(dupes);
    if confirmed {
      var batches := PlanTrash(dupes);
      report := Trashed(dupes, total, batches);
    } else {
      report := Declined(dupes, total);
    }
  }
}
