/** `AudioCacheManager.kt`: the on-disk audio cache, its file names and its eviction rule.
    The cache directory is the sequence of files `listFiles()` returns. */
module AudioCache {
  import opened Wrappers
  import opened KotlinText
  import opened Decimal
  import opened JavaHash
  import opened StableSort

  datatype CachedFile = CachedFile(name: string, size: nat, lastModified: int)

  /** `maxCacheSize`: 500 MiB. */
  const MAX_CACHE_SIZE: nat := 500 * 1024 * 1024

  /** The name a library path is cached under: its hash code in decimal, '_', its last segment. */
  function CacheFileName(smbPath: string): string {
    LongToString(HashCode(smbPath)) + "_" + SubstringAfterLast(smbPath, '/')
  }

  lemma NoUnderscoreInNumber(n: int)
    ensures '_' !in LongToString(n)
  {
    if n < 0 {
      assert LongToString(n) == "-" + NatToString(-n);
    }
  }

  /** The name splits at its first '_': before it, the path's hash code read back by
      `toLongOrNull`; after it, the path's last segment, which holds no '/'. */
  lemma CacheFileNameParts(smbPath: string)
    ensures var name := CacheFileName(smbPath);
            exists k :: 0 <= k < |name| && name[k] == '_' && '_' !in name[..k] &&
                        ParseLong(name[..k]) == Some(HashCode(smbPath)) &&
                        name[k + 1..] == SubstringAfterLast(smbPath, '/') && '/' !in name[k + 1..]
  {
    var h := LongToString(HashCode(smbPath));
    var name := CacheFileName(smbPath);
    NoUnderscoreInNumber(HashCode(smbPath));
    LongRoundTrip(HashCode(smbPath));
    SplitAtLast(smbPath, '/');
    assert name[..|h|] == h;
    assert name[|h| + 1..] == SubstringAfterLast(smbPath, '/');
  }

  /** `a + "_" + b` determines `a` and `b` when `a` holds no '_'. */
  lemma SplitAtUnderscore(a: string, b: string, c: string, d: string)
    requires '_' !in a && '_' !in c && a + "_" + b == c + "_" + d
    ensures a == c && b == d
  {
    var x := a + "_" + b;
    var m := if |a| <= |c| then |a| else |c|;
    assert x[m] == '_';
    assert a == x[..|a|] == c;
    assert b == x[|a| + 1..] == d;
  }

  /** Two paths share a cache file exactly when their hash codes and last segments agree. */
  lemma CacheFileNameCollision(p: string, q: string)
    ensures CacheFileName(p) == CacheFileName(q) <==>
              HashCode(p) == HashCode(q) && SubstringAfterLast(p, '/') == SubstringAfterLast(q, '/')
  {
    if CacheFileName(p) == CacheFileName(q) {
      NoUnderscoreInNumber(HashCode(p));
      NoUnderscoreInNumber(HashCode(q));
      SplitAtUnderscore(LongToString(HashCode(p)), SubstringAfterLast(p, '/'),
                        LongToString(HashCode(q)), SubstringAfterLast(q, '/'));
      LongRoundTrip(HashCode(p));
      LongRoundTrip(HashCode(q));
    }
  }

  predicate HasFile(dir: seq<CachedFile>, name: string) {
    exists i :: 0 <= i < |dir| && dir[i].name == name
  }

  /** `getCachedFile`: the cache file for the path when it exists. */
  function GetCachedFile(dir: seq<CachedFile>, smbPath: string): (r: Option<string>)
    ensures r.Some? <==> HasFile(dir, CacheFileName(smbPath))
    ensures r.Some? ==> r.value == CacheFileName(smbPath)
  {
    var name := CacheFileName(smbPath);
    if HasFile(dir, name) then Some(name) else None
  }

  /** The total length of the files, in bytes. */
  function SizeSum(files: seq<CachedFile>): nat {
    if |files| == 0 then 0 else files[0].size + SizeSum(files[1..])
  }

  function LastModified(f: CachedFile): int { f.lastModified }

  /** The deletion loop over the oldest-first files: each step first checks `totalSize <= 0.8 * max`
      (written `5 * total <= 4 * max`), then subtracts and deletes. The result is how many files go. */
  function EvictCount(sorted: seq<CachedFile>, total: int): (k: nat)
    ensures k <= |sorted|
    ensures forall j :: 0 <= j < k ==> 5 * (total - SizeSum(sorted[..j])) > 4 * MAX_CACHE_SIZE
    ensures k < |sorted| ==> 5 * (total - SizeSum(sorted[..k])) <= 4 * MAX_CACHE_SIZE
  {
    if |sorted| == 0 || 5 * total <= 4 * MAX_CACHE_SIZE then 0
    else
      var k' := EvictCount(sorted[1..], total - sorted[0].size);
      forall j | 0 < j <= k' + 1 && j <= |sorted|
        ensures SizeSum(sorted[..j]) == sorted[0].size + SizeSum(sorted[1..][..j - 1])
      {
        assert sorted[..j][1..] == sorted[1..][..j - 1];
      }
      1 + k'
  }

  /** What `cleanupIfNeeded` deletes and what it keeps. */
  datatype Cleanup = Cleanup(deleted: seq<CachedFile>, kept: seq<CachedFile>)

  function CleanupIfNeeded(dir: seq<CachedFile>): Cleanup {
    var total := SizeSum(dir);
    if total <= MAX_CACHE_SIZE then Cleanup([], dir)
    else
      var sorted := SortBy(dir, LastModified);
      var k := EvictCount(sorted, total);
      Cleanup(sorted[..k], sorted[k..])
  }

  lemma {:induction false} SizeSumAppend(a: seq<CachedFile>, b: seq<CachedFile>)
    ensures SizeSum(a + b) == SizeSum(a) + SizeSum(b)
  {
    if |a| > 0 {
      assert (a + b)[1..] == a[1..] + b;
      SizeSumAppend(a[1..], b);
    } else {
      assert a + b == b;
    }
  }

  lemma {:induction false} SizeSumInsertBy(x: CachedFile, s: seq<CachedFile>)
    ensures SizeSum(InsertBy(x, s, LastModified)) == x.size + SizeSum(s)
  {
    if |s| > 0 && s[0].lastModified <= x.lastModified {
      SizeSumInsertBy(x, s[1..]);
      assert InsertBy(x, s, LastModified)[1..] == InsertBy(x, s[1..], LastModified);
    }
  }

  lemma SizeSumSnoc(s: seq<CachedFile>)
    requires |s| > 0
    ensures SizeSum(s) == SizeSum(s[..|s| - 1]) + s[|s| - 1].size
  {
    assert s == s[..|s| - 1] + [s[|s| - 1]];
    SizeSumAppend(s[..|s| - 1], [s[|s| - 1]]);
  }

  /** Sorting does not change the total size. */
  lemma {:induction false} SizeSumSortBy(s: seq<CachedFile>)
    ensures SizeSum(SortBy(s, LastModified)) == SizeSum(s)
  {
    if |s| > 0 {
      var init, last := s[..|s| - 1], s[|s| - 1];
      SizeSumSortBy(init);
      SizeSumInsertBy(last, SortBy(init, LastModified));
      SizeSumSnoc(s);
    }
  }

  /** `cleanupIfNeeded` loses and invents no file, and the kept total is the original total
      less what was deleted. */
  lemma CleanupKeepsTheRest(dir: seq<CachedFile>)
    ensures var c := CleanupIfNeeded(dir);
            multiset(c.deleted) + multiset(c.kept) == multiset(dir) &&
            SizeSum(c.kept) == SizeSum(dir) - SizeSum(c.deleted)
  {
    if SizeSum(dir) > MAX_CACHE_SIZE {
      var sorted := SortBy(dir, LastModified);
      var k := EvictCount(sorted, SizeSum(dir));
      assert sorted == sorted[..k] + sorted[k..];
      SizeSumAppend(sorted[..k], sorted[k..]);
      SizeSumSortBy(dir);
    }
  }

  /** At most the cap, `cleanupIfNeeded` deletes nothing. */
  lemma CleanupUnderCap(dir: seq<CachedFile>)
    requires SizeSum(dir) <= MAX_CACHE_SIZE
    ensures CleanupIfNeeded(dir).deleted == [] && CleanupIfNeeded(dir).kept == dir
  {
  }

  /** Over the cap, the deleted files are the oldest ones, a prefix of the listing sorted by
      last-modified time; deletion runs until the rest fits in 80% of the cap, or nothing is
      left, and not one file further. */
  lemma CleanupEvictsOldest(dir: seq<CachedFile>)
    requires SizeSum(dir) > MAX_CACHE_SIZE
    ensures var c := CleanupIfNeeded(dir);
            c.deleted + c.kept == SortBy(dir, LastModified) &&
            (c.kept == [] || 5 * SizeSum(c.kept) <= 4 * MAX_CACHE_SIZE) &&
            (forall j :: 0 <= j < |c.deleted| ==>
               5 * (SizeSum(dir) - SizeSum(c.deleted[..j])) > 4 * MAX_CACHE_SIZE)
    ensures var c := CleanupIfNeeded(dir);
            forall i, j :: 0 <= i < |c.deleted| && 0 <= j < |c.kept| ==>
              c.deleted[i].lastModified <= c.kept[j].lastModified
  {
    EvictedPrefix(dir);
    EvictedAreOlder(dir);
  }

  lemma EvictedPrefix(dir: seq<CachedFile>)
    requires SizeSum(dir) > MAX_CACHE_SIZE
    ensures var c := CleanupIfNeeded(dir);
            c.deleted + c.kept == SortBy(dir, LastModified) &&
            (c.kept == [] || 5 * SizeSum(c.kept) <= 4 * MAX_CACHE_SIZE) &&
            (forall j :: 0 <= j < |c.deleted| ==>
               5 * (SizeSum(dir) - SizeSum(c.deleted[..j])) > 4 * MAX_CACHE_SIZE)
  {
    var c := CleanupIfNeeded(dir);
    var sorted := SortBy(dir, LastModified);
    var k := EvictCount(sorted, SizeSum(dir));
    assert c.deleted == sorted[..k] && c.kept == sorted[k..];
    assert sorted == sorted[..k] + sorted[k..];
    CleanupKeepsTheRest(dir);
    forall j | 0 <= j < |c.deleted|
      ensures 5 * (SizeSum(dir) - SizeSum(c.deleted[..j])) > 4 * MAX_CACHE_SIZE
    {
      assert c.deleted[..j] == sorted[..j];
    }
  }

  lemma EvictedAreOlder(dir: seq<CachedFile>)
    requires SizeSum(dir) > MAX_CACHE_SIZE
    ensures var c := CleanupIfNeeded(dir);
            forall i, j :: 0 <= i < |c.deleted| && 0 <= j < |c.kept| ==>
              c.deleted[i].lastModified <= c.kept[j].lastModified
  {
    var c := CleanupIfNeeded(dir);
    var sorted := SortBy(dir, LastModified);
    var k := EvictCount(sorted, SizeSum(dir));
    assert c.deleted == sorted[..k] && c.kept == sorted[k..];
    SortBySorted(dir, LastModified);
    forall i, j | 0 <= i < |c.deleted| && 0 <= j < |c.kept|
      ensures c.deleted[i].lastModified <= c.kept[j].lastModified
    {
      assert c.deleted[i] == sorted[i] && c.kept[j] == sorted[k + j];
    }
  }

  /** How writing the cache file goes: `outputStream()` throws before any file exists, or the
      copy completes with `size` bytes, or it throws after `written` bytes, leaving the partly
      written file behind. */
  datatype Copy = Unopened | Complete(size: nat) | Broken(written: nat)

  /** Cleanup only removes files: a name absent before is absent from what it keeps. */
  lemma CleanupAddsNoName(dir: seq<CachedFile>, name: string)
    requires !HasFile(dir, name)
    ensures !HasFile(CleanupIfNeeded(dir).kept, name)
  {
    var kept := CleanupIfNeeded(dir).kept;
    CleanupKeepsTheRest(dir);
    forall i | 0 <= i < |kept|
      ensures kept[i].name != name
    {
      assert kept[i] in multiset(kept);
      assert kept[i] in multiset(dir);
      assert kept[i] in dir;
    }
  }

  /** `cacheAudioFile`: an existing cache file is returned untouched, with no cleanup and no
      copy; otherwise the cache is cleaned up, the stream is copied under the derived name, and
      the file is returned, or null when opening or copying throws. `now` is the write time. */
  function CacheAudioFile(dir: seq<CachedFile>, smbPath: string, copy: Copy, now: int)
    : (r: (seq<CachedFile>, Option<string>))
    ensures HasFile(dir, CacheFileName(smbPath)) ==> r == (dir, Some(CacheFileName(smbPath)))
    ensures !HasFile(dir, CacheFileName(smbPath)) && copy.Unopened? ==>
              r == (CleanupIfNeeded(dir).kept, None)
    ensures !HasFile(dir, CacheFileName(smbPath)) && !copy.Unopened? ==>
              r.0 == CleanupIfNeeded(dir).kept + [CachedFile(CacheFileName(smbPath),
                        if copy.Complete? then copy.size else copy.written, now)] &&
              (r.1.Some? <==> copy.Complete?)
    ensures r.1.Some? ==> r.1.value == CacheFileName(smbPath)
  {
    var name := CacheFileName(smbPath);
    if HasFile(dir, name) then (dir, Some(name))
    else
      var kept := CleanupIfNeeded(dir).kept;
      match copy
      case Unopened => (kept, None)
      case Complete(size) => (kept + [CachedFile(name, size, now)], Some(name))
      case Broken(written) => (kept + [CachedFile(name, written, now)], None)
  }

  /** Afterwards `getCachedFile` finds the path's file exactly when it was there before or a
      write was started, a broken one included; a hit beforehand stays a hit, and a returned
      file is found. */
  lemma CacheThenGet(dir: seq<CachedFile>, smbPath: string, copy: Copy, now: int)
    ensures var r := CacheAudioFile(dir, smbPath, copy, now);
            (GetCachedFile(r.0, smbPath).None? <==> !HasFile(dir, CacheFileName(smbPath)) && copy.Unopened?) &&
            (GetCachedFile(r.0, smbPath).Some? ==> GetCachedFile(r.0, smbPath) == Some(CacheFileName(smbPath))) &&
            (r.1.Some? ==> GetCachedFile(r.0, smbPath) == r.1)
  {
    var r := CacheAudioFile(dir, smbPath, copy, now);
    if !HasFile(dir, CacheFileName(smbPath)) {
      if copy.Unopened? {
        CleanupAddsNoName(dir, CacheFileName(smbPath));
      } else {
        assert r.0[|r.0| - 1].name == CacheFileName(smbPath);
      }
    }
  }

  /** As written, a copy that breaks after ten bytes leaves a ten-byte file that the next
      lookup serves as a hit, although caching reported failure. */
  lemma AsWrittenServesBrokenCopy(smbPath: string, now: int)
    ensures var r := CacheAudioFile([], smbPath, Broken(10), now);
            r.1.None? && GetCachedFile(r.0, smbPath) == Some(CacheFileName(smbPath)) &&
            r.0 == [CachedFile(CacheFileName(smbPath), 10, now)]
  {
    var r := CacheAudioFile([], smbPath, Broken(10), now);
    assert r.0[0].name == CacheFileName(smbPath);
  }

  /** `cacheAudioFile` as meant: a write that throws leaves no file behind. */
  function CacheAudioFileIntended(dir: seq<CachedFile>, smbPath: string, copy: Copy, now: int)
    : (r: (seq<CachedFile>, Option<string>))
    ensures HasFile(dir, CacheFileName(smbPath)) ==> r == (dir, Some(CacheFileName(smbPath)))
    ensures !HasFile(dir, CacheFileName(smbPath)) && copy.Complete? ==> r == CacheAudioFile(dir, smbPath, copy, now)
    ensures !HasFile(dir, CacheFileName(smbPath)) && !copy.Complete? ==> r == (CleanupIfNeeded(dir).kept, None)
  {
    var name := CacheFileName(smbPath);
    if HasFile(dir, name) then (dir, Some(name))
    else if copy.Complete? then (CleanupIfNeeded(dir).kept + [CachedFile(name, copy.size, now)], Some(name))
    else (CleanupIfNeeded(dir).kept, None)
  }

  /** With the intended write, a later lookup hits exactly when caching returned the file: a
      broken copy is fetched again rather than served. */
  lemma IntendedServesOnlyCompleteCopies(dir: seq<CachedFile>, smbPath: string, copy: Copy, now: int)
    ensures var r := CacheAudioFileIntended(dir, smbPath, copy, now);
            GetCachedFile(r.0, smbPath) == r.1
  {
    var r := CacheAudioFileIntended(dir, smbPath, copy, now);
    if !HasFile(dir, CacheFileName(smbPath)) {
      if copy.Complete? {
        assert r.0[|r.0| - 1].name == CacheFileName(smbPath);
      } else {
        CleanupAddsNoName(dir, CacheFileName(smbPath));
      }
    }
  }

  /** `clearCache`: every file is deleted. */
  function ClearCache(dir: seq<CachedFile>): (r: seq<CachedFile>)
    ensures forall p :: GetCachedFile(r, p).None?
  {
    []
  }
}
