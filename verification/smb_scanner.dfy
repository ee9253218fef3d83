/** `SmbConfig.kt`: where the music share lives and which file names count as audio. */
module SmbConfig {
  import opened Wrappers
  import opened KotlinText
  import Urls

  datatype Config = Config(host: string, share: string, username: string, password: string)

  const DEFAULT_CONFIG: Config := Config("192.168.0.6", "Music", "music", "ZmUX7yUg")

  /** `smbUrl`: the share's root directory. */
  function SmbUrl(c: Config): (url: string)
    ensures StartsWith(url, "smb://") && EndsWith(url, "/")
  {
    "smb://" + c.host + "/" + c.share + "/"
  }

  /** Reads host and share back out of a share root URL: the host runs up to the first '/'
      after the scheme, the share is the rest without the trailing '/'. */
  function HostAndShare(url: string): Option<(string, string)> {
    if |url| < 7 || !StartsWith(url, "smb://") || !EndsWith(url, "/") then None
    else
      var rest := url[6..|url| - 1];
      var i := Urls.IndexOf(rest, '/');
      if i == |rest| then None else Some((rest[..i], rest[i + 1..]))
  }

  /** A host without '/' is recovered from the share URL, and so is the share. */
  lemma SmbUrlRoundTrip(c: Config)
    requires '/' !in c.host
    ensures HostAndShare(SmbUrl(c)) == Some((c.host, c.share))
  {
    var url := SmbUrl(c);
    var rest := url[6..|url| - 1];
    assert rest == c.host + ['/'] + c.share;
    Urls.IndexOfPrefix(c.host, c.share, '/');
    assert rest[..|c.host|] == c.host;
    assert rest[|c.host| + 1..] == c.share;
  }

  const SUPPORTED_AUDIO_FORMATS: seq<string> := [".mp3", ".flac", ".m4a", ".ogg", ".wav", ".aac", ".wma"]

  /** The scanner matches lower-cased names, so every format must be lower case to be reachable;
      each is an extension and no two coincide. */
  lemma FormatsWellFormed()
    ensures |SUPPORTED_AUDIO_FORMATS| == 7
    ensures forall i :: 0 <= i < 7 ==> Lowercase(SUPPORTED_AUDIO_FORMATS[i]) == SUPPORTED_AUDIO_FORMATS[i]
    ensures forall i :: 0 <= i < 7 ==> StartsWith(SUPPORTED_AUDIO_FORMATS[i], ".")
    ensures forall i, j :: 0 <= i < j < 7 ==> SUPPORTED_AUDIO_FORMATS[i] != SUPPORTED_AUDIO_FORMATS[j]
  {
  }

  /** A lower-cased file name the scanner accepts. */
  predicate IsAudioName(lowerName: string) {
    exists f :: f in SUPPORTED_AUDIO_FORMATS && EndsWith(lowerName, f)
  }
}

/** `SmbMusicScanner.kt`: a depth-first walk of the share collecting audio files. The share is a
    tree of entries given as input; whether an `.lrc` file exists is a set of existing paths. */
module SmbScanner {
  import opened Wrappers
  import opened KotlinText
  import opened SmbConfig

  datatype SmbAudioFile = SmbAudioFile(path: string, name: string, size: int, lrcPath: Option<string>)

  /** A listed entry. `Unreadable` stands for one whose attributes throw when read; a directory
      whose listing fails has an empty listing. */
  datatype Entry =
    | Unreadable
    | Dir(name: string, listing: seq<Entry>)
    | File(name: string, path: string, parent: string, size: int)

  const DEFAULT_MAX_FILES: int := 500

  /** `findLrcFile`: the sibling named like the audio file with its last extension replaced by
      `.lrc`, if it exists. */
  function LrcCandidate(parent: string, name: string): string {
    parent + SubstringBeforeLast(name, '.') + ".lrc"
  }

  function FindLrcFile(parent: string, name: string, existing: set<string>): (r: Option<string>)
    ensures r.Some? <==> LrcCandidate(parent, name) in existing
    ensures r.Some? ==> r.value == LrcCandidate(parent, name)
  {
    var p := LrcCandidate(parent, name);
    if p in existing then Some(p) else None
  }

  /** The candidate keeps everything before the last '.', so `a.b.mp3` looks for `a.b.lrc`,
      and a name without '.' gets `.lrc` appended whole. */
  lemma LrcCandidateReplacesLastExtension(parent: string, base: string, ext: string)
    requires '.' !in ext
    ensures LrcCandidate(parent, base + "." + ext) == parent + base + ".lrc"
    ensures '.' !in base ==> LrcCandidate(parent, base) == parent + base + ".lrc"
  {
    var name := base + "." + ext;
    assert name[|base|] == '.';
    assert forall k :: |base| < k < |name| ==> name[k] != '.' by {
      forall k | |base| < k < |name| ensures name[k] != '.' {
        assert name[k] == ext[k - |base| - 1];
      }
    }
    assert name[..|base|] == base;
  }

  /** The first `n` elements, none when `n` is not positive. */
  function Prefix<T>(s: seq<T>, n: int): (r: seq<T>)
    ensures |r| == if n <= 0 then 0 else if n < |s| then n else |s|
    ensures r == s[..|r|]
  {
    if n <= 0 then [] else if n < |s| then s[..n] else s
  }

  lemma PrefixAppend<T>(a: seq<T>, b: seq<T>, n: int)
    ensures Prefix(a + b, n) == Prefix(a, n) + Prefix(b, n - |Prefix(a, n)|)
  {
    if 0 < n && n >= |a| {
      assert (a + b)[..|a|] == a;
      assert Prefix(a + b, n) == a + Prefix(b, n - |a|);
    }
  }

  /** One entry of `scanDirectory`'s loop, entered only while below the limit. */
  function Visit(e: Entry, found: seq<SmbAudioFile>, maxFiles: int, existing: set<string>)
    : seq<SmbAudioFile>
    decreases e
  {
    match e
    case Unreadable => found
    case Dir(name, listing) =>
      if StartsWith(name, ".") then found else ScanDirectory(listing, found, maxFiles, existing)
    case File(name, path, parent, size) =>
      if IsAudioName(Lowercase(name)) then
        found + [SmbAudioFile(path, name, size, FindLrcFile(parent, name, existing))]
      else found
  }

  /** `scanDirectory` over a listing: stops as soon as `maxFiles` files have been found. */
  function ScanDirectory(listing: seq<Entry>, found: seq<SmbAudioFile>, maxFiles: int,
                         existing: set<string>): seq<SmbAudioFile>
    decreases listing
  {
    if |listing| == 0 || |found| >= maxFiles then found
    else ScanDirectory(listing[1..], Visit(listing[0], found, maxFiles, existing), maxFiles, existing)
  }

  /** Reference: every audio file under an entry, depth first in listing order, skipping
      hidden directories and unreadable entries, without any limit. */
  function AllAudio(e: Entry, existing: set<string>): seq<SmbAudioFile>
    decreases e
  {
    match e
    case Unreadable => []
    case Dir(name, listing) => if StartsWith(name, ".") then [] else AllAudioIn(listing, existing)
    case File(name, path, parent, size) =>
      if IsAudioName(Lowercase(name)) then [SmbAudioFile(path, name, size, FindLrcFile(parent, name, existing))]
      else []
  }

  function AllAudioIn(listing: seq<Entry>, existing: set<string>): seq<SmbAudioFile>
    decreases listing
  {
    if |listing| == 0 then [] else AllAudio(listing[0], existing) + AllAudioIn(listing[1..], existing)
  }

  lemma {:induction false} VisitMatchesReference(e: Entry, found: seq<SmbAudioFile>, maxFiles: int,
                                                 existing: set<string>)
    requires |found| < maxFiles
    ensures Visit(e, found, maxFiles, existing) == found + Prefix(AllAudio(e, existing), maxFiles - |found|)
    decreases e
  {
    match e
    case Unreadable =>
    case File(_, _, _, _) =>
    case Dir(name, listing) =>
      if !StartsWith(name, ".") {
        ScanMatchesReference(listing, found, maxFiles, existing);
      }
  }

  /** The bounded walk yields exactly the first files of the unbounded one. */
  lemma {:induction false} ScanMatchesReference(listing: seq<Entry>, found: seq<SmbAudioFile>,
                                                maxFiles: int, existing: set<string>)
    ensures ScanDirectory(listing, found, maxFiles, existing) ==
              found + Prefix(AllAudioIn(listing, existing), maxFiles - |found|)
    decreases listing
  {
    if |listing| > 0 && |found| < maxFiles {
      var k := maxFiles - |found|;
      var head, tail := AllAudio(listing[0], existing), AllAudioIn(listing[1..], existing);
      VisitMatchesReference(listing[0], found, maxFiles, existing);
      var next := Visit(listing[0], found, maxFiles, existing);
      assert next == found + Prefix(head, k);
      ScanMatchesReference(listing[1..], next, maxFiles, existing);
      assert maxFiles - |next| == k - |Prefix(head, k)|;
      PrefixStep(found, head, tail, k);
    }
  }

  lemma PrefixStep<T>(found: seq<T>, head: seq<T>, tail: seq<T>, k: int)
    ensures (found + Prefix(head, k)) + Prefix(tail, k - |Prefix(head, k)|) == found + Prefix(head + tail, k)
  {
    PrefixAppend(head, tail, k);
  }

  /** `scanForAudioFiles`: the first `maxFiles` audio files of a depth-first walk of the root
      listing. */
  function ScanForAudioFiles(root: seq<Entry>, maxFiles: int, existing: set<string>)
    : (r: seq<SmbAudioFile>)
    ensures r == Prefix(AllAudioIn(root, existing), maxFiles)
    ensures |r| <= if maxFiles < 0 then 0 else maxFiles
  {
    ScanMatchesReference(root, [], maxFiles, existing);
    ScanDirectory(root, [], maxFiles, existing)
  }

  lemma {:induction false} AllAudioInAppend(a: seq<Entry>, b: seq<Entry>, existing: set<string>)
    ensures AllAudioIn(a + b, existing) == AllAudioIn(a, existing) + AllAudioIn(b, existing)
    decreases a
  {
    if |a| > 0 {
      assert (a + b)[0] == a[0];
      assert (a + b)[1..] == a[1..] + b;
      AllAudioInAppend(a[1..], b, existing);
    } else {
      assert a + b == b;
    }
  }

  /** Depth first: a visible directory's files come right after the files listed before it
      and before those of its later siblings. */
  lemma DirectoryBeforeLaterSiblings(a: seq<Entry>, name: string, inner: seq<Entry>, b: seq<Entry>,
                                     existing: set<string>)
    requires !StartsWith(name, ".")
    ensures AllAudioIn(a + [Dir(name, inner)] + b, existing) ==
              AllAudioIn(a, existing) + AllAudioIn(inner, existing) + AllAudioIn(b, existing)
  {
    AllAudioInAppend(a + [Dir(name, inner)], b, existing);
    AllAudioInAppend(a, [Dir(name, inner)], existing);
  }

  /** What a hidden directory holds never affects the scan, and an unreadable entry is skipped
      without stopping the scan of its siblings. */
  lemma SkippedEntriesDoNotMatter(a: seq<Entry>, b: seq<Entry>, name: string,
                                  inner1: seq<Entry>, inner2: seq<Entry>, maxFiles: int,
                                  existing: set<string>)
    requires StartsWith(name, ".")
    ensures ScanForAudioFiles(a + [Dir(name, inner1)] + b, maxFiles, existing) ==
              ScanForAudioFiles(a + [Dir(name, inner2)] + b, maxFiles, existing)
    ensures ScanForAudioFiles(a + [Unreadable] + b, maxFiles, existing) ==
              ScanForAudioFiles(a + b, maxFiles, existing)
  {
    SkipOne(a, Dir(name, inner1), b, existing);
    SkipOne(a, Dir(name, inner2), b, existing);
    SkipOne(a, Unreadable, b, existing);
  }

  /** An entry that contributes no files can be dropped from a listing. */
  lemma SkipOne(a: seq<Entry>, e: Entry, b: seq<Entry>, existing: set<string>)
    requires AllAudio(e, existing) == []
    ensures AllAudioIn(a + [e] + b, existing) == AllAudioIn(a + b, existing)
  {
    AllAudioInAppend(a + [e], b, existing);
    AllAudioInAppend(a, [e], existing);
    AllAudioInAppend(a, b, existing);
    assert [e][1..] == [];
  }

  /** Every file found has a supported extension, in any letter case, and an `.lrc` path only
      when that path exists. */
  lemma {:induction false} FoundFilesAreAudio(listing: seq<Entry>, existing: set<string>)
    ensures forall f :: f in AllAudioIn(listing, existing) ==>
              IsAudioName(Lowercase(f.name)) && (f.lrcPath.Some? ==> f.lrcPath.value in existing)
    decreases listing
  {
    if |listing| > 0 {
      FoundFilesAreAudio(listing[1..], existing);
      match listing[0]
      case Unreadable =>
      case File(_, _, _, _) =>
      case Dir(_, inner) => FoundFilesAreAudio(inner, existing);
    }
  }
}
