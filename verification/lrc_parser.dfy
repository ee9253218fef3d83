/** `LrcParser`: turns the text of an LRC lyric file into time-sorted lyric
    lines plus title, artist and album metadata. */
module LrcParser {
  import opened Wrappers
  import opened KotlinText
  import opened Decimal
  import StableSort

  /** `data/metadata` lyric line: a timestamp in milliseconds and its text. */
  datatype LyricsLine = LyricsLine(timeMs: int, text: string)

  datatype Lyrics = Lyrics(
    lines: seq<LyricsLine>,
    title: Option<string>,
    artist: Option<string>,
    album: Option<string>)

  function TimeOf(l: LyricsLine): int { l.timeMs }

  // ---------------------------------------------------------------------------
  // The time-tag pattern: '[', two minute digits, ':', two second digits, optionally '.' or
  // ':' and two or three fraction digits, then ']'

  /** The three groups of one time-tag match; an absent fraction group reads as "". */
  datatype TimeTag = TimeTag(min: string, sec: string, frac: string)

  predicate WellFormedTag(t: TimeTag) {
    && |t.min| == 2 && AllDigits(t.min)
    && |t.sec| == 2 && AllDigits(t.sec)
    && (|t.frac| == 0 || |t.frac| == 2 || |t.frac| == 3) && AllDigits(t.frac)
  }

  /** The match of the time-tag pattern that starts at `p`, with the index just past it.
      The optional fraction is tried first and takes three digits when it can. */
  function MatchTimeTagAt(s: string, p: nat): (r: Option<(TimeTag, nat)>)
    ensures r.Some? ==> p + 7 <= r.value.1 <= |s| && WellFormedTag(r.value.0)
    ensures r.Some? ==> s[p] == '[' && s[r.value.1 - 1] == ']'
    ensures r.Some? ==> r.value.0.min == s[p + 1..p + 3] && r.value.0.sec == s[p + 4..p + 6]
    ensures r.Some? ==> (r.value.0.frac == "" <==> r.value.1 == p + 7)
    ensures r.Some? && r.value.1 > p + 7 ==>
              (s[p + 6] == '.' || s[p + 6] == ':') && r.value.0.frac == s[p + 7..r.value.1 - 1]
  {
    if p + 7 <= |s| && s[p] == '[' && IsDigit(s[p + 1]) && IsDigit(s[p + 2]) && s[p + 3] == ':'
       && IsDigit(s[p + 4]) && IsDigit(s[p + 5])
    then
      var mm := s[p + 1..p + 3];
      var ss := s[p + 4..p + 6];
      if s[p + 6] == ']' then Some((TimeTag(mm, ss, ""), p + 7))
      else if s[p + 6] == '.' || s[p + 6] == ':' then
        if p + 11 <= |s| && IsDigit(s[p + 7]) && IsDigit(s[p + 8]) && IsDigit(s[p + 9]) && s[p + 10] == ']'
        then Some((TimeTag(mm, ss, s[p + 7..p + 10]), p + 11))
        else if p + 10 <= |s| && IsDigit(s[p + 7]) && IsDigit(s[p + 8]) && s[p + 9] == ']'
        then Some((TimeTag(mm, ss, s[p + 7..p + 9]), p + 10))
        else None
      else None
    else None
  }

  /** The text of a time tag: the bracketed minutes and seconds, then the fraction after
      `sep` when there is one. */
  function TagSpelling(t: TimeTag, sep: char): string {
    "[" + t.min + ":" + t.sec + (if t.frac == "" then "" else [sep] + t.frac) + "]"
  }

  /** What is matched is a tag's text, with the separator the line uses. */
  lemma MatchSpellsTag(s: string, p: nat)
    requires MatchTimeTagAt(s, p).Some?
    ensures var (t, e) := MatchTimeTagAt(s, p).value;
            s[p..e] == TagSpelling(t, s[p + 6])
  {
    var (t, e) := MatchTimeTagAt(s, p).value;
    var w := TagSpelling(t, s[p + 6]);
    assert |w| == e - p;
    forall k | 0 <= k < e - p ensures s[p + k] == w[k] {
      if 7 <= k < e - p - 1 {
        assert w[k] == t.frac[k - 7];
      }
    }
  }

  /** Every well-formed tag is matched where its text stands, and as a whole: a two-digit
      fraction is closed by ']' where a third digit would have to be. */
  lemma TagIsMatched(s: string, p: nat, t: TimeTag, sep: char)
    requires WellFormedTag(t) && (sep == '.' || sep == ':')
    requires p + |TagSpelling(t, sep)| <= |s| && s[p..p + |TagSpelling(t, sep)|] == TagSpelling(t, sep)
    ensures MatchTimeTagAt(s, p) == Some((t, p + |TagSpelling(t, sep)|))
  {
    var w := TagSpelling(t, sep);
    forall k | 0 <= k < |w| ensures s[p + k] == w[k] {
      assert s[p..p + |w|][k] == s[p + k];
    }
    assert w[0] == '[' && w[3] == ':' && w[|w| - 1] == ']';
    assert w[6] == (if t.frac == "" then ']' else sep);
    assert s[p + 1..p + 3] == t.min by {
      assert forall k :: 0 <= k < 2 ==> s[p + 1 + k] == w[1 + k] == t.min[k];
    }
    assert s[p + 4..p + 6] == t.sec by {
      assert forall k :: 0 <= k < 2 ==> s[p + 4 + k] == w[4 + k] == t.sec[k];
    }
    assert IsDigit(t.min[0]) && IsDigit(t.min[1]) && IsDigit(t.sec[0]) && IsDigit(t.sec[1]);
    if t.frac != "" {
      assert s[p + 7..p + 7 + |t.frac|] == t.frac by {
        assert forall k :: 0 <= k < |t.frac| ==> s[p + 7 + k] == w[7 + k] == t.frac[k];
      }
      assert IsDigit(t.frac[0]) && IsDigit(t.frac[1]);
      if |t.frac| == 3 {
        assert IsDigit(t.frac[2]);
      }
    }
  }

  /** A whole string that is exactly one time tag. */
  predicate IsTimeTagText(raw: string) {
    MatchTimeTagAt(raw, 0).Some? && MatchTimeTagAt(raw, 0).value.1 == |raw|
  }

  /** The left-to-right, non-overlapping scan that both `findAll` and `replace`
      perform: each position either starts a match or passes one character on. */
  datatype Piece = Plain(c: char) | Tag(tag: TimeTag, raw: string)

  function ScanTimeTags(s: string, p: nat): (ps: seq<Piece>)
    requires p <= |s|
    ensures forall i :: 0 <= i < |ps| && ps[i].Tag? ==> WellFormedTag(ps[i].tag)
    decreases |s| - p
  {
    if p == |s| then []
    else
      match MatchTimeTagAt(s, p)
      case Some((t, e)) => [Tag(t, s[p..e])] + ScanTimeTags(s, e)
      case None => [Plain(s[p])] + ScanTimeTags(s, p + 1)
  }

  /** The text the pieces came from. */
  function Render(ps: seq<Piece>): string {
    if |ps| == 0 then []
    else (match ps[0] case Plain(c) => [c] case Tag(_, raw) => raw) + Render(ps[1..])
  }

  /** Every time-tag match of the line, in order. */
  function TagsOf(ps: seq<Piece>): (ts: seq<TimeTag>)
    requires forall i :: 0 <= i < |ps| && ps[i].Tag? ==> WellFormedTag(ps[i].tag)
    ensures forall i :: 0 <= i < |ts| ==> WellFormedTag(ts[i])
  {
    if |ps| == 0 then []
    else (if ps[0].Tag? then [ps[0].tag] else []) + TagsOf(ps[1..])
  }

  /** The line with every time tag removed: the characters outside every match. */
  function TextOf(ps: seq<Piece>): string {
    if |ps| == 0 then []
    else (if ps[0].Plain? then [ps[0].c] else []) + TextOf(ps[1..])
  }

  /** The scan loses nothing: its pieces spell the input, and every tag piece is one whole match. */
  lemma {:induction false} ScanIsLossless(s: string, p: nat)
    requires p <= |s|
    ensures Render(ScanTimeTags(s, p)) == s[p..]
    ensures forall i :: 0 <= i < |ScanTimeTags(s, p)| && ScanTimeTags(s, p)[i].Tag? ==>
              IsTimeTagText(ScanTimeTags(s, p)[i].raw)
    decreases |s| - p
  {
    if p < |s| {
      var ps := ScanTimeTags(s, p);
      match MatchTimeTagAt(s, p)
      case Some((t, e)) =>
        ScanIsLossless(s, e);
        assert ps == [Tag(t, s[p..e])] + ScanTimeTags(s, e);
        assert ps[1..] == ScanTimeTags(s, e);
        assert s[p..] == s[p..e] + s[e..];
        MatchIsLocal(s, p, e, t);
        forall i | 0 <= i < |ps| && ps[i].Tag? ensures IsTimeTagText(ps[i].raw) {
          if i > 0 {
            assert ps[i] == ScanTimeTags(s, e)[i - 1];
          }
        }
      case None =>
        ScanIsLossless(s, p + 1);
        assert ps[1..] == ScanTimeTags(s, p + 1);
        assert s[p..] == [s[p]] + s[p + 1..];
        forall i | 0 <= i < |ps| && ps[i].Tag? ensures IsTimeTagText(ps[i].raw) {
          assert ps[i] == ScanTimeTags(s, p + 1)[i - 1];
        }
    }
  }

  /** A match depends only on the characters it covers. */
  lemma MatchIsLocal(s: string, p: nat, e: nat, t: TimeTag)
    requires MatchTimeTagAt(s, p) == Some((t, e))
    ensures MatchTimeTagAt(s[p..e], 0) == Some((t, e - p))
  {
    var u := s[p..e];
    assert forall k :: 0 <= k < e - p ==> u[k] == s[p + k];
    assert u[1..3] == s[p + 1..p + 3];
    assert u[4..6] == s[p + 4..p + 6];
    if e == p + 10 {
      assert u[7..9] == s[p + 7..p + 9];
    } else if e == p + 11 {
      assert u[7..10] == s[p + 7..p + 10];
    }
  }

  // ---------------------------------------------------------------------------
  // The metadata pattern: '[', one of the keys ti, ar, al, au, by or offset, ':', a value
  // without ']', then ']'

  const META_KEYS: seq<string> := ["ti", "ar", "al", "au", "by", "offset"]

  datatype MetaTag = MetaTag(key: string, value: string)

  /** The text of a metadata tag. */
  function MetaSpelling(m: MetaTag): string {
    "[" + m.key + ":" + m.value + "]"
  }

  /** A metadata tag stands at `q`: one of the keys, a value without ']', and the whole
      bracketed text in the line. */
  predicate MetaTagAt(s: string, q: nat, m: MetaTag) {
    m.key in META_KEYS && ']' !in m.value &&
    q + |MetaSpelling(m)| <= |s| && s[q..q + |MetaSpelling(m)|] == MetaSpelling(m)
  }

  /** Key `k` followed by ':' starts at `i`. */
  predicate KeyMatches(s: string, i: nat, k: string) {
    i + |k| < |s| && s[i..i + |k|] == k && s[i + |k|] == ':'
  }

  /** The first alternative of the key group that, followed by ':', starts at `i`. */
  function MetaKeyAt(s: string, i: nat, keys: seq<string>): (r: Option<string>)
    ensures r.Some? ==> r.value in keys && i + |r.value| < |s|
                        && s[i..i + |r.value|] == r.value && s[i + |r.value|] == ':'
  {
    if |keys| == 0 then None
    else if i + |keys[0]| < |s| && s[i..i + |keys[0]|] == keys[0] && s[i + |keys[0]|] == ':' then Some(keys[0])
    else MetaKeyAt(s, i, keys[1..])
  }

  /** Index of the first ']' at or after `q`, or |s|. */
  function CloseBracket(s: string, q: nat): (e: nat)
    requires q <= |s|
    ensures q <= e <= |s|
    ensures forall k :: q <= k < e ==> s[k] != ']'
    ensures e < |s| ==> s[e] == ']'
    decreases |s| - q
  {
    if q == |s| || s[q] == ']' then q else CloseBracket(s, q + 1)
  }

  /** The first alternative is the only one: no two keys match at the same place. */
  lemma {:induction false} KeyIsFirstAlternative(s: string, i: nat, keys: seq<string>, k: string)
    requires k in keys && KeyMatches(s, i, k)
    requires forall j :: 0 <= j < |keys| && keys[j] != k ==> !KeyMatches(s, i, keys[j])
    ensures MetaKeyAt(s, i, keys) == Some(k)
  {
    if keys[0] != k {
      KeyIsFirstAlternative(s, i, keys[1..], k);
    }
  }

  lemma KeysExclusive(s: string, i: nat, k: string, k': string)
    requires k in META_KEYS && k' in META_KEYS && KeyMatches(s, i, k) && KeyMatches(s, i, k')
    ensures k == k'
  {
    assert s[i] == k[0] && s[i] == k'[0];
    if |k| == 2 && |k'| == 2 {
      assert k == s[i..i + 2] == k';
    }
  }

  /** The metadata match starting at `p`: the value runs to the first ']', which must exist. */
  function MatchMetaAt(s: string, p: nat): (r: Option<MetaTag>)
    ensures r.Some? ==> MetaTagAt(s, p, r.value)
  {
    if p < |s| && s[p] == '[' then
      match MetaKeyAt(s, p + 1, META_KEYS)
      case Some(k) =>
        var q := p + 1 + |k| + 1;
        var e := CloseBracket(s, q);
        if e < |s| then
          var m := MetaTag(k, s[q..e]);
          MatchedMetaIsSpelled(s, p, m, e);
          Some(m)
        else None
      case None => None
    else None
  }

  lemma MatchedMetaIsSpelled(s: string, p: nat, m: MetaTag, e: nat)
    requires p < |s| && s[p] == '[' && KeyMatches(s, p + 1, m.key)
    requires p + 1 + |m.key| + 1 <= e < |s| && m.value == s[p + 1 + |m.key| + 1..e] && s[e] == ']'
    ensures s[p..e + 1] == MetaSpelling(m)
  {
    var w := MetaSpelling(m);
    var q := p + 1 + |m.key| + 1;
    assert |w| == e + 1 - p;
    forall k | 0 <= k < |w| ensures s[p + k] == w[k] {
      if 1 <= k < 1 + |m.key| {
        assert s[p + 1..p + 1 + |m.key|][k - 1] == s[p + k];
      } else if q - p <= k < e - p {
        assert s[q..e][k - (q - p)] == s[p + k];
      }
    }
  }

  /** Every metadata tag is matched where it stands. */
  lemma MetaTagIsMatched(s: string, q: nat, m: MetaTag)
    requires MetaTagAt(s, q, m)
    ensures MatchMetaAt(s, q) == Some(m)
  {
    var v := q + 1 + |m.key| + 1;
    var e := v + |m.value|;
    MetaTagParts(s, q, m);
    forall j | 0 <= j < |META_KEYS| && META_KEYS[j] != m.key ensures !KeyMatches(s, q + 1, META_KEYS[j]) {
      if KeyMatches(s, q + 1, META_KEYS[j]) {
        KeysExclusive(s, q + 1, m.key, META_KEYS[j]);
      }
    }
    KeyIsFirstAlternative(s, q + 1, META_KEYS, m.key);
    CloseBracketAt(s, v, e);
  }

  /** The pieces of a metadata tag's text, in the line. */
  lemma MetaTagParts(s: string, q: nat, m: MetaTag)
    requires MetaTagAt(s, q, m)
    ensures var v := q + 1 + |m.key| + 1;
            s[q] == '[' && KeyMatches(s, q + 1, m.key) && v + |m.value| < |s| &&
            s[v..v + |m.value|] == m.value && s[v + |m.value|] == ']' &&
            forall k :: v <= k < v + |m.value| ==> s[k] != ']'
  {
    MetaTagHead(s, q, m);
    MetaTagValue(s, q, m);
  }

  /** The spelling, character by character, at `q`. */
  lemma SpellingChars(s: string, q: nat, m: MetaTag)
    requires MetaTagAt(s, q, m)
    ensures forall k :: 0 <= k < |MetaSpelling(m)| ==> s[q + k] == MetaSpelling(m)[k]
  {
    var w := MetaSpelling(m);
    forall k | 0 <= k < |w| ensures s[q + k] == w[k] {
      assert s[q..q + |w|][k] == s[q + k];
    }
  }

  lemma MetaTagHead(s: string, q: nat, m: MetaTag)
    requires MetaTagAt(s, q, m)
    ensures s[q] == '[' && KeyMatches(s, q + 1, m.key)
  {
    var w := MetaSpelling(m);
    SpellingChars(s, q, m);
    assert s[q] == '[' by { assert w[0] == '['; }
    forall k | 0 <= k < |m.key| ensures s[q + 1 + k] == m.key[k] {
      assert w[1 + k] == m.key[k];
    }
    assert s[q + 1..q + 1 + |m.key|] == m.key;
    assert s[q + 1 + |m.key|] == ':' by { assert w[1 + |m.key|] == ':'; }
  }

  lemma MetaTagValue(s: string, q: nat, m: MetaTag)
    requires MetaTagAt(s, q, m)
    ensures var v := q + 1 + |m.key| + 1;
            v + |m.value| < |s| && s[v..v + |m.value|] == m.value && s[v + |m.value|] == ']' &&
            forall k :: v <= k < v + |m.value| ==> s[k] != ']'
  {
    var w := MetaSpelling(m);
    var v := q + 1 + |m.key| + 1;
    var e := v + |m.value|;
    assert |w| == e + 1 - q;
    SpellingChars(s, q, m);
    forall k | 0 <= k < |m.value| ensures s[v + k] == m.value[k] {
      assert w[v - q + k] == m.value[k];
    }
    assert s[v..e] == m.value;
    assert s[e] == ']' by { assert w[|w| - 1] == ']'; }
    forall k | v <= k < e ensures s[k] != ']' {
      assert s[k] == m.value[k - v];
    }
  }

  lemma {:induction false} CloseBracketAt(s: string, q: nat, e: nat)
    requires q <= e < |s| && s[e] == ']'
    requires forall k :: q <= k < e ==> s[k] != ']'
    ensures CloseBracket(s, q) == e
    decreases e - q
  {
    if q < e {
      CloseBracketAt(s, q + 1, e);
    }
  }

  /** The leftmost metadata-tag match at or after `p`. */
  function FindMeta(s: string, p: nat): (r: Option<MetaTag>)
    ensures r.Some? ==> r.value.key in META_KEYS
    decreases |s| - p
  {
    if p >= |s| then None
    else if MatchMetaAt(s, p).Some? then MatchMetaAt(s, p)
    else FindMeta(s, p + 1)
  }

  /** The search returns the match at the leftmost position that has one, and nothing exactly
      when no position at or after `p` has one. */
  lemma FindMetaIsLeftmost(s: string, p: nat)
    ensures FindMeta(s, p).Some? ==>
              exists q :: p <= q < |s| && MatchMetaAt(s, q) == FindMeta(s, p) &&
                          forall k :: p <= k < q ==> MatchMetaAt(s, k).None?
    ensures FindMeta(s, p).None? <==> forall q :: p <= q < |s| ==> MatchMetaAt(s, q).None?
  {
    FindMetaFirstMatch(s, p);
    FindMetaNoneExactly(s, p);
  }

  lemma {:induction false} FindMetaFirstMatch(s: string, p: nat)
    ensures FindMeta(s, p).Some? ==>
              exists q :: p <= q < |s| && MatchMetaAt(s, q) == FindMeta(s, p) &&
                          forall k :: p <= k < q ==> MatchMetaAt(s, k).None?
    decreases |s| - p
  {
    if p >= |s| {
    } else if MatchMetaAt(s, p).Some? {
      assert FindMeta(s, p) == MatchMetaAt(s, p);
    } else {
      var r := FindMeta(s, p + 1);
      assert FindMeta(s, p) == r;
      FindMetaFirstMatch(s, p + 1);
      if r.Some? {
        var q :| p + 1 <= q < |s| && MatchMetaAt(s, q) == r &&
                 forall k :: p + 1 <= k < q ==> MatchMetaAt(s, k).None?;
        NoMatchBefore(s, p, q);
      }
    }
  }

  lemma NoMatchBefore(s: string, p: nat, q: nat)
    requires p < q && MatchMetaAt(s, p).None?
    requires forall k :: p + 1 <= k < q ==> MatchMetaAt(s, k).None?
    ensures forall k :: p <= k < q ==> MatchMetaAt(s, k).None?
  {
  }

  lemma {:induction false} FindMetaNoneExactly(s: string, p: nat)
    ensures FindMeta(s, p).None? <==> forall q :: p <= q < |s| ==> MatchMetaAt(s, q).None?
    decreases |s| - p
  {
    if p < |s| && MatchMetaAt(s, p).None? {
      assert FindMeta(s, p) == FindMeta(s, p + 1);
      FindMetaNoneExactly(s, p + 1);
    }
  }

  /** The search finds the leftmost metadata tag of the line, and nothing exactly when the line
      holds none. */
  lemma FindMetaIsLeftmostTag(s: string, p: nat)
    ensures FindMeta(s, p).Some? ==>
              exists q :: p <= q < |s| && MetaTagAt(s, q, FindMeta(s, p).value) &&
                          forall k, m :: p <= k < q ==> !MetaTagAt(s, k, m)
    ensures FindMeta(s, p).None? <==> forall k, m :: p <= k ==> !MetaTagAt(s, k, m)
  {
    FindMetaIsLeftmost(s, p);
    forall k, m | p <= k && MetaTagAt(s, k, m) ensures k < |s| && MatchMetaAt(s, k) == Some(m) {
      MetaTagIsMatched(s, k, m);
    }
  }

  // ---------------------------------------------------------------------------
  // Timestamps

  /** The fraction digits as milliseconds: padded with zeros to three digits, cut to three, and
      0 when they do not read as a number. */
  function FractionMs(frac: string): int {
    ParseLong(Take(PadEnd(frac, 3, '0'), 3)).GetOr(0)
  }

  /** A tag's time in milliseconds: minutes and seconds scaled to milliseconds, plus the fraction. */
  function TagMillis(t: TimeTag): int
    requires WellFormedTag(t)
  {
    ParseDigits(t.min);
    ParseDigits(t.sec);
    ParseLong(t.min).value * 60000 + ParseLong(t.sec).value * 1000 + FractionMs(t.frac)
  }

  /** The fraction is read as milliseconds after right-padding to three digits: "50" is 500,
      "123" is 123, and a missing fraction is 0. */
  lemma FractionIsPadded(frac: string)
    requires AllDigits(frac) && |frac| <= 3
    ensures FractionMs(frac) == DigitsValue(frac) * Pow10(3 - |frac|)
  {
    var padded := Take(PadEnd(frac, 3, '0'), 3);
    var zeros := padded[|frac|..];
    PaddedSplit(frac);
    assert forall i :: 0 <= i < |zeros| ==> zeros[i] == padded[|frac| + i];
    ZerosValue(zeros);
    DigitsValueAppend(frac, zeros);
    ParseDigits(padded);
  }

  lemma PaddedSplit(frac: string)
    requires |frac| <= 3
    ensures var p := Take(PadEnd(frac, 3, '0'), 3);
            |p| == 3 && p == frac + p[|frac|..] && forall i :: |frac| <= i < 3 ==> p[i] == '0'
  {
    var p := Take(PadEnd(frac, 3, '0'), 3);
    assert p == PadEnd(frac, 3, '0');
    assert p[..|frac|] == frac;
  }

  lemma {:induction false} ZerosValue(z: string)
    requires forall i :: 0 <= i < |z| ==> z[i] == '0'
    ensures AllDigits(z) && DigitsValue(z) == 0
  {
    if |z| > 0 {
      ZerosValue(z[..|z| - 1]);
    }
  }

  /** The timestamp of a tag: minutes and seconds (seconds are not range-checked) plus the padded fraction. */
  lemma TagMillisFormula(t: TimeTag)
    requires WellFormedTag(t)
    ensures TagMillis(t) == DigitsValue(t.min) * 60000 + DigitsValue(t.sec) * 1000
                            + DigitsValue(t.frac) * Pow10(3 - |t.frac|)
    ensures 0 <= TagMillis(t) <= 99 * 60000 + 99 * 1000 + 999
  {
    TagMillisValue(t);
    TagPartsBound(t);
  }

  lemma TagMillisValue(t: TimeTag)
    requires WellFormedTag(t)
    ensures TagMillis(t) == DigitsValue(t.min) * 60000 + DigitsValue(t.sec) * 1000
                            + DigitsValue(t.frac) * Pow10(3 - |t.frac|)
  {
    ParseDigits(t.min);
    ParseDigits(t.sec);
    FractionIsPadded(t.frac);
  }

  lemma TagPartsBound(t: TimeTag)
    requires WellFormedTag(t)
    ensures DigitsValue(t.min) <= 99 && DigitsValue(t.sec) <= 99
    ensures 0 <= DigitsValue(t.frac) * Pow10(3 - |t.frac|) <= 999
  {
    DigitsValueBound(t.min);
    DigitsValueBound(t.sec);
    DigitsValueBound(t.frac);
    assert Pow10(2) == 100;
    if |t.frac| == 2 {
      assert Pow10(1) == 10;
    } else if |t.frac| == 3 {
      assert Pow10(3) == 1000 && Pow10(0) == 1;
    }
  }

  // ---------------------------------------------------------------------------
  // One line, and the fold over all lines

  /** The entry one tag contributes. */
  function Entry(t: TimeTag, text: string, offset: int): LyricsLine
    requires WellFormedTag(t)
  {
    LyricsLine(WrapLong(TagMillis(t) + offset), text)
  }

  /** One entry per tag, all with the same text, each at its tag time plus the offset. */
  function Stamp(tags: seq<TimeTag>, text: string, offset: int): (r: seq<LyricsLine>)
    requires forall i :: 0 <= i < |tags| ==> WellFormedTag(tags[i])
    ensures |r| == |tags|
    ensures forall i :: 0 <= i < |r| ==> r[i] == Entry(tags[i], text, offset)
  {
    if |tags| == 0 then []
    else
      var rest := Stamp(tags[1..], text, offset);
      var entry := t requires WellFormedTag(t) => Entry(t, text, offset);
      MapCons(entry, tags, rest);
      [Entry(tags[0], text, offset)] + rest
  }

  /** Putting the image of the head in front of the images of the tail gives the images of all. */
  lemma MapCons<A, B>(f: A --> B, xs: seq<A>, ys: seq<B>)
    requires |xs| > 0 && |ys| == |xs| - 1
    requires forall i :: 0 <= i < |xs| ==> f.requires(xs[i])
    requires forall i :: 0 <= i < |ys| ==> ys[i] == f(xs[1..][i])
    ensures forall i :: 0 <= i < |xs| ==> ([f(xs[0])] + ys)[i] == f(xs[i])
  {
    forall i | 1 <= i < |xs| ensures ([f(xs[0])] + ys)[i] == f(xs[i]) {
      assert xs[1..][i - 1] == xs[i];
    }
  }

  /** The entries a trimmed, metadata-free line emits under the current offset:
      one per time tag, all with the tag-free trimmed text; none when either is missing. */
  function LineEntries(trimmed: string, offset: int): (r: seq<LyricsLine>)
    ensures forall i :: 0 <= i < |r| ==> r[i].text != [] && Trim(r[i].text) == r[i].text
  {
    var ps := ScanTimeTags(trimmed, 0);
    var tags := TagsOf(ps);
    var text := Trim(TextOf(ps));
    if |tags| == 0 || text == [] then []
    else
      TrimIdempotent(TextOf(ps));
      Stamp(tags, text, offset)
  }

  /** The parser's local variables between two lines. */
  datatype ParseState = ParseState(
    lines: seq<LyricsLine>,
    title: Option<string>,
    artist: Option<string>,
    album: Option<string>,
    offset: int)

  const INITIAL: ParseState := ParseState([], None, None, None, 0)

  /** The metadata tag of a raw line, if its trimmed text contains one. */
  function MetaOf(line: string): Option<MetaTag> {
    var trimmed := Trim(line);
    if trimmed == [] then None else FindMeta(trimmed, 0)
  }

  predicate HasKey(line: string, key: string) {
    MetaOf(line).Some? && MetaOf(line).value.key == key
  }

  /** What a metadata tag does to the state: `ti`, `ar`, `al` set the trimmed value,
      `offset` parses it (0 when not a number), `au` and `by` change nothing. */
  function ApplyMeta(st: ParseState, m: MetaTag): ParseState {
    if m.key == "ti" then st.(title := Some(Trim(m.value)))
    else if m.key == "ar" then st.(artist := Some(Trim(m.value)))
    else if m.key == "al" then st.(album := Some(Trim(m.value)))
    else if m.key == "offset" then st.(offset := ParseLong(Trim(m.value)).GetOr(0))
    else st
  }

  /** One iteration of the loop over `lrcContent.lines()`. */
  function Step(st: ParseState, line: string): ParseState {
    var trimmed := Trim(line);
    if trimmed == [] then st
    else
      match FindMeta(trimmed, 0)
      case Some(m) => ApplyMeta(st, m)
      case None => st.(lines := st.lines + LineEntries(trimmed, st.offset))
  }

  function Fold(ls: seq<string>): ParseState {
    if |ls| == 0 then INITIAL else Step(Fold(ls[..|ls| - 1]), ls[|ls| - 1])
  }

  /** `LrcParser.parse`. */
  function Parse(content: string): (r: Lyrics)
    ensures forall i :: 0 <= i < |r.lines| ==> r.lines[i].text != [] && Trim(r.lines[i].text) == r.lines[i].text
  {
    var st := Fold(Lines(content));
    FoldLinesWellFormed(Lines(content));
    var sorted := StableSort.SortBy(st.lines, TimeOf);
    forall i | 0 <= i < |sorted| ensures sorted[i].text != [] && Trim(sorted[i].text) == sorted[i].text {
      assert sorted[i] in multiset(st.lines);
    }
    Lyrics(sorted, st.title, st.artist, st.album)
  }

  ghost predicate GoodLine(l: LyricsLine) {
    l.text != [] && Trim(l.text) == l.text
  }

  lemma {:induction false} FoldLinesWellFormed(ls: seq<string>)
    ensures forall i :: 0 <= i < |Fold(ls).lines| ==> GoodLine(Fold(ls).lines[i])
  {
    if |ls| > 0 {
      FoldLinesWellFormed(ls[..|ls| - 1]);
      StepKeepsLinesGood(Fold(ls[..|ls| - 1]), ls[|ls| - 1]);
    }
  }

  lemma StepKeepsLinesGood(st: ParseState, line: string)
    requires forall i :: 0 <= i < |st.lines| ==> GoodLine(st.lines[i])
    ensures forall i :: 0 <= i < |Step(st, line).lines| ==> GoodLine(Step(st, line).lines[i])
  {
    var trimmed := Trim(line);
    if trimmed == [] {
      assert Step(st, line) == st;
    } else if FindMeta(trimmed, 0).Some? {
      assert Step(st, line) == ApplyMeta(st, FindMeta(trimmed, 0).value);
      assert Step(st, line).lines == st.lines;
    } else {
      var added := LineEntries(trimmed, st.offset);
      assert Step(st, line).lines == st.lines + added;
      assert forall i :: 0 <= i < |added| ==> GoodLine(added[i]);
    }
  }

  // ---------------------------------------------------------------------------
  // Reference definitions and the properties of `Parse`

  /** Index of the last of the first `n` elements satisfying `p`, or -1. */
  function LastWhere<T>(s: seq<T>, p: T -> bool, n: nat): (j: int)
    requires n <= |s|
    ensures -1 <= j < n
  {
    if n == 0 then -1
    else if p(s[n - 1]) then n - 1
    else LastWhere(s, p, n - 1)
  }

  lemma {:induction false} LastWhereIsLast<T>(s: seq<T>, p: T -> bool, n: nat)
    requires n <= |s|
    ensures LastWhere(s, p, n) >= 0 ==> p(s[LastWhere(s, p, n)])
    ensures forall k :: LastWhere(s, p, n) < k < n ==> !p(s[k])
  {
    if n > 0 && !p(s[n - 1]) {
      LastWhereIsLast(s, p, n - 1);
    }
  }

  /** Index of the last of the first `n` lines carrying metadata tag `key`, or -1. */
  function LastWith(ls: seq<string>, key: string, n: nat): (j: int)
    requires n <= |ls|
    ensures -1 <= j < n
  {
    LastWhere(ls, l => HasKey(l, key), n)
  }

  /** `LastWith` finds the last such line: it has the key and no later line of the first `n` has. */
  lemma {:induction false} LastWithIsLast(ls: seq<string>, key: string, n: nat)
    requires n <= |ls|
    ensures LastWith(ls, key, n) >= 0 ==> HasKey(ls[LastWith(ls, key, n)], key)
    ensures forall k :: LastWith(ls, key, n) < k < n ==> !HasKey(ls[k], key)
  {
    LastWhereIsLast(ls, l => HasKey(l, key), n);
  }

  /** The trimmed value of the last `key` tag among the first `n` lines. */
  function MetaValue(ls: seq<string>, key: string, n: nat): Option<string>
    requires n <= |ls|
  {
    var j := LastWith(ls, key, n);
    if j < 0 || MetaOf(ls[j]).None? then None else Some(Trim(MetaOf(ls[j]).value.value))
  }

  /** The offset in force before line `n`: the last `[offset:]` tag above it, 0 when none or non-numeric. */
  function OffsetBefore(ls: seq<string>, n: nat): int
    requires n <= |ls|
  {
    var j := LastWith(ls, "offset", n);
    if j < 0 || MetaOf(ls[j]).None? then 0 else ParseLong(Trim(MetaOf(ls[j]).value.value)).GetOr(0)
  }

  /** What line `i` contributes: its entries under the offset in force, or nothing for blank and metadata lines. */
  function EntriesOfLine(ls: seq<string>, i: nat): seq<LyricsLine>
    requires i < |ls|
  {
    var trimmed := Trim(ls[i]);
    if trimmed == [] || MetaOf(ls[i]).Some? then [] else LineEntries(trimmed, OffsetBefore(ls, i))
  }

  /** All entries of the first `n` lines, in source order (before sorting). */
  function Emitted(ls: seq<string>, n: nat): seq<LyricsLine>
    requires n <= |ls|
  {
    if n == 0 then [] else Emitted(ls, n - 1) + EntriesOfLine(ls, n - 1)
  }

  function Reference(ls: seq<string>, n: nat): ParseState
    requires n <= |ls|
  {
    ParseState(Emitted(ls, n), MetaValue(ls, "ti", n), MetaValue(ls, "ar", n), MetaValue(ls, "al", n),
               OffsetBefore(ls, n))
  }

  lemma MetaValueStep(ls: seq<string>, key: string, n: nat)
    requires n < |ls|
    ensures MetaValue(ls, key, n + 1)
            == if HasKey(ls[n], key) then Some(Trim(MetaOf(ls[n]).value.value)) else MetaValue(ls, key, n)
  {
  }

  lemma OffsetBeforeStep(ls: seq<string>, n: nat)
    requires n < |ls|
    ensures OffsetBefore(ls, n + 1)
            == if HasKey(ls[n], "offset") then ParseLong(Trim(MetaOf(ls[n]).value.value)).GetOr(0)
               else OffsetBefore(ls, n)
  {
  }

  /** One loop iteration moves the reference state from `n` lines to `n + 1`. */
  lemma StepMatchesReference(ls: seq<string>, n: nat)
    requires n < |ls|
    ensures Step(Reference(ls, n), ls[n]) == Reference(ls, n + 1)
  {
    var line := ls[n];
    var trimmed := Trim(line);
    MetaValueStep(ls, "ti", n);
    MetaValueStep(ls, "ar", n);
    MetaValueStep(ls, "al", n);
    OffsetBeforeStep(ls, n);
    assert Emitted(ls, n + 1) == Emitted(ls, n) + EntriesOfLine(ls, n);
    if trimmed == [] || FindMeta(trimmed, 0).Some? {
      assert EntriesOfLine(ls, n) == [];
      assert Emitted(ls, n + 1) == Emitted(ls, n);
      if trimmed != [] {
        var m := FindMeta(trimmed, 0).value;
        assert MetaOf(line) == Some(m);
        assert "ti" != "ar" && "ti" != "al" && "ti" != "offset" && "ar" != "al" && "ar" != "offset" && "al" != "offset";
      }
    } else {
      assert MetaOf(line).None?;
    }
  }

  /** The loop's state after `n` lines agrees with the reference definitions. */
  lemma {:induction false} FoldMatchesReference(ls: seq<string>, n: nat)
    requires n <= |ls|
    ensures Fold(ls[..n]) == Reference(ls, n)
  {
    if n > 0 {
      FoldMatchesReference(ls, n - 1);
      assert ls[..n][..n - 1] == ls[..n - 1];
      assert ls[..n][n - 1] == ls[n - 1];
      StepMatchesReference(ls, n - 1);
    }
  }

  /** The parsed lines are sorted by time, and equal timestamps keep their source order
      (so the lines are exactly the emitted entries, stably sorted). */
  lemma ParseSortedAndStable(content: string)
    ensures StableSort.SortedBy(Parse(content).lines, TimeOf)
    ensures var ls := Lines(content);
            multiset(Parse(content).lines) == multiset(Emitted(ls, |ls|))
    ensures var ls := Lines(content);
            forall k :: StableSort.WithKey(Parse(content).lines, TimeOf, k)
                        == StableSort.WithKey(Emitted(ls, |ls|), TimeOf, k)
  {
    var ls := Lines(content);
    FoldMatchesReference(ls, |ls|);
    assert ls[..|ls|] == ls;
    StableSort.SortBySorted(Fold(ls).lines, TimeOf);
    forall k ensures StableSort.WithKey(Parse(content).lines, TimeOf, k)
                     == StableSort.WithKey(Emitted(ls, |ls|), TimeOf, k) {
      StableSort.SortByStable(Fold(ls).lines, TimeOf, k);
    }
  }

  /** Title, artist and album come from the last `ti`, `ar` and `al` tag, trimmed. */
  lemma ParseMetadata(content: string)
    ensures var ls := Lines(content);
            && Parse(content).title == MetaValue(ls, "ti", |ls|)
            && Parse(content).artist == MetaValue(ls, "ar", |ls|)
            && Parse(content).album == MetaValue(ls, "al", |ls|)
  {
    var ls := Lines(content);
    FoldMatchesReference(ls, |ls|);
    assert ls[..|ls|] == ls;
  }

  /** A line with k time tags and non-empty remaining text emits exactly k entries sharing that
      text, timed by the tag plus the current offset (with `Long` wrap-around); otherwise none. */
  lemma LineEntriesShape(trimmed: string, offset: int)
    ensures var ps := ScanTimeTags(trimmed, 0);
            var tags := TagsOf(ps);
            var text := Trim(TextOf(ps));
            var r := LineEntries(trimmed, offset);
            && (|tags| == 0 || text == [] ==> r == [])
            && (|tags| > 0 && text != [] ==>
                  |r| == |tags|
                  && forall i :: 0 <= i < |r| ==>
                       r[i].text == text && r[i].timeMs == WrapLong(TagMillis(tags[i]) + offset))
  {
    var ps := ScanTimeTags(trimmed, 0);
    var tags := TagsOf(ps);
    var text := Trim(TextOf(ps));
    if |tags| > 0 && text != [] {
      var r := LineEntries(trimmed, offset);
      assert r == Stamp(tags, text, offset);
      forall i | 0 <= i < |r|
        ensures r[i].text == text && r[i].timeMs == WrapLong(TagMillis(tags[i]) + offset)
      {
        assert r[i] == Entry(tags[i], text, offset);
      }
    }
  }

  /** A two-line file: a title tag, then one timed line. */
  const EXAMPLE: string := "[ti:T]\n[00:01.50]hi"

  /** The example parses to one line at 1.5 s with the text after its tag, titled by its tag. */
  lemma ExampleParses()
    ensures Parse(EXAMPLE) == Lyrics([LyricsLine(1500, "hi")], Some("T"), None, None)
  {
    var one := [LyricsLine(1500, "hi")];
    ExampleLines();
    ExampleFold();
    ParseOfFold(EXAMPLE, INITIAL.(title := Some("T"), lines := one));
    assert StableSort.SortBy(one, TimeOf) == one by {
      assert one[..0] == [];
    }
  }

  /** Parsing is sorting what the fold over the lines collected. */
  lemma ParseOfFold(content: string, st: ParseState)
    requires Fold(Lines(content)) == st
    ensures Parse(content) == Lyrics(StableSort.SortBy(st.lines, TimeOf), st.title, st.artist, st.album)
  {
  }

  lemma ExampleFold()
    ensures Fold(["[ti:T]", "[00:01.50]hi"]) ==
              INITIAL.(title := Some("T"), lines := [LyricsLine(1500, "hi")])
  {
    var l0, l1 := "[ti:T]", "[00:01.50]hi";
    ExampleTitleStep();
    ExampleLyricStep(INITIAL.(title := Some("T")));
    FoldTwo(l0, l1);
  }

  lemma FoldTwo(a: string, b: string)
    ensures Fold([a, b]) == Step(Step(INITIAL, a), b)
  {
    assert [a, b][..1] == [a];
    assert [a][..0] == [];
    assert Fold([a]) == Step(Fold([]), a);
  }

  lemma ExampleLines()
    ensures Lines(EXAMPLE) == ["[ti:T]", "[00:01.50]hi"]
  {
    var l0, l1 := "[ti:T]", "[00:01.50]hi";
    assert EXAMPLE == l0 + "\n" + l1;
    LinesOfTwo(l0, l1);
  }

  lemma LinesOfTwo(a: string, b: string)
    requires '\n' !in a && '\r' !in a && '\n' !in b && '\r' !in b
    ensures Lines(a + "\n" + b) == [a, b]
  {
    var s := a + "\n" + b;
    forall k | 0 <= k < |a| ensures s[k] != '\n' && s[k] != '\r' {
      assert s[k] == a[k];
    }
    FirstBreakAt(s, |a|);
    assert s[..|a|] == a && s[|a| + 1..] == b;
    forall k | 0 <= k < |b| ensures b[k] != '\n' && b[k] != '\r' {
      assert b[k] in b;
    }
    FirstBreakAt(b, |b|);
  }

  /** The title line sets the title and nothing else. */
  lemma ExampleTitleStep()
    ensures Step(INITIAL, "[ti:T]") == INITIAL.(title := Some("T"))
  {
    TrimUnpadded("[ti:T]");
    TrimUnpadded("T");
    ExampleTitleFound();
  }

  lemma ExampleTitleFound()
    ensures FindMeta("[ti:T]", 0) == Some(MetaTag("ti", "T"))
  {
    var l0 := "[ti:T]";
    var title := MetaTag("ti", "T");
    assert MetaSpelling(title) == l0;
    assert l0[0..6] == l0;
    MetaTagIsMatched(l0, 0, title);
  }

  /** The timed line adds its one entry under offset 0. */
  lemma ExampleLyricStep(st: ParseState)
    requires st.offset == 0
    ensures Step(st, "[00:01.50]hi") == st.(lines := st.lines + [LyricsLine(1500, "hi")])
  {
    TrimUnpadded("[00:01.50]hi");
    ExampleLineHasNoMeta();
    ExampleLineEntries();
  }

  lemma ExampleLineHasNoMeta()
    ensures FindMeta("[00:01.50]hi", 0).None?
  {
    var s := "[00:01.50]hi";
    forall q | 0 <= q < |s| ensures MatchMetaAt(s, q).None? {
      if q == 0 {
        KeyNotAt(s, 1);
      } else {
        assert s[q] != '[';
      }
    }
    FindMetaIsLeftmost(s, 0);
  }

  /** No key starts with the character at `i`, so none matches there. */
  lemma KeyNotAt(s: string, i: nat)
    requires i < |s| && s[i] != 't' && s[i] != 'a' && s[i] != 'b' && s[i] != 'o'
    ensures MetaKeyAt(s, i, META_KEYS).None?
  {
    assert forall j :: 0 <= j < |META_KEYS| ==> !KeyMatches(s, i, META_KEYS[j]);
    MetaKeyAbsent(s, i, META_KEYS);
  }

  lemma {:induction false} MetaKeyAbsent(s: string, i: nat, keys: seq<string>)
    requires forall j :: 0 <= j < |keys| ==> !KeyMatches(s, i, keys[j])
    ensures MetaKeyAt(s, i, keys).None?
  {
    if |keys| > 0 {
      assert !KeyMatches(s, i, keys[0]);
      MetaKeyAbsent(s, i, keys[1..]);
    }
  }

  lemma ExampleLineEntries()
    ensures LineEntries("[00:01.50]hi", 0) == [LyricsLine(1500, "hi")]
  {
    var s := "[00:01.50]hi";
    var t := TimeTag("00", "01", "50");
    var ps := [Tag(t, "[00:01.50]"), Plain('h'), Plain('i')];
    ExampleScan();
    ExamplePieces(t, ps);
    TrimUnpadded("hi");
    ExampleMillis(t);
    assert Stamp([t], "hi", 0) == [Entry(t, "hi", 0)];
  }

  lemma ExampleScan()
    ensures ScanTimeTags("[00:01.50]hi", 0) ==
              [Tag(TimeTag("00", "01", "50"), "[00:01.50]"), Plain('h'), Plain('i')]
  {
    var s := "[00:01.50]hi";
    var t := TimeTag("00", "01", "50");
    assert TagSpelling(t, '.') == s[..10];
    assert s[0..10] == "[00:01.50]";
    TagIsMatched(s, 0, t, '.');
    assert MatchTimeTagAt(s, 10).None? && MatchTimeTagAt(s, 11).None?;
    assert ScanTimeTags(s, 12) == [];
  }

  lemma ExamplePieces(t: TimeTag, ps: seq<Piece>)
    requires t == TimeTag("00", "01", "50")
    requires ps == [Tag(t, "[00:01.50]"), Plain('h'), Plain('i')]
    ensures WellFormedTag(t) && TagsOf(ps) == [t] && TextOf(ps) == "hi"
  {
    var p2: seq<Piece> := [Plain('i')];
    var p1: seq<Piece> := [Plain('h'), Plain('i')];
    assert p2[1..] == [] && p1[1..] == p2 && ps[1..] == p1;
    assert TagsOf(p2) == [] && TextOf(p2) == "i";
    assert TagsOf(p1) == [] && TextOf(p1) == "hi";
  }

  lemma ExampleMillis(t: TimeTag)
    requires t == TimeTag("00", "01", "50")
    ensures WellFormedTag(t) && TagMillis(t) == 1500
  {
    TagMillisFormula(t);
    assert DigitsValue("00") == 0 && DigitsValue("01") == 1 && DigitsValue("50") == 50;
    assert Pow10(1) == 10;
  }

  /** Blank lines and lines carrying a metadata tag emit no lyric. */
  lemma NonLyricLinesEmitNothing(ls: seq<string>, i: nat)
    requires i < |ls|
    requires IsBlank(ls[i]) || MetaOf(ls[i]).Some?
    ensures EntriesOfLine(ls, i) == []
  {
  }

  // ---------------------------------------------------------------------------
  // Plain text

  /** The lines that are not blank, in order. */
  function NonBlank(ls: seq<string>): (r: seq<string>)
    ensures |r| <= |ls|
    ensures forall i :: 0 <= i < |r| ==> !IsBlank(r[i])
  {
    if |ls| == 0 then []
    else (if IsBlank(ls[0]) then [] else [ls[0]]) + NonBlank(ls[1..])
  }

  /** Kotlin's `isNotBlank`. */
  predicate IsNotBlank(s: string) {
    !IsBlank(s)
  }

  /** Line `i` marked as kept or dropped, independently of its neighbours. */
  function KeepNonBlank(ls: seq<string>): (ms: seq<Option<string>>)
    ensures |ms| == |ls|
    ensures forall i :: 0 <= i < |ls| ==> ms[i] == if IsBlank(ls[i]) then None else Some(ls[i])
  {
    Marked(ls, IsNotBlank)
  }

  /** The filter keeps exactly the non-blank lines, every one of them, in their order. */
  lemma {:induction false} NonBlankMatchesReference(ls: seq<string>)
    ensures NonBlank(ls) == Somes(KeepNonBlank(ls))
    decreases |ls|
  {
    if |ls| > 0 {
      NonBlankMatchesReference(ls[1..]);
      assert KeepNonBlank(ls) == [KeepNonBlank(ls)[0]] + KeepNonBlank(ls[1..]);
      SomesCons(KeepNonBlank(ls)[0], KeepNonBlank(ls[1..]));
    }
  }

  /** `LrcParser.parseFromPlainText`: the i-th non-blank line, trimmed, at i * 5000 ms; no metadata. */
  function ParsePlainText(text: string): (r: Lyrics)
    ensures var kept := NonBlank(Lines(text));
            && |r.lines| == |kept|
            && (forall i :: 0 <= i < |r.lines| ==>
                  r.lines[i].timeMs == i * 5000 && r.lines[i].text == Trim(kept[i]) && r.lines[i].text != [])
    ensures r.title.None? && r.artist.None? && r.album.None?
  {
    var kept := NonBlank(Lines(text));
    Lyrics(seq(|kept|, i requires 0 <= i < |kept| => LyricsLine(i * 5000, Trim(kept[i]))), None, None, None)
  }
}
