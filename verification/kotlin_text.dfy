/** The Kotlin standard-library string operations the application relies on,
    over `string` (a sequence of Unicode scalar values). */
module KotlinText {

  /** `Char.isWhitespace()` on the JVM: a Java whitespace character or a Unicode space character. */
  predicate IsWhitespace(c: char) {
    || c == ' ' || c == '\t' || c == '\n' || c == '\U{000B}' || c == '\U{000C}' || c == '\r'
    || ('\U{001C}' <= c <= '\U{001F}')
    || c == '\U{00A0}' || c == '\U{1680}'
    || ('\U{2000}' <= c <= '\U{200A}')
    || c == '\U{2028}' || c == '\U{2029}' || c == '\U{202F}' || c == '\U{205F}' || c == '\U{3000}'
  }

  /** `CharSequence.isBlank()`: empty or whitespace only. */
  predicate IsBlank(s: string) {
    forall i :: 0 <= i < |s| ==> IsWhitespace(s[i])
  }

  /** Index of the first non-whitespace character, or |s|. */
  function TrimStartIndex(s: string): (i: nat)
    ensures i <= |s|
    ensures forall k :: 0 <= k < i ==> IsWhitespace(s[k])
    ensures i < |s| ==> !IsWhitespace(s[i])
  {
    if |s| == 0 || !IsWhitespace(s[0]) then 0 else 1 + TrimStartIndex(s[1..])
  }

  /** One past the index of the last non-whitespace character, or 0. */
  function TrimEndIndex(s: string): (j: nat)
    ensures j <= |s|
    ensures forall k :: j <= k < |s| ==> IsWhitespace(s[k])
    ensures 0 < j ==> !IsWhitespace(s[j - 1])
  {
    if |s| == 0 || !IsWhitespace(s[|s| - 1]) then |s| else TrimEndIndex(s[..|s| - 1])
  }

  /** `String.trim()`: drops leading and trailing whitespace. */
  function Trim(s: string): (r: string)
    ensures |r| <= |s|
    ensures r == [] || (!IsWhitespace(r[0]) && !IsWhitespace(r[|r| - 1]))
    ensures r == [] <==> IsBlank(s)
  {
    var i := TrimStartIndex(s);
    if i == |s| then []
    else
      var j := TrimEndIndex(s);
      assert !IsWhitespace(s[i]);
      assert i < j;
      s[i..j]
  }

  /** What `Trim` keeps is a slice of the input surrounded by whitespace only. */
  lemma TrimIsSlice(s: string)
    ensures exists i, j :: 0 <= i <= j <= |s| && Trim(s) == s[i..j]
                           && (forall k :: 0 <= k < i ==> IsWhitespace(s[k]))
                           && (forall k :: j <= k < |s| ==> IsWhitespace(s[k]))
  {
    var i := TrimStartIndex(s);
    if i == |s| {
      assert Trim(s) == s[i..i];
    } else {
      var j := TrimEndIndex(s);
      assert !IsWhitespace(s[i]);
      assert Trim(s) == s[i..j];
    }
  }

  /** Trimming twice changes nothing more. */
  lemma TrimIdempotent(s: string)
    ensures Trim(Trim(s)) == Trim(s)
  {
    var t := Trim(s);
    if t != [] {
      assert TrimStartIndex(t) == 0;
      assert TrimEndIndex(t) == |t|;
      assert t[0..|t|] == t;
    }
  }

  /** Text that neither starts nor ends with whitespace is its own trim. */
  lemma TrimUnpadded(s: string)
    requires s != [] && !IsWhitespace(s[0]) && !IsWhitespace(s[|s| - 1])
    ensures Trim(s) == s
  {
    assert TrimStartIndex(s) == 0;
    assert TrimEndIndex(s) == |s|;
    assert s[0..|s|] == s;
  }

  /** Index of the first line break ('\n' or '\r'), or |s|. */
  function FirstBreak(s: string): (i: nat)
    ensures i <= |s|
    ensures forall k :: 0 <= k < i ==> s[k] != '\n' && s[k] != '\r'
    ensures i < |s| ==> s[i] == '\n' || s[i] == '\r'
  {
    if |s| == 0 || s[0] == '\n' || s[0] == '\r' then 0 else 1 + FirstBreak(s[1..])
  }

  predicate NoBreak(s: string) {
    forall k :: 0 <= k < |s| ==> s[k] != '\n' && s[k] != '\r'
  }

  /** `FirstBreak` is the first break: none before it, and one at it unless it is the end. */
  lemma {:induction false} FirstBreakAt(s: string, i: nat)
    requires i <= |s| && forall k :: 0 <= k < i ==> s[k] != '\n' && s[k] != '\r'
    requires i < |s| ==> s[i] == '\n' || s[i] == '\r'
    ensures FirstBreak(s) == i
  {
    if i > 0 {
      assert forall k :: 0 <= k < i - 1 ==> s[1..][k] == s[k + 1];
      FirstBreakAt(s[1..], i - 1);
    }
  }

  /** `CharSequence.lines()`: splits at "\r\n", "\n" and "\r"; a trailing
      break yields a trailing empty line, and "" yields [""]. */
  function Lines(s: string): (r: seq<string>)
    ensures |r| >= 1
    ensures forall i :: 0 <= i < |r| ==> NoBreak(r[i])
    decreases |s|
  {
    var i := FirstBreak(s);
    if i == |s| then [s]
    else if s[i] == '\r' && i + 1 < |s| && s[i + 1] == '\n' then [s[..i]] + Lines(s[i + 2..])
    else [s[..i]] + Lines(s[i + 1..])
  }

  /** Joins lines with "\n" between them. */
  function JoinLf(ls: seq<string>): string
    requires |ls| >= 1
  {
    if |ls| == 1 then ls[0] else ls[0] + "\n" + JoinLf(ls[1..])
  }

  /** For text with only "\n" breaks, `Lines` loses nothing: joining the lines back gives the text. */
  lemma {:induction false} LinesJoinLf(s: string)
    requires '\r' !in s
    ensures JoinLf(Lines(s)) == s
    decreases |s|
  {
    var i := FirstBreak(s);
    if i < |s| {
      var rest := s[i + 1..];
      assert s[i] == '\n' && '\r' !in rest;
      LinesJoinLf(rest);
      JoinCons(s[..i], Lines(rest));
      RejoinAt(s, i);
    }
  }

  lemma JoinCons(x: string, ls: seq<string>)
    requires |ls| >= 1
    ensures JoinLf([x] + ls) == x + "\n" + JoinLf(ls)
  {
    assert ([x] + ls)[0] == x && ([x] + ls)[1..] == ls;
  }

  lemma RejoinAt(s: string, i: nat)
    requires i < |s| && s[i] == '\n'
    ensures s == s[..i] + "\n" + s[i + 1..]
  {
  }

  /** Index of the last occurrence of `c`, or -1. */
  function LastIndexOf(s: string, c: char): (r: int)
    ensures -1 <= r < |s|
    ensures r >= 0 ==> s[r] == c
    ensures forall k :: r < k < |s| ==> s[k] != c
  {
    if |s| == 0 then -1
    else if s[|s| - 1] == c then |s| - 1
    else LastIndexOf(s[..|s| - 1], c)
  }

  /** `substringBeforeLast(c)`: the text before the last `c`, or all of `s` when there is none. */
  function SubstringBeforeLast(s: string, c: char): string {
    var i := LastIndexOf(s, c);
    if i < 0 then s else s[..i]
  }

  /** `substringAfterLast(c)`: the text after the last `c`, or all of `s` when there is none. */
  function SubstringAfterLast(s: string, c: char): string {
    var i := LastIndexOf(s, c);
    if i < 0 then s else s[i + 1..]
  }

  /** Before-last and after-last split `s` at its last `c`; the tail holds no `c`. */
  lemma SplitAtLast(s: string, c: char)
    ensures c !in SubstringAfterLast(s, c)
    ensures c in s ==> s == SubstringBeforeLast(s, c) + [c] + SubstringAfterLast(s, c)
    ensures c !in s ==> SubstringBeforeLast(s, c) == s && SubstringAfterLast(s, c) == s
  {
    var i := LastIndexOf(s, c);
    if i >= 0 {
      assert s == s[..i] + [c] + s[i + 1..];
    } else {
      assert forall k :: 0 <= k < |s| ==> s[k] != c;
    }
  }

  predicate StartsWith(s: string, prefix: string) {
    |prefix| <= |s| && s[..|prefix|] == prefix
  }

  predicate EndsWith(s: string, suffix: string) {
    |suffix| <= |s| && s[|s| - |suffix|..] == suffix
  }

  lemma EndsWithAppend(a: string, b: string)
    ensures EndsWith(a + b, b)
  {
    assert (a + b)[|a + b| - |b|..] == b;
  }

  lemma EndsWithExtend(a: string, x: string, t: string)
    requires EndsWith(x, t)
    ensures EndsWith(a + x, t)
  {
    assert (a + x)[|a + x| - |t|..] == x[|x| - |t|..];
  }

  /** `Char.lowercaseChar()` restricted to ASCII letters. */
  function LowerChar(c: char): char {
    if 'A' <= c <= 'Z' then (c as int + 32) as char else c
  }

  /** `String.lowercase()` (ASCII letters only). */
  function Lowercase(s: string): (r: string)
    ensures |r| == |s|
    ensures forall i :: 0 <= i < |s| ==> r[i] == LowerChar(s[i])
  {
    seq(|s|, i requires 0 <= i < |s| => LowerChar(s[i]))
  }

  /** `String.ifEmpty { alt }`. */
  function IfEmpty(s: string, alt: string): string {
    if s == [] then alt else s
  }

  /** `String.padEnd(n, c)`. */
  function PadEnd(s: string, n: nat, c: char): (r: string)
    ensures |r| == if |s| >= n then |s| else n
    ensures r[..|s|] == s
    ensures forall i :: |s| <= i < |r| ==> r[i] == c
  {
    if |s| >= n then s else s + seq(n - |s|, _ => c)
  }

  /** `String.take(n)`. */
  function Take(s: string, n: nat): (r: string)
    ensures |r| == if |s| <= n then |s| else n
    ensures r == s[..|r|]
  {
    if |s| <= n then s else s[..n]
  }
}
