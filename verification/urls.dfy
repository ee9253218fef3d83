/** Query strings: the `key=value` pairs joined by '&' that the repositories build, and a reader
    that takes a URL's query apart again. */
module Urls {
  import opened Wrappers

  type Param = (string, string)

  /** `k1=v1&k2=v2&…`. */
  function Query(ps: seq<Param>): string
    decreases |ps|
  {
    if |ps| == 0 then ""
    else if |ps| == 1 then ps[0].0 + "=" + ps[0].1
    else ps[0].0 + "=" + ps[0].1 + "&" + Query(ps[1..])
  }

  /** The first position of `c` in `s`, or `|s|` when there is none. */
  function IndexOf(s: string, c: char): (i: nat)
    ensures i <= |s|
    ensures forall k :: 0 <= k < i ==> s[k] != c
    ensures i < |s| ==> s[i] == c
  {
    if |s| == 0 || s[0] == c then 0 else 1 + IndexOf(s[1..], c)
  }

  /** `s.split(c)`: the pieces between the `c`s, one more than there are `c`s. */
  function Split(s: string, c: char): (r: seq<string>)
    ensures |r| >= 1
    decreases |s|
  {
    var i := IndexOf(s, c);
    if i == |s| then [s] else [s[..i]] + Split(s[i + 1..], c)
  }

  /** A `key=value` piece: split at its first '='; a piece without one is a key with value "". */
  function ParamOf(piece: string): Param {
    var i := IndexOf(piece, '=');
    if i == |piece| then (piece, "") else (piece[..i], piece[i + 1..])
  }

  /** The pairs of a URL's query: the text after the first '?', up to any '#', split at '&'. */
  function QueryParams(url: string): seq<Param> {
    var q := IndexOf(url, '?');
    if q == |url| then []
    else
      var rest := url[q + 1..];
      var query := rest[..IndexOf(rest, '#')];
      var pieces := Split(query, '&');
      seq(|pieces|, i requires 0 <= i < |pieces| => ParamOf(pieces[i]))
  }

  /** Text a query value can carry unread: no '&', '=' or '#'. */
  predicate Plain(s: string) {
    '&' !in s && '=' !in s && '#' !in s
  }

  predicate PlainParams(ps: seq<Param>) {
    forall i :: 0 <= i < |ps| ==> Plain(ps[i].0) && Plain(ps[i].1)
  }

  lemma IndexOfPrefix(a: string, b: string, c: char)
    requires c !in a
    ensures IndexOf(a + [c] + b, c) == |a|
    decreases |a|
  {
    if |a| > 0 {
      assert (a + [c] + b)[1..] == a[1..] + [c] + b;
      IndexOfPrefix(a[1..], b, c);
    }
  }

  lemma IndexOfAbsent(a: string, c: char)
    requires c !in a
    ensures IndexOf(a, c) == |a|
  {
  }

  /** `k=v` splits back into `(k, v)`. */
  lemma ParamOfPair(k: string, v: string)
    requires '=' !in k
    ensures ParamOf(k + "=" + v) == (k, v)
  {
    IndexOfPrefix(k, v, '=');
    assert (k + "=" + v)[..|k|] == k;
    assert (k + "=" + v)[|k| + 1..] == v;
  }

  /** Splitting the joined query at '&' gives back the `k=v` pieces. */
  lemma {:induction false} SplitQuery(ps: seq<Param>)
    requires |ps| >= 1 && PlainParams(ps)
    ensures |Split(Query(ps), '&')| == |ps|
    ensures forall i :: 0 <= i < |ps| ==> Split(Query(ps), '&')[i] == ps[i].0 + "=" + ps[i].1
    decreases |ps|
  {
    var head := ps[0].0 + "=" + ps[0].1;
    assert '&' !in head && '#' !in head;
    if |ps| == 1 {
      IndexOfAbsent(head, '&');
    } else {
      var rest := Query(ps[1..]);
      assert Query(ps) == head + "&" + rest;
      IndexOfPrefix(head, rest, '&');
      assert (head + "&" + rest)[..|head|] == head;
      assert (head + "&" + rest)[|head| + 1..] == rest;
      SplitQuery(ps[1..]);
      assert Split(Query(ps), '&') == [head] + Split(rest, '&');
    }
  }

  lemma {:induction false} QueryHasNoHash(ps: seq<Param>)
    requires PlainParams(ps)
    ensures '#' !in Query(ps)
    decreases |ps|
  {
    if |ps| > 1 {
      QueryHasNoHash(ps[1..]);
    }
  }

  /** Reading the query of `prefix?query` returns the pairs it was built from, in order, when
      neither the prefix holds a '?' nor any key or value a '&', '=' or '#'. */
  lemma QueryRoundTrip(prefix: string, ps: seq<Param>)
    requires '?' !in prefix && |ps| >= 1 && PlainParams(ps)
    ensures QueryParams(prefix + "?" + Query(ps)) == ps
  {
    var url := prefix + "?" + Query(ps);
    IndexOfPrefix(prefix, Query(ps), '?');
    assert url[|prefix| + 1..] == Query(ps);
    QueryHasNoHash(ps);
    IndexOfAbsent(Query(ps), '#');
    assert Query(ps)[..|Query(ps)|] == Query(ps);
    SplitQuery(ps);
    var pieces := Split(Query(ps), '&');
    forall i | 0 <= i < |ps| ensures ParamOf(pieces[i]) == ps[i] {
      ParamOfPair(ps[i].0, ps[i].1);
    }
  }
}
