/**
  The part of the `url` crate the bot relies on, as values: a parsed URL, its
  query split into form-urlencoded pairs, the `key=value&...` text the bot
  writes back, and the URL's serialisation. Percent- and `+`-decoding are
  taken to be the identity.
*/
module UrlModel {
  import opened Wrappers

  datatype Host = Domain(name: string) | Ip(address: string)

  /** A parsed absolute URL; `query` and `fragment` exclude their `?` and `#`. */
  datatype Url = Url(
    scheme: string,
    host: Option<Host>,
    path: string,
    query: Option<string>,
    fragment: Option<string>)

  /** One decoded `key=value` pair of a query. */
  datatype Pair = Pair(key: string, value: string)

  /** First index of `c` in `s`, or `|s|` when `c` does not occur. */
  function IndexOf(s: string, c: char): (n: nat)
    ensures n <= |s|
    ensures n < |s| ==> s[n] == c
    ensures c !in s[..n]
  {
    if s == [] then 0
    else if s[0] == c then 0
    else
      assert s[..1 + IndexOf(s[1..], c)] == [s[0]] + s[1..][..IndexOf(s[1..], c)];
      1 + IndexOf(s[1..], c)
  }

  predicate StartsWith(s: string, prefix: string) {
    |prefix| <= |s| && s[..|prefix|] == prefix
  }

  /** `str::contains` for a string pattern. */
  predicate Contains(s: string, pattern: string) {
    exists i :: 0 <= i <= |s| && StartsWith(s[i..], pattern)
  }

  /** A segment split at its first `=`; without `=` the value is empty. */
  function ParsePair(segment: string): (p: Pair)
    ensures '=' !in p.key
    ensures '=' in segment ==> segment == p.key + "=" + p.value
    ensures '=' !in segment ==> p == Pair(segment, "")
  {
    var k := IndexOf(segment, '=');
    if k < |segment| then
      assert segment == segment[..k] + "=" + segment[k + 1..];
      Pair(segment[..k], segment[k + 1..])
    else
      assert segment[..k] == segment;
      Pair(segment, "")
  }

  /**
    `Url::query_pairs` on a query string: split on `&`, skip empty segments,
    split each segment at its first `=`.
  */
  function QueryPairs(q: string): (r: seq<Pair>)
    ensures |r| <= |q|
    ensures q != [] && '&' !in q ==> r == [ParsePair(q)]
    decreases |q|
  {
    if q == [] then []
    else
      var n := IndexOf(q, '&');
      var rest := if n < |q| then q[n + 1..] else [];
      assert q[..|q|] == q;
      (if n == 0 then [] else [ParsePair(q[..n])]) + QueryPairs(rest)
  }

  /** The pairs of the query, none when the URL has no query. */
  function QueryPairsOf(u: Url): seq<Pair> {
    if u.query.Some? then QueryPairs(u.query.value) else []
  }

  /** A pair that `QueryPairs` can give back unchanged after it is written out. */
  predicate Encodable(p: Pair) {
    '&' !in p.key && '=' !in p.key && '&' !in p.value
  }

  predicate AllEncodable(ps: seq<Pair>) {
    forall i :: 0 <= i < |ps| ==> Encodable(ps[i])
  }

  function PairText(p: Pair): string {
    p.key + "=" + p.value
  }

  /** The pairs written as `key=value`, joined by `&`. */
  function JoinPairs(ps: seq<Pair>): string {
    if ps == [] then ""
    else if |ps| == 1 then PairText(ps[0])
    else PairText(ps[0]) + "&" + JoinPairs(ps[1..])
  }

  /** The text of a host, as it appears after `//`. */
  function HostText(h: Host): string {
    match h
    case Domain(d) => d
    case Ip(a) => a
  }

  /** No part of the URL holds a newline. */
  predicate OnOneLine(u: Url) {
    '\n' !in u.scheme && '\n' !in u.path
    && (u.host.Some? ==> '\n' !in HostText(u.host.value))
    && (u.query.Some? ==> '\n' !in u.query.value)
    && (u.fragment.Some? ==> '\n' !in u.fragment.value)
  }

  /**
    `Url::as_str`: the serialisation of the URL, which starts with the scheme
    and `:`, and stays on one line when its parts do.
  */
  function AsStr(u: Url): (r: string)
    ensures |u.scheme| < |r| && r[..|u.scheme| + 1] == u.scheme + ":"
    ensures OnOneLine(u) ==> '\n' !in r
  {
    u.scheme + ":"
    + (if u.host.Some? then "//" + HostText(u.host.value) else "")
    + u.path
    + (if u.query.Some? then "?" + u.query.value else "")
    + (if u.fragment.Some? then "#" + u.fragment.value else "")
  }

  /** Whatever query string `Url::query_pairs` is given, every pair it yields is encodable. */
  lemma {:induction false} QueryPairsEncodable(q: string)
    ensures AllEncodable(QueryPairs(q))
    decreases |q|
  {
    if q != [] {
      var n := IndexOf(q, '&');
      var rest := if n < |q| then q[n + 1..] else [];
      QueryPairsEncodable(rest);
      if n != 0 {
        var segment := q[..n];
        var p := ParsePair(segment);
        if '=' in segment {
          assert segment == p.key + "=" + p.value;
        }
        assert Encodable(p);
        assert QueryPairs(q) == [p] + QueryPairs(rest);
      }
    }
  }

  /** Appending one pair to the joined text of the others. */
  lemma {:induction false} JoinPairsSnoc(ps: seq<Pair>, p: Pair)
    ensures JoinPairs(ps + [p]) == if ps == [] then PairText(p) else JoinPairs(ps) + "&" + PairText(p)
  {
    if |ps| > 1 {
      var head := PairText(ps[0]);
      var tail := JoinPairs(ps[1..]);
      assert (ps + [p])[0] == ps[0];
      assert (ps + [p])[1..] == ps[1..] + [p];
      JoinPairsSnoc(ps[1..], p);
      assert JoinPairs(ps + [p]) == head + "&" + (tail + "&" + PairText(p));
      assert head + "&" + (tail + "&" + PairText(p)) == (head + "&" + tail) + "&" + PairText(p);
    } else if |ps| == 1 {
      assert (ps + [p])[1..] == [p];
    }
  }

  /** Round trip: the joined text of encodable pairs splits back into the same pairs. */
  lemma {:induction false} QueryPairsOfJoin(ps: seq<Pair>)
    requires AllEncodable(ps)
    ensures QueryPairs(JoinPairs(ps)) == ps
  {
    if ps != [] {
      assert Encodable(ps[0]);
      ParsePairText(ps[0]);
      if |ps| == 1 {
        QueryPairsOfSegment(PairText(ps[0]));
      } else {
        QueryPairsOfSegments(PairText(ps[0]), JoinPairs(ps[1..]));
        QueryPairsOfJoin(ps[1..]);
      }
    }
  }

  /** An encodable pair's text is one segment that parses back into the pair. */
  lemma ParsePairText(p: Pair)
    requires Encodable(p)
    ensures PairText(p) != [] && '&' !in PairText(p)
    ensures ParsePair(PairText(p)) == p
  {
    var text := PairText(p);
    assert text[|p.key|] == '=';
    assert IndexOf(text, '=') == |p.key| by {
      IndexOfAfterPrefix(p.key, p.value, '=');
    }
    assert text[..|p.key|] == p.key;
  }

  lemma QueryPairsOfSegment(segment: string)
    requires segment != [] && '&' !in segment
    ensures QueryPairs(segment) == [ParsePair(segment)]
  {
    assert IndexOf(segment, '&') == |segment|;
    assert segment[..|segment|] == segment;
  }

  lemma QueryPairsOfSegments(segment: string, rest: string)
    requires segment != [] && '&' !in segment
    ensures QueryPairs(segment + "&" + rest) == [ParsePair(segment)] + QueryPairs(rest)
  {
    var q := segment + "&" + rest;
    IndexOfAfterPrefix(segment, rest, '&');
    assert q[..|segment|] == segment;
    assert q[|segment| + 1..] == rest;
  }

  /** A joined text begins with its first pair's text. */
  lemma JoinPairsHead(ps: seq<Pair>)
    requires ps != []
    ensures StartsWith(JoinPairs(ps), PairText(ps[0]))
  {
    var head := PairText(ps[0]);
    if |ps| > 1 {
      var tail := "&" + JoinPairs(ps[1..]);
      assert JoinPairs(ps) == head + tail;
      assert (head + tail)[..|head|] == head;
    } else {
      assert head[..|head|] == head;
    }
  }

  lemma StartsWithTail(s: string, p: string)
    requires StartsWith(s, p) && p != []
    ensures StartsWith(s[1..], p[1..])
  {
    assert s[1..][..|p| - 1] == s[..|p|][1..];
  }

  /** The first `c` of `a + [c] + b` is just after `a` when `a` has no `c`. */
  lemma {:induction false} IndexOfAfterPrefix(a: string, b: string, c: char)
    requires c !in a
    ensures IndexOf(a + [c] + b, c) == |a|
  {
    if a != [] {
      assert (a + [c] + b)[1..] == a[1..] + [c] + b;
      IndexOfAfterPrefix(a[1..], b, c);
    }
  }
}
