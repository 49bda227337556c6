/**
  The `si` tracking-parameter stripper of src/remove_si.rs (the same code is
  repeated in src/bot/remove_si.rs, which this module models too).
*/
module RemoveSi {
  import opened Wrappers
  import opened UrlModel

  /** Hosts that count as YouTube: an exact, case-sensitive match. */
  const YoutubeDomains: seq<string> := ["youtube.com", "www.youtube.com", "youtu.be"]

  /** The tracking key. */
  const SiKey: string := "si"

  /** `url_belongs_to_youtube`: the host is a domain in `YoutubeDomains`. */
  predicate UrlBelongsToYoutube(u: Url): (r: bool)
    ensures r <==> u.host == Some(Domain("youtube.com")) || u.host == Some(Domain("www.youtube.com"))
                   || u.host == Some(Domain("youtu.be"))
  {
    u.host.Some? && u.host.value.Domain? && u.host.value.name in YoutubeDomains
  }

  /**
    `url_has_si`: the raw query starts with `si=` or contains `&si=`; that is,
    some `&`-separated segment of the query begins with `si=`.
  */
  predicate UrlHasSi(u: Url): (r: bool)
    ensures r <==> u.query.Some? && Contains("&" + u.query.value, "&si=")
  {
    u.query.Some? &&
    (AmpSiAnywhere(u.query.value);
     StartsWith(u.query.value, "si=") || Contains(u.query.value, "&si="))
  }

  /** With `&` put in front, `&si=` occurs exactly when the text starts with `si=` or contains `&si=`. */
  lemma AmpSiAnywhere(q: string)
    ensures Contains("&" + q, "&si=") <==> StartsWith(q, "si=") || Contains(q, "&si=")
  {
    var s := "&" + q;
    if Contains(s, "&si=") {
      var i :| 0 <= i <= |s| && StartsWith(s[i..], "&si=");
      if i == 0 {
        assert q[..3] == s[1..4];
      } else {
        assert s[i..] == q[i - 1..];
      }
    }
    if StartsWith(q, "si=") {
      assert s[0..][..4] == "&" + q[..3];
    }
    if Contains(q, "&si=") {
      var i :| 0 <= i <= |q| && StartsWith(q[i..], "&si=");
      assert s[i + 1..] == q[i..];
    }
  }

  /** The pairs whose key is not `si`, in their original order. */
  function KeepNonSi(ps: seq<Pair>): (r: seq<Pair>)
    ensures |r| <= |ps|
    ensures forall i :: 0 <= i < |r| ==> r[i].key != SiKey
    ensures forall j :: 0 <= j < |ps| && ps[j].key != SiKey ==> ps[j] in r
    ensures AllEncodable(ps) ==> AllEncodable(r)
  {
    if ps == [] then []
    else (if ps[0].key == SiKey then [] else [ps[0]]) + KeepNonSi(ps[1..])
  }

  /**
    The URL `remove_si_from_url` returns: the kept pairs joined with `&` as
    the new query, or no query at all when nothing is kept.
  */
  function Stripped(u: Url): (r: Url)
    ensures r == u.(query := r.query)
    ensures r.query.None? <==> KeepNonSi(QueryPairsOf(u)) == []
  {
    var kept := KeepNonSi(QueryPairsOf(u));
    if kept == [] then u.(query := None) else u.(query := Some(JoinPairs(kept)))
  }

  /**
    Read back as pairs, the stripped query is exactly the non-`si` pairs of
    the original, in their original order; so no `si` pair survives.
  */
  lemma StrippedPairs(u: Url)
    ensures QueryPairsOf(Stripped(u)) == KeepNonSi(QueryPairsOf(u))
    ensures forall p :: p in QueryPairsOf(Stripped(u)) ==> p.key != SiKey
  {
    var kept := KeepNonSi(QueryPairsOf(u));
    if kept != [] {
      QueryPairsEncodable(u.query.value);
      QueryPairsOfJoin(kept);
    }
  }

  /**
    `url_without_si` as a value: a URL exactly when both guards hold, and the
    only change it makes is a query read back as the non-`si` pairs.
  */
  function WithoutSi(u: Url): (r: Option<Url>)
    ensures r.Some? <==> UrlBelongsToYoutube(u) && UrlHasSi(u)
    ensures r.Some? ==> r.value == u.(query := r.value.query)
    ensures r.Some? ==> QueryPairsOf(r.value) == KeepNonSi(QueryPairsOf(u))
  {
    StrippedPairs(u);
    if UrlBelongsToYoutube(u) && UrlHasSi(u) then Some(Stripped(u)) else None
  }

  /** `remove_si_from_url`: rebuilds the query from the non-`si` pairs. */
  method RemoveSiFromUrl(url: Url) returns (r: Url)
    ensures r == Stripped(url)
  {
    var queryPairs := KeepNonSi(QueryPairsOf(url));
    if queryPairs == [] {
      r := url.(query := None);
      return;
    }
    var newQuery := WriteQuery(queryPairs);
    r := url.(query := Some(newQuery));
  }

  /** The loop of `remove_si_from_url` that writes `key=value` pairs separated by `&`. */
  method WriteQuery(queryPairs: seq<Pair>) returns (newQuery: string)
    ensures newQuery == JoinPairs(queryPairs)
  {
    newQuery := "";
    for i := 0 to |queryPairs|
      invariant newQuery == JoinPairs(queryPairs[..i])
      invariant i > 0 ==> newQuery != ""
    {
      ghost var before := newQuery;
      var pair := queryPairs[i];
      if newQuery != "" {
        newQuery := newQuery + "&";
      }
      newQuery := newQuery + pair.key + "=" + pair.value;
      assert newQuery == if before == "" then PairText(pair) else before + "&" + PairText(pair);
      JoinPairsSnoc(queryPairs[..i], pair);
      assert queryPairs[..i + 1] == queryPairs[..i] + [pair];
    }
    assert queryPairs[..|queryPairs|] == queryPairs;
  }

  /** `url_without_si`: `None` unless the URL is on YouTube and carries `si`. */
  method UrlWithoutSi(url: Url) returns (r: Option<Url>)
    ensures r.Some? <==> UrlBelongsToYoutube(url) && UrlHasSi(url)
    ensures r == WithoutSi(url)
  {
    if !UrlBelongsToYoutube(url) || !UrlHasSi(url) {
      return None;
    }
    var stripped := RemoveSiFromUrl(url);
    return Some(stripped);
  }

  /** Every kept pair is a pair of the input. */
  lemma {:induction false} KeepNonSiFromInput(ps: seq<Pair>)
    ensures forall i :: 0 <= i < |KeepNonSi(ps)| ==> KeepNonSi(ps)[i] in ps
  {
    if ps != [] {
      KeepNonSiFromInput(ps[1..]);
    }
  }

  /** When every pair of the query has key `si`, the stripped URL has no query at all. */
  lemma AllSiGivesNoQuery(u: Url)
    requires forall p :: p in QueryPairsOf(u) ==> p.key == SiKey
    ensures Stripped(u).query.None?
  {
    KeepNonSiFromInput(QueryPairsOf(u));
  }

  lemma {:induction false} KeepNonSiAppend(a: seq<Pair>, b: seq<Pair>)
    ensures KeepNonSi(a + b) == KeepNonSi(a) + KeepNonSi(b)
  {
    if a != [] {
      var h := if a[0].key == SiKey then [] else [a[0]];
      assert (a + b)[0] == a[0];
      assert (a + b)[1..] == a[1..] + b;
      KeepNonSiAppend(a[1..], b);
      calc {
        KeepNonSi(a + b);
        h + KeepNonSi(a[1..] + b);
        h + (KeepNonSi(a[1..]) + KeepNonSi(b));
        (h + KeepNonSi(a[1..])) + KeepNonSi(b);
      }
    } else {
      assert a + b == b;
    }
  }

  /** A joined text of encodable non-`si` pairs does not start with `si=`. */
  lemma JoinNotStartingWithSi(ps: seq<Pair>)
    requires AllEncodable(ps)
    requires forall i :: 0 <= i < |ps| ==> ps[i].key != SiKey
    ensures !StartsWith(JoinPairs(ps), "si=")
  {
    if ps != [] {
      assert Encodable(ps[0]);
      JoinPairsHead(ps);
      NotSiPrefixed(ps[0], JoinPairs(ps));
    }
  }

  /** Text that begins with `key=value`, for a key other than `si` and free of `=`, does not begin with `si=`. */
  lemma NotSiPrefixed(p: Pair, s: string)
    requires '=' !in p.key && p.key != SiKey
    requires StartsWith(s, PairText(p))
    ensures !StartsWith(s, "si=")
  {
    var k := p.key;
    assert s[..|PairText(p)|] == PairText(p);
    assert s[|k|] == '=';
    if |k| >= 3 {
      assert s[2] == k[2] != '=';
      assert |s| >= 3 ==> s[..3][2] == s[2];
    } else if |k| == 2 {
      assert s[..2] == k != "si";
      assert |s| >= 3 ==> s[..3][..2] == s[..2];
    } else {
      assert |s| >= 3 ==> s[..3][|k|] == '=';
    }
  }

  /** ... nor does it contain `&si=` anywhere: every `&` in it is a separator. */
  lemma {:induction false} JoinNotContainingAmpSi(ps: seq<Pair>)
    requires AllEncodable(ps)
    requires forall i :: 0 <= i < |ps| ==> ps[i].key != SiKey
    ensures !Contains(JoinPairs(ps), "&si=")
  {
    var j := JoinPairs(ps);
    if ps != [] && Contains(j, "&si=") {
      var i :| 0 <= i <= |j| && StartsWith(j[i..], "&si=");
      assert j[i] == '&';
      var head := PairText(ps[0]);
      assert Encodable(ps[0]);
      assert '&' !in head;
      if |ps| > 1 {
        var rest := JoinPairs(ps[1..]);
        assert j == head + "&" + rest;
        if i == |head| {
          assert j[i + 1..] == rest;
          StartsWithTail(j[i..], "&si=");
          assert j[i..][1..] == rest && "&si="[1..] == "si=";
          assert StartsWith(rest, "si=");
          JoinNotStartingWithSi(ps[1..]);
          assert false;
        } else if i > |head| {
          assert j[i..] == rest[i - |head| - 1..];
          assert Contains(rest, "&si=");
          JoinNotContainingAmpSi(ps[1..]);
          assert false;
        }
      }
    }
  }

  /**
    On a query written from encodable pairs, the raw-text test of
    `url_has_si` is exact: it holds iff some pair has key `si`.
  */
  lemma SiDetectedIffSiPair(ps: seq<Pair>)
    requires AllEncodable(ps)
    ensures (StartsWith(JoinPairs(ps), "si=") || Contains(JoinPairs(ps), "&si="))
        <==> exists i :: 0 <= i < |ps| && ps[i].key == SiKey
  {
    if exists i :: 0 <= i < |ps| && ps[i].key == SiKey {
      var i :| 0 <= i < |ps| && ps[i].key == SiKey;
      SiPairDetected(ps, i);
    } else {
      if ps != [] {
        JoinNotStartingWithSi(ps);
      }
      JoinNotContainingAmpSi(ps);
    }
  }

  /** A pair with key `si` at position `i` shows up as `si=` at the start or as `&si=`. */
  lemma {:induction false} SiPairDetected(ps: seq<Pair>, i: nat)
    requires i < |ps| && ps[i].key == SiKey
    ensures i == 0 ==> StartsWith(JoinPairs(ps), "si=")
    ensures i > 0 ==> Contains(JoinPairs(ps), "&si=")
  {
    if i == 0 {
      SiHeadDetected(ps);
    } else {
      var head := PairText(ps[0]);
      var rest := JoinPairs(ps[1..]);
      assert JoinPairs(ps) == head + "&" + rest;
      assert ps[1..][i - 1] == ps[i];
      if i == 1 {
        SiHeadDetected(ps[1..]);
        AmpSiDetected(head, rest);
      } else {
        SiPairDetected(ps[1..], i - 1);
        ContainsAfterAmp(head, rest, "&si=");
      }
    }
  }

  lemma SiHeadDetected(ps: seq<Pair>)
    requires ps != [] && ps[0].key == SiKey
    ensures StartsWith(JoinPairs(ps), "si=")
  {
    JoinPairsHead(ps);
    var head := PairText(ps[0]);
    assert head[..3] == "si=";
    assert JoinPairs(ps)[..3] == head[..3];
  }

  lemma AmpSiDetected(head: string, rest: string)
    requires StartsWith(rest, "si=")
    ensures Contains(head + "&" + rest, "&si=")
  {
    var j := head + "&" + rest;
    assert j[|head|..] == "&" + rest;
    assert ("&" + rest)[..4] == "&" + rest[..3];
  }

  lemma ContainsAfterAmp(head: string, rest: string, pattern: string)
    requires Contains(rest, pattern)
    ensures Contains(head + "&" + rest, pattern)
  {
    var k :| 0 <= k <= |rest| && StartsWith(rest[k..], pattern);
    assert (head + "&" + rest)[|head| + 1 + k..] == rest[k..];
  }

  /** Idempotence: stripping a URL that was just stripped does nothing. */
  lemma Idempotent(u: Url)
    requires WithoutSi(u).Some?
    ensures WithoutSi(WithoutSi(u).value) == None
  {
    var v := Stripped(u);
    var kept := KeepNonSi(QueryPairsOf(u));
    if kept != [] {
      QueryPairsEncodable(u.query.value);
      assert v.query == Some(JoinPairs(kept));
      JoinNotStartingWithSi(kept);
      JoinNotContainingAmpSi(kept);
    }
  }

  /** A query that passes `url_has_si` always holds a pair with key `si`. */
  lemma {:induction false} SiQueryDropsAPair(q: string)
    requires StartsWith(q, "si=") || Contains(q, "&si=")
    ensures |KeepNonSi(QueryPairs(q))| < |QueryPairs(q)|
    decreases |q|
  {
    var n := IndexOf(q, '&');
    var rest := if n < |q| then q[n + 1..] else [];
    var head := if n == 0 then [] else [ParsePair(q[..n])];
    var tail := QueryPairs(rest);
    assert QueryPairs(q) == head + tail;
    if StartsWith(q, "si=") {
      FirstSegmentIsSi(q);
      DropsAPair(head, tail);
    } else {
      var i :| 0 <= i <= |q| && StartsWith(q[i..], "&si=");
      LaterSegmentIsSi(q, i);
      SiQueryDropsAPair(rest);
      DropsAPair(head, tail);
    }
  }

  /** A pair dropped from either part is dropped from the whole. */
  lemma DropsAPair(head: seq<Pair>, tail: seq<Pair>)
    requires |KeepNonSi(head)| < |head| || |KeepNonSi(tail)| < |tail|
    ensures |KeepNonSi(head + tail)| < |head + tail|
  {
    KeepNonSiAppend(head, tail);
  }

  /** A query starting with `si=` has `si` as the key of its first segment. */
  lemma FirstSegmentIsSi(q: string)
    requires StartsWith(q, "si=")
    ensures 3 <= IndexOf(q, '&')
    ensures ParsePair(q[..IndexOf(q, '&')]).key == SiKey
  {
    var n := IndexOf(q, '&');
    assert q[..3] == "si=";
    assert q[0] == 's' && q[1] == 'i' && q[2] == '=';
    assert n >= 3;
    var seg := q[..n];
    assert seg == "si" + ['='] + seg[3..];
    IndexOfAfterPrefix("si", seg[3..], '=');
  }

  /** An `&si=` in the query lies in or just before the part after the first `&`. */
  lemma LaterSegmentIsSi(q: string, i: nat)
    requires i <= |q| && StartsWith(q[i..], "&si=")
    ensures IndexOf(q, '&') < |q|
    ensures StartsWith(q[IndexOf(q, '&') + 1..], "si=") || Contains(q[IndexOf(q, '&') + 1..], "&si=")
  {
    var n := IndexOf(q, '&');
    assert q[i..][..4] == "&si=";
    assert q[i] == '&';
    assert n <= i;
    var rest := q[n + 1..];
    if i == n {
      StartsWithTail(q[i..], "&si=");
      assert q[i..][1..] == rest && "&si="[1..] == "si=";
    } else {
      assert rest[i - n - 1..] == q[i..];
    }
  }

  /** Whenever the stripper answers, it has removed at least one pair. */
  lemma StrippingRemovesAPair(u: Url)
    requires WithoutSi(u).Some?
    ensures |QueryPairsOf(WithoutSi(u).value)| < |QueryPairsOf(u)|
    ensures WithoutSi(u).value != u
  {
    StrippedPairs(u);
    SiQueryDropsAPair(u.query.value);
  }
}
