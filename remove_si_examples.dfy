/**
  The unit tests of src/remove_si.rs, restated as lemmas about `WithoutSi`.
  A test's query text is written as the pairs it is made of (`Query`), so that
  `si=KuczOyCr1s5_Ou0r&t=173` reads `Query([Pair("si", "KuczOyCr1s5_Ou0r"), Pair("t", "173")])`.
*/
module RemoveSiExamples {
  import opened Wrappers
  import opened UrlModel
  import opened RemoveSi

  /** An `https` URL with a domain host and no fragment, as the tests write them. */
  function HttpsUrl(domain: string, path: string, query: Option<string>): Url {
    Url("https", Some(Domain(domain)), path, query, None)
  }

  /** The query text `k1=v1&k2=v2...`. */
  function Query(ps: seq<Pair>): Option<string> {
    Some(JoinPairs(ps))
  }

  lemma NonYoutubeUrlsGiveNone()
    ensures WithoutSi(HttpsUrl("google.com", "/hii", None)) == None
    ensures WithoutSi(HttpsUrl("example.org", "/meow", Query([Pair("si", "23")]))) == None
    ensures WithoutSi(HttpsUrl("you.tube", "/watch", Query([Pair("v", "XqC")]))) == None
  {
  }

  /** A URL whose query was written from pairs none of which is `si` is left alone. */
  lemma NoSiPairGivesNone(domain: string, path: string, ps: seq<Pair>)
    requires AllEncodable(ps)
    requires forall i :: 0 <= i < |ps| ==> ps[i].key != SiKey
    ensures WithoutSi(HttpsUrl(domain, path, Query(ps))) == None
  {
    SiDetectedIffSiPair(ps);
  }

  lemma UrlsWithoutSiGiveNone()
    ensures WithoutSi(HttpsUrl("www.youtube.com", "/watch", Query([Pair("v", "nFuAJl46w_w")]))) == None
    ensures WithoutSi(HttpsUrl("youtu.be", "/0FwBHrVuMJc", None)) == None
  {
    NoSiPairGivesNone("www.youtube.com", "/watch", [Pair("v", "nFuAJl46w_w")]);
  }

  /** `si` inside a value is not the `si` key. */
  lemma SiInsideValueGivesNone()
    ensures WithoutSi(HttpsUrl("www.youtube.com", "/watch",
                               Query([Pair("v", "0FwBHrVsiMJc"), Pair("t", "229s")]))) == None
  {
    NoSiPairGivesNone("www.youtube.com", "/watch", [Pair("v", "0FwBHrVsiMJc"), Pair("t", "229s")]);
  }

  /** The near-miss key `psi`. */
  lemma PsiGivesNone()
    ensures WithoutSi(HttpsUrl("www.youtube.com", "/watch", Query([Pair("psi", "nFuAJl46w_w")]))) == None
  {
    NoSiPairGivesNone("www.youtube.com", "/watch", [Pair("psi", "nFuAJl46w_w")]);
  }

  /** The near-miss key `sip`. */
  lemma SipGivesNone()
    ensures WithoutSi(HttpsUrl("www.youtube.com", "/watch",
                               Query([Pair("v", "nFuAJl46w_w"), Pair("sip", "jsdhfjhbf")]))) == None
  {
    NoSiPairGivesNone("www.youtube.com", "/watch", [Pair("v", "nFuAJl46w_w"), Pair("sip", "jsdhfjhbf")]);
  }

  /** Stripping a URL whose query was written from `ps` leaves the non-`si` pairs of `ps`. */
  lemma WithoutSiOfQuery(domain: string, path: string, ps: seq<Pair>)
    requires domain in YoutubeDomains && AllEncodable(ps)
    requires exists i :: 0 <= i < |ps| && ps[i].key == SiKey
    ensures WithoutSi(HttpsUrl(domain, path, Query(ps)))
         == Some(HttpsUrl(domain, path, if KeepNonSi(ps) == [] then None else Query(KeepNonSi(ps))))
  {
    var u := HttpsUrl(domain, path, Query(ps));
    SiDetectedIffSiPair(ps);
    assert UrlBelongsToYoutube(u) && UrlHasSi(u);
    QueryPairsOfJoin(ps);
    assert QueryPairsOf(u) == ps;
    assert WithoutSi(u) == Some(Stripped(u));
  }

  /** A lone `si` is removed together with the `?`. */
  lemma RemovingLoneSi()
    ensures WithoutSi(HttpsUrl("youtu.be", "/0FwBHrVuMJc", Query([Pair("si", "drdl-LZXYJzZPIce")])))
         == Some(HttpsUrl("youtu.be", "/0FwBHrVuMJc", None))
  {
    var ps := [Pair("si", "drdl-LZXYJzZPIce")];
    assert AllEncodable(ps) && ps[0].key == SiKey;
    WithoutSiOfQuery("youtu.be", "/0FwBHrVuMJc", ps);
  }

  /** A trailing `si` is removed, the `v` before it is kept. */
  lemma RemovingTrailingSi()
    ensures WithoutSi(HttpsUrl("www.youtube.com", "/watch",
                               Query([Pair("v", "3foYyPDp0Ho"), Pair("si", "some_fake_si_i_made_up")])))
         == Some(HttpsUrl("www.youtube.com", "/watch", Query([Pair("v", "3foYyPDp0Ho")])))
  {
    var ps := [Pair("v", "3foYyPDp0Ho"), Pair("si", "some_fake_si_i_made_up")];
    assert AllEncodable(ps) && ps[1].key == SiKey;
    assert KeepNonSi(ps) == [Pair("v", "3foYyPDp0Ho")];
    WithoutSiOfQuery("www.youtube.com", "/watch", ps);
  }

  /** Removing `si` from the front keeps the `t=173` after it. */
  lemma RemovingSiFromTheMiddle()
    ensures WithoutSi(HttpsUrl("youtu.be", "/FiwMTquj-rQ",
                               Query([Pair("si", "KuczOyCr1s5_Ou0r"), Pair("t", "173")])))
         == Some(HttpsUrl("youtu.be", "/FiwMTquj-rQ", Query([Pair("t", "173")])))
  {
    var ps := [Pair("si", "KuczOyCr1s5_Ou0r"), Pair("t", "173")];
    assert AllEncodable(ps) && ps[0].key == SiKey;
    assert KeepNonSi(ps) == [Pair("t", "173")];
    WithoutSiOfQuery("youtu.be", "/FiwMTquj-rQ", ps);
  }

  /** Every `si` goes, not only the first. */
  lemma RemovingEverySi()
    ensures WithoutSi(HttpsUrl("youtu.be", "/x",
                               Query([Pair("si", "a"), Pair("t", "1"), Pair("si", "b")])))
         == Some(HttpsUrl("youtu.be", "/x", Query([Pair("t", "1")])))
  {
    var ps := [Pair("si", "a"), Pair("t", "1"), Pair("si", "b")];
    assert AllEncodable(ps) && ps[0].key == SiKey;
    assert KeepNonSi(ps) == [Pair("t", "1")];
    WithoutSiOfQuery("youtu.be", "/x", ps);
  }
}
