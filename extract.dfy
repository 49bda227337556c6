/**
  URL extraction from a message: `try_parse_url` and `message_url_iterator`
  of src/bot/remove_si.rs (the same functions appear in src/bot.rs).
*/
module Extract {
  import opened Wrappers
  import opened UrlModel
  import opened Telegram

  /** The error kinds of the url crate's parser. */
  datatype ParseError =
    | RelativeUrlWithoutBase
    | EmptyHost
    | IdnaError
    | InvalidPort
    | InvalidIpv4Address
    | InvalidIpv6Address
    | InvalidDomainCharacter
    | RelativeUrlWithCannotBeABaseBase
    | SetHostOnCannotBeABaseUrl
    | Overflow

  /** `Url::parse` belongs to the url crate; the model takes it as a parameter. */
  type Parser = string -> Result<Url, ParseError>

  const HttpsPrefix: string := "https://"

  /**
    `try_parse_url`: the direct parse when it succeeds; on a missing scheme
    one more parse with `https://` in front; `None` on any other error.
  */
  function TryParseUrl(parse: Parser, s: string): (r: Option<Url>)
    ensures r.Some? <==> parse(s).Ok? || (parse(s) == Err(RelativeUrlWithoutBase) && parse(HttpsPrefix + s).Ok?)
    ensures parse(s).Ok? ==> r == Some(parse(s).value)
    ensures parse(s).Err? && r.Some? ==> r == Some(parse(HttpsPrefix + s).value)
  {
    match parse(s)
    case Ok(u) => Some(u)
    case Err(RelativeUrlWithoutBase) => parse(HttpsPrefix + s).ToOption()
    case Err(_) => None
  }

  /** `str::get(offset..offset + length)`: `None` when the range runs past the text. */
  function Slice(text: string, offset: nat, length: nat): (r: Option<string>)
    ensures r.Some? <==> offset + length <= |text|
    ensures r.Some? ==> |r.value| == length && StartsWith(text[offset..], r.value)
  {
    if offset + length <= |text| then Some(text[offset..offset + length]) else None
  }

  /** The URL one entity contributes, if any. */
  function EntityUrl(parse: Parser, text: string, e: Entity): (r: Option<Url>)
    ensures e.kind.TextLink? ==> r == Some(e.kind.url)
    ensures e.kind.OtherKind? ==> r == None
    ensures e.kind.UrlSpan? && e.offset + e.length > |text| ==> r == None
    ensures e.kind.UrlSpan? && e.offset + e.length <= |text| ==>
              r == TryParseUrl(parse, text[e.offset..e.offset + e.length])
  {
    match e.kind
    case UrlSpan =>
      (match Slice(text, e.offset, e.length)
       case Some(s) => TryParseUrl(parse, s)
       case None => None)
    case TextLink(u) => Some(u)
    case OtherKind(_) => None
  }

  /** The `filter_map` over the entities: their URLs in entity order. */
  function UrlsOfEntities(parse: Parser, text: string, es: seq<Entity>): (r: seq<Url>)
    ensures |r| <= |es|
    ensures forall i :: 0 <= i < |r| ==>
              exists j :: 0 <= j < |es| && EntityUrl(parse, text, es[j]) == Some(r[i])
    ensures forall j :: 0 <= j < |es| && EntityUrl(parse, text, es[j]).Some? ==>
              EntityUrl(parse, text, es[j]).value in r
  {
    if es == [] then []
    else
      var rest := UrlsOfEntities(parse, text, es[1..]);
      assert forall j :: 1 <= j < |es| && EntityUrl(parse, text, es[j]).Some? ==>
               EntityUrl(parse, text, es[j]).value in rest by {
        forall j | 1 <= j < |es| && EntityUrl(parse, text, es[j]).Some?
          ensures EntityUrl(parse, text, es[j]).value in rest
        {
          assert es[1..][j - 1] == es[j];
        }
      }
      assert forall i :: 0 <= i < |rest| ==>
               exists j :: 0 <= j < |es| && EntityUrl(parse, text, es[j]) == Some(rest[i]) by {
        forall i | 0 <= i < |rest|
          ensures exists j :: 0 <= j < |es| && EntityUrl(parse, text, es[j]) == Some(rest[i])
        {
          var j :| 0 <= j < |es[1..]| && EntityUrl(parse, text, es[1..][j]) == Some(rest[i]);
          assert es[1..][j] == es[j + 1];
        }
      }
      match EntityUrl(parse, text, es[0])
      case Some(u) => [u] + rest
      case None => rest
  }

  /** `message_url_iterator`: nothing when the message has no text or no entities. */
  function MessageUrls(parse: Parser, m: Message): (r: seq<Url>)
    ensures m.text.None? || m.entities.None? ==> r == []
    ensures m.text.Some? && m.entities.Some? ==> |r| <= |m.entities.value|
  {
    if m.text.Some? && m.entities.Some? then UrlsOfEntities(parse, m.text.value, m.entities.value)
    else []
  }

  /** Extraction distributes over a split of the entity list, so entity order is kept. */
  lemma {:induction false} UrlsOfEntitiesAppend(parse: Parser, text: string, a: seq<Entity>, b: seq<Entity>)
    ensures UrlsOfEntities(parse, text, a + b) == UrlsOfEntities(parse, text, a) + UrlsOfEntities(parse, text, b)
  {
    if a == [] {
      assert a + b == b;
    } else {
      assert (a + b)[0] == a[0];
      assert (a + b)[1..] == a[1..] + b;
      UrlsOfEntitiesAppend(parse, text, a[1..], b);
    }
  }

  /**
    An entity that yields nothing (another kind, an out-of-range slice, a
    failed parse) is skipped; the entities before and after it still count.
  */
  lemma SkippedEntity(parse: Parser, text: string, es: seq<Entity>, i: nat)
    requires i < |es| && EntityUrl(parse, text, es[i]) == None
    ensures UrlsOfEntities(parse, text, es)
         == UrlsOfEntities(parse, text, es[..i]) + UrlsOfEntities(parse, text, es[i + 1..])
  {
    assert es == es[..i] + ([es[i]] + es[i + 1..]);
    UrlsOfEntitiesAppend(parse, text, es[..i], [es[i]] + es[i + 1..]);
    UrlsOfEntitiesAppend(parse, text, [es[i]], es[i + 1..]);
    assert ([es[i]] + es[i + 1..])[0] == es[i];
    assert [es[i]][1..] == [];
  }

  /** An entity that yields a URL contributes it once, between the URLs of the entities before and after it. */
  lemma KeptEntity(parse: Parser, text: string, es: seq<Entity>, i: nat)
    requires i < |es| && EntityUrl(parse, text, es[i]).Some?
    ensures UrlsOfEntities(parse, text, es)
         == UrlsOfEntities(parse, text, es[..i]) + [EntityUrl(parse, text, es[i]).value]
            + UrlsOfEntities(parse, text, es[i + 1..])
  {
    assert es == es[..i] + ([es[i]] + es[i + 1..]);
    UrlsOfEntitiesAppend(parse, text, es[..i], [es[i]] + es[i + 1..]);
    UrlsOfEntitiesAppend(parse, text, [es[i]], es[i + 1..]);
    assert ([es[i]] + es[i + 1..])[0] == es[i];
    assert [es[i]][1..] == [];
  }

  /** A message made only of text links yields exactly their URLs, in order. */
  lemma {:induction false} TextLinksVerbatim(parse: Parser, text: string, es: seq<Entity>)
    requires forall i :: 0 <= i < |es| ==> es[i].kind.TextLink?
    ensures UrlsOfEntities(parse, text, es) == seq(|es|, i requires 0 <= i < |es| => es[i].kind.url)
  {
    if es != [] {
      TextLinksVerbatim(parse, text, es[1..]);
      var urls := seq(|es|, i requires 0 <= i < |es| => es[i].kind.url);
      assert urls == [es[0].kind.url] + seq(|es[1..]|, i requires 0 <= i < |es[1..]| => es[1..][i].kind.url);
    }
  }
}
