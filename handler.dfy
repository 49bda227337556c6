/**
  The `remove_si` message handler of src/bot/remove_si.rs (its older copy in
  src/bot.rs behaves the same): extract the message's URLs, keep the YouTube
  ones that carried `si` with `si` removed, and reply with a header and one
  line per link, sent through the retrying sender.
*/
module Handler {
  import opened Wrappers
  import opened UrlModel
  import opened RemoveSi
  import opened Telegram
  import opened Extract
  import opened Send

  const SingularLine: string := "The link without tracking:"
  const PluralLine: string := "The links without tracking:"

  /** Why the handler failed. */
  datatype HandlerError = NoChatId | SendFailed(error: RequestError)

  /** The reply the handler sends: to which chat, in reply to which message, with what text. */
  datatype Reply = Reply(chat: int, replyTo: int, text: string)

  /** `filter_map(url_without_si)`: the stripped copies of the URLs that carried `si`, in order. */
  function CleanUrls(urls: seq<Url>): (r: seq<Url>)
    ensures |r| <= |urls|
    ensures forall i :: 0 <= i < |r| ==>
              exists j :: 0 <= j < |urls| && WithoutSi(urls[j]) == Some(r[i])
  {
    if urls == [] then []
    else
      var rest := CleanUrls(urls[1..]);
      assert forall i :: 0 <= i < |rest| ==>
               exists j :: 0 <= j < |urls| && WithoutSi(urls[j]) == Some(rest[i]) by {
        forall i | 0 <= i < |rest|
          ensures exists j :: 0 <= j < |urls| && WithoutSi(urls[j]) == Some(rest[i])
        {
          var j :| 0 <= j < |urls[1..]| && WithoutSi(urls[1..][j]) == Some(rest[i]);
          assert urls[1..][j] == urls[j + 1];
        }
      }
      match WithoutSi(urls[0])
      case Some(u) => [u] + rest
      case None => rest
  }

  /** The URLs the handler replies with. */
  function Survivors(parse: Parser, m: Message): seq<Url> {
    CleanUrls(MessageUrls(parse, m))
  }

  /** The first line of the reply: plural as soon as a second link follows the first. */
  function HeaderLine(count: nat): (r: string)
    ensures r == SingularLine || r == PluralLine
    ensures r == PluralLine <==> count >= 2
  {
    if count >= 2 then PluralLine else SingularLine
  }

  /** Each URL's serialisation followed by a newline. */
  function UrlLines(urls: seq<Url>): string {
    if urls == [] then "" else AsStr(urls[0]) + "\n" + UrlLines(urls[1..])
  }

  /** The reply text, or nothing when no URL survived. */
  function ComposeReply(urls: seq<Url>): (r: Option<string>)
    ensures r.None? <==> urls == []
  {
    if urls == [] then None else Some(HeaderLine(|urls|) + "\n" + UrlLines(urls))
  }

  /** `str::lines` without `\r` handling: the text cut at each newline, a final newline ending the last line. */
  function Lines(s: string): seq<string>
    decreases |s|
  {
    if s == [] then []
    else
      var n := IndexOf(s, '\n');
      if n == |s| then [s] else [s[..n]] + Lines(s[n + 1..])
  }

  /** The building loop of the handler: the header, then each URL and a newline. */
  method WriteResponse(urls: seq<Url>) returns (response: string)
    requires urls != []
    ensures Some(response) == ComposeReply(urls)
  {
    response := HeaderLine(|urls|) + "\n";
    response := PushUrlLines(response, urls);
  }

  /** The `for` loop: each URL's serialisation and a newline, pushed onto `response`. */
  method PushUrlLines(start: string, urls: seq<Url>) returns (response: string)
    ensures response == start + UrlLines(urls)
  {
    response := start;
    for i := 0 to |urls|
      invariant response == start + UrlLines(urls[..i])
    {
      response := response + AsStr(urls[i]);
      response := response + "\n";
      UrlLinesSnoc(urls[..i], urls[i]);
      assert urls[..i + 1] == urls[..i] + [urls[i]];
    }
    assert urls[..|urls|] == urls;
  }

  /**
    `remove_si`: no chat id is an error before anything is sent; no surviving
    URL ends the handler with nothing sent; otherwise the reply goes to the
    message's chat, in reply to it, and the sender's error becomes the handler's.
  */
  method RemoveSiHandler(parse: Parser, message: Message, outcomes: Outcomes)
    returns (result: Result<(), HandlerError>, reply: Option<Reply>, attempts: nat, sleeps: seq<nat>)
    ensures message.chatId.None? ==>
              result == Err(NoChatId) && reply == None && attempts == 0 && sleeps == []
    ensures message.chatId.Some? && Survivors(parse, message) == [] ==>
              result == Ok(()) && reply == None && attempts == 0 && sleeps == []
    ensures message.chatId.Some? && Survivors(parse, message) != [] ==>
              reply == Some(Reply(message.chatId.value, message.id, ComposeReply(Survivors(parse, message)).value))
    ensures message.chatId.Some? && Survivors(parse, message) != [] ==>
              var run := Retrying(outcomes);
              (attempts == run.attempts && sleeps == run.sleeps &&
               result == if run.result.Ok? then Ok(()) else Err(SendFailed(run.result.error)))
  {
    attempts, sleeps := 0, [];
    reply := None;
    if message.chatId.None? {
      result := Err(NoChatId);
      return;
    }
    var chatId := message.chatId.value;
    var filtered := CleanUrls(MessageUrls(parse, message));
    if filtered == [] {
      result := Ok(());
      return;
    }
    var response := WriteResponse(filtered);
    reply := Some(Reply(chatId, message.id, response));
    var sendResult;
    sendResult, attempts, sleeps := SendMessageRetrying(outcomes);
    if sendResult.Err? {
      result := Err(SendFailed(sendResult.error));
      return;
    }
    result := Ok(());
  }

  /** Stripping distributes over a split of the URL list, so extraction order is kept. */
  lemma {:induction false} CleanUrlsAppend(a: seq<Url>, b: seq<Url>)
    ensures CleanUrls(a + b) == CleanUrls(a) + CleanUrls(b)
  {
    if a == [] {
      assert a + b == b;
    } else {
      assert (a + b)[0] == a[0];
      assert (a + b)[1..] == a[1..] + b;
      CleanUrlsAppend(a[1..], b);
    }
  }

  /** Every link in a reply is on a YouTube domain and no longer carries `si`. */
  lemma CleanUrlsCarryNoSi(urls: seq<Url>)
    ensures forall i :: 0 <= i < |CleanUrls(urls)| ==>
              UrlBelongsToYoutube(CleanUrls(urls)[i]) && !UrlHasSi(CleanUrls(urls)[i])
  {
    var r := CleanUrls(urls);
    forall i | 0 <= i < |r|
      ensures UrlBelongsToYoutube(r[i]) && !UrlHasSi(r[i])
    {
      var j :| 0 <= j < |urls| && WithoutSi(urls[j]) == Some(r[i]);
      Idempotent(urls[j]);
      assert r[i].host == urls[j].host;
    }
  }

  /** A URL that is not stripped leaves no trace in the reply. */
  lemma {:induction false} DroppedUrl(urls: seq<Url>, k: nat)
    requires k < |urls| && WithoutSi(urls[k]) == None
    ensures CleanUrls(urls) == CleanUrls(urls[..k]) + CleanUrls(urls[k + 1..])
  {
    assert urls == urls[..k] + ([urls[k]] + urls[k + 1..]);
    CleanUrlsAppend(urls[..k], [urls[k]] + urls[k + 1..]);
    assert ([urls[k]] + urls[k + 1..])[1..] == urls[k + 1..];
  }

  /** Every URL the stripper accepts has its stripped copy among the links. */
  lemma {:induction false} CleanUrlsKeepAccepted(urls: seq<Url>)
    ensures forall j :: 0 <= j < |urls| && WithoutSi(urls[j]).Some? ==> WithoutSi(urls[j]).value in CleanUrls(urls)
  {
    if urls != [] {
      CleanUrlsKeepAccepted(urls[1..]);
      forall j | 1 <= j < |urls| && WithoutSi(urls[j]).Some?
        ensures WithoutSi(urls[j]).value in CleanUrls(urls)
      {
        assert urls[1..][j - 1] == urls[j];
      }
    }
  }

  /** A URL the stripper accepts reaches the reply once, as its stripped copy, between the others in order. */
  lemma KeptUrl(before: seq<Url>, u: Url, after: seq<Url>)
    requires WithoutSi(u).Some?
    ensures CleanUrls(before + [u] + after) == CleanUrls(before) + [WithoutSi(u).value] + CleanUrls(after)
  {
    CleanUrlsAppend(before, [u] + after);
    KeptHead(u, after);
    Regroup(before, [u], after);
    Regroup(CleanUrls(before), [WithoutSi(u).value], CleanUrls(after));
  }

  lemma KeptHead(u: Url, rest: seq<Url>)
    requires WithoutSi(u).Some?
    ensures CleanUrls([u] + rest) == [WithoutSi(u).value] + CleanUrls(rest)
  {
    assert ([u] + rest)[0] == u && ([u] + rest)[1..] == rest;
  }

  /**
    Associativity of `+`, proved apart from `KeptUrl`: proved in place, among
    the unfoldings of `CleanUrls`, it is far more expensive.
  */
  lemma Regroup(a: seq<Url>, b: seq<Url>, c: seq<Url>)
    ensures a + (b + c) == a + b + c
  {
  }

  lemma {:induction false} UrlLinesSnoc(urls: seq<Url>, u: Url)
    ensures UrlLines(urls + [u]) == UrlLines(urls) + AsStr(u) + "\n"
  {
    if urls == [] {
      assert [u][1..] == [];
    } else {
      assert (urls + [u])[1..] == urls[1..] + [u];
      UrlLinesSnoc(urls[1..], u);
    }
  }

  /** A line without a newline, then a newline, reads back as that line first. */
  lemma LinesOfLine(a: string, b: string)
    requires '\n' !in a
    ensures Lines(a + "\n" + b) == [a] + Lines(b)
  {
    var s := a + "\n" + b;
    IndexOfAfterPrefix(a, b, '\n');
    assert s[..|a|] == a;
    assert s[|a| + 1..] == b;
  }

  /** The URL lines read back, line by line, as the URLs' serialisations. */
  lemma {:induction false} UrlLinesReadBack(urls: seq<Url>)
    requires forall i :: 0 <= i < |urls| ==> '\n' !in AsStr(urls[i])
    ensures |Lines(UrlLines(urls))| == |urls|
    ensures forall i :: 0 <= i < |urls| ==> Lines(UrlLines(urls))[i] == AsStr(urls[i])
  {
    if urls != [] {
      var rest := urls[1..];
      LinesOfLine(AsStr(urls[0]), UrlLines(rest));
      UrlLinesReadBack(rest);
      var lines := Lines(UrlLines(urls));
      var restLines := Lines(UrlLines(rest));
      assert UrlLines(urls) == AsStr(urls[0]) + "\n" + UrlLines(rest);
      assert lines == [AsStr(urls[0])] + restLines;
      forall i | 0 < i < |urls|
        ensures lines[i] == AsStr(urls[i])
      {
        assert lines[i] == restLines[i - 1];
        assert rest[i - 1] == urls[i];
      }
    }
  }

  /**
    The reply reads as the header line, singular for one link and plural
    for more, followed by one line per surviving URL in order.
  */
  lemma ReplyReadsBack(urls: seq<Url>)
    requires urls != []
    requires forall i :: 0 <= i < |urls| ==> '\n' !in AsStr(urls[i])
    ensures var lines := Lines(ComposeReply(urls).value);
            (|lines| == |urls| + 1 &&
             lines[0] == (if |urls| == 1 then SingularLine else PluralLine) &&
             forall i :: 0 <= i < |urls| ==> lines[i + 1] == AsStr(urls[i]))
  {
    assert '\n' !in HeaderLine(|urls|);
    LinesOfLine(HeaderLine(|urls|), UrlLines(urls));
    UrlLinesReadBack(urls);
  }

  /** The handler's reply, read back: the header, then the stripped YouTube links and nothing else. */
  lemma ReplyListsCleanLinks(parse: Parser, m: Message)
    requires Survivors(parse, m) != []
    requires forall i :: 0 <= i < |Survivors(parse, m)| ==> '\n' !in AsStr(Survivors(parse, m)[i])
    ensures var urls := Survivors(parse, m);
            var lines := Lines(ComposeReply(urls).value);
            (|lines| == |urls| + 1 &&
             forall i :: 0 <= i < |urls| ==>
               lines[i + 1] == AsStr(urls[i]) && UrlBelongsToYoutube(urls[i]) && !UrlHasSi(urls[i]))
  {
    ReplyReadsBack(Survivors(parse, m));
    CleanUrlsCarryNoSi(MessageUrls(parse, m));
  }
}
