/**
 How a download ends, told from the URLs requested and the last answer: every redirect that the policy
 allows is followed, and each way to stop is explained by what stopped it.
 */
module DownloadLaws {
  import opened Basics
  import opened Text
  import opened Download

  /** The last request was answered with a redirect: why it was not followed. */
  ghost predicate StopsAtRedirect(site: Site, limit: int, requests: seq<string>, response: Response, result: Result<Bytes, Error>)
    requires requests != [] && response.Response?
  {
    var url := requests[|requests| - 1];
    var candidate := site.join(url, response.location);
    if response.location == "" || |requests| > limit then result == Err(RedirectLimit)
    else if site.inspect(candidate).None? then result == Err(Refused)
    else if site.inspect(url).Some? && site.inspect(url).value.scheme == "https" && site.inspect(candidate).value.scheme != "https"
    then result == Err(Downgrade)
    else candidate in requests && result == Err(RedirectLoop)
  }

  /** The last request was answered otherwise: what came of it. */
  ghost predicate EndsAtAnswer(response: Response, limits: Limits, os: System, result: Result<Bytes, Error>)
    requires response.Response?
  {
    var body := Flatten(response.fragments);
    var header := response.contentLength;
    if response.status < 200 || response.status >= 300 then result == Err(BadStatus)
    else if !response.identityEncoding then result == Err(BadEncoding)
    else if header.Some? && !IsDigits(header.value) then result == Err(BadLength)
    else if header.Some? && Number(header.value) > limits.maxBytes then result == Err(TooLarge)
    else if !(os.closes && os.chmods) then result == Err(PrepareFailed)
    else if Arrived(response, limits.maxBytes) then result == Ok(body)
    else if !os.unlinks then result == Err(UnlinkFailed)
    else result == Err(if |body| > limits.maxBytes then TooLarge else if response.breaks then TransportError else LengthMismatch)
  }

  /** Why the loop ended where it did. */
  ghost predicate Ends(site: Site, limits: Limits, source: string, os: System, requests: seq<string>, result: Result<Bytes, Error>) {
    if requests == [] then
      result == Err(if limits.maxRedirects < 0 then Exhausted else Refused)
      && (limits.maxRedirects >= 0 ==> site.inspect(source).None?)
    else
      var response := site.respond(|requests| - 1, requests[|requests| - 1]);
      if response.ConnectionFailed? then result == Err(TransportError)
      else if response.status in {301, 302, 303, 307, 308} then
        StopsAtRedirect(site, limits.maxRedirects, requests, response, result)
      else EndsAtAnswer(response, limits, os, result)
  }

  lemma {:induction false} ReceiveEnds(response: Response, limits: Limits, os: System)
    requires response.Response?
    ensures EndsAtAnswer(response, limits, os, Receive(response, limits.maxBytes, os))
  {}

  lemma {:induction false} FollowEnds(site: Site, limits: Limits, url: string, visited: seq<string>, left: nat, os: System)
    requires left > 0 && |visited| + left == limits.maxRedirects + 1
    requires site.inspect(url).Some? && url !in visited
    ensures var (result, requests) := Follow(site, limits, url, visited, left, os);
            requests != [] && Ends(site, limits, url, os, requests, result)
    decreases left
  {
    hide EndsAtAnswer, Receive;
    var response, requested := site.respond(|visited|, url), visited + [url];
    assert requested[|requested| - 1] == url && |requested| - 1 == |visited|;
    if response.Response? && IsRedirect(response.status) {
      var next := Redirect(site, url, site.inspect(url).value, response, left == 1);
      if next.Ok? && next.value !in requested { FollowEnds(site, limits, next.value, requested, left - 1, os); }
    } else if response.Response? {
      ReceiveEnds(response, limits, os);
    }
  }

  /**
   * Every end has its reason. In particular a redirect with a location, within the limit, to an approved
   * and fresh URL that is no downgrade never ends the download: it is requested next.
   */
  lemma {:induction false} EndsAreExplained(site: Site, limits: Limits, source: string, os: System)
    ensures var (result, requests) := Follow(site, limits, source, [], Max(limits.maxRedirects + 1, 0), os);
            Ends(site, limits, source, os, requests, result)
  {
    if limits.maxRedirects >= 0 && site.inspect(source).Some? {
      FollowEnds(site, limits, source, [], limits.maxRedirects + 1, os);
    }
  }
}
