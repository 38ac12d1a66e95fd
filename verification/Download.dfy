/**
 Following vetted redirects and downloading a bounded body into a temporary file.

 The URL policy, URL joining and the server are arbitrary functions; the server may answer each hop
 differently, and a body may break off. `Follow` says what the redirect loop does as a function of
 the hops left; the method with the real loop and file system is proved equal to it.
 */
module Download {
  import opened Basics
  import opened Text

  datatype Url = Url(scheme: string, path: string)

  /** `breaks` tells whether the connection fails (or the caller cancels) after the listed fragments. */
  datatype Response = ConnectionFailed | Response(
    status: int,
    location: string,
    identityEncoding: bool,
    contentLength: Option<string>,
    fragments: seq<Bytes>,
    breaks: bool)

  datatype Error =
    | Refused | RedirectLoop | RedirectLimit | Downgrade | Exhausted
    | TransportError | BadStatus | BadEncoding | BadLength | TooLarge | LengthMismatch | PrepareFailed | UnlinkFailed

  datatype Site = Site(
    inspect: string -> Option<Url>,
    join: (string, string) -> string,
    respond: (nat, string) -> Response)

  /** Which system calls on the temporary file work: closing its descriptor, setting its mode, removing it. */
  datatype System = System(closes: bool, chmods: bool, unlinks: bool) {
    predicate Prepares() { closes && chmods }
  }

  const WORKING := System(true, true, true)

  datatype Limits = Limits(maxBytes: nat, maxRedirects: int)

  // ---------------------------------------------------------------- the header

  function ContentLength(header: Option<string>, maxBytes: nat): Result<Option<nat>, Error> {
    if header.None? then Ok(None)
    else if !IsDigits(header.value) then Err(BadLength)
    else if Number(header.value) > maxBytes then Err(TooLarge)
    else Ok(Some(Number(header.value)))
  }

  // ---------------------------------------------------------------- the body

  function Body(response: Response, declared: Option<nat>, maxBytes: nat): Result<Bytes, Error>
    requires response.Response?
  {
    var content := Flatten(response.fragments);
    if |content| > maxBytes then Err(TooLarge)
    else if response.breaks then Err(TransportError)
    else if declared.Some? && declared.value != |content| then Err(LengthMismatch)
    else Ok(content)
  }

  /** A failed body is followed by removing the file, whose own failure is then the one reported. */
  function Cleaned(body: Result<Bytes, Error>, os: System): Result<Bytes, Error> {
    if body.Err? && !os.unlinks then Err(UnlinkFailed) else body
  }

  /** What fragments leave in the file: they are written until the first that goes beyond the limit. */
  function Kept(fragments: seq<Bytes>, maxBytes: nat): Bytes {
    if fragments == [] || |Flatten(fragments)| <= maxBytes then Flatten(fragments)
    else Kept(fragments[..|fragments| - 1], maxBytes)
  }

  predicate IsRedirect(status: int) {
    status in {301, 302, 303, 307, 308}
  }

  /** What a final, non-redirect response leads to. */
  function Receive(response: Response, maxBytes: nat, os: System): Result<Bytes, Error>
    requires response.Response?
  {
    if response.status < 200 || response.status >= 300 then Err(BadStatus)
    else if !response.identityEncoding then Err(BadEncoding)
    else match ContentLength(response.contentLength, maxBytes)
      case Err(e) => Err(e)
      case Ok(declared) =>
        if !os.Prepares() then Err(PrepareFailed) else Cleaned(Body(response, declared, maxBytes), os)
  }

  /** Where a redirect response leads, if the policy lets it. */
  function Redirect(site: Site, url: string, from: Url, response: Response, last: bool): Result<string, Error>
    requires response.Response?
  {
    if response.location == "" || last then Err(RedirectLimit)
    else
      var candidate := site.join(url, response.location);
      match site.inspect(candidate)
      case None => Err(Refused)
      case Some(to) => if from.scheme == "https" && to.scheme != "https" then Err(Downgrade) else Ok(candidate)
  }

  /** The loop: the outcome and every URL requested, `visited` being those requested before. */
  function Follow(site: Site, limits: Limits, url: string, visited: seq<string>, left: nat, os: System)
    : (Result<Bytes, Error>, seq<string>)
    decreases left
  {
    if left == 0 then (Err(Exhausted), visited)
    else match site.inspect(url)
      case None => (Err(Refused), visited)
      case Some(parsed) =>
        if url in visited then (Err(RedirectLoop), visited)
        else
          var requested, response := visited + [url], site.respond(|visited|, url);
          if response.ConnectionFailed? then (Err(TransportError), requested)
          else if IsRedirect(response.status) then
            match Redirect(site, url, parsed, response, left == 1)
            case Err(e) => (Err(e), requested)
            case Ok(next) => Follow(site, limits, next, requested, left - 1, os)
          else (Receive(response, limits.maxBytes, os), requested)
  }

  // ---------------------------------------------------------------- the imperative form

  datatype Artifact = Artifact(path: string, size: nat, hashed: Bytes)

  /** The last request was answered 2xx, unencoded, with no declared length or an acceptable one. */
  ghost predicate Answered(site: Site, limits: Limits, requests: seq<string>)
    requires requests != []
  {
    var response := site.respond(|requests| - 1, requests[|requests| - 1]);
    && response.Response? && 200 <= response.status < 300 && response.identityEncoding
    && ContentLength(response.contentLength, limits.maxBytes).Ok?
  }

  /** The body arrived whole, within the limit and as long as declared. */
  ghost predicate Arrived(response: Response, maxBytes: nat)
    requires response.Response?
  {
    && !response.breaks && |Flatten(response.fragments)| <= maxBytes
    && (response.contentLength.Some? ==>
          && IsDigits(response.contentLength.value)
          && Number(response.contentLength.value) == |Flatten(response.fragments)|)
  }

  /** The file could not be made private, or the body did not arrive and the file could not be removed. */
  ghost predicate LeavesFile(site: Site, limits: Limits, requests: seq<string>, os: System) {
    && requests != [] && Answered(site, limits, requests)
    && (os.Prepares() ==>
          !os.unlinks && !Arrived(site.respond(|requests| - 1, requests[|requests| - 1]), limits.maxBytes))
  }

  /** What is in the file that is left: nothing yet, or what was written of the body. */
  ghost function LeftContent(site: Site, limits: Limits, requests: seq<string>, os: System): Bytes
    requires LeavesFile(site, limits, requests, os)
  {
    if os.Prepares() then Kept(site.respond(|requests| - 1, requests[|requests| - 1]).fragments, limits.maxBytes) else []
  }

  class FileSystem {
    var files: map<string, Bytes>

    constructor ()
      ensures files == map[]
    {
      files := map[];
    }

    /** Removes the file after `error`, if the system lets it. */
    method Unlink(path: string, error: Error, os: System) returns (result: Result<Artifact, Error>)
      modifies this
      ensures result == Err(if os.unlinks then error else UnlinkFailed)
      ensures files == if os.unlinks then old(files) - {path} else old(files)
    {
      if !os.unlinks { return Err(UnlinkFailed); }
      files := files - {path};
      result := Err(error);
    }

    /** Writes fragments as they arrive, keeping count and feeding the digest; removes the file on failure. */
    method WriteBody(path: string, response: Response, declared: Option<nat>, maxBytes: nat, os: System)
      returns (result: Result<Artifact, Error>)
      requires response.Response?
      modifies this
      ensures match Cleaned(Body(response, declared, maxBytes), os)
              case Ok(content) => result == Ok(Artifact(path, |content|, content)) && files == old(files)[path := content]
              case Err(e) =>
                && result == Err(e)
                && files == if os.unlinks then old(files) - {path} else old(files)[path := Kept(response.fragments, maxBytes)]
    {
      var hashed: Bytes, total: nat := [], 0;
      files := files[path := []];
      assert Flatten(response.fragments[..0]) == [];
      hide Flatten, Kept;
      for i := 0 to |response.fragments|
        invariant hashed == Flatten(response.fragments[..i]) && total == |hashed|
        invariant total <= maxBytes
        invariant files == old(files)[path := hashed]
      {
        var fragment := response.fragments[i];
        FlattenStep(response.fragments, i);
        total := total + |fragment|;
        if total > maxBytes {
          FlattenGrows(response.fragments, i + 1);
          KeptUntil(response.fragments, i, maxBytes);
          result := Unlink(path, TooLarge, os);
          return;
        }
        hashed := hashed + fragment;
        files := files[path := files[path] + fragment];
      }
      assert response.fragments[..|response.fragments|] == response.fragments;
      KeptWhole(response.fragments, maxBytes);
      if response.breaks {
        result := Unlink(path, TransportError, os);
        return;
      }
      if declared.Some? && declared.value != total {
        result := Unlink(path, LengthMismatch, os);
        return;
      }
      result := Ok(Artifact(path, total, hashed));
    }

    /** `path` is the fresh name the operating system gives to the temporary file. */
    method DownloadSource(site: Site, limits: Limits, source: string, path: string, os: System)
      returns (result: Result<Artifact, Error>, requests: seq<string>)
      requires path !in files
      modifies this
      ensures requests == Follow(site, limits, source, [], Max(limits.maxRedirects + 1, 0), os).1
      ensures match Follow(site, limits, source, [], Max(limits.maxRedirects + 1, 0), os).0
              case Ok(content) => result == Ok(Artifact(path, |content|, content)) && files == old(files)[path := content]
              case Err(e) =>
                && result == Err(e)
                && files == if LeavesFile(site, limits, requests, os)
                            then old(files)[path := LeftContent(site, limits, requests, os)]
                            else old(files)
    {
      var url, hop := source, 0;
      requests := [];
      FileIsLeftIff(site, limits, source, os);
      ghost var whole := Follow(site, limits, source, [], Max(limits.maxRedirects + 1, 0), os);
      while hop < limits.maxRedirects + 1
        invariant 0 <= hop <= Max(limits.maxRedirects + 1, 0) && |requests| == hop
        invariant files == old(files)
        invariant Follow(site, limits, url, requests, Max(limits.maxRedirects + 1, 0) - hop, os) == whole
      {
        var parsed := site.inspect(url);
        if parsed.None? { return Err(Refused), requests; }
        if url in requests { return Err(RedirectLoop), requests; }
        var response := site.respond(hop, url);
        requests := requests + [url];
        if response.ConnectionFailed? { return Err(TransportError), requests; }
        if IsRedirect(response.status) {
          if response.location == "" || hop >= limits.maxRedirects { return Err(RedirectLimit), requests; }
          var candidate := site.join(url, response.location);
          var redirected := site.inspect(candidate);
          if redirected.None? { return Err(Refused), requests; }
          if parsed.value.scheme == "https" && redirected.value.scheme != "https" { return Err(Downgrade), requests; }
          url, hop := candidate, hop + 1;
          continue;
        }
        if response.status < 200 || response.status >= 300 { return Err(BadStatus), requests; }
        if !response.identityEncoding { return Err(BadEncoding), requests; }
        var declared := ContentLength(response.contentLength, limits.maxBytes);
        if declared.Err? { return Err(declared.error), requests; }
        files := files[path := []];
        if !os.closes || !os.chmods { return Err(PrepareFailed), requests; }
        result := WriteBody(path, response, declared.value, limits.maxBytes, os);
        return;
      }
      result := Err(Exhausted);
    }
  }

  lemma FlattenStep(fragments: seq<Bytes>, i: nat)
    requires i < |fragments|
    ensures Flatten(fragments[..i + 1]) == Flatten(fragments[..i]) + fragments[i]
  {
    assert fragments[..i + 1][..i] == fragments[..i];
  }

  lemma KeptWhole(fragments: seq<Bytes>, maxBytes: nat)
    ensures |Flatten(fragments)| <= maxBytes ==> Kept(fragments, maxBytes) == Flatten(fragments)
  {}

  /** Once a fragment goes beyond the limit, what was written before it is kept. */
  lemma {:induction false} KeptUntil(fragments: seq<Bytes>, i: nat, maxBytes: nat)
    requires i < |fragments| && |Flatten(fragments[..i])| <= maxBytes < |Flatten(fragments[..i + 1])|
    ensures Kept(fragments, maxBytes) == Flatten(fragments[..i])
  {
    var init := fragments[..|fragments| - 1];
    FlattenGrows(fragments, i + 1);
    if i == |init| {
      assert Kept(init, maxBytes) == Flatten(init);
    } else {
      assert init[..i] == fragments[..i] && init[..i + 1] == fragments[..i + 1];
      KeptUntil(init, i, maxBytes);
    }
  }

  lemma {:induction false} FlattenGrows(fragments: seq<Bytes>, i: nat)
    requires i <= |fragments|
    ensures |Flatten(fragments[..i])| <= |Flatten(fragments)|
  {
    if i == |fragments| {
      assert fragments[..i] == fragments;
    } else {
      var init := fragments[..|fragments| - 1];
      FlattenGrows(init, i);
      assert init[..i] == fragments[..i];
    }
  }

  // ---------------------------------------------------------------- theorems

  /** The hop from one requested URL to the next: as the redirect said, and never from https to another scheme. */
  ghost predicate HopOk(site: Site, requests: seq<string>, i: nat)
    requires i + 1 < |requests|
  {
    var response := site.respond(i, requests[i]);
    && response.Response? && IsRedirect(response.status)
    && requests[i + 1] == site.join(requests[i], response.location)
    && site.inspect(requests[i]).Some? && site.inspect(requests[i + 1]).Some?
    && (site.inspect(requests[i]).value.scheme == "https" ==> site.inspect(requests[i + 1]).value.scheme == "https")
  }

  ghost predicate TrailOk(site: Site, requests: seq<string>) {
    && Distinct(requests)
    && (forall i :: 0 <= i < |requests| ==> site.inspect(requests[i]).Some?)
    && (forall i :: 0 <= i < |requests| - 1 ==> HopOk(site, requests, i))
  }

  /** `url` is where the last request redirected to, or there was none. */
  ghost predicate Continues(site: Site, requests: seq<string>, url: string) {
    requests != [] && site.inspect(url).Some? && url !in requests ==> HopOk(site, requests + [url], |requests| - 1)
  }

  lemma TrailGrows(site: Site, requests: seq<string>, url: string)
    requires TrailOk(site, requests) && Continues(site, requests, url)
    requires site.inspect(url).Some? && url !in requests
    ensures TrailOk(site, requests + [url])
  {
    var longer := requests + [url];
    forall i | 0 <= i < |longer| - 1 ensures HopOk(site, longer, i) {
      if i < |requests| - 1 { assert HopOk(site, requests, i); }
    }
  }

  lemma {:induction false} FollowTrail(site: Site, limits: Limits, url: string, visited: seq<string>, left: nat, os: System)
    requires TrailOk(site, visited) && Continues(site, visited, url)
    ensures var (result, requests) := Follow(site, limits, url, visited, left, os);
            && TrailOk(site, requests) && visited <= requests && |requests| <= |visited| + left
            && (requests != visited ==> requests[|visited|] == url)
            && (result == Err(Exhausted) <==> left == 0)
    decreases left
  {
    if left > 0 && site.inspect(url).Some? && url !in visited {
      TrailGrows(site, visited, url);
      var response := site.respond(|visited|, url);
      if response.Response? && IsRedirect(response.status) {
        var next := Redirect(site, url, site.inspect(url).value, response, left == 1);
        if next.Ok? {
          assert (visited + [url])[|visited|] == url;
          FollowTrail(site, limits, next.value, visited + [url], left - 1, os);
        }
      }
    }
  }

  /**
   * The redirect loop makes at most `maxRedirects + 1` requests, the first to the source, all to
   * distinct URLs the policy approved, each hop where the response pointed and never from https to
   * another scheme. Falling out of the loop happens exactly when `maxRedirects` is negative.
   */
  lemma RedirectsAreSafe(site: Site, limits: Limits, source: string, os: System)
    ensures var (result, requests) := Follow(site, limits, source, [], Max(limits.maxRedirects + 1, 0), os);
            && |requests| <= Max(limits.maxRedirects + 1, 0)
            && TrailOk(site, requests)
            && (requests != [] ==> requests[0] == source)
            && (result == Err(Exhausted) <==> limits.maxRedirects < 0)
  {
    FollowTrail(site, limits, source, [], Max(limits.maxRedirects + 1, 0), os);
  }

  /** The response that ended the trail, when it was not itself a failed connection. */
  ghost predicate Delivered(site: Site, limits: Limits, requests: seq<string>, content: Bytes)
    requires requests != []
  {
    var response := site.respond(|requests| - 1, requests[|requests| - 1]);
    && response.Response? && 200 <= response.status < 300 && response.identityEncoding
    && content == Flatten(response.fragments) && Arrived(response, limits.maxBytes)
  }

  /**
   * Success means exactly this: the temporary file could be made private, and the last request was
   * answered in full with an unencoded 2xx body within the limit whose length agrees with any declared
   * length; the content is that body.
   */
  lemma {:induction false} SuccessIsDelivery(site: Site, limits: Limits, url: string, visited: seq<string>, left: nat, os: System)
    ensures var (result, requests) := Follow(site, limits, url, visited, left, os);
            && (result.Ok? ==> os.Prepares() && requests != [] && Delivered(site, limits, requests, result.value))
            && (forall content :: os.Prepares() && requests != visited && requests != [] && Delivered(site, limits, requests, content) ==>
                  result == Ok(content))
    decreases left
  {
    if left > 0 && site.inspect(url).Some? && url !in visited {
      var response := site.respond(|visited|, url);
      var requested := visited + [url];
      if response.Response? && IsRedirect(response.status) {
        var next := Redirect(site, url, site.inspect(url).value, response, left == 1);
        if next.Ok? {
          SuccessIsDelivery(site, limits, next.value, requested, left - 1, os);
          FollowExtends(site, limits, next.value, requested, left - 1, os);
        }
      }
    }
  }

  ghost predicate IsSystemFault(result: Result<Bytes, Error>) {
    result == Err(PrepareFailed) || result == Err(UnlinkFailed)
  }

  lemma {:induction false} SystemFaultsIff(site: Site, limits: Limits, url: string, visited: seq<string>, left: nat, os: System)
    ensures var (result, requests) := Follow(site, limits, url, visited, left, os);
            && (IsSystemFault(result) <==> requests != visited && LeavesFile(site, limits, requests, os))
            && requests == Follow(site, limits, url, visited, left, WORKING).1
    decreases left
  {
    if left > 0 && site.inspect(url).Some? && url !in visited {
      var response := site.respond(|visited|, url);
      var requested := visited + [url];
      if response.Response? && IsRedirect(response.status) {
        var next := Redirect(site, url, site.inspect(url).value, response, left == 1);
        if next.Ok? {
          SystemFaultsIff(site, limits, next.value, requested, left - 1, os);
          FollowExtends(site, limits, next.value, requested, left - 1, os);
        }
      }
    }
  }

  /**
   * A failed download leaves a file exactly when the last request was answered and the file could not be
   * made private, or could not be removed after its body did not arrive; then the system's failure is the
   * one reported. What is requested does not depend on the system.
   */
  lemma {:induction false} FileIsLeftIff(site: Site, limits: Limits, source: string, os: System)
    ensures var hops := Max(limits.maxRedirects + 1, 0);
            var (result, requests) := Follow(site, limits, source, [], hops, os);
            && (IsSystemFault(result) <==> LeavesFile(site, limits, requests, os))
            && requests == Follow(site, limits, source, [], hops, WORKING).1
  {
    hide Follow, Answered, Arrived;
    SystemFaultsIff(site, limits, source, [], Max(limits.maxRedirects + 1, 0), os);
  }

  /** A site that answers every request with one byte, and may then break off. */
  function OneByte(breaks: bool): Site {
    Site(_ => Some(Url("https", "/a")), (_, location) => location, (_, _) => Response(200, "", true, None, [[7]], breaks))
  }

  /** Without `chmod` an empty file is left; without `unlink` the part of the body that came. */
  lemma {:induction false} FileIsLeft(source: string)
    ensures var os := System(true, false, true);
            && Follow(OneByte(false), Limits(9, 0), source, [], 1, os) == (Err(PrepareFailed), [source])
            && LeavesFile(OneByte(false), Limits(9, 0), [source], os)
            && LeftContent(OneByte(false), Limits(9, 0), [source], os) == []
    ensures var os := System(true, true, false);
            && Follow(OneByte(true), Limits(9, 0), source, [], 1, os) == (Err(UnlinkFailed), [source])
            && LeavesFile(OneByte(true), Limits(9, 0), [source], os)
            && LeftContent(OneByte(true), Limits(9, 0), [source], os) == [7]
  {
    var body: seq<Bytes> := [[7]];
    assert body[..0] == [] && Kept(body, 9) == Flatten(body) == [7];
    assert [] + [source] == [source];
  }

  lemma {:induction false} FollowExtends(site: Site, limits: Limits, url: string, visited: seq<string>, left: nat, os: System)
    ensures visited <= Follow(site, limits, url, visited, left, os).1
    decreases left
  {
    if left > 0 && site.inspect(url).Some? && url !in visited {
      var response := site.respond(|visited|, url);
      if response.Response? && IsRedirect(response.status) {
        var next := Redirect(site, url, site.inspect(url).value, response, left == 1);
        if next.Ok? { FollowExtends(site, limits, next.value, visited + [url], left - 1, os); }
      }
    }
  }
}
