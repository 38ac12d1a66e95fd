/**
 Whose bucket a request is charged to, told from the peer, the configured proxies and the items of the
 forwarding header.
 */
module ClientLaws {
  import opened Basics
  import opened RateLimit
  import opened Text

  /** The items of a list with commas between them. */
  function Joined(items: seq<string>): string {
    if items == [] then "" else if |items| == 1 then items[0] else items[0] + ("," + Joined(items[1..]))
  }

  lemma JoinedCons(head: string, tail: seq<string>)
    requires tail != []
    ensures Joined([head] + tail) == head + ("," + Joined(tail))
  {
    assert ([head] + tail)[1..] == tail;
  }

  /** Splitting is undone by joining, and leaves no comma; nothing else does that. */
  lemma {:induction false} SplittingIsExact(text: string)
    ensures Joined(Split(text)) == text
    ensures forall item :: item in Split(text) ==> ',' !in item
    decreases |text|
  {
    hide FirstComma;
    var i := FirstComma(text);
    if i == |text| {
      assert text[..i] == text && Split(text) == [text];
    } else {
      hide Joined;
      var head, rest := text[..i], text[i + 1..];
      SplittingIsExact(rest);
      assert Split(text) == [head] + Split(rest);
      JoinedCons(head, Split(rest));
      assert text == head + ([text[i]] + rest);
    }
  }

  /** A header is read item by item, and not at all if one of them is no address. */
  lemma {:induction false} ReadingIsExact<A>(items: seq<string>, parse: string -> Option<A>)
    ensures ReadAll(items, parse).Some? <==> forall i :: 0 <= i < |items| ==> parse(items[i]).Some?
    ensures ReadAll(items, parse).Some? ==>
              && |ReadAll(items, parse).value| == |items|
              && forall i :: 0 <= i < |items| ==> parse(items[i]) == Some(ReadAll(items, parse).value[i])
  {
    if items != [] {
      var init := items[..|items| - 1];
      ReadingIsExact(init, parse);
      assert forall i :: 0 <= i < |init| ==> items[i] == init[i];
    }
  }

  /** A peer without a host is unknown; one that is no configured proxy is its own client, whatever it forwards. */
  lemma {:induction false} DirectPeersAreThemselves<A>(request: Request<A>, addresses: Addresses<A>)
    ensures request.host.None? || request.host == Some("") ==> KeyFor(request, addresses) == "unknown"
    ensures request.host.Some? && request.host.value != ""
            && (request.peer.None? || request.trusted.None? || !request.trusted.value(request.peer.value)) ==>
              KeyFor(request, addresses) == request.host.value
  {}

  /** The item at this place names the client: no proxy itself, with only proxies after it. */
  ghost predicate NamesClient<A>(items: seq<string>, request: Request<A>, addresses: Addresses<A>, i: nat)
    requires request.trusted.Some?
  {
    && i < |items| && addresses.parse(items[i]).Some? && !request.trusted.value(addresses.parse(items[i]).value)
    && forall j :: i < j < |items| ==>
         addresses.parse(items[j]).Some? && request.trusted.value(addresses.parse(items[j]).value)
  }

  /**
   * Behind a configured proxy the key is what the client's item prints as, if the whole header can be
   * read and one of its items is no proxy; in every other case it is the peer itself.
   */
  lemma {:induction false} ForwardedKeyIsExact<A>(request: Request<A>, addresses: Addresses<A>)
    requires request.host.Some? && request.host.value != ""
    requires request.peer.Some? && request.trusted.Some? && request.trusted.value(request.peer.value)
    ensures request.forwarded.None? || request.forwarded == Some("") ==> KeyFor(request, addresses) == request.host.value
    ensures request.forwarded.Some? && request.forwarded.value != "" ==>
              var items := Split(request.forwarded.value);
              var readable := forall i :: 0 <= i < |items| ==> addresses.parse(items[i]).Some?;
              && (forall i: nat :: readable && NamesClient(items, request, addresses, i) ==>
                    KeyFor(request, addresses) == addresses.render(addresses.parse(items[i]).value))
              && (!readable || !(exists i: nat :: NamesClient(items, request, addresses, i)) ==>
                    KeyFor(request, addresses) == request.host.value)
  {
    hide Split, ReadAll, NearestUntrusted;
    if request.forwarded.Some? && request.forwarded.value != "" {
      var items := Split(request.forwarded.value);
      ReadingIsExact(items, addresses.parse);
      var hops := ReadAll(items, addresses.parse);
      if hops.Some? {
        NearestUntrustedIs(hops.value, request.trusted.value);
        if NearestUntrusted(hops.value, request.trusted.value).Some? {
          var i :| 0 <= i < |hops.value| && hops.value[i] == NearestUntrusted(hops.value, request.trusted.value).value
                   && !request.trusted.value(hops.value[i])
                   && forall j :: i < j < |hops.value| ==> request.trusted.value(hops.value[j]);
          assert NamesClient(items, request, addresses, i);
          forall k: nat | NamesClient(items, request, addresses, k) ensures k == i {}
        } else {
          forall k: nat ensures !NamesClient(items, request, addresses, k) {
            if k < |items| { assert request.trusted.value(hops.value[k]); }
          }
        }
      }
    }
  }
}
