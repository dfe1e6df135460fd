// The identity key of an endpoint and the client cache it indexes.

module EndpointKey {
  import opened SortedStrings

  /** A sandbox endpoint: `order` is the insertion order of the headers. */
  datatype Endpoint = Endpoint(baseUrl: string, token: string, order: seq<string>, headers: map<string, string>)

  const NUL: char := '\0'

  /** `order` lists the header names, each once. */
  ghost predicate Valid(ep: Endpoint) {
    && (forall i, j :: 0 <= i < j < |ep.order| ==> ep.order[i] != ep.order[j])
    && (forall k :: k in ep.order <==> k in ep.headers)
  }

  /** No NUL anywhere and no equals sign in a name: what sections 5.1, 5.5 and 5.6.2 of RFC 9110
      and the syntax of a URL give. */
  ghost predicate WellFormed(ep: Endpoint) {
    && NUL !in ep.baseUrl
    && forall k :: k in ep.headers ==> NUL !in k && '=' !in k && NUL !in ep.headers[k]
  }

  // ---------------------------------------------------------------- the key

  function Pair(ep: Endpoint, k: string): string
    requires k in ep.headers
  {
    k + "=" + ep.headers[k]
  }

  function Pairs(ep: Endpoint, names: seq<string>): (r: seq<string>)
    requires forall k :: k in names ==> k in ep.headers
    ensures |r| == |names| && forall i :: 0 <= i < |r| ==> r[i] == Pair(ep, names[i])
  {
    seq(|names|, i requires 0 <= i < |names| => Pair(ep, names[i]))
  }

  function Joined(parts: seq<string>): string {
    if parts == [] then "" else if |parts| == 1 then parts[0] else parts[0] + [NUL] + Joined(parts[1..])
  }

  function Key(ep: Endpoint): string
    requires Valid(ep)
  {
    SortedSorts(ep.order);
    if ep.order == [] then ep.baseUrl
    else ep.baseUrl + [NUL] + Joined(Pairs(ep, Sorted(ep.order)))
  }

  /** The base address and the sorted pairs, which the key joins. */
  function Parts(ep: Endpoint): seq<string>
    requires Valid(ep)
  {
    SortedSorts(ep.order);
    [ep.baseUrl] + Pairs(ep, Sorted(ep.order))
  }

  lemma KeyJoinsParts(ep: Endpoint)
    requires Valid(ep)
    ensures Key(ep) == Joined(Parts(ep)) && |Parts(ep)| >= 1
    ensures WellFormed(ep) ==> forall i :: 0 <= i < |Parts(ep)| ==> NUL !in Parts(ep)[i]
  {
    SortedSorts(ep.order);
    var names := Sorted(ep.order);
    assert ep.order != [] ==> ep.order[0] in names;
    assert names != [] ==> names[0] in ep.order;
    assert Parts(ep)[1..] == Pairs(ep, names);
    forall i | 0 <= i < |names| ensures names[i] in ep.headers { assert names[i] in names; }
  }

  /** Without headers the key is the address; with one it is the address and `name=value` behind a
      NUL. */
  lemma KeyOfFewHeaders(ep: Endpoint)
    requires Valid(ep)
    ensures ep.headers == map[] ==> Key(ep) == ep.baseUrl
    ensures forall k :: k in ep.headers && |ep.order| == 1
              ==> Key(ep) == ep.baseUrl + "\0" + k + "=" + ep.headers[k]
  {
    SortedSorts(ep.order);
    var names := Sorted(ep.order);
    assert ep.order != [] ==> ep.order[0] in ep.headers;
    forall k | k in ep.headers && |ep.order| == 1
      ensures Key(ep) == ep.baseUrl + "\0" + k + "=" + ep.headers[k] {
      assert k in ep.order;
      assert ep.order == [k] && ep.order[1..] == [];
      assert Sorted([k][1..]) == [];
      assert names == [k];
      assert Pairs(ep, names) == [Pair(ep, k)];
      assert ep.baseUrl + [NUL] + Pair(ep, k) == ep.baseUrl + "\0" + k + "=" + ep.headers[k];
    }
  }

  /** Two lines up to their first separator. */
  lemma FirstSeparator(c: char, a: string, x: string, b: string, y: string)
    requires c !in a && c !in b && a + [c] + x == b + [c] + y
    ensures a == b && x == y
  {
    var s := a + [c] + x;
    assert s[|a|] == c && s[|b|] == c;
    assert forall i :: 0 <= i < |a| ==> s[i] == a[i] && s[i] in a;
    assert forall i :: 0 <= i < |b| ==> s[i] == b[i] && s[i] in b;
    assert |a| == |b|;
    assert a == s[..|a|] && b == s[..|b|] && x == s[|a| + 1..] && y == s[|b| + 1..];
  }

  lemma JoinedHasNul(p: seq<string>)
    requires p != [] && forall i :: 0 <= i < |p| ==> NUL !in p[i]
    ensures NUL in Joined(p) <==> |p| > 1
  {
    if |p| > 1 { assert Joined(p)[|p[0]|] == NUL; }
  }

  lemma {:induction false} JoinedInjective(p: seq<string>, q: seq<string>)
    requires p != [] && q != [] && Joined(p) == Joined(q)
    requires forall i :: 0 <= i < |p| ==> NUL !in p[i]
    requires forall i :: 0 <= i < |q| ==> NUL !in q[i]
    ensures p == q
  {
    JoinedHasNul(p);
    JoinedHasNul(q);
    if |p| == 1 {
      assert p == [p[0]] && q == [q[0]];
    } else {
      FirstSeparator(NUL, p[0], Joined(p[1..]), q[0], Joined(q[1..]));
      JoinedInjective(p[1..], q[1..]);
      assert p == [p[0]] + p[1..] && q == [q[0]] + q[1..];
    }
  }

  /** Where an endpoint routes to. */
  predicate SameRoute(a: Endpoint, b: Endpoint) {
    a.baseUrl == b.baseUrl && a.headers == b.headers
  }

  /** Whatever the order the headers were set in, equal routes have equal keys. */
  lemma SameRouteSameKey(a: Endpoint, b: Endpoint)
    requires Valid(a) && Valid(b) && SameRoute(a, b)
    ensures Key(a) == Key(b)
  {
    SortedSorts(a.order);
    SortedSorts(b.order);
    AscendingUnique(Sorted(a.order), Sorted(b.order));
    KeyJoinsParts(a);
    KeyJoinsParts(b);
    assert Pairs(a, Sorted(a.order)) == Pairs(b, Sorted(b.order));
  }

  /** The key is a faithful encoding of the route. */
  lemma SameKeyIffSameRoute(a: Endpoint, b: Endpoint)
    requires Valid(a) && Valid(b) && WellFormed(a) && WellFormed(b)
    ensures Key(a) == Key(b) <==> SameRoute(a, b)
  {
    if SameRoute(a, b) {
      SameRouteSameKey(a, b);
    } else if Key(a) == Key(b) {
      KeyJoinsParts(a);
      KeyJoinsParts(b);
      JoinedInjective(Parts(a), Parts(b));
      PartsGiveHeaders(a, b);
    }
  }

  lemma SortedNames(ep: Endpoint) returns (names: seq<string>)
    requires Valid(ep)
    ensures forall k :: k in names <==> k in ep.headers
    ensures Parts(ep) == [ep.baseUrl] + Pairs(ep, names)
  {
    SortedSorts(ep.order);
    names := Sorted(ep.order);
  }

  lemma PartsGiveHeaders(a: Endpoint, b: Endpoint)
    requires Valid(a) && Valid(b) && WellFormed(a) && WellFormed(b) && Parts(a) == Parts(b)
    ensures SameRoute(a, b)
  {
    hide Parts, Pairs, Valid;
    var m := SortedNames(a);
    var n := SortedNames(b);
    assert a.baseUrl == Parts(a)[0] == b.baseUrl;
    assert Pairs(a, m) == Parts(a)[1..] == Pairs(b, n);
    SamePairs(a, b, m, n);
    assert a.headers.Keys == b.headers.Keys;
    assert a.headers == b.headers;
  }

  lemma SamePairs(a: Endpoint, b: Endpoint, m: seq<string>, n: seq<string>)
    requires WellFormed(a) && WellFormed(b)
    requires (forall k :: k in m ==> k in a.headers) && (forall k :: k in n ==> k in b.headers)
    requires Pairs(a, m) == Pairs(b, n)
    ensures m == n && forall k :: k in m ==> a.headers[k] == b.headers[k]
  {
    var p, q := Pairs(a, m), Pairs(b, n);
    assert |p| == |m| && |q| == |n|;
    forall i | 0 <= i < |m| ensures m[i] == n[i] && a.headers[m[i]] == b.headers[n[i]] {
      assert p[i] == q[i] && p[i] == Pair(a, m[i]) && q[i] == Pair(b, n[i]);
      FirstSeparator('=', m[i], a.headers[m[i]], n[i], b.headers[n[i]]);
    }
  }

  /** Without the promise about names the encoding is not faithful. */
  lemma EqualsSignCollides()
    ensures var a, b := Endpoint("u", "", ["a=b"], map["a=b" := "c"]), Endpoint("u", "", ["a"], map["a" := "b=c"]);
            Valid(a) && Valid(b) && Key(a) == Key(b) && !SameRoute(a, b)
  {
    var a, b := Endpoint("u", "", ["a=b"], map["a=b" := "c"]), Endpoint("u", "", ["a"], map["a" := "b=c"]);
    SortedSorts(a.order);
    SortedSorts(b.order);
    assert Sorted(["a=b"][1..]) == [] && Sorted(["a"][1..]) == [];
    assert Sorted(a.order) == ["a=b"] && Sorted(b.order) == ["a"];
    assert Pair(a, "a=b") == "a=b" + "=" + "c" == "a=b=c";
    assert Pair(b, "a") == "a" + "=" + "b=c" == "a=b=c";
    assert Pairs(a, ["a=b"])[0] == "a=b=c" && Pairs(b, ["a"])[0] == "a=b=c";
    assert Pairs(a, ["a=b"]) == ["a=b=c"] && Pairs(b, ["a"]) == ["a=b=c"];
    assert "a=b" in a.headers && |"a=b"| != |"a"|;
    assert "a=b" !in b.headers;
  }

  // ---------------------------------------------------------------- the client cache

  class HttpKernelClient {
    const endpoint: Endpoint

    constructor (endpoint: Endpoint)
      ensures this.endpoint == endpoint
    {
      this.endpoint := endpoint;
    }
  }

  class EndpointClients {
    var cache: map<string, HttpKernelClient>

    /** A client is filed under the key of the endpoint it was built for. */
    ghost predicate Filed()
      reads this, cache.Values
    {
      forall k :: k in cache
        ==> Valid(cache[k].endpoint) && WellFormed(cache[k].endpoint) && Key(cache[k].endpoint) == k
    }

    constructor ()
      ensures Filed() && cache == map[]
    {
      cache := map[];
    }

    /** The cached client routes like one built now, and equal routes share one client; its
        token is that of the endpoint it was built for. */
    method ClientFor(ep: Endpoint) returns (client: HttpKernelClient)
      requires Filed() && Valid(ep) && WellFormed(ep)
      modifies this
      ensures Filed() && SameRoute(client.endpoint, ep)
      ensures Key(ep) in old(cache) ==> client == old(cache)[Key(ep)] && cache == old(cache)
      ensures Key(ep) !in old(cache)
         ==> fresh(client) && client.endpoint == ep && cache == old(cache)[Key(ep) := client]
      ensures forall k :: k in old(cache) && SameRoute(old(cache)[k].endpoint, ep) ==> client == old(cache)[k]
    {
      var key := Key(ep);
      forall k | k in cache ensures SameRoute(cache[k].endpoint, ep) <==> k == key {
        SameKeyIffSameRoute(cache[k].endpoint, ep);
      }
      if key in cache {
        client := cache[key];
      } else {
        client := new HttpKernelClient(ep);
        cache := cache[key := client];
      }
    }
  }
}
