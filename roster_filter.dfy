/**
 * The search box: the roster keeps the clients whose lower-cased name contains
 * the lower-cased search text, in their original order.
 */
module RosterFilter {
  import opened Types
  import Strings

  /** The test the filter applies to one client. */
  predicate Matches(c: Client, search: string) {
    Strings.Includes(Strings.Lower(c.name), Strings.Lower(search))
  }

  /** `clients.filter(...)`: the matching clients, left to right. */
  function Filter(clients: seq<Client>, search: string): (r: seq<Client>)
    ensures |r| <= |clients|
    ensures forall k :: 0 <= k < |r| ==> Matches(r[k], search)
  {
    if clients == [] then []
    else (if Matches(clients[0], search) then [clients[0]] else []) + Filter(clients[1..], search)
  }

  /** `r` can be obtained from `s` by deleting elements, keeping the order of the rest. */
  predicate IsSubsequence(r: seq<Client>, s: seq<Client>)
    decreases |s|
  {
    r == [] || (s != [] && ((r[0] == s[0] && IsSubsequence(r[1..], s[1..])) || IsSubsequence(r, s[1..])))
  }

  /** The filter only deletes clients; the ones it keeps stay in their original order. */
  lemma {:induction false} FilterIsSubsequence(clients: seq<Client>, search: string)
    ensures IsSubsequence(Filter(clients, search), clients)
    decreases |clients|
  {
    if clients != [] {
      var rest := Filter(clients[1..], search);
      FilterIsSubsequence(clients[1..], search);
      if Matches(clients[0], search) {
        assert Filter(clients, search) == [clients[0]] + rest;
        assert ([clients[0]] + rest)[1..] == rest;
      } else {
        assert Filter(clients, search) == rest;
      }
    }
  }

  /** Each matching client is kept as often as it occurs; no other client is kept. */
  lemma {:induction false} FilterMultiplicity(clients: seq<Client>, search: string, c: Client)
    ensures multiset(Filter(clients, search))[c] == if Matches(c, search) then multiset(clients)[c] else 0
    decreases |clients|
  {
    if clients != [] {
      FilterMultiplicity(clients[1..], search, c);
      assert clients == [clients[0]] + clients[1..];
    }
  }

  /** A client is kept exactly when it is in the list and its name matches the search. */
  lemma {:induction false} FilterKeepsExactlyMatching(clients: seq<Client>, search: string, c: Client)
    ensures c in Filter(clients, search) <==> c in clients && Matches(c, search)
  {
    FilterMultiplicity(clients, search, c);
    assert c in Filter(clients, search) <==> multiset(Filter(clients, search))[c] > 0;
    assert c in clients <==> multiset(clients)[c] > 0;
  }

  /** A list whose clients all match passes through unchanged. */
  lemma {:induction false} FilterAllMatching(clients: seq<Client>, search: string)
    requires forall k :: 0 <= k < |clients| ==> Matches(clients[k], search)
    ensures Filter(clients, search) == clients
    decreases |clients|
  {
    if clients != [] {
      FilterAllMatching(clients[1..], search);
      assert clients == [clients[0]] + clients[1..];
    }
  }

  /** An empty search keeps every client, in order. */
  lemma {:induction false} FilterEmptySearch(clients: seq<Client>)
    ensures Filter(clients, "") == clients
  {
    assert Strings.Lower("") == "";
    forall k | 0 <= k < |clients| ensures Matches(clients[k], "") {
      Strings.IncludesEmpty(Strings.Lower(clients[k].name));
    }
    FilterAllMatching(clients, "");
  }

  /** Filtering twice with the same search is filtering once. */
  lemma {:induction false} FilterIdempotent(clients: seq<Client>, search: string)
    ensures Filter(Filter(clients, search), search) == Filter(clients, search)
  {
    FilterAllMatching(Filter(clients, search), search);
  }

  /** Two searches that differ only in the case of their ASCII letters keep the same clients. */
  lemma {:induction false} FilterSameLoweredSearch(clients: seq<Client>, s1: string, s2: string)
    requires Strings.Lower(s1) == Strings.Lower(s2)
    ensures Filter(clients, s1) == Filter(clients, s2)
    decreases |clients|
  {
    if clients != [] {
      FilterSameLoweredSearch(clients[1..], s1, s2);
      assert Matches(clients[0], s1) == Matches(clients[0], s2);
    }
  }

  /** The search is case-insensitive: typing it in lower case keeps the same clients. */
  lemma {:induction false} FilterIgnoresSearchCase(clients: seq<Client>, search: string)
    ensures Filter(clients, Strings.Lower(search)) == Filter(clients, search)
  {
    Strings.LowerIdempotent(search);
    FilterSameLoweredSearch(clients, Strings.Lower(search), search);
  }
}
