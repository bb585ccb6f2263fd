/** Refreshing the cached liked tracks (`refreshLiked` in daemon/voice_catalog.go).

  Instead of downloading the whole list again, the refresh reads pages until it meets a track it
  knows and splices what it read onto the rest of the cached list, provided the lengths add up.
  `Plan` is the decision; the lemmas say exactly when it yields the server's list.
 */
module CatalogRefresh {
  import opened Options
  import opened CatalogFetch

  function Uris(items: seq<Item>): (us: seq<string>)
    ensures |us| == |items| && forall k :: 0 <= k < |us| ==> us[k] == items[k].uri
  {
    seq(|items|, k requires 0 <= k < |items| => items[k].uri)
  }

  predicate Knows(cached: seq<Item>, it: Item) { it.uri != "" && exists k :: 0 <= k < |cached| && cached[k].uri == it.uri }

  /** Where the cached list first has this URI. */
  function IndexOf(cached: seq<Item>, uri: string): (i: nat)
    requires exists k :: 0 <= k < |cached| && cached[k].uri == uri
    ensures i < |cached| && cached[i].uri == uri && forall k :: 0 <= k < i ==> cached[k].uri != uri
  {
    if cached[0].uri == uri then 0 else
      assert exists k :: 0 <= k < |cached[1..]| && cached[1..][k].uri == uri by {
        var k :| 0 <= k < |cached| && cached[k].uri == uri;
        assert cached[1..][k - 1].uri == uri;
      }
      1 + IndexOf(cached[1..], uri)
  }

  predicate SameUriHead(page: seq<Item>, cached: seq<Item>) {
    |page| <= |cached| && forall k :: 0 <= k < |page| ==> page[k].uri == cached[k].uri
  }

  /** How many of the server's newest tracks are unknown before the first known one. */
  function Unknown(cached: seq<Item>, server: seq<Item>): (n: nat)
    ensures n <= |server| && (n < |server| ==> Knows(cached, server[n]))
    ensures forall k :: 0 <= k < n ==> !Knows(cached, server[k])
  {
    if server == [] || Knows(cached, server[0]) then 0 else 1 + Unknown(cached, server[1..])
  }

  ghost predicate NoneKnown(cached: seq<Item>, server: seq<Item>, n: nat) {
    n <= |server| && forall k :: 0 <= k < n ==> !Knows(cached, server[k])
  }

  lemma UnknownIs(cached: seq<Item>, server: seq<Item>, n: nat)
    requires NoneKnown(cached, server, n) && (n < |server| ==> Knows(cached, server[n]))
    ensures Unknown(cached, server) == n
  {
  }

  lemma NoneKnownMore(cached: seq<Item>, server: seq<Item>, offset: nat, page: seq<Item>, i: nat)
    requires NoneKnown(cached, server, offset) && page == Slice(server, offset, PAGE_SIZE)
    requires i <= |page| && forall k :: 0 <= k < i ==> !Knows(cached, page[k])
    ensures NoneKnown(cached, server, offset + i)
    ensures server[..offset] + page[..i] == server[..offset + i]
    ensures i < |page| ==> page[i] == server[offset + i]
    ensures |page| < PAGE_SIZE ==> offset + |page| == |server|
  {
    assert forall k :: 0 <= k < |page| ==> page[k] == server[offset + k];
    forall k | offset <= k < offset + i
      ensures !Knows(cached, server[k])
    {
      assert page[k - offset] == server[k];
    }
  }

  datatype Path = Unchanged | AllNew | Spliced(overlap: nat) | Refetched

  function Plan(cached: seq<Item>, oldTotal: nat, server: seq<Item>): Path {
    if |server| == oldTotal && SameUriHead(Slice(server, 0, PAGE_SIZE), cached) then Unchanged
    else
      var n := Unknown(cached, server);
      if n == |server| then AllNew
      else
        var overlap := IndexOf(cached, server[n].uri);
        if n + (|cached| - overlap) == |server| then Spliced(overlap) else Refetched
  }

  /** The list the refresh leaves behind. */
  function Refreshed(cached: seq<Item>, oldTotal: nat, server: seq<Item>): seq<Item> {
    match Plan(cached, oldTotal, server)
    case Unchanged => cached
    case AllNew => server
    case Spliced(overlap) => server[..Unknown(cached, server)] + if overlap <= |cached| then cached[overlap..] else []
    case Refetched => server
  }

  // ----- When the result is right -----

  predicate Distinct(us: seq<string>) { forall i, j :: 0 <= i < j < |us| ==> us[i] != us[j] }

  predicate NonEmptyUris(items: seq<Item>) { forall k :: 0 <= k < |items| ==> items[k].uri != "" }

  /** `a` is what is left of `b` after removing some entries. */
  predicate IsSubsequence(a: seq<string>, b: seq<string>)
    decreases |b|
  {
    a == [] || (b != [] && ((a[0] == b[0] && IsSubsequence(a[1..], b[1..])) || IsSubsequence(a, b[1..])))
  }

  lemma {:induction false} SubsequenceLength(a: seq<string>, b: seq<string>)
    requires IsSubsequence(a, b)
    ensures |a| <= |b|
    ensures |a| == |b| ==> a == b
    decreases |b|
  {
    if a != [] {
      if a[0] == b[0] && IsSubsequence(a[1..], b[1..]) {
        SubsequenceLength(a[1..], b[1..]);
      } else {
        SubsequenceLength(a, b[1..]);
      }
    }
  }

  lemma {:induction false} SelfSubsequence(a: seq<string>)
    ensures IsSubsequence(a, a)
  {
    if a != [] {
      SelfSubsequence(a[1..]);
    }
  }

  lemma {:induction false} SuffixSubsequence(b: seq<string>, k: nat)
    requires k <= |b|
    ensures IsSubsequence(b[k..], b)
    decreases k
  {
    if k == 0 {
      assert b[0..] == b;
      SelfSubsequence(b);
    } else {
      assert b[1..][k - 1..] == b[k..];
      SuffixSubsequence(b[1..], k - 1);
    }
  }

  /** A subsequence that starts with entry `k` of a list without repeats lies behind it. */
  lemma {:induction false} SubsequenceFrom(a: seq<string>, b: seq<string>, k: nat)
    requires IsSubsequence(a, b) && Distinct(b) && a != [] && k < |b| && a[0] == b[k]
    ensures IsSubsequence(a, b[k..])
    decreases k
  {
    if k == 0 {
      assert b[0..] == b;
    } else {
      assert b[0] != b[k];
      assert b[1..][k - 1..] == b[k..];
      SubsequenceFrom(a, b[1..], k - 1);
    }
  }

  /** From its first known track on, the server's list is what is left of the cached one. */
  predicate KeepsOrder(cached: seq<Item>, server: seq<Item>) {
    IsSubsequence(Uris(server[Unknown(cached, server)..]), Uris(cached))
  }

  lemma SplicedUris(head: seq<string>, rest: seq<string>, us: seq<string>, overlap: nat)
    requires Distinct(us) && overlap < |us| && |rest| == |us| - overlap && rest[0] == us[overlap]
    ensures head + us[overlap..] == head + rest <==> IsSubsequence(rest, us)
  {
    assert (head + us[overlap..])[|head|..] == us[overlap..] && (head + rest)[|head|..] == rest;
    SuffixSubsequence(us, overlap);
    if IsSubsequence(rest, us) {
      SubsequenceFrom(rest, us, overlap);
      SubsequenceLength(rest, us[overlap..]);
    }
  }

  lemma SplicedExactly(cached: seq<Item>, server: seq<Item>, n: nat, overlap: nat)
    requires Distinct(Uris(cached)) && n < |server| && overlap < |cached| && n + (|cached| - overlap) == |server|
    requires cached[overlap].uri == server[n].uri
    ensures Uris(server[..n] + cached[overlap..]) == Uris(server) <==>
            IsSubsequence(Uris(server[n..]), Uris(cached))
  {
    SplicedUris(Uris(server[..n]), Uris(server[n..]), Uris(cached), overlap);
    UrisConcat(server[..n], server[n..]);
    assert server[..n] + server[n..] == server;
    UrisConcat(server[..n], cached[overlap..]);
    UrisFrom(cached, overlap);
  }

  lemma UrisConcat(a: seq<Item>, b: seq<Item>)
    ensures Uris(a + b) == Uris(a) + Uris(b)
  {
  }

  lemma UrisFrom(a: seq<Item>, k: nat)
    requires k <= |a|
    ensures Uris(a[k..]) == Uris(a)[k..]
  {
  }

  lemma UnchangedExactly(cached: seq<Item>, server: seq<Item>)
    requires Distinct(Uris(cached)) && NonEmptyUris(cached)
    requires |server| == |cached| && SameUriHead(Slice(server, 0, PAGE_SIZE), cached)
    ensures Uris(cached) == Uris(server) <==> KeepsOrder(cached, server)
  {
    if server != [] {
      assert Slice(server, 0, PAGE_SIZE)[0] == server[0] && server[0].uri == cached[0].uri;
      assert Knows(cached, server[0]);
    }
    assert Unknown(cached, server) == 0 && server[0..] == server;
    if KeepsOrder(cached, server) {
      SubsequenceLength(Uris(server), Uris(cached));
    }
    SelfSubsequence(Uris(cached));
  }

  /** Position `k` of the cache has the first known track of the server's list, which is entry `n`. */
  ghost predicate MeetAt(cached: seq<Item>, server: seq<Item>, n: nat, k: nat) {
    && n < |server| && k < |cached| && server[n].uri != "" && cached[k].uri == server[n].uri
    && (forall i :: 0 <= i < k ==> cached[i].uri != server[n].uri)
    && NoneKnown(cached, server, n)
  }

  /** The two can pass for the same list, or for one that the cache is spliced onto. */
  ghost predicate LooksRight(cached: seq<Item>, server: seq<Item>) {
    || (|server| == |cached| && forall i :: 0 <= i < |server| && i < 50 ==> server[i].uri == cached[i].uri)
    || (exists n: nat, k: nat :: MeetAt(cached, server, n, k) && n + (|cached| - k) == |server|)
  }

  lemma PlanMeets(cached: seq<Item>, oldTotal: nat, server: seq<Item>)
    ensures
      var plan := Plan(cached, oldTotal, server);
      plan != Unchanged ==>
        (plan.Spliced? <==> exists n: nat, k: nat :: MeetAt(cached, server, n, k) && n + (|cached| - k) == |server|)
  {
    var n := Unknown(cached, server);
    assert NoneKnown(cached, server, n);
    if n < |server| {
      var k := IndexOf(cached, server[n].uri);
      assert MeetAt(cached, server, n, k);
    }
    forall m: nat, k: nat | MeetAt(cached, server, m, k)
      ensures m == n && k == IndexOf(cached, server[n].uri)
    {
      assert Knows(cached, server[m]);
      UnknownIs(cached, server, m);
    }
  }

  /** For any cached list without repeats and any server list: the refresh yields the server's
    URIs exactly when the lists do not look right for a shortcut, and everything is read, or the
    server's list behind its first known track is what is left of the cached one. */
  lemma RefreshExact(cached: seq<Item>, server: seq<Item>)
    requires Distinct(Uris(cached)) && NonEmptyUris(cached)
    ensures Uris(Refreshed(cached, |cached|, server)) == Uris(server) <==>
            !LooksRight(cached, server) || KeepsOrder(cached, server)
    ensures !LooksRight(cached, server) ==> Refreshed(cached, |cached|, server) == server
  {
    PlanMeets(cached, |cached|, server);
    if |server| == |cached| {
      SameHead(cached, server);
    }
    match Plan(cached, |cached|, server)
    case Unchanged => UnchangedExactly(cached, server);
    case Spliced(overlap) => SplicedExactly(cached, server, Unknown(cached, server), overlap);
    case _ =>
  }

  /** A list counts as unchanged exactly when the server's total is the stored one and its newest 50
    tracks are the first of the cache. */
  lemma UnchangedIs(cached: seq<Item>, oldTotal: nat, server: seq<Item>)
    ensures Plan(cached, oldTotal, server) == Unchanged <==>
            |server| == oldTotal && forall i :: 0 <= i < |server| && i < 50 ==> i < |cached| && server[i].uri == cached[i].uri
  {
    var page := Slice(server, 0, PAGE_SIZE);
    assert forall i :: 0 <= i < |page| ==> page[i] == server[i];
    if forall i :: 0 <= i < |server| && i < 50 ==> i < |cached| && server[i].uri == cached[i].uri {
      assert |page| > 0 ==> |page| - 1 < |cached| by {
        if |page| > 0 {
          assert server[|page| - 1].uri == cached[|page| - 1].uri;
        }
      }
    } else {
      var i :| 0 <= i < |server| && i < 50 && !(i < |cached| && server[i].uri == cached[i].uri);
      assert page[i] == server[i];
    }
  }

  lemma SameHead(cached: seq<Item>, server: seq<Item>)
    requires |server| == |cached|
    ensures SameUriHead(Slice(server, 0, PAGE_SIZE), cached) <==>
            forall i :: 0 <= i < |server| && i < 50 ==> server[i].uri == cached[i].uri
  {
    var page := Slice(server, 0, PAGE_SIZE);
    assert forall i :: 0 <= i < |page| ==> page[i] == server[i];
    if SameUriHead(page, cached) {
      forall i | 0 <= i < |server| && i < 50
        ensures server[i].uri == cached[i].uri
      {
        assert page[i].uri == cached[i].uri;
      }
    }
  }

  /** In particular when tracks were only added at the head, none of them known, and removed. */
  lemma AddedAndRemoved(cached: seq<Item>, added: seq<Item>, kept: seq<Item>)
    requires Distinct(Uris(cached)) && NonEmptyUris(cached)
    requires forall k :: 0 <= k < |added| ==> !Knows(cached, added[k])
    requires IsSubsequence(Uris(kept), Uris(cached))
    ensures Uris(Refreshed(cached, |cached|, added + kept)) == Uris(added + kept)
  {
    var server := added + kept;
    RefreshExact(cached, server);
    if kept != [] {
      SubsequenceMember(Uris(kept), Uris(cached));
      assert Knows(cached, kept[0]);
      assert server[|added|] == kept[0];
    }
    assert Unknown(cached, server) == |added|;
    assert server[|added|..] == kept;
  }

  lemma {:induction false} SubsequenceMember(a: seq<string>, b: seq<string>)
    requires IsSubsequence(a, b) && a != []
    ensures exists k :: 0 <= k < |b| && b[k] == a[0]
    decreases |b|
  {
    if a[0] != b[0] {
      SubsequenceMember(a, b[1..]);
      var k :| 0 <= k < |b[1..]| && b[1..][k] == a[0];
      assert b[k + 1] == a[0];
    }
  }

  function Track(uri: string): Item { Item("", "", uri) }

  /** A known track that is moved to the head defeats the length check: the cached list was
    a b c d, c was liked again, a and d were removed, and the refresh ends with c d. */
  lemma MovedToHead()
    ensures
      var cached := [Track("a"), Track("b"), Track("c"), Track("d")];
      var server := [Track("c"), Track("b")];
      Plan(cached, 4, server) == Spliced(2) && Refreshed(cached, 4, server) == [Track("c"), Track("d")]
  {
    var cached := [Track("a"), Track("b"), Track("c"), Track("d")];
    var server := [Track("c"), Track("b")];
    assert "a"[0] != "c"[0] && "b"[0] != "c"[0];
    assert cached[0].uri == "a" && cached[1].uri == "b" && cached[2].uri == "c";
    assert Knows(cached, server[0]);
    UnknownIs(cached, server, 0);
    assert IndexOf(cached, "c") == 2;
    assert cached[2..] == [Track("c"), Track("d")];
  }

  // ----- The object -----

  datatype Result = FetchFailed | NoChange | Updated(items: seq<Item>)

  /** Reads the whole list. */
  method FetchAllPaged(f: Fetcher, q: Query) returns (all: Option<seq<Item>>)
    modifies f
    ensures all.Some? ==> all.value == Content(f.lib, q)
    ensures f.Reliable() ==> all.Some?
  {
    var items: seq<Item> := [];
    var offset := 0;
    ghost var server := Content(f.lib, q);
    while true
      invariant offset == |items| <= |server| && items == server[..offset]
      decreases |server| - offset
    {
      var out, _ := f.Do(q, offset, PAGE_SIZE);
      if out.Failed? {
        return None;
      }
      items := items + out.page.items;
      offset := offset + |out.page.items|;
      if |out.page.items| < PAGE_SIZE || (out.page.total > 0 && offset >= out.page.total) {
        break;
      }
    }
    return Some(items);
  }

  class LikedCache {
    var liked: seq<Item>
    var total: nat

    constructor (liked: seq<Item>, total: nat)
      ensures this.liked == liked && this.total == total
    {
      this.liked, this.total := liked, total;
    }

    /** The first index of every non-empty URI. */
    method BuildIndex() returns (index: map<string, nat>)
      ensures forall uri :: uri in index <==> uri != "" && exists k :: 0 <= k < |liked| && liked[k].uri == uri
      ensures forall uri :: uri in index ==> index[uri] == IndexOf(liked, uri)
    {
      index := map[];
      for i := 0 to |liked|
        invariant forall uri :: uri in index <==> uri != "" && exists k :: 0 <= k < i && liked[k].uri == uri
        invariant forall uri :: uri in index ==> index[uri] < i && liked[index[uri]].uri == uri
        invariant forall uri, k :: uri in index && 0 <= k < index[uri] ==> liked[k].uri != uri
      {
        var uri := liked[i].uri;
        if uri != "" && uri !in index {
          index := index[uri := i];
        }
      }
    }

    /** Where a page has its first known track, if it has one. */
    method ScanPage(index: map<string, nat>, cur: seq<Item>) returns (found: bool, i: nat)
      requires forall uri :: uri in index <==> uri != "" && exists k :: 0 <= k < |liked| && liked[k].uri == uri
      ensures i <= |cur| && forall k :: 0 <= k < i ==> !Knows(liked, cur[k])
      ensures if found then i < |cur| && cur[i].uri in index && Knows(liked, cur[i]) else i == |cur|
    {
      found, i := false, 0;
      while i < |cur|
        invariant i <= |cur| && !found
        invariant forall k :: 0 <= k < i ==> !Knows(liked, cur[k])
      {
        if cur[i].uri != "" && cur[i].uri in index {
          found := true;
          break;
        }
        i := i + 1;
      }
    }

    /** Reads pages until a known track: the unknown ones before it, and its place in the cache.
      `page` is the first page. */
    method ReadUnknown(f: Fetcher, page: seq<Item>, total: nat)
        returns (ok: bool, prepended: seq<Item>, overlap: int, short: bool)
      requires page == Slice(f.lib.liked, 0, PAGE_SIZE) && total == |f.lib.liked|
      modifies f
      ensures ok ==>
        var n := Unknown(liked, f.lib.liked);
        && prepended == f.lib.liked[..n]
        && (n == |f.lib.liked| ==> overlap == -1 && short)
        && (n < |f.lib.liked| ==> overlap == IndexOf(liked, f.lib.liked[n].uri))
      ensures f.Reliable() ==> ok
    {
      ghost var server := f.lib.liked;
      var index := BuildIndex();
      ok, prepended, overlap := true, [], -1;
      var offset := 0;
      var cur := page;
      while true
        invariant offset <= |server| && cur == Slice(server, offset, PAGE_SIZE)
        invariant prepended == server[..offset] && overlap == -1 && ok
        invariant NoneKnown(liked, server, offset)
        decreases |server| - offset
      {
        var found, i := ScanPage(index, cur);
        NoneKnownMore(liked, server, offset, cur, i);
        prepended := prepended + cur[..i];
        short := |cur| < PAGE_SIZE;
        if found {
          overlap := index[cur[i].uri];
          UnknownIs(liked, server, offset + i);
          return;
        }
        if short {
          UnknownIs(liked, server, offset + i);
          return;
        }
        offset := offset + |cur|;
        if offset > total + PAGE_SIZE {
          break;
        }
        var out, _ := f.Do(Liked, offset, PAGE_SIZE);
        if out.Failed? {
          ok := false;
          return;
        }
        cur := out.page.items;
      }
    }

    method RefreshLiked(f: Fetcher) returns (r: Result)
      modifies this`total, f
      ensures r.FetchFailed? ==> total == old(total)
      ensures r.NoChange? ==> total == old(total) && Plan(liked, old(total), f.lib.liked) == Unchanged
      ensures r.Updated? ==>
                && total == |f.lib.liked|
                && Plan(liked, old(total), f.lib.liked) != Unchanged
                && r.items == Refreshed(liked, old(total), f.lib.liked)
      ensures f.Reliable() ==> !r.FetchFailed?
    {
      var out, _ := f.Do(Liked, 0, PAGE_SIZE);
      if out.Failed? {
        return FetchFailed;
      }
      var page, newTotal := out.page.items, out.page.total;
      if newTotal == total && SameUriHead(page, liked) {
        return NoChange;
      }
      var ok, prepended, overlap, short := ReadUnknown(f, page, newTotal);
      if !ok {
        return FetchFailed;
      }
      if overlap >= 0 {
        var merged := prepended + liked[overlap..];
        if |merged| == newTotal {
          total := newTotal;
          return Updated(merged);
        }
      } else if short && |prepended| == newTotal {
        total := newTotal;
        return Updated(prepended);
      }
      var full := FetchAllPaged(f, Liked);
      if full.None? {
        return FetchFailed;
      }
      total := newTotal;
      return Updated(full.value);
    }

    /** The liked part of a refresh: a failure leaves the cache as it was. */
    method Refresh(f: Fetcher) returns (r: Result)
      modifies this, f
      ensures r.FetchFailed? ==> liked == old(liked) && total == old(total)
      ensures !r.FetchFailed? ==> liked == Refreshed(old(liked), old(total), f.lib.liked) && total == |f.lib.liked|
      ensures f.Reliable() ==> !r.FetchFailed?
    {
      r := RefreshLiked(f);
      if r.Updated? {
        liked := r.items;
      }
    }
  }
}
