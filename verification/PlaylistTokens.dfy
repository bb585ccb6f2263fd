/** Scanning a push payload for playlist URIs (`playlistURIsInText`, daemon/webapi_library.go).

  The scan looks for the prefix, takes the longest run of id bytes after it, and resumes behind
  that run.  Resuming there means that a token whose own prefix starts inside the run of a visited
  token is passed over; `Visited` says exactly which tokens are looked at.
 */
module PlaylistTokens {
  import SpotifyIds

  const PREFIX := "spotify:playlist:"

  predicate IsIdByte(c: char) { '0' <= c <= '9' || 'a' <= c <= 'z' || 'A' <= c <= 'Z' }

  /** The id bytes are exactly the 62 symbols that ids are written with. */
  lemma IdBytesAreSymbols(c: char)
    ensures IsIdByte(c) <==> exists d :: 0 <= d < 62 && SpotifyIds.Symbol(d) == c
  {
    if IsIdByte(c) {
      assert SpotifyIds.Symbol(SpotifyIds.Digit(c)) == c;
    }
  }

  predicate Occurs(s: string, i: nat) {
    i + |PREFIX| <= |s| && s[i..i + |PREFIX|] == PREFIX
  }

  /** The end of the run of id bytes that starts at `from`. */
  function RunEnd(s: string, from: nat): (e: nat)
    requires from <= |s|
    ensures from <= e <= |s| && (e < |s| ==> !IsIdByte(s[e]))
    ensures forall k :: from <= k < e ==> IsIdByte(s[k])
    decreases |s| - from
  {
    if from < |s| && IsIdByte(s[from]) then RunEnd(s, from + 1) else from
  }

  function TokenEnd(s: string, i: nat): nat
    requires Occurs(s, i)
  {
    RunEnd(s, i + |PREFIX|)
  }

  function Token(s: string, i: nat): string
    requires Occurs(s, i)
  {
    s[i..TokenEnd(s, i)]
  }

  /** An occurrence is looked at unless it starts inside the token of an earlier one that was. */
  ghost predicate Visited(s: string, i: nat)
    decreases i
  {
    Occurs(s, i) && forall j: nat :: j < i && Visited(s, j) ==> TokenEnd(s, j) <= i
  }

  ghost predicate Candidate(s: string, i: nat) {
    Visited(s, i) && 20 <= TokenEnd(s, i) - i - |PREFIX| <= 25
  }

  /** `out` lists the tokens of the candidates before `end` without repeats, and `at` where each
    of them appears first. */
  ghost predicate Collected(s: string, end: nat, out: seq<string>, at: seq<nat>) {
    && |at| == |out|
    && (forall a, b :: 0 <= a < b < |at| ==> at[a] < at[b])
    && (forall k :: 0 <= k < |at| ==>
          at[k] < end && Candidate(s, at[k]) && Token(s, at[k]) == out[k])
    && (forall k, i: nat :: 0 <= k < |at| && i < at[k] && Candidate(s, i) ==> Token(s, i) != out[k])
    && (forall i: nat :: i < end && Candidate(s, i) ==> Token(s, i) in out)
  }

  /** `strings.Index` on the text from `pos` on; the length of the text stands for -1. */
  method IndexOfPrefix(s: string, pos: nat) returns (i: nat)
    requires pos <= |s|
    ensures pos <= i <= |s| && (i < |s| ==> Occurs(s, i))
    ensures forall k: nat :: pos <= k < i ==> !Occurs(s, k)
    ensures i == |s| ==> forall k: nat :: k >= pos ==> !Occurs(s, k)
  {
    i := pos;
    while i < |s|
      invariant pos <= i <= |s|
      invariant forall k: nat :: pos <= k < i ==> !Occurs(s, k)
    {
      if i + |PREFIX| <= |s| && s[i..i + |PREFIX|] == PREFIX {
        return;
      }
      i := i + 1;
    }
  }

  /** Everything visited before `pos` also ends before `pos`. */
  ghost predicate Settled(s: string, pos: nat) {
    forall j: nat :: j < pos && Visited(s, j) ==> TokenEnd(s, j) <= pos
  }

  lemma NextVisited(s: string, pos: nat, i: nat)
    requires Settled(s, pos) && pos <= i && Occurs(s, i)
    requires forall k: nat :: pos <= k < i ==> !Occurs(s, k)
    ensures Visited(s, i) && Settled(s, TokenEnd(s, i))
    ensures forall k: nat :: pos <= k < TokenEnd(s, i) && Visited(s, k) ==> k == i
  {
    forall j: nat | j < i && Visited(s, j)
      ensures TokenEnd(s, j) <= i
    {
      assert j < pos;
    }
    assert Visited(s, i);
  }

  lemma CollectNothing(s: string, pos: nat, end: nat, out: seq<string>, at: seq<nat>)
    requires Collected(s, pos, out, at) && pos <= end
    requires forall k: nat :: pos <= k < end && Candidate(s, k) ==> Token(s, k) in out
    ensures Collected(s, end, out, at)
  {
  }

  lemma CollectNew(s: string, pos: nat, i: nat, out: seq<string>, at: seq<nat>)
    requires Collected(s, pos, out, at) && pos <= i && Candidate(s, i) && Token(s, i) !in out
    requires forall k: nat :: pos <= k < TokenEnd(s, i) && Visited(s, k) ==> k == i
    ensures Collected(s, TokenEnd(s, i), out + [Token(s, i)], at + [i])
  {
    var out', at' := out + [Token(s, i)], at + [i];
    forall k, j: nat | 0 <= k < |at'| && j < at'[k] && Candidate(s, j)
      ensures Token(s, j) != out'[k]
    {
      if k == |at| {
        assert j < pos;
        assert Token(s, j) in out;
      }
    }
    forall j: nat | j < TokenEnd(s, i) && Candidate(s, j)
      ensures Token(s, j) in out'
    {
      if j >= pos {
        assert j == i && out'[|out|] == Token(s, i);
      }
    }
  }

  method ScanRun(s: string, start: nat) returns (end: nat)
    requires start <= |s|
    ensures end == RunEnd(s, start)
  {
    end := start;
    while end < |s| && IsIdByte(s[end])
      invariant start <= end <= |s|
      invariant RunEnd(s, start) == RunEnd(s, end)
    {
      end := end + 1;
    }
  }

  /** Looks at one token: appends it when it is well-sized and new. */
  method Consider(s: string, i: nat, end: nat, seen: set<string>, out: seq<string>, ghost pos: nat, ghost at: seq<nat>)
      returns (seen': set<string>, out': seq<string>, ghost at': seq<nat>)
    requires Visited(s, i) && end == TokenEnd(s, i) && pos <= i
    requires Collected(s, pos, out, at) && seen == (set u | u in out)
    requires forall k: nat :: pos <= k < end && Visited(s, k) ==> k == i
    ensures Collected(s, end, out', at') && seen' == (set u | u in out')
  {
    seen', out', at' := seen, out, at;
    var idLen := end - (i + |PREFIX|);
    if 20 <= idLen <= 25 && s[i..end] !in seen {
      CollectNew(s, pos, i, out, at);
      seen' := seen + {s[i..end]};
      out' := out + [s[i..end]];
      at' := at + [i];
    } else {
      CollectNothing(s, pos, end, out, at);
    }
  }

  /** Returns the tokens, and as a ghost where each of them appears first. */
  method PlaylistUrisInText(s: string) returns (out: seq<string>, ghost at: seq<nat>)
    ensures Collected(s, |s|, out, at)
    ensures forall a, b :: 0 <= a < b < |out| ==> out[a] != out[b]
    ensures forall u :: u in out <==> exists i: nat :: Candidate(s, i) && Token(s, i) == u
    ensures forall k :: 0 <= k < |out| ==> "spotify:playlist:" <= out[k] && 20 + 17 <= |out[k]| <= 25 + 17
  {
    out, at := [], [];
    var seen: set<string> := {};
    var pos := 0;
    while true
      invariant pos <= |s| && Settled(s, pos)
      invariant Collected(s, pos, out, at)
      invariant seen == set u | u in out
      decreases |s| - pos
    {
      var i := IndexOfPrefix(s, pos);
      if i == |s| {
        CollectNothing(s, pos, |s|, out, at);
        break;
      }
      NextVisited(s, pos, i);
      var end := ScanRun(s, i + |PREFIX|);
      seen, out, at := Consider(s, i, end, seen, out, pos, at);
      pos := end;
      if end == |s| {
        break;
      }
    }
    CollectedMeaning(s, out, at);
    forall k | 0 <= k < |out|
      ensures "spotify:playlist:" <= out[k] && 37 <= |out[k]| <= 42
    {
      CandidateSize(s, at[k]);
    }
  }

  /** A visited token is a candidate exactly when its id has 20 to 25 characters. */
  lemma CandidateSize(s: string, i: nat)
    requires Visited(s, i)
    ensures Candidate(s, i) <==> 37 <= |Token(s, i)| <= 42
    ensures "spotify:playlist:" <= Token(s, i)
  {
    assert Token(s, i)[..|PREFIX|] == s[i..i + |PREFIX|];
  }

  // ----- What the scan finds -----

  /** A collection has no repeats and holds exactly the tokens of the candidates. */
  lemma CollectedMeaning(s: string, out: seq<string>, at: seq<nat>)
    requires Collected(s, |s|, out, at)
    ensures forall a, b :: 0 <= a < b < |out| ==> out[a] != out[b]
    ensures forall u :: u in out <==> exists i: nat :: Candidate(s, i) && Token(s, i) == u
  {
    forall u | u in out
      ensures exists i: nat :: Candidate(s, i) && Token(s, i) == u
    {
      var k :| 0 <= k < |out| && out[k] == u;
      assert Candidate(s, at[k]);
    }
  }

  /** Past its first letter the prefix has another 's' only where "st" follows. */
  lemma SecondS(d: nat)
    requires 0 < d < |PREFIX| && PREFIX[d] == 's'
    ensures d + 1 < |PREFIX| && PREFIX[d + 1] == 't'
  {
    assert d == 14;
  }

  lemma Spelled(s: string, i: nat)
    requires Occurs(s, i)
    ensures forall k :: i <= k < i + |PREFIX| ==> s[k] == PREFIX[k - i]
  {
    forall k | i <= k < i + |PREFIX|
      ensures s[k] == PREFIX[k - i]
    {
      assert s[k] == s[i..i + |PREFIX|][k - i];
    }
  }

  /** The prefix does not overlap itself. */
  lemma NoOverlap(s: string, j: nat, i: nat)
    requires Occurs(s, j) && Occurs(s, i) && j < i
    ensures j + |PREFIX| <= i
  {
    Spelled(s, i);
    Spelled(s, j);
    assert s[i] == PREFIX[0] && s[i + 1] == PREFIX[1];
    if i < j + |PREFIX| {
      SecondS(i - j);
      assert false;
    }
  }

  /** A token that does not start inside the id run of an earlier token is always visited. */
  lemma FreeTokenVisited(s: string, i: nat)
    requires Occurs(s, i)
    requires forall j: nat :: j < i && Occurs(s, j) ==> !(j + |PREFIX| <= i < TokenEnd(s, j))
    ensures Visited(s, i)
  {
    forall j: nat | j < i && Visited(s, j)
      ensures TokenEnd(s, j) <= i
    {
      NoOverlap(s, j, i);
    }
  }

  /** A token that is passed over has its leading "spotify" at the end of the id run of a visited
    token, so that the run cannot be told from an id. */
  lemma PassedOver(s: string, i: nat) returns (j: nat)
    requires Occurs(s, i) && !Visited(s, i)
    ensures j < i && Visited(s, j) && j + |PREFIX| <= i && TokenEnd(s, j) == i + 7
  {
    j :| j < i && Visited(s, j) && i < TokenEnd(s, j);
    NoOverlap(s, j, i);
    Letters(s, i);
    InsideRun(s, j + |PREFIX|, i, i + 7);
  }

  lemma Letters(s: string, i: nat)
    requires Occurs(s, i)
    ensures i + 7 < |s| && !IsIdByte(s[i + 7]) && forall k :: i <= k < i + 7 ==> IsIdByte(s[k])
  {
    Spelled(s, i);
    assert s[i + 7] == PREFIX[7];
    assert forall k :: 0 <= k < 7 ==> IsIdByte(PREFIX[k]);
  }

  lemma {:induction false} InsideRun(s: string, from: nat, i: nat, e: nat)
    requires from <= |s| && from <= i < RunEnd(s, from) && i < e < |s|
    requires (forall k :: i <= k < e ==> IsIdByte(s[k])) && !IsIdByte(s[e])
    ensures RunEnd(s, from) == e
  {
  }
}
