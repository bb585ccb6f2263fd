/** One catalog fetch with its retries (`do` in daemon/voice_catalog.go).

  The server is an unchanging library that answers every page request exactly; a script decides
  which of the fetches fail and how, and where the caller cancels.  `Do` retries, and returns as a
  ghost what happened round by round; `WellRun` says what that may look like.  Times are in
  seconds.
 */
module CatalogFetch {
  import opened Options

  const PAGE_SIZE: nat := 50
  const MAX_RETRIES: nat := 6
  const BACKOFF_START: nat := 2
  const BACKOFF_CAP: nat := 60

  // ----- The library -----

  datatype Item = Item(name: string, artist: string, uri: string)

  datatype Query = Liked | Playlists | Artists | Albums | TracksOf(uri: string)

  datatype Library = Library(
    liked: seq<Item>, playlists: seq<Item>, artists: seq<Item>, albums: seq<Item>, tracks: string -> seq<Item>)

  function Content(lib: Library, q: Query): seq<Item> {
    match q
    case Liked => lib.liked
    case Playlists => lib.playlists
    case Artists => lib.artists
    case Albums => lib.albums
    case TracksOf(uri) => lib.tracks(uri)
  }

  datatype Page = Page(items: seq<Item>, total: nat)

  function Slice(all: seq<Item>, offset: nat, limit: nat): seq<Item> {
    if offset >= |all| then [] else if offset + limit >= |all| then all[offset..] else all[offset..offset + limit]
  }

  function Served(all: seq<Item>, offset: nat, limit: nat): Page { Page(Slice(all, offset, limit), |all|) }

  // ----- One fetch -----

  /** `PersistedQuery` is a rotated query hash, `Network` anything without an HTTP status. */
  datatype FetchError = PersistedQuery | Http(status: int, retryAfter: int) | Network

  datatype Reply = Answer(page: Page) | Error(error: FetchError)

  datatype Failure = HashRotated | BadRequest | GaveUp | Cancelled

  datatype Outcome = Fetched(page: Page) | Failed(failure: Failure)

  /** One attempt: the ordinary fetch, the forced one if there was one, and the wait it ended in. */
  datatype Round = Round(plain: Reply, forced: Option<Reply>, wait: Option<int>)

  predicate IsAuthError(e: FetchError) { e.Http? && (e.status == 401 || e.status == 403) }

  predicate IsThrottle(e: FetchError) { e.Http? && (e.status == 429 || e.status >= 500) }

  predicate IsBadRequest(e: FetchError) { e.Http? && e.status == 400 }

  function NextBackoff(b: nat): nat { if b * 2 > BACKOFF_CAP then BACKOFF_CAP else b * 2 }

  /** The backoff of round `k`. */
  function Backoff(k: nat): nat { if k == 0 then BACKOFF_START else NextBackoff(Backoff(k - 1)) }

  function Doublings(k: nat): nat { if k == 0 then 1 else 2 * Doublings(k - 1) }

  lemma {:induction false} BackoffMeaning(k: nat)
    ensures Backoff(k) == if 2 * Doublings(k) < 60 then 2 * Doublings(k) else 60
  {
    if k > 0 {
      BackoffMeaning(k - 1);
    }
  }

  // ----- What the rounds of one call may look like -----

  ghost predicate ForcedBefore(rounds: seq<Round>, k: nat)
    requires k <= |rounds|
  {
    exists j :: 0 <= j < k && rounds[j].forced.Some?
  }

  predicate Succeeds(r: Round, page: Page) { r.plain == Answer(page) || r.forced == Some(Answer(page)) }

  predicate Succeeded(r: Round) { r.plain.Answer? || (r.forced.Some? && r.forced.value.Answer?) }

  predicate Fatal(r: Round) { r.plain.Error? && (r.plain.error.PersistedQuery? || IsBadRequest(r.plain.error)) }

  /** A server-side throttle may name its own waiting time. */
  function WaitTime(r: Round, k: nat): int {
    if r.plain.Error? && IsThrottle(r.plain.error) && r.plain.error.retryAfter > 0
    then r.plain.error.retryAfter else Backoff(k)
  }

  /** Only a first authorisation error is answered by a forced fetch, and a round that neither
    succeeded nor failed for good ends in a wait, of the right length. */
  ghost predicate RightfulRound(rounds: seq<Round>, k: nat)
    requires k < |rounds|
  {
    var r := rounds[k];
    && (r.forced.Some? ==> r.plain.Error? && IsAuthError(r.plain.error) && !ForcedBefore(rounds, k))
    && (r.wait.Some? ==> !Succeeded(r) && !Fatal(r) && k < MAX_RETRIES && r.wait.value == WaitTime(r, k))
    && (k + 1 < |rounds| ==> Waits(r, !ForcedBefore(rounds, k)))
  }

  /** A round that is followed by another: it waited, and forced where it could. */
  predicate Waits(r: Round, mayForce: bool) {
    r.wait.Some? && (r.plain.Error? && IsAuthError(r.plain.error) && mayForce ==> r.forced.Some?)
  }

  /** The rounds up to here, all of which will be followed by another. */
  ghost predicate SoFar(rounds: seq<Round>) {
    |rounds| <= MAX_RETRIES &&
    forall k :: 0 <= k < |rounds| ==> RightfulRound(rounds, k) && Waits(rounds[k], !ForcedBefore(rounds, k))
  }

  lemma AddRound(rounds: seq<Round>, r: Round)
    requires SoFar(rounds)
    requires r.forced.Some? ==> r.plain.Error? && IsAuthError(r.plain.error) && !ForcedBefore(rounds, |rounds|)
    requires r.wait.Some? ==>
               !Succeeded(r) && !Fatal(r) && |rounds| < MAX_RETRIES && r.wait.value == WaitTime(r, |rounds|)
    ensures |rounds + [r]| <= MAX_RETRIES + 1
    ensures forall k :: 0 <= k <= |rounds| ==> RightfulRound(rounds + [r], k)
    ensures ForcedBefore(rounds + [r], |rounds| + 1) <==> ForcedBefore(rounds, |rounds|) || r.forced.Some?
    ensures Waits(r, !ForcedBefore(rounds, |rounds|)) && r.wait.Some? ==> SoFar(rounds + [r])
  {
    var longer := rounds + [r];
    forall k | 0 <= k <= |rounds|
      ensures ForcedBefore(longer, k) <==> ForcedBefore(rounds, k)
    {
      assert forall j :: 0 <= j < k ==> longer[j] == rounds[j];
    }
    forall k | 0 <= k < |rounds|
      ensures RightfulRound(longer, k) && Waits(longer[k], !ForcedBefore(longer, k))
    {
      assert RightfulRound(rounds, k) && longer[k] == rounds[k];
    }
    assert longer[|rounds|] == r;
  }

  ghost predicate WellRun(rounds: seq<Round>, out: Outcome) {
    && |rounds| <= MAX_RETRIES + 1
    && (forall k :: 0 <= k < |rounds| ==> RightfulRound(rounds, k))
    && match out
       case Fetched(page) => rounds != [] && Succeeds(rounds[|rounds| - 1], page)
       case Failed(HashRotated) => rounds != [] && rounds[|rounds| - 1].plain == Error(PersistedQuery)
       case Failed(BadRequest) =>
         rounds != [] && rounds[|rounds| - 1].plain.Error? && IsBadRequest(rounds[|rounds| - 1].plain.error)
       case Failed(GaveUp) =>
         |rounds| == MAX_RETRIES + 1 && !Succeeded(rounds[MAX_RETRIES]) && !Fatal(rounds[MAX_RETRIES])
       case Failed(Cancelled) => rounds == [] || (!Succeeded(rounds[|rounds| - 1]) && !Fatal(rounds[|rounds| - 1]))
  }

  /** How a round ends: for good, or with a retry, possibly after a time the server named. */
  datatype RoundEnd = Ends(out: Outcome) | Retries(forced: bool, wait: Option<int>)

  ghost predicate RightfulEnd(r: Round, usedForceRetry: bool, end: RoundEnd) {
    && r.wait.None?
    && (r.forced.Some? ==> r.plain.Error? && IsAuthError(r.plain.error) && !usedForceRetry)
    && match end
       case Retries(forced, wait) =>
         && !Succeeded(r) && !Fatal(r) && forced == r.forced.Some?
         && (r.plain.Error? && IsAuthError(r.plain.error) && !usedForceRetry ==> forced)
         && wait == (if r.plain.Error? && IsThrottle(r.plain.error) && r.plain.error.retryAfter > 0
                     then Some(r.plain.error.retryAfter) else None)
       case Ends(Fetched(page)) => Succeeds(r, page)
       case Ends(Failed(HashRotated)) => r.plain == Error(PersistedQuery)
       case Ends(Failed(BadRequest)) => r.plain.Error? && IsBadRequest(r.plain.error)
       case Ends(Failed(GaveUp)) => false
       case Ends(Failed(Cancelled)) => !Succeeded(r) && !Fatal(r)
  }

  function RoundReplies(r: Round): seq<Reply> { [r.plain] + if r.forced.Some? then [r.forced.value] else [] }

  /** All replies of the rounds, in order. */
  function Replies(rounds: seq<Round>): seq<Reply> {
    if rounds == [] then []
    else Replies(rounds[..|rounds| - 1]) + RoundReplies(rounds[|rounds| - 1])
  }

  lemma MoreReplies(rounds: seq<Round>, r: Round)
    ensures Replies(rounds + [r]) == Replies(rounds) + RoundReplies(r)
  {
    assert (rounds + [r])[..|rounds|] == rounds;
  }

  /** A round that ends the call makes a well-formed run. */
  lemma RunEnds(rounds: seq<Round>, r: Round, usedForceRetry: bool, end: RoundEnd)
    requires SoFar(rounds) && (usedForceRetry <==> ForcedBefore(rounds, |rounds|))
    requires RightfulEnd(r, usedForceRetry, end)
    ensures end.Ends? ==> WellRun(rounds + [r], end.out)
    ensures end.Retries? && |rounds| == MAX_RETRIES ==> WellRun(rounds + [r], Failed(GaveUp))
  {
    AddRound(rounds, r);
  }

  /** A round that is retried extends the run by its wait. */
  lemma RunContinues(rounds: seq<Round>, r: Round, usedForceRetry: bool, end: RoundEnd)
    requires SoFar(rounds) && (usedForceRetry <==> ForcedBefore(rounds, |rounds|))
    requires RightfulEnd(r, usedForceRetry, end) && end.Retries? && |rounds| < MAX_RETRIES
    ensures
      var wait := if end.wait.Some? then end.wait.value else Backoff(|rounds|);
      var longer := rounds + [r.(wait := Some(wait))];
      SoFar(longer) && (ForcedBefore(longer, |longer|) <==> usedForceRetry || end.forced)
  {
    var wait := if end.wait.Some? then end.wait.value else Backoff(|rounds|);
    AddRound(rounds, r.(wait := Some(wait)));
  }

  lemma RunCancelled(rounds: seq<Round>)
    requires SoFar(rounds)
    ensures WellRun(rounds, Failed(Cancelled))
  {
    if rounds != [] {
      assert RightfulRound(rounds, |rounds| - 1);
    }
  }

  // ----- The object -----

  class Fetcher {
    const lib: Library
    const script: (nat, bool) -> Option<FetchError>   // how the n-th fetch fails, forced or not, if it does
    const cancel: nat -> bool                         // whether the n-th pause is cut short
    var fetches: nat
    var pauses: nat

    constructor (lib: Library, script: (nat, bool) -> Option<FetchError>, cancel: nat -> bool)
      ensures this.lib == lib && this.script == script && this.cancel == cancel && fetches == 0
    {
      this.lib, this.script, this.cancel := lib, script, cancel;
      fetches, pauses := 0, 0;
    }

    /** No fetch fails and nothing is cancelled. */
    ghost predicate Reliable() {
      (forall n, force :: script(n, force).None?) && (forall n :: !cancel(n))
    }

    /** The `n`-th fetch, if it is this one. */
    function ReplyTo(n: nat, force: bool, q: Query, offset: nat, limit: nat): Reply {
      match script(n, force)
      case None => Answer(Served(Content(lib, q), offset, limit))
      case Some(e) => Error(e)
    }

    /** The rounds record exactly the replies to the fetches from `start` on, in order. */
    ghost predicate TrueTo(rounds: seq<Round>, start: nat, q: Query, offset: nat, limit: nat)
      reads this`fetches
    {
      start <= fetches && Replies(rounds) == Scripted(start, fetches - start, q, offset, limit)
    }

    /** The replies to `k` fetches from `start` on. */
    ghost function Scripted(start: nat, k: nat, q: Query, offset: nat, limit: nat): (rs: seq<Reply>)
      ensures |rs| == k
      ensures forall i :: 0 <= i < k ==> rs[i] == ReplyTo(start + i, IsForced(start, start + i), q, offset, limit)
    {
      if k == 0 then []
      else
        var n := start + k - 1;
        Scripted(start, k - 1, q, offset, limit) + [ReplyTo(n, IsForced(start, n), q, offset, limit)]
    }

    method Fetch(q: Query, offset: nat, limit: nat, force: bool) returns (r: Reply)
      modifies this`fetches
      ensures fetches == old(fetches) + 1 && r == ReplyTo(old(fetches), force, q, offset, limit)
    {
      r := ReplyTo(fetches, force, q, offset, limit);
      fetches := fetches + 1;
    }

    /** Pacing and backing off; both end early when the caller cancels. */
    method Pause() returns (ok: bool)
      modifies this`pauses
      ensures ok == !cancel(old(pauses)) && pauses == old(pauses) + 1
    {
      ok := !cancel(pauses);
      pauses := pauses + 1;
    }

    ghost predicate RoundTrueTo(r: Round, n: nat, q: Query, offset: nat, limit: nat)
      reads this`fetches
    {
      && fetches == n + (if r.forced.Some? then 2 else 1)
      && r.plain == ReplyTo(n, false, q, offset, limit)
      && (r.forced.Some? ==> r.forced.value == ReplyTo(n + 1, true, q, offset, limit))
    }

    // --- Which fetch decides, by the script alone ---

    predicate AuthFails(i: nat) {
      var e := script(i, false);
      e.Some? && e.value.Http? && (e.value.status == 401 || e.value.status == 403)
    }

    /** Fetch `i` of a call that starts with fetch `start` is the forced one: it follows the first
      authorisation error. */
    ghost predicate IsForced(start: nat, i: nat) {
      start < i && AuthFails(i - 1) && forall j :: start <= j < i - 1 ==> !AuthFails(j)
    }

    /** How fetch `i` of that call fails, if it does. */
    ghost function Fails(start: nat, i: nat): Option<FetchError> { script(i, IsForced(start, i)) }

    /** It ends the call: an answer, or an ordinary fetch with a rotated hash or a 400. */
    ghost predicate IsFinal(start: nat, i: nat) {
      var e := Fails(start, i);
      e.None? || (!IsForced(start, i) && (e.value.PersistedQuery? || (e.value.Http? && e.value.status == 400)))
    }

    ghost predicate NoneFinal(start: nat, end: nat)
      decreases end
    {
      end <= start || (NoneFinal(start, end - 1) && !IsFinal(start, end - 1))
    }

    lemma {:induction false} NoneFinalMeaning(start: nat, end: nat)
      ensures NoneFinal(start, end) <==> forall i :: start <= i < end ==> !IsFinal(start, i)
      decreases end
    {
      if end > start {
        NoneFinalMeaning(start, end - 1);
      }
    }

    /** Seven ordinary fetches, and the forced one if any of them is refused. */
    ghost function MostFetches(start: nat): nat {
      if exists j :: start <= j < start + 7 && AuthFails(j) then 8 else 7
    }

    /** What a call that made the fetches from `start` up to `end` comes to. */
    ghost predicate Verdict(start: nat, end: nat, out: Outcome) {
      match out
      case Failed(Cancelled) => start <= end && NoneFinal(start, end)
      case Failed(GaveUp) => end == start + MostFetches(start) && NoneFinal(start, end)
      case Fetched(_) => Decided(start, end) && Fails(start, end - 1).None?
      case Failed(HashRotated) => Decided(start, end) && Fails(start, end - 1) == Some(PersistedQuery)
      case Failed(BadRequest) =>
        Decided(start, end) && Fails(start, end - 1).Some? && IsBadRequest(Fails(start, end - 1).value)
    }

    /** The last fetch is the first final one, in time. */
    ghost predicate Decided(start: nat, end: nat) {
      start < end <= start + MostFetches(start) && NoneFinal(start, end - 1) && IsFinal(start, end - 1)
    }

    /** Before an attempt: nothing is decided, and the next fetch is an ordinary one. */
    ghost predicate Undecided(start: nat, n: nat, attempt: nat, usedForceRetry: bool) {
      && n == start + attempt + (if usedForceRetry then 1 else 0)
      && NoneFinal(start, n) && !IsForced(start, n)
      && (usedForceRetry <==> exists j :: start <= j < n && AuthFails(j))
    }

    lemma FirstRefused(start: nat, n: nat) returns (j: nat)
      requires exists j :: start <= j < n && AuthFails(j)
      ensures start <= j < n && AuthFails(j) && IsForced(start, j + 1)
      decreases n
    {
      if exists j :: start <= j < n - 1 && AuthFails(j) {
        j := FirstRefused(start, n - 1);
      } else {
        j := n - 1;
      }
    }

    lemma StaysInTime(start: nat, n: nat, attempt: nat, usedForceRetry: bool)
      requires Undecided(start, n, attempt, usedForceRetry)
      ensures attempt <= MAX_RETRIES ==> n < start + MostFetches(start)
      ensures attempt == MAX_RETRIES + 1 ==> n == start + MostFetches(start)
    {
      if usedForceRetry {
        var j := FirstRefused(start, n);
        assert j != n - 1;
      }
    }

    /** A refused fetch with the forced one after it still counts as one attempt. */
    lemma ForcedInTime(start: nat, n: nat, attempt: nat)
      requires Undecided(start, n, attempt, false) && attempt <= MAX_RETRIES && AuthFails(n)
      ensures IsForced(start, n + 1) && n + 2 <= start + MostFetches(start)
    {
    }

    /** What one attempt makes of it. */
    lemma RoundVerdict(start: nat, n: nat, attempt: nat, usedForceRetry: bool, r: Round, end: RoundEnd,
                       q: Query, offset: nat, limit: nat)
      requires Undecided(start, n, attempt, usedForceRetry) && attempt <= MAX_RETRIES
      requires RightfulEnd(r, usedForceRetry, end) && RoundTrueTo(r, n, q, offset, limit)
      requires end == Ends(Failed(Cancelled)) || (r.forced.Some? <==> AuthFails(n) && !usedForceRetry)
      requires r.forced.Some? ==> AuthFails(n) && !usedForceRetry
      ensures end.Ends? ==> Verdict(start, fetches, end.out)
      ensures end.Retries? ==> Undecided(start, fetches, attempt + 1, usedForceRetry || end.forced)
    {
      StaysInTime(start, n, attempt, usedForceRetry);
      assert !IsForced(start, n);
      if r.forced.Some? {
        ForcedInTime(start, n, attempt);
        assert NoneFinal(start, n + 1) || Succeeded(r) || Fatal(r);
      }
    }

    /** The verdict read the other way: without cancellation, the script alone decides which outcome
      it is and how many fetches it takes. */
    lemma OutcomeExactly(start: nat, end: nat, out: Outcome)
      requires Verdict(start, end, out) && out != Failed(Cancelled)
      ensures out.Fetched? <==> exists m: nat :: Decided(start, m) && Fails(start, m - 1).None?
      ensures out == Failed(HashRotated) <==> exists m: nat :: Decided(start, m) && Fails(start, m - 1) == Some(PersistedQuery)
      ensures out == Failed(BadRequest) <==>
              exists m: nat :: Decided(start, m) && Fails(start, m - 1).Some? && IsBadRequest(Fails(start, m - 1).value)
      ensures out == Failed(GaveUp) <==> NoneFinal(start, start + MostFetches(start))
      ensures forall m: nat :: Decided(start, m) ==> m == end
    {
      forall m: nat | Decided(start, m)
        ensures m == end
      {
        NoneFinalMeaning(start, m - 1);
        NoneFinalMeaning(start, end);
        NoneFinalMeaning(start, end - 1);
        assert IsFinal(start, m - 1);
        assert out != Failed(GaveUp) ==> IsFinal(start, end - 1);
      }
      NoneFinalMeaning(start, start + MostFetches(start));
      if out != Failed(GaveUp) {
        assert Decided(start, end) && IsFinal(start, end - 1);
      }
    }

    lemma ReliableSucceeds(start: nat, end: nat, out: Outcome)
      requires Verdict(start, end, out)
      ensures Reliable() && out != Failed(Cancelled) ==> out.Fetched?
    {
      if Reliable() && out != Failed(Cancelled) {
        assert Decided(start, start + 1) && Fails(start, start + 1 - 1).None?;
        OutcomeExactly(start, end, out);
      }
    }

    /** Some pause between the two was cut short. */
    ghost predicate CutShort(from: nat, to: nat) { exists p :: from <= p < to && cancel(p) }

    /** One round up to its wait; `r` is `None` when the caller cancels before the first fetch. */
    method RunRound(q: Query, offset: nat, limit: nat, usedForceRetry: bool)
        returns (end: RoundEnd, ghost r: Option<Round>)
      modifies this
      ensures r.None? ==> end == Ends(Failed(Cancelled)) && fetches == old(fetches)
      ensures r.Some? ==> RightfulEnd(r.value, usedForceRetry, end) && RoundTrueTo(r.value, old(fetches), q, offset, limit)
      ensures end.Ends? && end.out.Fetched? ==> end.out.page == Served(Content(lib, q), offset, limit)
      ensures old(fetches) <= fetches
      ensures old(pauses) < pauses && (end == Ends(Failed(Cancelled)) <==> CutShort(old(pauses), pauses))
      ensures end != Ends(Failed(Cancelled)) ==>
                && r.Some? && (r.value.forced.Some? <==> AuthFails(old(fetches)) && !usedForceRetry)
                && pauses - old(pauses) == fetches - old(fetches)
    {
      var paced := Pause();
      if !paced {
        return Ends(Failed(Cancelled)), None;
      }
      var plain := Fetch(q, offset, limit, false);
      r := Some(Round(plain, None, None));
      if plain.Answer? {
        return Ends(Fetched(plain.page)), r;
      }
      if plain.error.PersistedQuery? {
        return Ends(Failed(HashRotated)), r;
      } else if IsBadRequest(plain.error) {
        return Ends(Failed(BadRequest)), r;
      } else if IsAuthError(plain.error) && !usedForceRetry {
        paced := Pause();
        if !paced {
          return Ends(Failed(Cancelled)), r;
        }
        var again := Fetch(q, offset, limit, true);
        r := Some(Round(plain, Some(again), None));
        if again.Answer? {
          return Ends(Fetched(again.page)), r;
        }
        return Retries(true, None), r;
      } else if IsThrottle(plain.error) && plain.error.retryAfter > 0 {
        return Retries(false, Some(plain.error.retryAfter)), r;
      }
      return Retries(false, None), r;
    }

    lemma TrueToMore(rounds: seq<Round>, r: Round, start: nat, n: nat, q: Query, offset: nat, limit: nat)
      requires start <= n && Replies(rounds) == Scripted(start, n - start, q, offset, limit)
      requires RoundTrueTo(r, n, q, offset, limit)
      requires !IsForced(start, n) && (r.forced.Some? ==> IsForced(start, n + 1))
      ensures TrueTo(rounds + [r], start, q, offset, limit)
    {
      MoreReplies(rounds, r);
      var before := Scripted(start, n - start, q, offset, limit);
      assert Scripted(start, n + 1 - start, q, offset, limit) == before + [r.plain];
      if r.forced.Some? {
        assert Scripted(start, n + 2 - start, q, offset, limit) == before + [r.plain] + [r.forced.value];
      }
    }

    /** All that a round adds: it ends the run well, or extends it by its wait. */
    lemma RoundRecorded(rounds: seq<Round>, r: Round, usedForceRetry: bool, end: RoundEnd,
                        start: nat, n: nat, q: Query, offset: nat, limit: nat)
      requires SoFar(rounds) && (usedForceRetry <==> ForcedBefore(rounds, |rounds|))
      requires RightfulEnd(r, usedForceRetry, end)
      requires start <= n && Replies(rounds) == Scripted(start, n - start, q, offset, limit)
      requires RoundTrueTo(r, n, q, offset, limit)
      requires !IsForced(start, n) && (r.forced.Some? ==> IsForced(start, n + 1))
      ensures TrueTo(rounds + [r], start, q, offset, limit)
      ensures end.Ends? ==> WellRun(rounds + [r], end.out)
      ensures end.Retries? && |rounds| == MAX_RETRIES ==> WellRun(rounds + [r], Failed(GaveUp))
      ensures end.Retries? && |rounds| < MAX_RETRIES ==>
                var longer := rounds + [r.(wait := Some(if end.wait.Some? then end.wait.value else Backoff(|rounds|)))];
                && SoFar(longer) && (ForcedBefore(longer, |longer|) <==> usedForceRetry || end.forced)
                && TrueTo(longer, start, q, offset, limit) && WellRun(longer, Failed(Cancelled))
    {
      RunEnds(rounds, r, usedForceRetry, end);
      TrueToMore(rounds, r, start, n, q, offset, limit);
      if end.Retries? && |rounds| < MAX_RETRIES {
        var waited := r.(wait := Some(if end.wait.Some? then end.wait.value else Backoff(|rounds|)));
        RunContinues(rounds, r, usedForceRetry, end);
        TrueToMore(rounds, waited, start, n, q, offset, limit);
        RunCancelled(rounds + [waited]);
      }
    }

    /** What a round makes of the record: `longer` before any wait, and `waited` after it. */
    ghost predicate Added(rounds: seq<Round>, longer: seq<Round>, waited: seq<Round>, usedForceRetry: bool, end: RoundEnd,
                          start: nat, q: Query, offset: nat, limit: nat)
      reads this`fetches
    {
      && TrueTo(longer, start, q, offset, limit) && |longer| <= |rounds| + 1
      && (end != Ends(Failed(Cancelled)) ==> |longer| == |rounds| + 1)
      && (end.Ends? ==> WellRun(longer, end.out))
      && (end.Retries? && |rounds| == MAX_RETRIES ==> WellRun(longer, Failed(GaveUp)))
      && (end.Retries? && |rounds| < MAX_RETRIES ==>
            && |waited| == |rounds| + 1 && SoFar(waited) && WellRun(waited, Failed(Cancelled))
            && (ForcedBefore(waited, |waited|) <==> usedForceRetry || end.forced)
            && TrueTo(waited, start, q, offset, limit)
            && waited[|rounds|].wait == Some(if end.wait.Some? then end.wait.value else Backoff(|rounds|)))
    }

    /** The record with a round that ended in its wait. */
    ghost function Waited(rounds: seq<Round>, r: Option<Round>, end: RoundEnd): seq<Round> {
      if r.Some? && end.Retries?
      then rounds + [r.value.(wait := Some(if end.wait.Some? then end.wait.value else Backoff(|rounds|)))] else rounds
    }

    ghost function Longer(rounds: seq<Round>, r: Option<Round>): seq<Round> {
      if r.Some? then rounds + [r.value] else rounds
    }

    lemma RoundAdds(rounds: seq<Round>, r: Round, usedForceRetry: bool, end: RoundEnd,
                    start: nat, n: nat, q: Query, offset: nat, limit: nat)
      requires SoFar(rounds) && (usedForceRetry <==> ForcedBefore(rounds, |rounds|)) && |rounds| <= MAX_RETRIES
      requires start <= n && Replies(rounds) == Scripted(start, n - start, q, offset, limit)
      requires Undecided(start, n, |rounds|, usedForceRetry)
      requires RightfulEnd(r, usedForceRetry, end) && RoundTrueTo(r, n, q, offset, limit)
      requires r.forced.Some? ==> AuthFails(n) && !usedForceRetry
      requires end == Ends(Failed(Cancelled)) || (r.forced.Some? <==> AuthFails(n) && !usedForceRetry)
      ensures Added(rounds, rounds + [r], Waited(rounds, Some(r), end), usedForceRetry, end, start, q, offset, limit)
      ensures end.Ends? ==> Verdict(start, fetches, end.out)
      ensures end.Retries? ==> Undecided(start, fetches, |rounds| + 1, usedForceRetry || end.forced)
    {
      if r.forced.Some? {
        ForcedInTime(start, n, |rounds|);
      }
      RoundRecorded(rounds, r, usedForceRetry, end, start, n, q, offset, limit);
      RoundVerdict(start, n, |rounds|, usedForceRetry, r, end, q, offset, limit);
    }

    /** The same when the caller cancels before the first fetch. */
    lemma NoRoundAdds(rounds: seq<Round>, usedForceRetry: bool, start: nat, q: Query, offset: nat, limit: nat)
      requires SoFar(rounds) && TrueTo(rounds, start, q, offset, limit)
      requires Undecided(start, fetches, |rounds|, usedForceRetry)
      ensures Added(rounds, rounds, rounds, usedForceRetry, Ends(Failed(Cancelled)), start, q, offset, limit)
      ensures Verdict(start, fetches, Failed(Cancelled))
    {
      RunCancelled(rounds);
    }

    lemma RoundOrNone(rounds: seq<Round>, r: Option<Round>, usedForceRetry: bool, end: RoundEnd,
                      start: nat, n: nat, q: Query, offset: nat, limit: nat)
      requires SoFar(rounds) && (usedForceRetry <==> ForcedBefore(rounds, |rounds|)) && |rounds| <= MAX_RETRIES
      requires start <= n && Replies(rounds) == Scripted(start, n - start, q, offset, limit)
      requires Undecided(start, n, |rounds|, usedForceRetry)
      requires r.None? ==> end == Ends(Failed(Cancelled)) && fetches == n
      requires r.Some? ==> RightfulEnd(r.value, usedForceRetry, end) && RoundTrueTo(r.value, n, q, offset, limit)
      requires r.Some? && r.value.forced.Some? ==> AuthFails(n) && !usedForceRetry
      requires end == Ends(Failed(Cancelled)) || (r.Some? && (r.value.forced.Some? <==> AuthFails(n) && !usedForceRetry))
      ensures Added(rounds, Longer(rounds, r), Waited(rounds, r, end), usedForceRetry, end, start, q, offset, limit)
      ensures end.Ends? ==> Verdict(start, fetches, end.out)
      ensures end.Retries? ==> Undecided(start, fetches, |rounds| + 1, usedForceRetry || end.forced)
    {
      if r.None? {
        NoRoundAdds(rounds, usedForceRetry, start, q, offset, limit);
      } else {
        RoundAdds(rounds, r.value, usedForceRetry, end, start, n, q, offset, limit);
      }
    }

    method RecordRound(q: Query, offset: nat, limit: nat, usedForceRetry: bool, ghost rounds: seq<Round>, ghost start: nat)
        returns (end: RoundEnd, ghost longer: seq<Round>, ghost waited: seq<Round>)
      requires |rounds| <= MAX_RETRIES
      requires SoFar(rounds) && (usedForceRetry <==> ForcedBefore(rounds, |rounds|))
      requires TrueTo(rounds, start, q, offset, limit)
      requires Undecided(start, fetches, |rounds|, usedForceRetry)
      modifies this
      ensures Added(rounds, longer, waited, usedForceRetry, end, start, q, offset, limit)
      ensures end.Ends? ==> Verdict(start, fetches, end.out)
      ensures end.Retries? ==> Undecided(start, fetches, |rounds| + 1, usedForceRetry || end.forced)
      ensures end.Ends? && end.out.Fetched? ==> end.out.page == Served(Content(lib, q), offset, limit)
      ensures end != Ends(Failed(GaveUp))
      ensures old(fetches) <= fetches
      ensures old(pauses) < pauses && (end == Ends(Failed(Cancelled)) <==> CutShort(old(pauses), pauses))
      ensures end != Ends(Failed(Cancelled)) ==> pauses - old(pauses) == fetches - old(fetches)
    {
      ghost var n := fetches;
      ghost var r;
      end, r := RunRound(q, offset, limit, usedForceRetry);
      longer, waited := Longer(rounds, r), Waited(rounds, r, end);
      RoundOrNone(rounds, r, usedForceRetry, end, start, n, q, offset, limit);
    }

    /** One turn of the loop below: a round and, unless it ends the call, the wait after it. */
    method Attempt(q: Query, offset: nat, limit: nat, attempt: nat, backoff: nat, usedForceRetry: bool,
                   ghost rounds: seq<Round>, ghost start: nat)
        returns (done: Option<Outcome>, force: bool, ghost longer: seq<Round>)
      requires attempt == |rounds| <= MAX_RETRIES && backoff == Backoff(attempt)
      requires SoFar(rounds) && (usedForceRetry <==> ForcedBefore(rounds, |rounds|))
      requires TrueTo(rounds, start, q, offset, limit)
      requires Undecided(start, fetches, attempt, usedForceRetry)
      modifies this
      ensures TrueTo(longer, start, q, offset, limit)
      ensures |longer| <= attempt + 1 && (done != Some(Failed(Cancelled)) ==> |longer| == attempt + 1)
      ensures done.Some? ==> WellRun(longer, done.value) && Verdict(start, fetches, done.value)
      ensures done.Some? && done.value.Fetched? ==> done.value.page == Served(Content(lib, q), offset, limit)
      ensures done.None? ==>
                attempt < MAX_RETRIES && SoFar(longer) && (force <==> ForcedBefore(longer, |longer|))
      ensures done.None? ==> Undecided(start, fetches, attempt + 1, force)
      ensures old(fetches) <= fetches
      ensures old(pauses) < pauses && (done == Some(Failed(Cancelled)) <==> CutShort(old(pauses), pauses))
      ensures done != Some(Failed(Cancelled)) ==>
                pauses - old(pauses) == fetches - old(fetches) + (if done.None? then 1 else 0)
    {
      var end;
      ghost var waited;
      end, longer, waited := RecordRound(q, offset, limit, usedForceRetry, rounds, start);
      force := usedForceRetry;
      if end.Ends? {
        done := Some(end.out);
        return;
      }
      force := usedForceRetry || end.forced;
      if attempt >= MAX_RETRIES {
        StaysInTime(start, fetches, attempt + 1, force);
        done := Some(Failed(GaveUp));
        return;
      }
      var wait: int := if end.wait.Some? then end.wait.value else backoff;
      assert waited[attempt].wait == Some(wait);
      longer := waited;
      var slept := Pause();
      done := if slept then None else Some(Failed(Cancelled));
    }

    method Do(q: Query, offset: nat, limit: nat) returns (out: Outcome, ghost rounds: seq<Round>)
      modifies this
      ensures WellRun(rounds, out) && TrueTo(rounds, old(fetches), q, offset, limit)
      ensures out.Fetched? ==> out.page == Served(Content(lib, q), offset, limit)
      ensures Reliable() ==> out.Fetched?
      ensures Verdict(old(fetches), fetches, out)
      ensures out == Failed(Cancelled) <==> CutShort(old(pauses), pauses)
      ensures out != Failed(Cancelled) ==> pauses - old(pauses) == fetches - old(fetches) + |rounds| - 1
    {
      rounds := [];
      var backoff := BACKOFF_START;
      var usedForceRetry := false;
      var attempt := 0;
      while true
        invariant attempt == |rounds| && SoFar(rounds)
        invariant TrueTo(rounds, old(fetches), q, offset, limit)
        invariant backoff == Backoff(attempt)
        invariant usedForceRetry <==> ForcedBefore(rounds, |rounds|)
        invariant Undecided(old(fetches), fetches, attempt, usedForceRetry) && attempt <= MAX_RETRIES
        invariant old(fetches) <= fetches
        invariant old(pauses) <= pauses && !CutShort(old(pauses), pauses)
        invariant pauses - old(pauses) == fetches - old(fetches) + attempt
        decreases MAX_RETRIES - attempt
      {
        var done;
        done, usedForceRetry, rounds := Attempt(q, offset, limit, attempt, backoff, usedForceRetry, rounds, old(fetches));
        if done.Some? {
          ReliableSucceeds(old(fetches), fetches, done.value);
          return done.value, rounds;
        }
        backoff := NextBackoff(backoff);
        attempt := attempt + 1;
      }
    }
  }

  /** At most seven ordinary fetches and one forced one. */
  lemma FewFetches(rounds: seq<Round>, out: Outcome, i: nat, j: nat)
    requires WellRun(rounds, out)
    ensures |rounds| <= 7
    ensures i < |rounds| && j < |rounds| && rounds[i].forced.Some? && rounds[j].forced.Some? ==> i == j
  {
    if i < |rounds| && j < |rounds| && rounds[i].forced.Some? && rounds[j].forced.Some? {
      assert RightfulRound(rounds, i) && RightfulRound(rounds, j);
    }
  }

  /** A fatal error or an answer ends the call at once, and the outcome says which it was. */
  lemma EndsAtOnce(rounds: seq<Round>, out: Outcome, k: nat)
    requires WellRun(rounds, out) && k < |rounds|
    ensures Succeeded(rounds[k]) ==> k == |rounds| - 1 && out.Fetched? && Succeeds(rounds[k], out.page)
    ensures rounds[k].plain == Error(PersistedQuery) ==> k == |rounds| - 1 && out == Failed(HashRotated)
    ensures rounds[k].plain.Error? && IsBadRequest(rounds[k].plain.error) ==> k == |rounds| - 1 && out == Failed(BadRequest)
  {
    assert RightfulRound(rounds, k);
  }

  /** Every earlier round waited: for the time that a 429 or a server error named for itself, or else
    for min(2 * 2^k, 60). */
  lemma EarlierRoundsWaited(rounds: seq<Round>, out: Outcome, k: nat)
    requires WellRun(rounds, out) && k + 1 < |rounds|
    ensures rounds[k].wait.Some? && rounds[k].plain.Error?
    ensures
      var own := if 2 * Doublings(k) < 60 then 2 * Doublings(k) else 60;
      var e := rounds[k].plain.error;
      rounds[k].wait.value ==
        if e.Http? && (e.status == 429 || e.status >= 500) && e.retryAfter > 0 then e.retryAfter else own
  {
    assert RightfulRound(rounds, k);
    BackoffMeaning(k);
  }
}
