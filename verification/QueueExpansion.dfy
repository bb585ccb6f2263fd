/** Expanding the short queue preview (daemon/queue_expand.go).

  The remote device only sends the first few upcoming tracks.  When the context's track list is
  known, the full queue is the context after the active track, provided the preview agrees with
  it.  `ComputeQueueExpansion` finds the active track and builds the queue with loops; it is
  proved against `Expansion`, whose meaning the lemmas below pin down.
 */
module QueueExpansion {
  import opened Options

  const QUEUE_LIMIT := 100

  datatype QueueTrack = QueueTrack(uri: string, trackId: string, name: string, artist: string, album: string, imageUrl: string)

  type Queue = seq<QueueTrack>

  // ----- Finding the active track -----

  datatype Key = ById(id: string) | ByUri(uri: string)

  predicate Has(t: QueueTrack, key: Key) {
    match key
    case ById(id) => t.trackId == id
    case ByUri(uri) => t.uri == uri
  }

  predicate FirstAt(list: Queue, key: Key, i: int) {
    0 <= i < |list| && Has(list[i], key) && forall j :: 0 <= j < i ==> !Has(list[j], key)
  }

  function IndexFrom(list: Queue, key: Key, from: nat): (i: int)
    requires from <= |list| && forall j :: 0 <= j < from ==> !Has(list[j], key)
    ensures i == -1 || FirstAt(list, key, i)
    ensures i == -1 ==> forall j :: 0 <= j < |list| ==> !Has(list[j], key)
    decreases |list| - from
  {
    if from == |list| then -1 else if Has(list[from], key) then from else IndexFrom(list, key, from + 1)
  }

  /** By id when one is known, and by URI otherwise or when no id matches. */
  function ActiveIndex(list: Queue, activeUri: string, activeId: string): (i: int)
    ensures -1 <= i < |list|
  {
    var byId := if activeId != "" then IndexFrom(list, ById(activeId), 0) else -1;
    if byId < 0 && activeUri != "" then IndexFrom(list, ByUri(activeUri), 0) else byId
  }

  // ----- The expansion -----

  function Upcoming(list: Queue, idx: nat, repeatContext: bool): Queue
    requires idx < |list|
  {
    list[idx + 1..] + if repeatContext then list[..idx + 1] else []
  }

  predicate IsEcho(first: QueueTrack, activeUri: string, activeId: string) {
    first.uri == activeUri || (first.trackId != "" && first.trackId == activeId)
  }

  /** The preview without a leading entry that echoes the active track. */
  function Stripped(preview: Queue, activeUri: string, activeId: string): Queue {
    if preview != [] && IsEcho(preview[0], activeUri, activeId) then preview[1..] else preview
  }

  /** Every previewed track is known by its URI and is the next one of the context. */
  predicate Agrees(preview: Queue, upcoming: Queue) {
    |preview| <= |upcoming| &&
    forall i :: 0 <= i < |preview| ==> preview[i].uri != "" && preview[i].uri == upcoming[i].uri
  }

  function Cut(q: Queue): Queue { if |q| > QUEUE_LIMIT then q[..QUEUE_LIMIT] else q }

  function Expansion(list: Queue, activeUri: string, activeId: string, repeatContext: bool, preview: Queue): Option<Queue> {
    var idx := ActiveIndex(list, activeUri, activeId);
    if idx < 0 then None
    else
      var upcoming := Upcoming(list, idx, repeatContext);
      if Agrees(Stripped(preview, activeUri, activeId), upcoming) then Some(Cut(upcoming)) else None
  }

  method FindActive(list: Queue, activeUri: string, activeId: string) returns (idx: int)
    ensures idx == ActiveIndex(list, activeUri, activeId)
  {
    idx := -1;
    if activeId != "" {
      var i := 0;
      while i < |list|
        invariant 0 <= i <= |list| && idx == -1
        invariant forall j :: 0 <= j < i ==> !Has(list[j], ById(activeId))
        invariant IndexFrom(list, ById(activeId), 0) == IndexFrom(list, ById(activeId), i)
      {
        if list[i].trackId == activeId {
          idx := i;
          break;
        }
        i := i + 1;
      }
    }
    if idx < 0 && activeUri != "" {
      var i := 0;
      while i < |list|
        invariant 0 <= i <= |list| && idx == -1
        invariant forall j :: 0 <= j < i ==> !Has(list[j], ByUri(activeUri))
        invariant IndexFrom(list, ByUri(activeUri), 0) == IndexFrom(list, ByUri(activeUri), i)
      {
        if list[i].uri == activeUri {
          idx := i;
          break;
        }
        i := i + 1;
      }
    }
  }

  method BuildUpcoming(list: Queue, idx: nat, repeatContext: bool) returns (upcoming: Queue)
    requires idx < |list|
    ensures upcoming == Upcoming(list, idx, repeatContext)
  {
    upcoming := [];
    for i := idx + 1 to |list|
      invariant upcoming == list[idx + 1..i]
    {
      upcoming := upcoming + [list[i]];
    }
    assert upcoming == list[idx + 1..];
    if repeatContext {
      for i := 0 to idx + 1
        invariant upcoming == list[idx + 1..] + list[..i]
      {
        upcoming := upcoming + [list[i]];
      }
    }
  }

  method CheckPreview(compared: Queue, upcoming: Queue) returns (ok: bool)
    ensures ok == Agrees(compared, upcoming)
  {
    if |compared| > |upcoming| {
      return false;
    }
    for i := 0 to |compared|
      invariant forall j :: 0 <= j < i ==> compared[j].uri != "" && compared[j].uri == upcoming[j].uri
    {
      if compared[i].uri == "" || compared[i].uri != upcoming[i].uri {
        return false;
      }
    }
    return true;
  }

  method ComputeQueueExpansion(list: Queue, activeUri: string, activeId: string, repeatContext: bool, preview: Queue)
      returns (expanded: Option<Queue>)
    ensures expanded == Expansion(list, activeUri, activeId, repeatContext, preview)
  {
    if |list| == 0 {
      return None;
    }
    var idx := FindActive(list, activeUri, activeId);
    if idx < 0 {
      return None;
    }
    var upcoming := BuildUpcoming(list, idx, repeatContext);
    var compared := preview;
    if |preview| > 0 {
      var first := preview[0];
      if first.uri == activeUri || (first.trackId != "" && first.trackId == activeId) {
        compared := preview[1..];
      }
    }
    var ok := CheckPreview(compared, upcoming);
    if !ok {
      return None;
    }
    if |upcoming| > QUEUE_LIMIT {
      upcoming := upcoming[..QUEUE_LIMIT];
    }
    return Some(upcoming);
  }

  // ----- What an expansion is -----

  /** `idx` is where the active track sits in its context. */
  ghost predicate ActiveAt(list: Queue, activeUri: string, activeId: string, idx: int) {
    || (activeId != "" && FirstAt(list, ById(activeId), idx))
    || (activeUri != "" && FirstAt(list, ByUri(activeUri), idx) &&
        (activeId == "" || forall j :: 0 <= j < |list| ==> list[j].trackId != activeId))
  }

  lemma ActiveIndexMeaning(list: Queue, activeUri: string, activeId: string, idx: int)
    ensures ActiveAt(list, activeUri, activeId, idx) <==> idx >= 0 && ActiveIndex(list, activeUri, activeId) == idx
  {
    if activeId != "" {
      var i := IndexFrom(list, ById(activeId), 0);
      if i >= 0 { assert Has(list[i], ById(activeId)); }
    }
    assert forall j :: 0 <= j < |list| ==> (list[j].trackId == activeId <==> Has(list[j], ById(activeId)));
  }

  /** Every previewed track has a URI, and it is that of the entry as many places behind `idx`,
    counting on from the front with repeat. */
  ghost predicate Foretells(shown: Queue, list: Queue, idx: nat, repeatContext: bool) {
    && |shown| <= (if repeatContext then |list| else |list| - idx - 1)
    && forall i :: 0 <= i < |shown| ==>
         var at := if idx + 1 + i < |list| then idx + 1 + i else idx + 1 + i - |list|;
         shown[i].uri != "" && 0 <= at < |list| && shown[i].uri == list[at].uri
  }

  lemma AgreesIsForetells(shown: Queue, list: Queue, idx: nat, repeatContext: bool)
    requires idx < |list|
    ensures Agrees(shown, Upcoming(list, idx, repeatContext)) <==> Foretells(shown, list, idx, repeatContext)
  {
    var up := Upcoming(list, idx, repeatContext);
    assert forall i :: 0 <= i < |up| ==> up[i] == list[if idx + 1 + i < |list| then idx + 1 + i else idx + 1 + i - |list|];
  }

  /** There is an expansion exactly when the active track is in the context and the preview
    agrees with what follows it; the result starts with the previewed URIs, up to the cut. */
  lemma ExpansionMeaning(list: Queue, activeUri: string, activeId: string, repeatContext: bool, preview: Queue)
    ensures
      var r := Expansion(list, activeUri, activeId, repeatContext, preview);
      var echo := preview != [] && (preview[0].uri == activeUri || (preview[0].trackId != "" && preview[0].trackId == activeId));
      var shown := if echo then preview[1..] else preview;
      && (r.Some? <==>
            exists idx :: ActiveAt(list, activeUri, activeId, idx) && Foretells(shown, list, idx, repeatContext))
      && (r.Some? ==>
            && |r.value| <= 100
            && forall i :: 0 <= i < |shown| && i < 100 ==> i < |r.value| && r.value[i].uri == shown[i].uri)
  {
    var idx := ActiveIndex(list, activeUri, activeId);
    ActiveIndexMeaning(list, activeUri, activeId, idx);
    forall i | ActiveAt(list, activeUri, activeId, i)
      ensures i == idx
    {
      ActiveIndexMeaning(list, activeUri, activeId, i);
    }
    if idx >= 0 {
      AgreesIsForetells(Stripped(preview, activeUri, activeId), list, idx, repeatContext);
    }
  }

  /** The queue shows the context after the active track, wrapping around with repeat, cut to 100
    entries. */
  lemma ExpansionOrder(list: Queue, activeUri: string, activeId: string, repeatContext: bool, preview: Queue, idx: int)
    requires Expansion(list, activeUri, activeId, repeatContext, preview).Some?
    requires ActiveAt(list, activeUri, activeId, idx)
    ensures
      var q := Expansion(list, activeUri, activeId, repeatContext, preview).value;
      var full := if repeatContext then |list| else |list| - idx - 1;
      && |q| == (if full > 100 then 100 else full)
      && forall i :: 0 <= i < |q| ==> q[i] == list[if idx + 1 + i < |list| then idx + 1 + i else idx + 1 + i - |list|]
  {
    ActiveIndexMeaning(list, activeUri, activeId, idx);
  }

  lemma RepeatRotates(list: Queue, idx: nat)
    requires idx < |list|
    ensures
      var upcoming := Upcoming(list, idx, true);
      multiset(upcoming) == multiset(list) && |upcoming| == |list| && upcoming[|list| - 1] == list[idx]
  {
    assert list == list[..idx + 1] + list[idx + 1..];
  }

  // ----- Applying it -----

  /** The queue that is shown: the expansion, or the preview where there is none. */
  function Show(list: Queue, activeUri: string, activeId: string, repeatContext: bool, preview: Queue): Queue {
    match Expansion(list, activeUri, activeId, repeatContext, preview)
    case None => preview
    case Some(q) => q
  }

  /** Applying the step to its own result changes nothing, even where the expanded queue no longer
    agrees with itself because it starts with another copy of the active track. */
  lemma ShowTwice(list: Queue, activeUri: string, activeId: string, repeatContext: bool, preview: Queue)
    ensures
      var shown := Show(list, activeUri, activeId, repeatContext, preview);
      Show(list, activeUri, activeId, repeatContext, shown) == shown
  {
  }

  function IndexOfColon(s: string, from: nat): (i: nat)
    requires from <= |s|
    ensures from <= i <= |s| && (i < |s| ==> s[i] == ':')
    ensures forall k :: from <= k < i ==> s[k] != ':'
    decreases |s| - from
  {
    if from == |s| || s[from] == ':' then from else IndexOfColon(s, from + 1)
  }

  /** What follows the second colon, if there is one. */
  function TrackIdFromUri(uri: string): string {
    var a := IndexOfColon(uri, 0);
    if a == |uri| then ""
    else
      var b := IndexOfColon(uri, a + 1);
      if b == |uri| then "" else uri[b + 1..]
  }

  const LIKED_COLLECTION := "spotify:collection:tracks"
  const PLAYLIST_PREFIX := "spotify:playlist:"
  const USER_PREFIX := "spotify:user:"
  const COLLECTION_SUFFIX := ":collection:tracks"

  predicate HasPrefix(s: string, prefix: string) { prefix <= s }

  predicate HasSuffix(s: string, suffix: string) { |suffix| <= |s| && s[|s| - |suffix|..] == suffix }

  predicate IsLikedCollectionUri(uri: string) {
    uri == LIKED_COLLECTION || (HasPrefix(uri, USER_PREFIX) && HasSuffix(uri, COLLECTION_SUFFIX))
  }

  predicate IsExpandable(uri: string) { HasPrefix(uri, PLAYLIST_PREFIX) || IsLikedCollectionUri(uri) }

  /** Besides the two proper forms there is one without a user, in which prefix and suffix share
    their colon. */
  lemma LikedCollectionUris(uri: string)
    ensures IsLikedCollectionUri(uri) <==>
            uri == "spotify:collection:tracks" || uri == "spotify:user:collection:tracks" ||
            exists user :: uri == "spotify:user:" + user + ":collection:tracks"
  {
    var a, b := |USER_PREFIX|, |COLLECTION_SUFFIX|;
    if HasPrefix(uri, USER_PREFIX) && HasSuffix(uri, COLLECTION_SUFFIX) {
      assert uri[..a] == USER_PREFIX;
      if |uri| >= a + b {
        assert uri == "spotify:user:" + uri[a..|uri| - b] + ":collection:tracks";
      } else {
        OverlapByColon(uri);
      }
    }
    if exists user :: uri == "spotify:user:" + user + ":collection:tracks" {
      var user :| uri == "spotify:user:" + user + ":collection:tracks";
      assert uri[|uri| - b..] == COLLECTION_SUFFIX;
    }
    if uri == "spotify:user:collection:tracks" {
      assert uri[|uri| - b..] == COLLECTION_SUFFIX;
    }
  }

  lemma OverlapByColon(uri: string)
    requires HasPrefix(uri, USER_PREFIX) && HasSuffix(uri, COLLECTION_SUFFIX)
    requires |uri| < |USER_PREFIX| + |COLLECTION_SUFFIX|
    ensures uri == "spotify:user:collection:tracks"
  {
    var from := |uri| - 18;
    assert forall k :: 0 <= k < 18 ==> uri[from + k] == COLLECTION_SUFFIX[k];
    assert uri[12] == ':' && uri[11] == 'r';
    assert from == 12;
    assert uri == uri[..12] + uri[12..];
  }

  /** The id is what follows the second colon. */
  lemma TrackIdMeaning(uri: string, scheme: string, kind: string, id: string)
    requires ':' !in scheme && ':' !in kind
    ensures uri == scheme + ":" + kind + ":" + id ==> TrackIdFromUri(uri) == id
    ensures uri == scheme + ":" + kind || uri == scheme ==> TrackIdFromUri(uri) == ""
  {
    var n := |scheme|;
    if uri == scheme {
      assert IndexOfColon(uri, 0) == n;
    } else if uri == scheme + ":" + kind || uri == scheme + ":" + kind + ":" + id {
      assert forall k :: 0 <= k < n ==> uri[k] == scheme[k];
      assert uri[n] == ':';
      assert IndexOfColon(uri, 0) == n;
      assert forall k :: 0 <= k < |kind| ==> uri[n + 1 + k] == kind[k];
      assert forall k :: n + 1 <= k < n + 1 + |kind| ==> uri[k] == kind[k - n - 1] && uri[k] != ':';
      if uri == scheme + ":" + kind + ":" + id {
        assert uri[n + 1 + |kind|] == ':';
        assert uri[n + 2 + |kind|..] == id;
      }
      assert IndexOfColon(uri, n + 1) == n + 1 + |kind|;
    }
  }

  const CACHE_TTL := 600_000

  datatype CacheEntry = CacheEntry(list: Queue, fetchedAt: int, asLibrary: bool)

  datatype Remote = Remote(trackUri: string, contextUri: string, shuffle: bool, repeatContext: bool)

  /** The part of the player that expands queues. */
  class Expander {
    var cache: map<string, CacheEntry>
    var inFlight: set<string>
    var likedSession: bool

    /** The cached list the queue of `remote` may be expanded from. */
    function Usable(remote: Remote, now: int): Option<Queue>
      reads this
    {
      var asLibrary := likedSession && HasPrefix(remote.contextUri, PLAYLIST_PREFIX);
      if remote.trackUri == "" || remote.shuffle || !IsExpandable(remote.contextUri) then None
      else if remote.contextUri !in cache then None
      else
        var e := cache[remote.contextUri];
        if now - e.fetchedAt >= CACHE_TTL || e.asLibrary != asLibrary then None else Some(e.list)
    }

    /** A queue is expanded only while playing in order, for a playlist or the liked tracks, from a
      list that is less than ten minutes old and was fetched by the route needed now. */
    lemma UsableExactly(remote: Remote, now: int, list: Queue)
      ensures Usable(remote, now) == Some(list) <==>
              && remote.trackUri != "" && !remote.shuffle
              && ("spotify:playlist:" <= remote.contextUri || IsLikedCollectionUri(remote.contextUri))
              && remote.contextUri in cache && cache[remote.contextUri].list == list
              && now - cache[remote.contextUri].fetchedAt < 600_000
              && (cache[remote.contextUri].asLibrary <==> likedSession && "spotify:playlist:" <= remote.contextUri)
    {
    }

    function Expanded(remote: Remote, next: Queue, now: int): Queue
      reads this
    {
      match Usable(remote, now)
      case None => next
      case Some(list) => Show(list, remote.trackUri, TrackIdFromUri(remote.trackUri), remote.repeatContext, next)
    }

    /** Returns the new upcoming queue and whether a background fetch was started. */
    method ExpandQueue(remote: Remote, next: Queue, now: int) returns (queue: Queue, fetch: bool)
      modifies this`inFlight
      ensures queue == old(Expanded(remote, next, now))
      ensures fetch <==> remote.trackUri != "" && !remote.shuffle && IsExpandable(remote.contextUri) &&
                         old(Usable(remote, now)) == None && remote.contextUri !in old(inFlight)
      ensures inFlight == if fetch then old(inFlight) + {remote.contextUri} else old(inFlight)
    {
      queue, fetch := next, false;
      if remote.trackUri == "" || remote.shuffle {
        return;
      }
      if !IsExpandable(remote.contextUri) {
        return;
      }
      var activeId := TrackIdFromUri(remote.trackUri);
      var asLibrary := likedSession && HasPrefix(remote.contextUri, PLAYLIST_PREFIX);
      var ok := remote.contextUri in cache;
      if ok && (now - cache[remote.contextUri].fetchedAt >= CACHE_TTL || cache[remote.contextUri].asLibrary != asLibrary) {
        ok := false;
      }
      if ok {
        var expanded := ComputeQueueExpansion(cache[remote.contextUri].list, remote.trackUri, activeId, remote.repeatContext, next);
        if expanded.Some? {
          queue := expanded.value;
        }
        return;
      }
      if remote.contextUri in inFlight {
        return;
      }
      inFlight := inFlight + {remote.contextUri};
      fetch := true;
    }
  }

  lemma {:induction false} AllLikeFirst(q: Queue, i: nat)
    requires i < |q| && forall k :: 0 <= k < |q| - 1 ==> q[k + 1].uri == q[k].uri
    ensures q[i].uri == q[0].uri
  {
    if i > 0 {
      AllLikeFirst(q, i - 1);
      assert q[(i - 1) + 1].uri == q[i - 1].uri;
    }
  }

  /** What an expanded queue must be like to agree, as a preview, with what it was cut from. */
  predicate AgreesWithItself(q: Queue, activeUri: string, activeId: string) {
    if q != [] && IsEcho(q[0], activeUri, activeId)
    then forall i :: 1 <= i < |q| ==> q[i].uri == q[0].uri && q[i].uri != ""
    else forall i :: 0 <= i < |q| ==> q[i].uri != ""
  }

  lemma AgreesExactly(q: Queue, upcoming: Queue, activeUri: string, activeId: string)
    requires q <= upcoming
    ensures Agrees(Stripped(q, activeUri, activeId), upcoming) <==> AgreesWithItself(q, activeUri, activeId)
  {
    if q != [] && IsEcho(q[0], activeUri, activeId) {
      var rest := q[1..];
      assert Stripped(q, activeUri, activeId) == rest;
      assert forall k :: 0 <= k < |rest| ==> rest[k] == q[k + 1] && upcoming[k] == q[k];
      if Agrees(rest, upcoming) {
        forall i | 1 <= i < |q|
          ensures q[i].uri == q[0].uri && q[i].uri != ""
        {
          assert forall k :: 0 <= k < |q| - 1 ==> q[k + 1].uri == q[k].uri by {
            assert forall k :: 0 <= k < |rest| ==> rest[k].uri == upcoming[k].uri;
          }
          AllLikeFirst(q, i);
          assert rest[i - 1].uri != "";
        }
      }
    }
  }

  /** The expanded queue is itself an accepted preview, and expands to itself, exactly when it
    starts with an echo of the active track and every later entry has the first one's non-empty
    URI, or it does not and every entry has a non-empty URI. */
  lemma ExpansionAccepted(list: Queue, activeUri: string, activeId: string, repeatContext: bool, preview: Queue)
    requires Expansion(list, activeUri, activeId, repeatContext, preview).Some?
    ensures
      var r := Expansion(list, activeUri, activeId, repeatContext, preview);
      Expansion(list, activeUri, activeId, repeatContext, r.value) == r <==> AgreesWithItself(r.value, activeUri, activeId)
  {
    var r := Expansion(list, activeUri, activeId, repeatContext, preview);
    var idx := ActiveIndex(list, activeUri, activeId);
    AgreesExactly(r.value, Upcoming(list, idx, repeatContext), activeUri, activeId);
  }
}
