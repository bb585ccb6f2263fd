/** The resumable catalog sync (`Run` and its stages in daemon/voice_catalog.go).

  The sync appends pages to a checkpoint that is saved now and then, and a restart goes on from
  whatever was saved last.  `Checkpoint` is the object the stages advance, one page at a time, by
  the functions below it; a history is any sequence of those page steps, saves that may be lost,
  and restarts, against a library that does not change.
 */
module CatalogSync {
  import opened Options
  import opened CatalogFetch

  const MAX_PLAYLISTS: nat := 200
  const PLAYLIST_PREFIX := "spotify:playlist:"

  predicate IsPlaylist(uri: string) { PLAYLIST_PREFIX <= uri }

  /** One paged list: how far it got, whether it is complete, what it holds, the last total. */
  datatype Cursor = Cursor(offset: nat, done: bool, items: seq<Item>, total: nat)

  const NEW_CURSOR := Cursor(0, false, [], 0)

  /** What the checkpoint file holds. */
  datatype Snapshot = Snapshot(
    liked: Cursor,
    playlists: Cursor,
    artists: Cursor,
    albums: Cursor,
    plIdx: nat,
    plOffset: nat,
    plDone: bool,
    plTracks: map<string, seq<Item>>,
    plCounts: map<string, nat>)

  const NEW_SNAPSHOT := Snapshot(NEW_CURSOR, NEW_CURSOR, NEW_CURSOR, NEW_CURSOR, 0, 0, false, map[], map[])

  // ----- One page -----

  predicate LastPage(items: seq<Item>, offset: nat, total: nat) {
    |items| < PAGE_SIZE || (total > 0 && offset >= total)
  }

  function AddPage(c: Cursor, page: Page): Cursor {
    var offset := c.offset + |page.items|;
    Cursor(offset, c.done || LastPage(page.items, offset, page.total), c.items + page.items,
           if page.total > 0 then page.total else c.total)
  }

  function ListStep(all: seq<Item>, c: Cursor): Cursor {
    if c.done then c else AddPage(c, Served(all, c.offset, PAGE_SIZE))
  }

  /** How many playlists the tracks stage goes through. */
  function Limit(s: Snapshot): nat { if |s.playlists.items| > MAX_PLAYLISTS then MAX_PLAYLISTS else |s.playlists.items| }

  function TracksSoFar(s: Snapshot, uri: string): seq<Item> { if uri in s.plTracks then s.plTracks[uri] else [] }

  function AddTracks(s: Snapshot, uri: string, page: Page): Snapshot {
    var offset := s.plOffset + |page.items|;
    var last := LastPage(page.items, offset, page.total);
    s.(plTracks := s.plTracks[uri := TracksSoFar(s, uri) + page.items],
       plCounts := if page.total > 0 then s.plCounts[uri := page.total] else s.plCounts,
       plIdx := if last then s.plIdx + 1 else s.plIdx,
       plOffset := if last then 0 else offset)
  }

  /** One turn of the playlist-tracks loop, or its end. */
  function TracksStep(lib: Library, s: Snapshot): Snapshot {
    if s.plDone then s
    else if s.plIdx >= Limit(s) then s.(plDone := true)
    else
      var uri := s.playlists.items[s.plIdx].uri;
      if !IsPlaylist(uri) then s.(plIdx := s.plIdx + 1, plOffset := 0)
      else AddTracks(s, uri, Served(lib.tracks(uri), s.plOffset, PAGE_SIZE))
  }

  // ----- What every checkpoint satisfies -----

  /** Exactly the server's first `offset` items, and all of them when done. */
  ghost predicate CursorExact(all: seq<Item>, c: Cursor) {
    && c.offset <= |all| && c.items == all[..c.offset]
    && (c.done ==> c.offset == |all|)
    && c.total == if c.offset > 0 then |all| else 0
  }

  ghost predicate DistinctPlaylists(items: seq<Item>) {
    forall i, j :: 0 <= i < j < |items| && IsPlaylist(items[i].uri) ==> items[i].uri != items[j].uri
  }

  /** The tracks of the playlists among the first `n` entries. */
  function Expanded(lib: Library, n: nat): map<string, seq<Item>>
    requires n <= |lib.playlists|
  {
    if n == 0 then map[]
    else
      var uri := lib.playlists[n - 1].uri;
      if IsPlaylist(uri) then Expanded(lib, n - 1)[uri := lib.tracks(uri)] else Expanded(lib, n - 1)
  }

  /** Their counts; that of an empty playlist is not stored. */
  function Counted(lib: Library, n: nat): map<string, nat>
    requires n <= |lib.playlists|
  {
    if n == 0 then map[]
    else
      var uri := lib.playlists[n - 1].uri;
      if IsPlaylist(uri) && lib.tracks(uri) != []
      then Counted(lib, n - 1)[uri := |lib.tracks(uri)|] else Counted(lib, n - 1)
  }

  ghost predicate ListedBefore(lib: Library, n: nat, uri: string)
    requires n <= |lib.playlists|
  {
    exists i :: 0 <= i < n && lib.playlists[i].uri == uri
  }

  lemma ListedStep(lib: Library, n: nat)
    requires 0 < n <= |lib.playlists|
    ensures forall uri :: ListedBefore(lib, n, uri) <==> ListedBefore(lib, n - 1, uri) || lib.playlists[n - 1].uri == uri
  {
  }

  lemma {:induction false} ExpandedMeaning(lib: Library, n: nat)
    requires n <= |lib.playlists|
    ensures forall uri :: uri in Expanded(lib, n) <==> IsPlaylist(uri) && ListedBefore(lib, n, uri)
    ensures forall uri <- Expanded(lib, n) :: Expanded(lib, n)[uri] == lib.tracks(uri)
  {
    if n > 0 {
      ExpandedMeaning(lib, n - 1);
      ListedStep(lib, n);
    }
  }

  /** The first `plIdx` entries are expanded, and the current one has its first `plOffset` tracks,
    but not yet all, if that is not zero. */
  ghost predicate TracksExact(lib: Library, s: Snapshot)
    requires CursorExact(lib.playlists, s.playlists)
  {
    && s.plIdx <= Limit(s) && (s.plDone ==> s.plOffset == 0)
    && if s.plOffset == 0
       then s.plTracks == Expanded(lib, s.plIdx) && s.plCounts == Counted(lib, s.plIdx)
       else s.plIdx < Limit(s) && InsidePlaylist(lib, s, lib.playlists[s.plIdx].uri)
  }

  ghost predicate InsidePlaylist(lib: Library, s: Snapshot, uri: string)
    requires s.plIdx < |lib.playlists|
  {
    && IsPlaylist(uri) && s.plOffset < |lib.tracks(uri)|
    && s.plTracks == Expanded(lib, s.plIdx)[uri := lib.tracks(uri)[..s.plOffset]]
    && s.plCounts == Counted(lib, s.plIdx + 1)
  }

  ghost predicate Exact(lib: Library, s: Snapshot) {
    && CursorExact(lib.liked, s.liked) && CursorExact(lib.playlists, s.playlists)
    && CursorExact(lib.artists, s.artists) && CursorExact(lib.albums, s.albums)
    && TracksExact(lib, s)
  }

  /** What that means for each playlist: before `plIdx` it holds exactly its tracks, the current one
    exactly the first `plOffset` of them, and nothing else has an entry. */
  ghost predicate NoGapNoRepeat(lib: Library, s: Snapshot)
    requires CursorExact(lib.playlists, s.playlists) && s.plIdx <= Limit(s) && (s.plOffset > 0 ==> s.plIdx < Limit(s))
  {
    && (forall i :: 0 <= i < s.plIdx && IsPlaylist(lib.playlists[i].uri) ==>
          var uri := lib.playlists[i].uri;
          uri in s.plTracks && s.plTracks[uri] == lib.tracks(uri))
    && (s.plOffset > 0 ==>
          var uri := lib.playlists[s.plIdx].uri;
          && IsPlaylist(uri) && s.plOffset < |lib.tracks(uri)|
          && uri in s.plTracks && s.plTracks[uri] == lib.tracks(uri)[..s.plOffset])
    && (forall uri <- s.plTracks ::
          IsPlaylist(uri) && ListedBefore(lib, if s.plOffset > 0 then s.plIdx + 1 else s.plIdx, uri))
  }

  /** A playlist that comes later has no entry yet. */
  lemma NotYet(lib: Library, n: nat)
    requires n < |lib.playlists| && DistinctPlaylists(lib.playlists) && IsPlaylist(lib.playlists[n].uri)
    ensures lib.playlists[n].uri !in Expanded(lib, n)
  {
    ExpandedMeaning(lib, n);
  }

  lemma ExactMeaning(lib: Library, s: Snapshot)
    requires Exact(lib, s) && DistinctPlaylists(lib.playlists)
    ensures NoGapNoRepeat(lib, s)
  {
    ExpandedMeaning(lib, s.plIdx);
    if s.plOffset > 0 {
      NotYet(lib, s.plIdx);
      assert s.plTracks.Keys == Expanded(lib, s.plIdx).Keys + {lib.playlists[s.plIdx].uri};
    }
  }

  lemma ListStepExact(all: seq<Item>, c: Cursor)
    requires CursorExact(all, c)
    ensures CursorExact(all, ListStep(all, c)) && c.offset <= ListStep(all, c).offset
    ensures !c.done ==> ListStep(all, c).done || ListStep(all, c).offset == c.offset + PAGE_SIZE
  {
  }

  lemma PageExtends(all: seq<Item>, offset: nat)
    requires offset <= |all|
    ensures
      var page := Slice(all, offset, PAGE_SIZE);
      && offset + |page| <= |all| && all[..offset] + page == all[..offset + |page|]
      && (LastPage(page, offset + |page|, |all|) <==> offset + |page| == |all|)
  {
  }

  /** The maps after a page that takes the current playlist to its first `offset` tracks. */
  lemma MapsAfterPage(lib: Library, s: Snapshot, uri: string, offset: nat)
    requires Exact(lib, s) && DistinctPlaylists(lib.playlists) && s.plIdx < Limit(s)
    requires uri == lib.playlists[s.plIdx].uri && IsPlaylist(uri) && s.plOffset <= offset <= |lib.tracks(uri)|
    ensures TracksSoFar(s, uri) == lib.tracks(uri)[..s.plOffset]
    ensures s.plTracks[uri := lib.tracks(uri)[..offset]] == Expanded(lib, s.plIdx)[uri := lib.tracks(uri)[..offset]]
    ensures (if lib.tracks(uri) != [] then s.plCounts[uri := |lib.tracks(uri)|] else s.plCounts) == Counted(lib, s.plIdx + 1)
  {
    NotYet(lib, s.plIdx);
  }

  /** A page of the current playlist. */
  lemma AddTracksExact(lib: Library, s: Snapshot)
    requires Exact(lib, s) && DistinctPlaylists(lib.playlists) && !s.plDone && s.plIdx < Limit(s)
    requires IsPlaylist(lib.playlists[s.plIdx].uri)
    ensures
      var uri := lib.playlists[s.plIdx].uri;
      TracksExact(lib, AddTracks(s, uri, Served(lib.tracks(uri), s.plOffset, PAGE_SIZE)))
  {
    var uri := lib.playlists[s.plIdx].uri;
    var all := lib.tracks(uri);
    PageExtends(all, s.plOffset);
    MapsAfterPage(lib, s, uri, s.plOffset + |Slice(all, s.plOffset, PAGE_SIZE)|);
    assert all[..|all|] == all;
  }

  lemma TracksStepExact(lib: Library, s: Snapshot)
    requires Exact(lib, s) && DistinctPlaylists(lib.playlists)
    ensures Exact(lib, TracksStep(lib, s))
  {
    if !s.plDone && s.plIdx < Limit(s) {
      assert s.playlists.items[s.plIdx] == lib.playlists[s.plIdx];
      if IsPlaylist(lib.playlists[s.plIdx].uri) {
        AddTracksExact(lib, s);
      }
    }
  }

  // ----- Histories -----

  datatype World = World(mem: Snapshot, disk: Option<Snapshot>)

  /** A page of a list, a turn of the tracks loop, a save that may get lost, and a restart, which
    loses the memory and reads the file if it can.  A failed fetch changes nothing. */
  datatype Event = ListPage(q: Query) | TracksTurn | Save(ok: bool) | Restart(readOk: bool)

  function PageStep(lib: Library, s: Snapshot, q: Query): Snapshot {
    match q
    case Liked => s.(liked := ListStep(lib.liked, s.liked))
    case Playlists => s.(playlists := ListStep(lib.playlists, s.playlists))
    case Artists => s.(artists := ListStep(lib.artists, s.artists))
    case Albums => s.(albums := ListStep(lib.albums, s.albums))
    case TracksOf(_) => s
  }

  function Load(disk: Option<Snapshot>, readOk: bool): Snapshot {
    if readOk && disk.Some? then disk.value else NEW_SNAPSHOT
  }

  function Step(lib: Library, w: World, e: Event): World {
    match e
    case ListPage(q) => w.(mem := PageStep(lib, w.mem, q))
    case TracksTurn => w.(mem := TracksStep(lib, w.mem))
    case Save(ok) => if ok then w.(disk := Some(w.mem)) else w
    case Restart(readOk) => w.(mem := Load(w.disk, readOk))
  }

  function RunEvents(lib: Library, events: seq<Event>): World {
    if events == [] then World(NEW_SNAPSHOT, None)
    else Step(lib, RunEvents(lib, events[..|events| - 1]), events[|events| - 1])
  }

  /** A restart goes on from what was saved last, and from scratch if nothing can be read. */
  lemma RestartResumes(lib: Library, w: World, ok: bool)
    ensures Step(lib, Step(lib, w, Save(true)), Restart(true)) == World(w.mem, Some(w.mem))
    ensures Step(lib, Step(lib, w, Save(false)), Restart(ok)).mem ==
            if ok && w.disk.Some? then w.disk.value else NEW_SNAPSHOT
  {
  }

  lemma PageStepExact(lib: Library, s: Snapshot, q: Query)
    requires Exact(lib, s)
    ensures Exact(lib, PageStep(lib, s, q))
  {
    match q
    case Liked => ListStepExact(lib.liked, s.liked);
    case Playlists => ListStepExact(lib.playlists, s.playlists);
    case Artists => ListStepExact(lib.artists, s.artists);
    case Albums => ListStepExact(lib.albums, s.albums);
    case TracksOf(_) =>
  }

  lemma {:induction false} KeepsExact(lib: Library, events: seq<Event>)
    requires DistinctPlaylists(lib.playlists)
    ensures
      var w := RunEvents(lib, events);
      Exact(lib, w.mem) && (w.disk.Some? ==> Exact(lib, w.disk.value))
  {
    if events != [] {
      var front, e := events[..|events| - 1], events[|events| - 1];
      KeepsExact(lib, front);
      var w := RunEvents(lib, front);
      match e
      case ListPage(q) => PageStepExact(lib, w.mem, q);
      case TracksTurn => TracksStepExact(lib, w.mem);
      case Save(_) =>
      case Restart(_) =>
    }
  }

  /** Whatever is fetched, lost, saved or restarted, in whatever order: memory and file are exact,
    without gap or repeat. */
  lemma AlwaysExact(lib: Library, events: seq<Event>)
    requires DistinctPlaylists(lib.playlists)
    ensures
      var w := RunEvents(lib, events);
      && Exact(lib, w.mem) && NoGapNoRepeat(lib, w.mem)
      && (w.disk.Some? ==> Exact(lib, w.disk.value) && NoGapNoRepeat(lib, w.disk.value))
  {
    KeepsExact(lib, events);
    var w := RunEvents(lib, events);
    ExactMeaning(lib, w.mem);
    if w.disk.Some? {
      ExactMeaning(lib, w.disk.value);
    }
  }

  // ----- Is everything there in the end? -----

  /** Every playlist the stage should go through is fully there. */
  ghost predicate AllExpanded(lib: Library, s: Snapshot) {
    forall i :: 0 <= i < |lib.playlists| && i < MAX_PLAYLISTS && IsPlaylist(lib.playlists[i].uri) ==>
      FullyThere(lib, s, lib.playlists[i].uri)
  }

  predicate FullyThere(lib: Library, s: Snapshot, uri: string) {
    uri in s.plTracks && s.plTracks[uri] == lib.tracks(uri)
  }

  /** From entry `n` on there is no playlist to be expanded. */
  ghost predicate NoneFrom(lib: Library, n: nat) {
    forall i :: n <= i < |lib.playlists| && i < MAX_PLAYLISTS ==> !IsPlaylist(lib.playlists[i].uri)
  }

  /** No playlist to be expanded is missing from the checkpoint's list of playlists. */
  ghost predicate NoneMissing(lib: Library, s: Snapshot) { NoneFrom(lib, |s.playlists.items|) }

  /** Outside a playlist, every playlist is expanded exactly when none comes later. */
  lemma ExpandedSoFar(lib: Library, s: Snapshot)
    requires Exact(lib, s) && DistinctPlaylists(lib.playlists) && s.plOffset == 0
    ensures AllExpanded(lib, s) <==> NoneFrom(lib, s.plIdx)
  {
    ExpandedMeaning(lib, s.plIdx);
    if AllExpanded(lib, s) {
      forall i | s.plIdx <= i < |lib.playlists| && i < MAX_PLAYLISTS
        ensures !IsPlaylist(lib.playlists[i].uri)
      {
        assert lib.playlists[i].uri !in s.plTracks;
      }
    }
  }

  /** When the tracks stage has gone through the checkpoint's list of playlists, which it does not
    change, every playlist is expanded exactly when none is missing from that list. */
  lemma ExpandedExactly(lib: Library, s: Snapshot)
    requires Exact(lib, s) && DistinctPlaylists(lib.playlists) && s.plIdx >= Limit(s)
    ensures AllExpanded(lib, s) <==> NoneMissing(lib, s)
  {
    ExpandedSoFar(lib, s);
  }

  // ----- A sync in which every fetch gets through -----

  /** A complete list. */
  function Whole(all: seq<Item>): Cursor { Cursor(|all|, true, all, |all|) }

  lemma DoneIsWhole(all: seq<Item>, c: Cursor)
    requires CursorExact(all, c) && c.done
    ensures c == Whole(all)
  {
  }

  function ListsDone(lib: Library, s: Snapshot): Snapshot {
    s.(liked := Whole(lib.liked), playlists := Whole(lib.playlists), artists := Whole(lib.artists), albums := Whole(lib.albums))
  }

  function TracksDone(lib: Library, s: Snapshot): Snapshot
    requires |s.playlists.items| <= |lib.playlists|
  {
    if s.plDone then s
    else s.(plIdx := Limit(s), plOffset := 0, plDone := true,
            plTracks := Expanded(lib, Limit(s)), plCounts := Counted(lib, Limit(s)))
  }

  /** Where a whole sync ends. */
  function Synced(lib: Library, s: Snapshot): Snapshot { TracksDone(lib, ListsDone(lib, s)) }

  lemma SyncedExact(lib: Library, s: Snapshot)
    requires Exact(lib, s)
    ensures Exact(lib, Synced(lib, s))
  {
    assert Exact(lib, ListsDone(lib, s));
  }

  /** The tracks stage, turn by turn until it is done; no matter what it starts from. */
  function StageEnd(lib: Library, s: Snapshot): Snapshot
    decreases Limit(s) - s.plIdx, Left(lib, s)
  {
    if s.plDone || s.plIdx >= Limit(s) then s.(plDone := true)
    else
      TurnAdvances(lib, s);
      StageEnd(lib, TracksStep(lib, s))
  }

  /** How many tracks of the current playlist are still to come. */
  function Left(lib: Library, s: Snapshot): int {
    if s.plIdx < |s.playlists.items| then |lib.tracks(s.playlists.items[s.plIdx].uri)| - s.plOffset else 0
  }

  /** A turn of the tracks loop either moves on to the next playlist or further into this one. */
  lemma TurnAdvances(lib: Library, s: Snapshot)
    requires !s.plDone && s.plIdx < Limit(s)
    ensures
      var s' := TracksStep(lib, s);
      && !s'.plDone && Limit(s') == Limit(s) && s'.playlists == s.playlists
      && (s'.plIdx == s.plIdx + 1 || (s'.plIdx == s.plIdx && 0 <= Left(lib, s') < Left(lib, s)))
  {
  }

  /** From an exact checkpoint the stage ends with exactly the tracks of every playlist listed. */
  lemma {:induction false} StageEndExact(lib: Library, s: Snapshot)
    requires Exact(lib, s) && DistinctPlaylists(lib.playlists)
    ensures StageEnd(lib, s) == TracksDone(lib, s)
    decreases Limit(s) - s.plIdx, Left(lib, s)
  {
    if !s.plDone && s.plIdx < Limit(s) {
      TurnAdvances(lib, s);
      TracksStepExact(lib, s);
      StageEndExact(lib, TracksStep(lib, s));
    }
  }

  // ----- What the file holds when a sync stops -----

  /** The tracks loop passes over entries that are not playlists without saving. */
  function Skip(s: Snapshot): Snapshot
    decreases Limit(s) - s.plIdx
  {
    if !s.plDone && s.plIdx < Limit(s) && !IsPlaylist(s.playlists.items[s.plIdx].uri)
    then Skip(s.(plIdx := s.plIdx + 1, plOffset := 0)) else s
  }

  /** All but the pages of one list are in `d`. */
  ghost predicate OneListBehind(d: Snapshot, m: Snapshot) {
    exists q: Query :: (q.Playlists? || q.Artists? || q.Albums?) && m == WithCursor(d, q, CursorOf(m, q))
  }

  /** A start from `d` goes on where `m` stopped. */
  ghost predicate ResumesAt(d: Snapshot, m: Snapshot) { Skip(d) == Skip(m) || OneListBehind(d, m) }

  lemma {:induction false} SkipKeeps(lib: Library, s: Snapshot)
    requires Exact(lib, s)
    ensures Exact(lib, Skip(s)) && Skip(s).playlists == s.playlists && TracksDone(lib, Skip(s)) == TracksDone(lib, s)
    ensures ListsDone(lib, Skip(s)) == ListsDone(lib, s).(plIdx := Skip(s).plIdx, plOffset := Skip(s).plOffset)
    decreases Limit(s) - s.plIdx
  {
    if !s.plDone && s.plIdx < Limit(s) && !IsPlaylist(s.playlists.items[s.plIdx].uri) {
      SkipKeeps(lib, s.(plIdx := s.plIdx + 1, plOffset := 0));
    }
  }

  /** So a sync that goes on from there ends where one that had not stopped would have ended. */
  lemma ResumeLosesNothing(lib: Library, d: Snapshot, m: Snapshot)
    requires Exact(lib, d) && Exact(lib, m) && ResumesAt(d, m)
    ensures Synced(lib, d) == Synced(lib, m)
  {
    if Skip(d) == Skip(m) {
      SkipKeeps(lib, d);
      SkipKeeps(lib, m);
    }
  }

  function CursorOf(s: Snapshot, q: Query): Cursor {
    match q
    case Playlists => s.playlists
    case Artists => s.artists
    case Albums => s.albums
    case _ => s.liked
  }

  function WithCursor(s: Snapshot, q: Query, c: Cursor): Snapshot {
    match q
    case Playlists => s.(playlists := c)
    case Artists => s.(artists := c)
    case Albums => s.(albums := c)
    case _ => s.(liked := c)
  }

  // ----- What a sync passes over -----

  /** A checkpoint with the first page of the liked tracks, the whole list of playlists and none of
    their tracks. */
  function AllMissed(lib: Library): Snapshot {
    NEW_SNAPSHOT.(liked := ListStep(lib.liked, NEW_CURSOR), plDone := true, playlists := Whole(lib.playlists))
  }

  /** A stage that fails is passed over, so the tracks stage may find an incomplete list of
    playlists and still call itself done; no later turn of the sync expands what it missed, even
    when the list of playlists has become complete. */
  lemma MissedBySync(lib: Library, turns: nat)
    requires 0 < |lib.playlists| < PAGE_SIZE && IsPlaylist(lib.playlists[0].uri)
    ensures
      var events := [ListPage(Liked), TracksTurn, ListPage(Playlists)] + seq(turns, _ => TracksTurn);
      var s := RunEvents(lib, events).mem;
      s == AllMissed(lib) && Exact(lib, s) && !AllExpanded(lib, s)
    decreases turns
  {
    var three := [ListPage(Liked), TracksTurn, ListPage(Playlists)];
    if turns == 0 {
      assert three + seq(0, _ => TracksTurn) == three;
      ThreeSteps(lib);
    } else {
      MissedBySync(lib, turns - 1);
      var events := three + seq(turns, _ => TracksTurn);
      assert events[..|events| - 1] == three + seq(turns - 1, _ => TracksTurn);
    }
    assert lib.playlists[0].uri !in AllMissed(lib).plTracks;
  }

  lemma ThreeSteps(lib: Library)
    requires |lib.playlists| < PAGE_SIZE
    ensures RunEvents(lib, [ListPage(Liked), TracksTurn, ListPage(Playlists)]).mem == AllMissed(lib)
  {
    var two := [ListPage(Liked), TracksTurn];
    var three := [ListPage(Liked), TracksTurn, ListPage(Playlists)];
    LikedPage(lib);
    assert three[..2] == two && two[..1] == [ListPage(Liked)];
    assert RunEvents(lib, two).mem == AllMissed(lib).(playlists := NEW_CURSOR);
  }

  lemma LikedPage(lib: Library)
    ensures RunEvents(lib, [ListPage(Liked)]) == World(NEW_SNAPSHOT.(liked := ListStep(lib.liked, NEW_CURSOR)), None)
    ensures ListStep(lib.liked, NEW_CURSOR).done <==> |lib.liked| <= PAGE_SIZE
  {
    var one := [ListPage(Liked)];
    assert one[..0] == [];
    assert RunEvents(lib, one) == Step(lib, RunEvents(lib, one[..0]), one[0]);
  }

  // ----- The objects -----

  class Disk {
    var saved: Option<Snapshot>
    var saves: nat
    const lost: nat -> bool   // whether the n-th save is lost

    constructor (saved: Option<Snapshot>, lost: nat -> bool)
      ensures this.saved == saved && this.lost == lost
    {
      this.saved, this.lost, saves := saved, lost, 0;
    }

    /** No save is lost. */
    ghost predicate Safe() { forall n :: !lost(n) }

    method SaveCheckpoint(s: Snapshot)
      modifies this
      ensures saved == Some(s) || saved == old(saved)
      ensures saved == (if lost(old(saves)) then old(saved) else Some(s)) && saves == old(saves) + 1
    {
      if !lost(saves) {
        saved := Some(s);
      }
      saves := saves + 1;
    }

    ghost predicate Valid(lib: Library)
      reads this
    {
      saved.Some? ==> Exact(lib, saved.value)
    }
  }

  datatype Status = Finished | Stopped(failure: Failure)

  method SyncList(f: Fetcher, q: Query, c0: Cursor) returns (status: Status, c: Cursor)
    requires CursorExact(Content(f.lib, q), c0)
    modifies f
    ensures CursorExact(Content(f.lib, q), c) && c0.offset <= c.offset
    ensures status.Finished? ==> c == Whole(Content(f.lib, q))
    ensures f.Reliable() ==> status.Finished?
    ensures old(f.pauses) <= f.pauses && (status == Stopped(Cancelled) <==> f.CutShort(old(f.pauses), f.pauses))
  {
    c := c0;
    ghost var all := Content(f.lib, q);
    while !c.done
      invariant CursorExact(all, c) && c0.offset <= c.offset
      invariant old(f.pauses) <= f.pauses && !f.CutShort(old(f.pauses), f.pauses)
      decreases |all| - c.offset, !c.done
    {
      var out, _ := f.Do(q, c.offset, PAGE_SIZE);
      if out.Failed? {
        return Stopped(out.failure), c;
      }
      ListStepExact(all, c);
      ghost var next := ListStep(all, c);
      c := c.(items := c.items + out.page.items);
      c := c.(offset := c.offset + |out.page.items|);
      if out.page.total > 0 {
        c := c.(total := out.page.total);
      }
      if |out.page.items| < PAGE_SIZE || (out.page.total > 0 && c.offset >= out.page.total) {
        c := c.(done := true);
      }
      assert c == next;
    }
    DoneIsWhole(all, c);
    status := Finished;
  }

  lemma TracksStop(lib: Library, s: Snapshot)
    requires Exact(lib, s) && s.plIdx >= Limit(s)
    ensures Exact(lib, s.(plDone := true)) && s.plOffset == 0
  {
  }

  lemma LikedAdvance(lib: Library, s: Snapshot)
    requires Exact(lib, s) && !s.liked.done
    ensures
      var s' := PageStep(lib, s, Liked);
      && Exact(lib, s') && s.liked.offset <= s'.liked.offset <= |lib.liked|
      && (s'.liked.done || s.liked.offset < s'.liked.offset)
  {
    PageStepExact(lib, s, Liked);
    ListStepExact(lib.liked, s.liked);
  }

  ghost predicate ListsComplete(lib: Library, s: Snapshot) {
    s.playlists == Whole(lib.playlists) && s.artists == Whole(lib.artists) && s.albums == Whole(lib.albums)
  }

  lemma WithCursorExact(lib: Library, s: Snapshot, q: Query, c: Cursor)
    requires Exact(lib, s) && (q.Playlists? || q.Artists? || q.Albums?)
    requires CursorExact(Content(lib, q), c) && CursorOf(s, q).offset <= c.offset
    ensures Exact(lib, WithCursor(s, q, c)) && CursorOf(WithCursor(s, q, c), q) == c
  {
  }

  class Checkpoint {
    var liked: Cursor
    var playlists: Cursor
    var artists: Cursor
    var albums: Cursor
    var plIdx: nat
    var plOffset: nat
    var plDone: bool
    var plTracks: map<string, seq<Item>>
    var plCounts: map<string, nat>

    function State(): Snapshot
      reads this
    {
      Snapshot(liked, playlists, artists, albums, plIdx, plOffset, plDone, plTracks, plCounts)
    }

    constructor (s: Snapshot)
      ensures State() == s
    {
      liked, playlists, artists, albums := s.liked, s.playlists, s.artists, s.albums;
      plIdx, plOffset, plDone, plTracks, plCounts := s.plIdx, s.plOffset, s.plDone, s.plTracks, s.plCounts;
    }

    method TakeLiked(lib: Library, page: Page)
      requires !liked.done && page == Served(lib.liked, liked.offset, PAGE_SIZE)
      modifies this`liked
      ensures State() == PageStep(lib, old(State()), Liked)
    {
      liked := liked.(items := liked.items + page.items);
      liked := liked.(offset := liked.offset + |page.items|);
      if page.total > 0 {
        liked := liked.(total := page.total);
      }
      if |page.items| < PAGE_SIZE || (page.total > 0 && liked.offset >= page.total) {
        liked := liked.(done := true);
      }
    }

    /** One page of the liked tracks; on failure nothing has changed. */
    method LikedTurn(f: Fetcher, disk: Disk) returns (status: Status)
      requires !liked.done
      modifies this`liked, f, disk
      ensures State() == if status.Finished? then PageStep(f.lib, old(State()), Liked) else old(State())
      ensures disk.saved == if status.Finished? && !disk.lost(old(disk.saves)) then Some(State()) else old(disk.saved)
      ensures f.Reliable() ==> status.Finished?
      ensures old(f.pauses) <= f.pauses && (status == Stopped(Cancelled) <==> f.CutShort(old(f.pauses), f.pauses))
    {
      var out, _ := f.Do(Liked, liked.offset, PAGE_SIZE);
      if out.Failed? {
        return Stopped(out.failure);
      }
      TakeLiked(f.lib, out.page);
      disk.SaveCheckpoint(State());
      return Finished;
    }

    method SyncLiked(f: Fetcher, disk: Disk) returns (status: Status)
      requires Exact(f.lib, State()) && disk.Valid(f.lib)
      modifies this`liked, f, disk
      ensures Exact(f.lib, State()) && disk.Valid(f.lib)
      ensures status.Finished? ==> liked == Whole(f.lib.liked)
      ensures f.Reliable() ==> status.Finished?
      ensures old(f.pauses) <= f.pauses && (status == Stopped(Cancelled) <==> f.CutShort(old(f.pauses), f.pauses))
      ensures disk.saved == old(disk.saved) || liked != old(liked)
      ensures disk.Safe() && liked != old(liked) ==> disk.saved == Some(State())
    {
      ghost var s := State();
      while !liked.done
        invariant s == State() && Exact(f.lib, s) && disk.Valid(f.lib)
        invariant old(f.pauses) <= f.pauses && !f.CutShort(old(f.pauses), f.pauses)
        invariant old(liked).offset < liked.offset || liked.done || liked == old(liked)
        invariant disk.saved == old(disk.saved) || liked != old(liked)
        invariant disk.Safe() && liked != old(liked) ==> disk.saved == Some(s)
        decreases |f.lib.liked| - liked.offset, !liked.done
      {
        LikedAdvance(f.lib, s);
        status := LikedTurn(f, disk);
        if status.Stopped? {
          return;
        }
        s := State();
      }
      DoneIsWhole(f.lib.liked, liked);
      status := Finished;
    }

    /** One turn of the loop below, for a `spotify:playlist:` entry whose page has arrived. */
    method TakeTracks(lib: Library, uri: string, page: Page)
      requires !plDone && plIdx < Limit(State()) && uri == playlists.items[plIdx].uri && IsPlaylist(uri)
      requires page == Served(lib.tracks(uri), plOffset, PAGE_SIZE)
      modifies this`plTracks, this`plCounts, this`plIdx, this`plOffset
      ensures State() == TracksStep(lib, old(State()))
    {
      var soFar := if uri in plTracks then plTracks[uri] else [];
      plTracks := plTracks[uri := soFar + page.items];
      plOffset := plOffset + |page.items|;
      if page.total > 0 {
        plCounts := plCounts[uri := page.total];
      }
      if |page.items| < PAGE_SIZE || (page.total > 0 && plOffset >= page.total) {
        plIdx := plIdx + 1;
        plOffset := 0;
      }
    }

    /** One turn of the tracks loop; on failure nothing has changed. */
    method TracksLoopTurn(f: Fetcher, disk: Disk) returns (status: Status)
      requires !plDone && plIdx < Limit(State())
      modifies this`plTracks, this`plCounts, this`plIdx, this`plOffset, f, disk
      ensures State() == if status.Finished? then TracksStep(f.lib, old(State())) else old(State())
      ensures f.Reliable() ==> status.Finished?
      ensures disk.saved ==
              if status.Finished? && IsPlaylist(old(playlists.items[plIdx].uri)) && !disk.lost(old(disk.saves))
              then Some(State()) else old(disk.saved)
      ensures old(f.pauses) <= f.pauses && (status == Stopped(Cancelled) <==> f.CutShort(old(f.pauses), f.pauses))
    {
      var uri := playlists.items[plIdx].uri;
      if !IsPlaylist(uri) {
        plIdx := plIdx + 1;
        plOffset := 0;
        return Finished;
      }
      var out, _ := f.Do(TracksOf(uri), plOffset, PAGE_SIZE);
      if out.Failed? {
        return Stopped(out.failure);
      }
      TakeTracks(f.lib, uri, out.page);
      disk.SaveCheckpoint(State());
      return Finished;
    }

    method TracksLoop(f: Fetcher, disk: Disk) returns (status: Status)
      requires Exact(f.lib, State()) && disk.Valid(f.lib) && DistinctPlaylists(f.lib.playlists) && !plDone
      modifies this`plTracks, this`plCounts, this`plIdx, this`plOffset, f, disk
      ensures Exact(f.lib, State()) && disk.Valid(f.lib)
      ensures status.Finished? ==> plIdx >= Limit(State())
      ensures f.Reliable() ==> status.Finished?
      ensures old(f.pauses) <= f.pauses && (status == Stopped(Cancelled) <==> f.CutShort(old(f.pauses), f.pauses))
      ensures disk.Safe() && Skip(Load(old(disk.saved), true)) == Skip(old(State())) ==>
                Skip(Load(disk.saved, true)) == Skip(State())
    {
      var n := if |playlists.items| > MAX_PLAYLISTS then MAX_PLAYLISTS else |playlists.items|;
      ghost var s := State();
      while plIdx < n
        invariant s == State() && Exact(f.lib, s) && disk.Valid(f.lib) && n == Limit(s) && !s.plDone
        invariant old(f.pauses) <= f.pauses && !f.CutShort(old(f.pauses), f.pauses)
        invariant disk.Safe() && Skip(Load(old(disk.saved), true)) == Skip(old(State())) ==>
                    Skip(Load(disk.saved, true)) == Skip(s)
        decreases n - plIdx, Left(f.lib, s)
      {
        TurnAdvances(f.lib, s);
        TracksStepExact(f.lib, s);
        status := TracksLoopTurn(f, disk);
        if status.Stopped? {
          return;
        }
        s := TracksStep(f.lib, s);
      }
      return Finished;
    }

    method SyncPlaylistTracks(f: Fetcher, disk: Disk) returns (status: Status)
      requires Exact(f.lib, State()) && disk.Valid(f.lib) && DistinctPlaylists(f.lib.playlists)
      modifies this`plTracks, this`plCounts, this`plIdx, this`plOffset, this`plDone, f, disk
      ensures Exact(f.lib, State()) && disk.Valid(f.lib)
      ensures status.Finished? ==> State() == TracksDone(f.lib, old(State()))
      ensures f.Reliable() ==> status.Finished?
      ensures old(f.pauses) <= f.pauses && (status == Stopped(Cancelled) <==> f.CutShort(old(f.pauses), f.pauses))
      ensures disk.Safe() && status.Stopped? && Skip(Load(old(disk.saved), true)) == Skip(old(State())) ==>
                Skip(Load(disk.saved, true)) == Skip(State())
    {
      if plDone {
        return Finished;
      }
      status := TracksLoop(f, disk);
      if status.Finished? {
        TracksStop(f.lib, State());
        plDone := true;
      }
    }

    method SetCursor(q: Query, c: Cursor)
      requires q.Playlists? || q.Artists? || q.Albums?
      modifies this`playlists, this`artists, this`albums
      ensures State() == WithCursor(old(State()), q, c)
    {
      match q
      case Playlists => playlists := c;
      case Artists => artists := c;
      case Albums => albums := c;
    }

    /** One of the three list stages, and the save after it. */
    method ListStage(f: Fetcher, disk: Disk, q: Query) returns (status: Status)
      requires Exact(f.lib, State()) && disk.Valid(f.lib)
      requires q.Playlists? || q.Artists? || q.Albums?
      modifies this`playlists, this`artists, this`albums, f, disk
      ensures Exact(f.lib, State()) && disk.Valid(f.lib)
      ensures State() == WithCursor(old(State()), q, CursorOf(State(), q))
      ensures status.Finished? ==> CursorOf(State(), q) == Whole(Content(f.lib, q))
      ensures f.Reliable() ==> status.Finished?
      ensures old(f.pauses) <= f.pauses && (status == Stopped(Cancelled) <==> f.CutShort(old(f.pauses), f.pauses))
      ensures if status == Stopped(Cancelled) then disk.saved == old(disk.saved)
              else disk.Safe() ==> disk.saved == Some(State())
    {
      var c;
      ghost var s := State();
      status, c := SyncList(f, q, CursorOf(State(), q));
      WithCursorExact(f.lib, s, q, c);
      SetCursor(q, c);
      if status != Stopped(Cancelled) {
        disk.SaveCheckpoint(State());
      }
    }

    /** The last two of the three list stages. */
    method RunArtistsAndAlbums(f: Fetcher, disk: Disk) returns (go: bool, complete: bool)
      requires Exact(f.lib, State()) && disk.Valid(f.lib)
      modifies this`playlists, this`artists, this`albums, f, disk
      ensures Exact(f.lib, State()) && disk.Valid(f.lib)
      ensures playlists == old(playlists)
      ensures complete ==> artists == Whole(f.lib.artists) && albums == Whole(f.lib.albums)
      ensures f.Reliable() ==> go && complete
      ensures old(f.pauses) <= f.pauses && (!go <==> f.CutShort(old(f.pauses), f.pauses))
      ensures disk.Safe() && go ==> disk.saved == Some(State())
      ensures disk.Safe() && !go && Load(old(disk.saved), true) == old(State()) ==>
                OneListBehind(Load(disk.saved, true), State())
    {
      var st3 := ListStage(f, disk, Artists);
      if st3 == Stopped(Cancelled) { return false, false; }
      var st4 := ListStage(f, disk, Albums);
      if st4 == Stopped(Cancelled) { return false, false; }
      return true, st3.Finished? && st4.Finished?;
    }

    /** The three list stages; `go` is false when the caller has cancelled. */
    method RunLists(f: Fetcher, disk: Disk) returns (go: bool, complete: bool)
      requires Exact(f.lib, State()) && disk.Valid(f.lib)
      modifies this`playlists, this`artists, this`albums, f, disk
      ensures Exact(f.lib, State()) && disk.Valid(f.lib)
      ensures complete ==> ListsComplete(f.lib, State())
      ensures f.Reliable() ==> go && complete
      ensures old(f.pauses) <= f.pauses && (!go <==> f.CutShort(old(f.pauses), f.pauses))
      ensures disk.Safe() && go ==> disk.saved == Some(State())
      ensures disk.Safe() && !go && Load(old(disk.saved), true) == old(State()) ==>
                OneListBehind(Load(disk.saved, true), State())
    {
      var st2 := ListStage(f, disk, Playlists);
      if st2 == Stopped(Cancelled) { return false, false; }
      go, complete := RunArtistsAndAlbums(f, disk);
      complete := complete && st2.Finished?;
    }

    method LikedStage(f: Fetcher, disk: Disk) returns (status: Status)
      requires Exact(f.lib, State()) && disk.Valid(f.lib)
      modifies this`liked, f, disk
      ensures Exact(f.lib, State()) && disk.Valid(f.lib)
      ensures status.Finished? ==> liked == Whole(f.lib.liked)
      ensures f.Reliable() ==> status.Finished?
      ensures old(f.pauses) <= f.pauses && (status == Stopped(Cancelled) <==> f.CutShort(old(f.pauses), f.pauses))
      ensures disk.Safe() && (liked != old(liked) || status != Stopped(Cancelled)) ==> disk.saved == Some(State())
      ensures status == Stopped(Cancelled) && liked == old(liked) ==> disk.saved == old(disk.saved)
    {
      status := SyncLiked(f, disk);
      if status != Stopped(Cancelled) {
        disk.SaveCheckpoint(State());
      }
    }

    method TracksStage(f: Fetcher, disk: Disk) returns (status: Status)
      requires Exact(f.lib, State()) && disk.Valid(f.lib) && DistinctPlaylists(f.lib.playlists)
      modifies this`plTracks, this`plCounts, this`plIdx, this`plOffset, this`plDone, f, disk
      ensures Exact(f.lib, State()) && disk.Valid(f.lib)
      ensures status.Finished? ==> State() == TracksDone(f.lib, old(State()))
      ensures f.Reliable() ==> status.Finished?
      ensures old(f.pauses) <= f.pauses && (status == Stopped(Cancelled) <==> f.CutShort(old(f.pauses), f.pauses))
      ensures disk.Safe() && status != Stopped(Cancelled) ==> disk.saved == Some(State())
      ensures disk.Safe() && Skip(Load(old(disk.saved), true)) == Skip(old(State())) ==>
                Skip(Load(disk.saved, true)) == Skip(State())
      ensures status.Finished? && !old(plDone) ==> (AllExpanded(f.lib, State()) <==> NoneMissing(f.lib, old(State())))
    {
      status := SyncPlaylistTracks(f, disk);
      if status.Finished? && !old(plDone) {
        ExpandedExactly(f.lib, State());
      }
      if status != Stopped(Cancelled) {
        disk.SaveCheckpoint(State());
      }
    }

    /** The stages before the playlist tracks. */
    method RunFirstStages(f: Fetcher, disk: Disk) returns (go: bool, complete: bool)
      requires Exact(f.lib, State()) && disk.Valid(f.lib)
      modifies this`liked, this`playlists, this`artists, this`albums, f, disk
      ensures Exact(f.lib, State()) && disk.Valid(f.lib)
      ensures complete ==> State() == ListsDone(f.lib, old(State()))
      ensures f.Reliable() ==> go && complete
      ensures old(f.pauses) <= f.pauses && (!go <==> f.CutShort(old(f.pauses), f.pauses))
      ensures disk.Safe() && go ==> disk.saved == Some(State())
      ensures disk.Safe() && Load(old(disk.saved), true) == old(State()) ==>
                Load(disk.saved, true) == State() || OneListBehind(Load(disk.saved, true), State())
    {
      var likedStatus := LikedStage(f, disk);
      if likedStatus == Stopped(Cancelled) { return false, false; }
      go, complete := RunLists(f, disk);
      complete := complete && likedStatus.Finished?;
    }

    /** The whole sync.  A stage that fails is passed over unless the caller has cancelled. */
    method Run(f: Fetcher, disk: Disk) returns (complete: bool, cancelled: bool)
      requires Exact(f.lib, State()) && disk.Valid(f.lib) && DistinctPlaylists(f.lib.playlists)
      modifies this, f, disk
      ensures Exact(f.lib, State()) && disk.Valid(f.lib)
      ensures complete ==> State() == Synced(f.lib, old(State()))
      ensures complete && !old(plDone) ==> AllExpanded(f.lib, State())
      ensures f.Reliable() ==> complete
      ensures cancelled <==> f.CutShort(old(f.pauses), f.pauses)
      ensures disk.Safe() && !cancelled ==> disk.saved == Some(State())
      ensures disk.Safe() && Load(old(disk.saved), true) == old(State()) ==> ResumesAt(Load(disk.saved, true), State())
    {
      var go, lists := RunFirstStages(f, disk);
      if !go { return false, true; }
      var status := TracksStage(f, disk);
      return lists && status.Finished?, status == Stopped(Cancelled);
    }
  }

  method LoadCheckpoint(disk: Disk, readOk: bool) returns (cp: Checkpoint)
    ensures fresh(cp) && cp.State() == Load(disk.saved, readOk)
  {
    cp := new Checkpoint(if readOk && disk.saved.Some? then disk.saved.value else NEW_SNAPSHOT);
  }
}
