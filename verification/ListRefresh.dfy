/** What a start with a cached index does (`Refresh`, `refreshList` and `refreshPlaylistTracks` in
  daemon/voice_catalog.go).

  If the liked tracks were never complete it runs the sync.  Otherwise it compares the server's
  counts with the stored ones and reloads what differs.  `NextStart` is such a start that no failed
  fetch disturbs; the lemmas say exactly when it makes up for what an earlier sync left out.
 */
module ListRefresh {
  import opened Options
  import opened CatalogFetch
  import opened CatalogSync
  import CatalogRefresh

  // ----- One list -----

  /** The list is reloaded when the server's count differs; the sync's own offset stays. */
  function RefreshedList(all: seq<Item>, c: Cursor): Cursor {
    if |all| == c.total then c else c.(items := all, total := |all|)
  }

  /** A list stays exactly when the server's count is the stored one; otherwise it is the server's,
    with its count, and only the sync's own progress is kept. */
  lemma ReloadedExactly(all: seq<Item>, c: Cursor)
    ensures
      var r := RefreshedList(all, c);
      && (r == c <==> |all| == c.total)
      && (|all| != c.total ==> r == Cursor(c.offset, c.done, all, |all|))
  {
  }

  method RefreshList(f: Fetcher, q: Query, c0: Cursor) returns (ok: bool, changed: bool, c: Cursor)
    modifies f
    ensures c == if ok then RefreshedList(Content(f.lib, q), c0) else c0
    ensures changed <==> ok && |Content(f.lib, q)| != c0.total
    ensures f.Reliable() ==> ok
  {
    var out, _ := f.Do(q, 0, 1);
    if out.Failed? {
      return false, false, c0;
    }
    if out.page.total == c0.total {
      return true, false, c0;
    }
    var status, loaded := SyncList(f, q, NEW_CURSOR);
    if status.Stopped? {
      return false, false, c0;
    }
    assert loaded.total == |Content(f.lib, q)|;
    return true, true, c0.(items := loaded.items, total := loaded.total);
  }

  // ----- The tracks of the playlists -----

  function UrisBefore(s: Snapshot, n: nat): set<string>
    requires n <= |s.playlists.items|
  {
    set i | 0 <= i < n && IsPlaylist(s.playlists.items[i].uri) :: s.playlists.items[i].uri
  }

  /** The playlists the refresh goes through. */
  function Visited(s: Snapshot): set<string> { UrisBefore(s, Limit(s)) }

  /** The stored count of a playlist; a missing one reads as zero. */
  function CountOf(s: Snapshot, uri: string): nat { if uri in s.plCounts then s.plCounts[uri] else 0 }

  predicate UpToDate(lib: Library, s: Snapshot, uri: string) {
    uri in s.plTracks && CountOf(s, uri) == |lib.tracks(uri)|
  }

  /** What is reloaded when the fetches for `reached` get through. */
  function Reloaded(lib: Library, s: Snapshot, reached: set<string>): set<string> {
    set uri | uri in reached && !UpToDate(lib, s, uri)
  }

  function AfterReload(lib: Library, s: Snapshot, reached: set<string>): Snapshot {
    var reloaded := Reloaded(lib, s, reached);
    s.(plTracks := WithTracks(lib, s.plTracks, reloaded), plCounts := WithCounts(lib, s.plCounts, reloaded))
  }

  function WithTracks(lib: Library, m: map<string, seq<Item>>, uris: set<string>): map<string, seq<Item>> {
    m + map uri | uri in uris :: lib.tracks(uri)
  }

  function WithCounts(lib: Library, m: map<string, nat>, uris: set<string>): map<string, nat> {
    m + map uri | uri in uris :: |lib.tracks(uri)|
  }

  /** What is not among the playlists any more is dropped, with its count. */
  function Without(s: Snapshot, gone: set<string>): Snapshot {
    s.(plTracks := s.plTracks - gone, plCounts := s.plCounts - gone)
  }

  function RefreshedTracks(lib: Library, s: Snapshot, reached: set<string>): Snapshot {
    var s1 := AfterReload(lib, s, reached);
    Without(s1, s1.plTracks.Keys - Visited(s))
  }

  lemma TracksOneMore(lib: Library, m: map<string, seq<Item>>, uris: set<string>, uri: string)
    ensures WithTracks(lib, m, uris + {uri}) == WithTracks(lib, m, uris)[uri := lib.tracks(uri)]
  {
  }

  lemma CountsOneMore(lib: Library, m: map<string, nat>, uris: set<string>, uri: string)
    ensures WithCounts(lib, m, uris + {uri}) == WithCounts(lib, m, uris)[uri := |lib.tracks(uri)|]
  {
  }

  lemma ReloadedMore(lib: Library, s: Snapshot, reached: set<string>, uri: string)
    ensures Reloaded(lib, s, reached + {uri}) ==
            if UpToDate(lib, s, uri) then Reloaded(lib, s, reached) else Reloaded(lib, s, reached) + {uri}
  {
  }

  lemma UpToDateAfter(lib: Library, s: Snapshot, reached: set<string>, uri: string)
    ensures UpToDate(lib, AfterReload(lib, s, reached), uri) <==> UpToDate(lib, s, uri) || uri in Reloaded(lib, s, reached)
  {
  }

  /** One more playlist whose fetches get through. */
  lemma ReachMore(lib: Library, s: Snapshot, reached: set<string>, uri: string)
    ensures
      var s1, s2 := AfterReload(lib, s, reached), AfterReload(lib, s, reached + {uri});
      && s2 == (if UpToDate(lib, s1, uri) then s1
                else s1.(plTracks := s1.plTracks[uri := lib.tracks(uri)], plCounts := s1.plCounts[uri := |lib.tracks(uri)|]))
      && (Reloaded(lib, s, reached + {uri}) != {} <==> Reloaded(lib, s, reached) != {} || !UpToDate(lib, s1, uri))
  {
    var reloaded := Reloaded(lib, s, reached);
    ReloadedMore(lib, s, reached, uri);
    UpToDateAfter(lib, s, reached, uri);
    if uri in reloaded {
      assert reloaded + {uri} == reloaded;
    } else {
      TracksOneMore(lib, s.plTracks, reloaded, uri);
      CountsOneMore(lib, s.plCounts, reloaded, uri);
      assert uri in reloaded + {uri};
    }
  }

  /** One playlist; `through` tells whether its fetches got through. */
  method RefreshPlaylist(f: Fetcher, cp: Checkpoint, uri: string) returns (through: bool, changed: bool)
    modifies f, cp`plTracks, cp`plCounts
    ensures cp.State() ==
            if through && !UpToDate(f.lib, old(cp.State()), uri)
            then old(cp.State()).(plTracks := old(cp.plTracks)[uri := f.lib.tracks(uri)],
                                  plCounts := old(cp.plCounts)[uri := |f.lib.tracks(uri)|])
            else old(cp.State())
    ensures changed <==> through && !UpToDate(f.lib, old(cp.State()), uri)
    ensures f.Reliable() ==> through
  {
    var out, _ := f.Do(TracksOf(uri), 0, 1);
    if out.Failed? {
      return false, false;
    }
    var total := out.page.total;
    if uri in cp.plTracks && total == CountOf(cp.State(), uri) {
      return true, false;
    }
    var tracks := CatalogRefresh.FetchAllPaged(f, TracksOf(uri));
    if tracks.None? {
      return false, false;
    }
    cp.plTracks := cp.plTracks[uri := tracks.value];
    cp.plCounts := cp.plCounts[uri := total];
    return true, true;
  }

  method RefreshPlaylistTracks(f: Fetcher, cp: Checkpoint) returns (changed: bool, ghost reached: set<string>)
    modifies f, cp`plTracks, cp`plCounts
    ensures cp.State() == RefreshedTracks(f.lib, old(cp.State()), reached)
    ensures reached <= Visited(old(cp.State()))
    ensures f.Reliable() ==> reached == Visited(old(cp.State()))
    ensures changed <==> Reloaded(f.lib, old(cp.State()), reached) != {} ||
                         !(old(cp.plTracks).Keys <= Visited(old(cp.State())))
  {
    ghost var s := cp.State();
    changed, reached := false, {};
    var cur: set<string> := {};
    var n := if |cp.playlists.items| > MAX_PLAYLISTS then MAX_PLAYLISTS else |cp.playlists.items|;
    assert Reloaded(f.lib, s, {}) == {};
    for i := 0 to n
      invariant cp.State() == AfterReload(f.lib, s, reached)
      invariant reached <= cur == UrisBefore(s, i)
      invariant f.Reliable() ==> reached == cur
      invariant changed <==> Reloaded(f.lib, s, reached) != {}
    {
      var uri := cp.playlists.items[i].uri;
      if IsPlaylist(uri) {
        cur := cur + {uri};
        ghost var before := cp.State();
        var through, reloaded := RefreshPlaylist(f, cp, uri);
        if through {
          ReachMore(f.lib, s, reached, uri);
          reached := reached + {uri};
        }
        changed := changed || reloaded;
      }
    }
    var gone;
    cp.plTracks, cp.plCounts, gone := DropOthers(cp.plTracks, cp.plCounts, cur);
    changed := changed || gone;
  }

  /** The map with what is dropped so far, while `todo` is still to be looked at. */
  function Kept<V>(m: map<string, V>, keys: set<string>, todo: set<string>, cur: set<string>): map<string, V> {
    m - (keys - todo - cur)
  }

  predicate AnyDropped(keys: set<string>, todo: set<string>, cur: set<string>) {
    exists uri <- keys :: uri !in todo && uri !in cur
  }

  lemma KeptStart<V>(m: map<string, V>, keys: set<string>, cur: set<string>)
    ensures Kept(m, keys, keys, cur) == m && Kept(m, keys, {}, cur) == m - (keys - cur)
  {
    assert keys - keys - cur == {} && keys - {} == keys;
  }

  lemma KeptStep<V>(m: map<string, V>, keys: set<string>, todo: set<string>, cur: set<string>, uri: string)
    requires uri in todo && todo <= keys
    ensures Kept(m, keys, todo - {uri}, cur) == if uri in cur then Kept(m, keys, todo, cur) else Kept(m, keys, todo, cur) - {uri}
  {
    var gone := keys - todo - cur;
    assert keys - (todo - {uri}) - cur == if uri in cur then gone else gone + {uri};
  }

  /** Drops the entries outside `cur`. */
  method DropOthers(m0: map<string, seq<Item>>, counts0: map<string, nat>, cur: set<string>)
      returns (m: map<string, seq<Item>>, counts: map<string, nat>, changed: bool)
    ensures m == m0 - (m0.Keys - cur) && counts == counts0 - (m0.Keys - cur)
    ensures changed <==> !(m0.Keys <= cur)
  {
    m, counts, changed := m0, counts0, false;
    var todo := m.Keys;
    KeptStart(m0, m0.Keys, cur);
    KeptStart(counts0, m0.Keys, cur);
    while todo != {}
      invariant todo <= m0.Keys
      invariant m == Kept(m0, m0.Keys, todo, cur) && counts == Kept(counts0, m0.Keys, todo, cur)
      invariant changed <==> AnyDropped(m0.Keys, todo, cur)
      decreases |todo|
    {
      var uri :| uri in todo;
      KeptStep(m0, m0.Keys, todo, cur, uri);
      KeptStep(counts0, m0.Keys, todo, cur, uri);
      todo := todo - {uri};
      if uri !in cur {
        m := m - {uri};
        counts := counts - {uri};
        changed := true;
      }
    }
  }

  // ----- The refresh -----

  function RefreshedLists(lib: Library, s: Snapshot): Snapshot {
    s.(artists := RefreshedList(lib.artists, s.artists),
       albums := RefreshedList(lib.albums, s.albums),
       playlists := RefreshedList(lib.playlists, s.playlists))
  }

  /** A refresh in which every fetch gets through. */
  function Refreshed(lib: Library, s: Snapshot): Snapshot {
    var s1 := RefreshedLists(lib, s);
    RefreshedTracks(lib, s1, Visited(s1))
  }

  /** A list after a refresh that may have failed for it. */
  predicate OldOrNew(all: seq<Item>, c0: Cursor, c: Cursor) { c == c0 || c == RefreshedList(all, c0) }

  /** The part of a refresh after the liked tracks; `likedChanged` tells what became of those. */
  method RefreshLists(f: Fetcher, cp: Checkpoint, disk: Disk, likedChanged: bool)
      returns (changed: bool, ghost reached: set<string>)
    modifies f, disk, cp`artists, cp`albums, cp`playlists, cp`plTracks, cp`plCounts
    ensures OldOrNew(f.lib.artists, old(cp.artists), cp.artists)
    ensures OldOrNew(f.lib.albums, old(cp.albums), cp.albums)
    ensures OldOrNew(f.lib.playlists, old(cp.playlists), cp.playlists)
    ensures
      var lists := old(cp.State()).(artists := cp.artists, albums := cp.albums, playlists := cp.playlists);
      reached <= Visited(lists) && cp.State() == RefreshedTracks(f.lib, lists, reached)
    ensures f.Reliable() ==> cp.State() == Refreshed(f.lib, old(cp.State()))
    ensures changed <==> likedChanged || cp.State() != old(cp.State())
    ensures disk.saved == if changed && !disk.lost(old(disk.saves)) then Some(cp.State()) else old(disk.saved)
  {
    var listsChanged := RefreshThree(f, cp);
    ghost var lists := cp.State();
    var tracksChanged;
    tracksChanged, reached := RefreshPlaylistTracks(f, cp);
    ChangedExactly(f.lib, lists, reached);
    changed := likedChanged || listsChanged || tracksChanged;
    if changed {
      disk.SaveCheckpoint(cp.State());
    }
  }

  /** The tracks part changes something exactly when it reloads or drops something. */
  lemma ChangedExactly(lib: Library, s: Snapshot, reached: set<string>)
    requires reached <= Visited(s)
    ensures RefreshedTracks(lib, s, reached) == s <==> Reloaded(lib, s, reached) == {} && s.plTracks.Keys <= Visited(s)
  {
    var s1, r := AfterReload(lib, s, reached), RefreshedTracks(lib, s, reached);
    if Reloaded(lib, s, reached) != {} {
      var uri :| uri in Reloaded(lib, s, reached);
      UpToDateAfter(lib, s, reached, uri);
      assert UpToDate(lib, r, uri) && !UpToDate(lib, s, uri);
    } else if !(s.plTracks.Keys <= Visited(s)) {
      var uri :| uri in s.plTracks && uri !in Visited(s);
      assert uri !in r.plTracks;
    } else {
      assert s1 == s && s1.plTracks.Keys - Visited(s) == {};
    }
  }

  /** The three lists; one that fails is passed over. */
  method RefreshThree(f: Fetcher, cp: Checkpoint) returns (changed: bool)
    modifies f, cp`artists, cp`albums, cp`playlists
    ensures OldOrNew(f.lib.artists, old(cp.artists), cp.artists)
    ensures OldOrNew(f.lib.albums, old(cp.albums), cp.albums)
    ensures OldOrNew(f.lib.playlists, old(cp.playlists), cp.playlists)
    ensures f.Reliable() ==> cp.State() == RefreshedLists(f.lib, old(cp.State()))
    ensures changed <==> cp.State() != old(cp.State())
  {
    var ok, artistsChanged, albumsChanged, playlistsChanged;
    ok, artistsChanged, cp.artists := RefreshList(f, Artists, cp.artists);
    ok, albumsChanged, cp.albums := RefreshList(f, Albums, cp.albums);
    ok, playlistsChanged, cp.playlists := RefreshList(f, Playlists, cp.playlists);
    changed := artistsChanged || albumsChanged || playlistsChanged;
  }

  // ----- A start with a cached index -----

  function RefreshedLiked(lib: Library, c: Cursor): Cursor {
    c.(items := CatalogRefresh.Refreshed(c.items, c.total, lib.liked), total := |lib.liked|)
  }

  /** A start in which every fetch gets through. */
  function NextStart(lib: Library, s: Snapshot): Snapshot {
    if s.liked.done then Refreshed(lib, s.(liked := RefreshedLiked(lib, s.liked))) else Synced(lib, s)
  }

  /** The start itself.  The sync reads the file once more.  Only the sync asks for a library that
    has not changed. */
  method Refresh(f: Fetcher, disk: Disk, readOk: bool, readAgainOk: bool)
      returns (cp: Checkpoint, changed: bool, ghost reached: set<string>)
    requires Load(disk.saved, readOk).liked.done || (disk.Valid(f.lib) && DistinctPlaylists(f.lib.playlists))
    modifies f, disk
    ensures fresh(cp)
    ensures
      var s, again := Load(old(disk.saved), readOk), Load(old(disk.saved), readAgainOk);
      f.Reliable() ==> cp.State() == if s.liked.done then NextStart(f.lib, s) else Synced(f.lib, again)
    ensures
      var s := Load(old(disk.saved), readOk);
      s.liked.done ==>
        && cp.liked in {s.liked, RefreshedLiked(f.lib, s.liked)}
        && OldOrNew(f.lib.artists, s.artists, cp.artists) && OldOrNew(f.lib.albums, s.albums, cp.albums)
        && OldOrNew(f.lib.playlists, s.playlists, cp.playlists)
        && var lists := s.(liked := cp.liked, artists := cp.artists, albums := cp.albums, playlists := cp.playlists);
        reached <= Visited(lists) && cp.State() == RefreshedTracks(f.lib, lists, reached)
  {
    cp := LoadCheckpoint(disk, readOk);
    if !cp.liked.done {
      cp := LoadCheckpoint(disk, readAgainOk);
      NewExact(f.lib);
      var complete, cancelled := cp.Run(f, disk);
      return cp, true, {};
    }
    var cache := new CatalogRefresh.LikedCache(cp.liked.items, cp.liked.total);
    var r := cache.Refresh(f);
    cp.liked := cp.liked.(items := cache.liked, total := cache.total);
    changed, reached := RefreshLists(f, cp, disk, r.Updated?);
  }

  lemma NewExact(lib: Library)
    ensures Exact(lib, NEW_SNAPSHOT)
  {
  }

  // ----- What a refresh makes up for -----

  lemma {:induction false} CountedMeaning(lib: Library, n: nat)
    requires n <= |lib.playlists|
    ensures forall uri <- Expanded(lib, n) ::
              (if uri in Counted(lib, n) then Counted(lib, n)[uri] else 0) == |lib.tracks(uri)|
    ensures Counted(lib, n).Keys <= Expanded(lib, n).Keys
  {
    if n > 0 {
      CountedMeaning(lib, n - 1);
    }
  }

  /** The sync stores the server's count with the first page of a playlist, so whatever has an entry
    passes for up to date. */
  lemma EntriesUpToDate(lib: Library, s: Snapshot, uri: string)
    requires Exact(lib, s) && uri in s.plTracks
    ensures UpToDate(lib, s, uri)
  {
    CountedMeaning(lib, if s.plOffset > 0 then s.plIdx + 1 else s.plIdx);
  }

  /** After a refresh exactly the playlists among the first 200 of the list have entries, with the
    server's counts; an entry whose stored count was right is left as it was. */
  lemma EntriesAfter(lib: Library, s: Snapshot, uri: string)
    ensures
      var r := RefreshedTracks(lib, s, Visited(s));
      && (uri in r.plTracks <==> uri in Visited(s))
      && (uri in Visited(s) <==>
            "spotify:playlist:" <= uri &&
            exists i :: 0 <= i < |s.playlists.items| && i < 200 && s.playlists.items[i].uri == uri)
      && (uri in Visited(s) ==>
            var count := if uri in s.plCounts then s.plCounts[uri] else 0;
            && UpToDate(lib, r, uri)
            && r.plTracks[uri] == if uri in s.plTracks && count == |lib.tracks(uri)| then s.plTracks[uri] else lib.tracks(uri))
  {
  }

  lemma RefreshedPlaylists(lib: Library, s: Snapshot)
    requires Exact(lib, s)
    ensures RefreshedLists(lib, s).playlists.items == if s.playlists.offset == 0 then lib.playlists else s.playlists.items
  {
  }

  /** The sync did not stop inside entry `i`, and the list that the refresh goes by has it. */
  predicate MadeUpFor(s: Snapshot, i: nat) {
    (s.playlists.offset == 0 || i < |s.playlists.items|) && !(s.plOffset > 0 && i == s.plIdx)
  }

  /** Which playlists of the library are fully there after a refresh. */
  lemma EntryAfter(lib: Library, s: Snapshot, i: nat)
    requires Exact(lib, s) && DistinctPlaylists(lib.playlists)
    requires i < |lib.playlists| && i < MAX_PLAYLISTS && IsPlaylist(lib.playlists[i].uri)
    ensures FullyThere(lib, Refreshed(lib, s), lib.playlists[i].uri) <==> MadeUpFor(s, i)
  {
    var s1, uri := RefreshedLists(lib, s), lib.playlists[i].uri;
    RefreshedPlaylists(lib, s);
    var items := s1.playlists.items;
    assert forall k :: 0 <= k < |items| && items[k].uri == uri ==> k == i;
    assert i < |items| ==> items[i].uri == uri;
    assert uri in Visited(s1) <==> i < |items|;
    EntriesAfter(lib, s1, uri);
    assert UpToDate(lib, s1, uri) == UpToDate(lib, s, uri);
    if uri in s.plTracks {
      EntriesUpToDate(lib, s, uri);
      EntryInside(lib, s, i);
    }
  }

  /** An entry is wrong only while the sync is inside its playlist. */
  lemma EntryInside(lib: Library, s: Snapshot, i: nat)
    requires Exact(lib, s) && DistinctPlaylists(lib.playlists)
    requires i < |lib.playlists| && lib.playlists[i].uri in s.plTracks
    ensures FullyThere(lib, s, lib.playlists[i].uri) <==> !(s.plOffset > 0 && i == s.plIdx)
  {
    ExactMeaning(lib, s);
    ExpandedMeaning(lib, s.plIdx);
    var uri := lib.playlists[i].uri;
    if s.plOffset > 0 && i != s.plIdx {
      assert uri != lib.playlists[s.plIdx].uri;
    }
  }

  lemma KeysAfter(lib: Library, s: Snapshot)
    ensures
      var r := Refreshed(lib, s);
      && r.plTracks.Keys == Visited(r)
      && forall uri <- r.plTracks :: UpToDate(lib, r, uri)
  {
    var r, s1 := Refreshed(lib, s), RefreshedLists(lib, s);
    assert Visited(r) == Visited(s1);
    forall uri
      ensures uri in r.plTracks <==> uri in Visited(s1)
      ensures uri in Visited(s1) ==> UpToDate(lib, r, uri)
    {
      EntriesAfter(lib, s1, uri);
    }
  }

  /** What to make of an answer for every single playlist. */
  lemma AllMadeUpFor(lib: Library, s: Snapshot, r: Snapshot)
    requires Exact(lib, s)
    requires forall i: nat :: i < |lib.playlists| && i < MAX_PLAYLISTS && IsPlaylist(lib.playlists[i].uri) ==>
               (FullyThere(lib, r, lib.playlists[i].uri) <==> MadeUpFor(s, i))
    ensures AllExpanded(lib, r) <==> s.plOffset == 0 && (s.playlists.offset == 0 || NoneMissing(lib, s))
  {
    if s.plOffset > 0 {
      assert IsPlaylist(lib.playlists[s.plIdx].uri) && !MadeUpFor(s, s.plIdx);
    }
  }

  /** Whether a refresh that starts with a complete liked list makes up for everything. */
  lemma RefreshMakesUp(lib: Library, s: Snapshot)
    requires Exact(lib, s) && DistinctPlaylists(lib.playlists)
    ensures AllExpanded(lib, Refreshed(lib, s)) <==>
            s.plOffset == 0 && (s.playlists.offset == 0 || NoneMissing(lib, s))
  {
    forall i: nat | i < |lib.playlists| && i < MAX_PLAYLISTS && IsPlaylist(lib.playlists[i].uri)
      ensures FullyThere(lib, Refreshed(lib, s), lib.playlists[i].uri) <==> MadeUpFor(s, i)
    {
      EntryAfter(lib, s, i);
    }
    AllMadeUpFor(lib, s, Refreshed(lib, s));
  }

  /** An exact list of liked tracks that is complete is found unchanged. */
  lemma LikedUnchanged(lib: Library, c: Cursor)
    requires CursorExact(lib.liked, c) && c.done
    ensures RefreshedLiked(lib, c) == c
  {
    DoneIsWhole(lib.liked, c);
    assert CatalogRefresh.SameUriHead(Slice(lib.liked, 0, PAGE_SIZE), c.items);
  }

  lemma NextStartIs(lib: Library, s: Snapshot)
    requires Exact(lib, s)
    ensures NextStart(lib, s) == if s.liked.done then Refreshed(lib, s) else Synced(lib, s)
  {
    if s.liked.done {
      LikedUnchanged(lib, s.liked);
    }
  }

  /** A start without failed fetches makes up for everything an earlier sync left out exactly when

    - the liked tracks are complete, and the sync stopped neither inside a playlist nor inside the
      list of playlists with one still to come, whose counts are stored already; or
    - the liked tracks are not complete, and the tracks stage has not called itself done with a
      playlist still to come.

    A refresh leaves entries for nothing but the listed playlists. */
  lemma RefreshCompletes(lib: Library, s: Snapshot)
    requires Exact(lib, s) && DistinctPlaylists(lib.playlists)
    ensures AllExpanded(lib, NextStart(lib, s)) <==>
            if s.liked.done then s.plOffset == 0 && (s.playlists.offset == 0 || NoneMissing(lib, s))
            else !s.plDone || NoneFrom(lib, s.plIdx)
    ensures s.liked.done ==> NextStart(lib, s).plTracks.Keys == Visited(NextStart(lib, s))
  {
    NextStartIs(lib, s);
    if s.liked.done {
      RefreshMakesUp(lib, s);
      KeysAfter(lib, s);
    } else {
      SyncedExact(lib, s);
      ExpandedSoFar(lib, Synced(lib, s));
    }
  }

  lemma NothingToReload(lib: Library, r: Snapshot)
    requires r.plTracks.Keys == Visited(r) && forall uri <- r.plTracks :: UpToDate(lib, r, uri)
    ensures RefreshedTracks(lib, r, Visited(r)) == r
  {
    assert Reloaded(lib, r, Visited(r)) == {};
    assert AfterReload(lib, r, Visited(r)) == r;
    assert r.plTracks.Keys - Visited(r) == {};
  }

  /** The server's counts are the same as before. */
  ghost predicate SameCounts(lib: Library, later: Library) {
    && |later.artists| == |lib.artists| && |later.albums| == |lib.albums| && |later.playlists| == |lib.playlists|
    && forall uri :: |later.tracks(uri)| == |lib.tracks(uri)|
  }

  /** A second refresh changes nothing while the server's counts stay the same, even if the library
    has changed. */
  lemma RefreshAgain(lib: Library, later: Library, s: Snapshot)
    requires SameCounts(lib, later)
    ensures Refreshed(later, Refreshed(lib, s)) == Refreshed(lib, s)
  {
    var r := Refreshed(lib, s);
    KeysAfter(lib, s);
    NothingToReload(later, r);
    assert RefreshedLists(later, r) == r;
  }

  /** So after one refresh more starts change nothing. */
  lemma NextStartAgain(lib: Library, s: Snapshot)
    requires Exact(lib, s) && s.liked.done
    ensures NextStart(lib, NextStart(lib, s)) == NextStart(lib, s)
  {
    NextStartIs(lib, s);
    RefreshAgain(lib, lib, s);
    LikedUnchanged(lib, s.liked);
    assert NextStart(lib, s).liked == s.liked;
  }

  /** Two starts make up for everything exactly when one does or the liked tracks were not complete;
    what is missing then, no number of starts brings. */
  lemma TwoStarts(lib: Library, s: Snapshot)
    requires Exact(lib, s) && DistinctPlaylists(lib.playlists)
    ensures AllExpanded(lib, NextStart(lib, NextStart(lib, s))) <==> AllExpanded(lib, NextStart(lib, s)) || !s.liked.done
  {
    if s.liked.done {
      NextStartAgain(lib, s);
    } else {
      SyncedExact(lib, s);
      RefreshCompletes(lib, Synced(lib, s));
    }
  }

  // ----- What stays missing -----

  /** What a sync missed because its list of playlists came late: the next start makes up for it
    exactly when the liked tracks were complete, and the one after that in any case. */
  lemma MissedUntilRefresh(lib: Library, turns: nat)
    requires 0 < |lib.playlists| < PAGE_SIZE && IsPlaylist(lib.playlists[0].uri) && DistinctPlaylists(lib.playlists)
    ensures
      var s := RunEvents(lib, [ListPage(Liked), TracksTurn, ListPage(Playlists)] + seq(turns, _ => TracksTurn)).mem;
      && s.plDone && s.playlists.done && !AllExpanded(lib, s)
      && (s.liked.done <==> |lib.liked| <= PAGE_SIZE)
      && (AllExpanded(lib, NextStart(lib, s)) <==> s.liked.done)
      && AllExpanded(lib, NextStart(lib, NextStart(lib, s)))
  {
    var s := AllMissed(lib);
    MissedBySync(lib, turns);
    LikedPage(lib);
    RefreshCompletes(lib, s);
    TwoStarts(lib, s);
  }

  lemma TwoPages(lib: Library)
    ensures RunEvents(lib, [ListPage(Liked), ListPage(Playlists)]) ==
            World(NEW_SNAPSHOT.(liked := ListStep(lib.liked, NEW_CURSOR), playlists := ListStep(lib.playlists, NEW_CURSOR)), None)
  {
    var two := [ListPage(Liked), ListPage(Playlists)];
    LikedPage(lib);
    assert two[..1] == [ListPage(Liked)];
    assert RunEvents(lib, two) == Step(lib, RunEvents(lib, two[..1]), two[1]);
  }

  /** A sync that stops inside a playlist has stored its count.  With complete liked tracks no start
    reads the rest; otherwise the next one resumes. */
  lemma HalfReadStays(lib: Library)
    requires 0 < |lib.playlists| < PAGE_SIZE && DistinctPlaylists(lib.playlists)
    requires IsPlaylist(lib.playlists[0].uri) && |lib.tracks(lib.playlists[0].uri)| > PAGE_SIZE
    ensures
      var s := RunEvents(lib, [ListPage(Liked), ListPage(Playlists), TracksTurn]).mem;
      && (s.liked.done <==> |lib.liked| <= PAGE_SIZE)
      && (AllExpanded(lib, NextStart(lib, s)) <==> !s.liked.done)
      && (s.liked.done ==> NextStart(lib, NextStart(lib, s)) == NextStart(lib, s))
  {
    var events := [ListPage(Liked), ListPage(Playlists), TracksTurn];
    TwoPages(lib);
    LikedPage(lib);
    assert events[..2] == [ListPage(Liked), ListPage(Playlists)];
    var s := RunEvents(lib, events).mem;
    assert Slice(lib.playlists, 0, PAGE_SIZE) == lib.playlists;
    assert s.plOffset == PAGE_SIZE && s.plIdx == 0 && !s.plDone;
    KeepsExact(lib, events);
    RefreshCompletes(lib, s);
    if s.liked.done {
      NextStartAgain(lib, s);
    }
  }

  /** A sync that stops inside the list of playlists has stored its count.  With complete liked
    tracks no start reads the rest of the list; otherwise the next one resumes. */
  lemma HalfListStays(lib: Library, i: nat)
    requires PAGE_SIZE <= i < |lib.playlists| && i < MAX_PLAYLISTS && DistinctPlaylists(lib.playlists)
    requires IsPlaylist(lib.playlists[i].uri)
    ensures
      var s := RunEvents(lib, [ListPage(Liked), ListPage(Playlists)]).mem;
      && (s.liked.done <==> |lib.liked| <= PAGE_SIZE)
      && (AllExpanded(lib, NextStart(lib, s)) <==> !s.liked.done)
      && (s.liked.done ==> NextStart(lib, NextStart(lib, s)) == NextStart(lib, s))
  {
    var events := [ListPage(Liked), ListPage(Playlists)];
    TwoPages(lib);
    LikedPage(lib);
    KeepsExact(lib, events);
    var s := RunEvents(lib, events).mem;
    assert s.playlists.offset == PAGE_SIZE && !s.plDone;
    RefreshCompletes(lib, s);
    if s.liked.done {
      NextStartAgain(lib, s);
    }
  }

  // ----- A sync that goes on from a refreshed checkpoint -----

  lemma Doubled(all: seq<Item>)
    ensures all + all == all <==> all == []
  {
    assert all != [] ==> |all + all| > |all|;
  }

  lemma Halves(all: seq<Item>, k: nat)
    requires k <= |all|
    ensures all[..k] + all[k..] == all
  {
  }

  /** A list stage, page by page until it is done. */
  function ListEnd(all: seq<Item>, c: Cursor): Cursor
    requires c.offset <= |all|
    decreases |all| - c.offset, !c.done
  {
    if c.done then c else ListEnd(all, ListStep(all, c))
  }

  lemma {:induction false} ListAppends(all: seq<Item>, c: Cursor)
    requires c.offset <= |all| && !c.done
    ensures ListEnd(all, c).done && ListEnd(all, c).items == c.items + all[c.offset..]
    decreases |all| - c.offset
  {
    PageExtends(all, c.offset);
    var next := ListStep(all, c);
    assert all[c.offset..] == Slice(all, c.offset, PAGE_SIZE) + all[next.offset..];
    if !next.done {
      ListAppends(all, next);
    }
  }

  /** A list stage that goes on from a refreshed list ends with the server's list exactly when the
    sync had begun the list or it is empty; otherwise with the list twice. */
  lemma ResumedList(all: seq<Item>, c: Cursor)
    requires CursorExact(all, c) && !c.done
    ensures
      var items := ListEnd(all, RefreshedList(all, c)).items;
      && items == (if c.offset > 0 then all else all + all)
      && (items == all <==> c.offset > 0 || all == [])
  {
    ListAppends(all, RefreshedList(all, c));
    Halves(all, c.offset);
    assert all[0..] == all;
    Doubled(all);
  }

  /** What the tracks stage will still append for entry `i`. */
  function Pending(lib: Library, t: Snapshot, i: nat): seq<Item>
    requires i < |t.playlists.items|
  {
    var all := lib.tracks(t.playlists.items[i].uri);
    if i < t.plIdx then [] else if i > t.plIdx then all else if t.plOffset <= |all| then all[t.plOffset..] else []
  }

  /** A turn moves tracks from what is pending to what is there. */
  lemma TurnConserves(lib: Library, t: Snapshot, i: nat)
    requires !t.plDone && t.plIdx < Limit(t) && i < Limit(t) && DistinctPlaylists(t.playlists.items)
    requires IsPlaylist(t.playlists.items[i].uri)
    ensures
      var t', uri := TracksStep(lib, t), t.playlists.items[i].uri;
      && t'.playlists == t.playlists && t.plTracks.Keys <= t'.plTracks.Keys
      && TracksSoFar(t', uri) + Pending(lib, t', i) == TracksSoFar(t, uri) + Pending(lib, t, i)
  {
    var uri := t.playlists.items[i].uri;
    if i == t.plIdx {
      var all := lib.tracks(uri);
      var page := Slice(all, t.plOffset, PAGE_SIZE);
      if t.plOffset <= |all| {
        PageExtends(all, t.plOffset);
        assert all[t.plOffset..] == page + all[t.plOffset + |page|..];
      }
    } else {
      assert t.playlists.items[t.plIdx].uri != uri;
    }
  }

  /** Whatever the tracks stage starts from, it appends to each playlist exactly what is pending. */
  lemma {:induction false} StageAppends(lib: Library, t: Snapshot, i: nat)
    requires !t.plDone && i < Limit(t) && DistinctPlaylists(t.playlists.items)
    requires IsPlaylist(t.playlists.items[i].uri)
    ensures
      var e, uri := StageEnd(lib, t), t.playlists.items[i].uri;
      && e.plDone && t.plTracks.Keys <= e.plTracks.Keys
      && TracksSoFar(e, uri) == TracksSoFar(t, uri) + Pending(lib, t, i)
    decreases Limit(t) - t.plIdx, Left(lib, t)
  {
    if t.plIdx < Limit(t) {
      TurnAdvances(lib, t);
      TurnConserves(lib, t, i);
      StageAppends(lib, TracksStep(lib, t), i);
    }
  }

  /** The sync was past entry `i` or inside it. */
  predicate Begun(s: Snapshot, i: nat) { i < s.plIdx || (i == s.plIdx && s.plOffset > 0) }

  /** A refresh leaves a half-read playlist as it is, and every other one whole. */
  lemma SoFarAfterRefresh(lib: Library, s: Snapshot, i: nat)
    requires Exact(lib, s) && DistinctPlaylists(lib.playlists)
    requires i < Limit(Refreshed(lib, s)) && IsPlaylist(Refreshed(lib, s).playlists.items[i].uri)
    ensures
      var r := Refreshed(lib, s);
      && i < |lib.playlists| && r.playlists.items[i] == lib.playlists[i]
      && var uri := lib.playlists[i].uri;
      uri in r.plTracks && r.plTracks[uri] ==
        if i == s.plIdx && 0 < s.plOffset <= |lib.tracks(uri)| then lib.tracks(uri)[..s.plOffset] else lib.tracks(uri)
  {
    var s1, r := RefreshedLists(lib, s), Refreshed(lib, s);
    RefreshedPlaylists(lib, s);
    var uri := lib.playlists[i].uri;
    assert r.playlists.items[i].uri in Visited(s1);
    EntriesAfter(lib, s1, uri);
    EntryAfter(lib, s, i);
    if i == s.plIdx && s.plOffset > 0 {
      EntriesUpToDate(lib, s, uri);
    }
  }

  /** The tracks stage of a sync must not go on from a refreshed checkpoint: a playlist that
    the refresh has read whole is appended once more.  At the end exactly those entries are right
    that the sync was past or inside, and the empty ones; all others hold their tracks twice.  (The
    daemon gets here when the cached index is lost in between, or when a start fails to read the
    checkpoint at first and then reads it.) */
  lemma ResumedAfterRefresh(lib: Library, s: Snapshot, i: nat)
    requires Exact(lib, s) && DistinctPlaylists(lib.playlists) && !s.plDone
    requires i < Limit(Refreshed(lib, s)) && IsPlaylist(Refreshed(lib, s).playlists.items[i].uri)
    ensures
      var e, uri := StageEnd(lib, Refreshed(lib, s)), Refreshed(lib, s).playlists.items[i].uri;
      && uri in e.plTracks
      && e.plTracks[uri] == (if Begun(s, i) then lib.tracks(uri) else lib.tracks(uri) + lib.tracks(uri))
      && (FullyThere(lib, e, uri) <==> Begun(s, i) || lib.tracks(uri) == [])
  {
    var r := Refreshed(lib, s);
    SoFarAfterRefresh(lib, s, i);
    SameDistinct(lib, s);
    StageAppends(lib, r, i);
    WithPending(lib, r, i);
    Doubled(lib.tracks(r.playlists.items[i].uri));
  }

  lemma SameDistinct(lib: Library, s: Snapshot)
    requires Exact(lib, s) && DistinctPlaylists(lib.playlists)
    ensures DistinctPlaylists(Refreshed(lib, s).playlists.items)
  {
    RefreshedPlaylists(lib, s);
  }

  /** What there is of entry `i` and what is pending, together, when a refresh has read all of it or
    left it half. */
  lemma WithPending(lib: Library, r: Snapshot, i: nat)
    requires i < |r.playlists.items|
    requires i == r.plIdx && r.plOffset > 0 ==> r.plOffset <= |lib.tracks(r.playlists.items[i].uri)|
    ensures
      var all := lib.tracks(r.playlists.items[i].uri);
      (if i == r.plIdx && r.plOffset > 0 then all[..r.plOffset] else all) + Pending(lib, r, i) ==
        if Begun(r, i) then all else all + all
  {
    var all := lib.tracks(r.playlists.items[i].uri);
    if i == r.plIdx && r.plOffset > 0 {
      Halves(all, r.plOffset);
    } else {
      assert all[0..] == all && all + [] == all;
    }
  }

  /** The very next turn keeps an entry a prefix of the server's tracks exactly when the sync was
    inside it or it is empty. */
  lemma ResumedTurn(lib: Library, s: Snapshot)
    requires Exact(lib, s) && DistinctPlaylists(lib.playlists) && !s.plDone
    requires s.plIdx < Limit(Refreshed(lib, s)) && IsPlaylist(Refreshed(lib, s).playlists.items[s.plIdx].uri)
    ensures
      var uri := Refreshed(lib, s).playlists.items[s.plIdx].uri;
      var after := TracksStep(lib, Refreshed(lib, s));
      && uri in after.plTracks
      && (after.plTracks[uri] <= lib.tracks(uri) <==> s.plOffset > 0 || lib.tracks(uri) == [])
  {
    SoFarAfterRefresh(lib, s, s.plIdx);
    var uri := lib.playlists[s.plIdx].uri;
    if s.plOffset > 0 {
      PageExtends(lib.tracks(uri), s.plOffset);
    }
  }
}
