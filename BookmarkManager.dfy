/**
 * The folder-permission store: security-scoped bookmarks persisted under their
 * path strings, and the list of locations whose access this process has started.
 *
 * The operating system's bookmark primitives are oracles (`Os`). The step
 * functions (`Saved`, `Removed`, `Restore`, `Walk`) give each operation's effect
 * on a `State`; the methods of `BookmarkManager` perform the same steps in place.
 */
module Bookmarks {
  import opened Wrappers
  import opened Paths
  import opened Ordering

  /** The bytes of a security-scoped bookmark; opaque to the application. */
  type Token = seq<bv8>

  /** Resolving a bookmark either throws or names a location, possibly flagged stale. */
  datatype Resolution = Unresolvable | Resolved(path: Path, isStale: bool)

  /**
   * The bookmark primitives: `bookmarkData` derives a token (None when it throws),
   * `resolve` resolves one, `startAccessing` starts an access session.
   */
  datatype Os = Os(
    bookmarkData: Path -> Option<Token>,
    resolve: Token -> Resolution,
    startAccessing: Path -> bool)

  /** The preferences entry: None when it is absent or is not a dictionary of tokens. */
  type Defaults = Option<map<string, Token>>

  datatype State = State(defaults: Defaults, active: seq<Path>)

  /** `getStoredBookmarks`: the persisted dictionary, empty when there is none. */
  function Stored(d: Defaults): (m: map<string, Token>)
    ensures d.None? ==> m == map[]
    ensures d.Some? ==> m == d.value
  {
    d.GetOr(map[])
  }

  /** The two stores hold the same record at every key other than `key`. */
  ghost predicate AgreeExcept(d: Defaults, d': Defaults, key: string) {
    forall k :: k != key ==>
      (k in Stored(d') <==> k in Stored(d)) && (k in Stored(d) ==> Stored(d')[k] == Stored(d)[k])
  }

  // ---------------------------------------------------------------------------
  // The step functions

  /** `saveBookmark(for:)`: upsert the derived token, or change nothing if derivation throws. */
  function Saved(d: Defaults, p: Path, os: Os): (d': Defaults)
    ensures os.bookmarkData(p).Some? ==>
      PathString(p) in Stored(d') && Stored(d')[PathString(p)] == os.bookmarkData(p).value
    ensures AgreeExcept(d, d', PathString(p))
    ensures os.bookmarkData(p).None? ==> d' == d
  {
    match os.bookmarkData(p)
    case None => d
    case Some(token) => Some(Stored(d)[PathString(p) := token])
  }

  /** `removeBookmark(for:)`: the record for `p` goes, every other record stays. */
  function Removed(d: Defaults, p: Path): (d': Defaults)
    ensures PathString(p) !in Stored(d')
    ensures AgreeExcept(d, d', PathString(p))
    ensures PathString(p) !in Stored(d) ==> Stored(d') == Stored(d)
  {
    Some(Stored(d) - {PathString(p)})
  }

  datatype Restored = Restored(url: Option<Path>, state: State)

  /** `restoreAccess(for:)`. */
  function Restore(s: State, p: Path, os: Os): (r: Restored)
    // no record: nothing happens
    ensures PathString(p) !in Stored(s.defaults) ==> r == Restored(None, s)
    // the bookmark no longer resolves: its record is purged
    ensures PathString(p) in Stored(s.defaults) && os.resolve(Stored(s.defaults)[PathString(p)]).Unresolvable? ==>
      && r.url == None
      && PathString(p) !in Stored(r.state.defaults)
      && AgreeExcept(s.defaults, r.state.defaults, PathString(p))
      && r.state.active == s.active
    // it resolves: a stale token is re-derived for the resolved location, then access is started
    ensures PathString(p) in Stored(s.defaults) && os.resolve(Stored(s.defaults)[PathString(p)]).Resolved? ==>
      var u := os.resolve(Stored(s.defaults)[PathString(p)]).path;
      var stale := os.resolve(Stored(s.defaults)[PathString(p)]).isStale;
      && PathString(p) in Stored(r.state.defaults)
      && (stale ==> r.state.defaults == Saved(s.defaults, u, os))
      && (!stale ==> r.state.defaults == s.defaults)
      && (r.url.Some? <==> os.startAccessing(u))
      && (r.url.Some? ==> r.url.value == u)
    // the active list grows by exactly the location returned
    ensures r.url.Some? ==> r.state.active == s.active + [r.url.value]
    ensures r.url.None? ==> r.state.active == s.active
  {
    var key := PathString(p);
    var bookmarks := Stored(s.defaults);
    if key !in bookmarks then Restored(None, s)
    else
      match os.resolve(bookmarks[key])
      case Unresolvable => Restored(None, State(Removed(s.defaults, p), s.active))
      case Resolved(u, stale) =>
        var d := if stale then Saved(s.defaults, u, os) else s.defaults;
        if os.startAccessing(u) then Restored(Some(u), State(d, s.active + [u]))
        else Restored(None, State(d, s.active))
  }

  datatype WalkResult = WalkResult(found: bool, attempted: seq<Path>, state: State)

  /** Try `Restore` on each location in turn, stopping at the first that succeeds. */
  function Walk(s: State, tries: seq<Path>, os: Os): (r: WalkResult)
    decreases |tries|
    ensures |r.attempted| <= |tries| && r.attempted == tries[..|r.attempted|]
    ensures !r.found ==> r.attempted == tries
    ensures r.found ==> r.attempted != []
    ensures !r.found ==> r.state.active == s.active
    ensures r.found ==> |r.state.active| == |s.active| + 1 && r.state.active[..|s.active|] == s.active
  {
    if tries == [] then WalkResult(false, [], s)
    else
      var first := Restore(s, tries[0], os);
      if first.url.Some? then WalkResult(true, [tries[0]], first.state)
      else
        var rest := Walk(first.state, tries[1..], os);
        assert rest.found ==> rest.state.active[..|s.active|] == s.active;
        WalkResult(rest.found, [tries[0]] + rest.attempted, rest.state)
  }

  // ---------------------------------------------------------------------------
  // Properties of the ancestor walk

  /**
   * The walk stops at its first success: every try before the last attempted one fails,
   * the last one succeeds, and the final state is what that successful `Restore` leaves.
   */
  lemma {:induction false} WalkStopsAtFirstSuccess(s: State, tries: seq<Path>, os: Os)
    ensures var w := Walk(s, tries, os);
      w.found ==>
        var n := |w.attempted|;
        var before := Walk(s, tries[..n - 1], os);
        && !before.found
        && Restore(before.state, tries[n - 1], os).url.Some?
        && Restore(before.state, tries[n - 1], os).state == w.state
    decreases |tries|
  {
    var w := Walk(s, tries, os);
    if w.found {
      var first := Restore(s, tries[0], os);
      if first.url.Some? {
        assert tries[..0] == [];
      } else {
        var rest := Walk(first.state, tries[1..], os);
        WalkStopsAtFirstSuccess(first.state, tries[1..], os);
        var m := |rest.attempted|;
        var prefix := tries[..m];
        var inner := Walk(first.state, tries[1..][..m - 1], os);
        assert prefix != [] && prefix[0] == tries[0];
        assert prefix[1..] == tries[1..][..m - 1];
        assert Walk(s, prefix, os) == WalkResult(inner.found, [tries[0]] + inner.attempted, inner.state);
        assert tries[m] == tries[1..][m - 1];
      }
    }
  }

  /** The record for `p` resolves and its access session starts. */
  ghost predicate Grants(d: Defaults, p: Path, os: Os) {
    && PathString(p) in Stored(d)
    && os.resolve(Stored(d)[PathString(p)]).Resolved?
    && os.startAccessing(os.resolve(Stored(d)[PathString(p)]).path)
  }

  /** No stored bookmark resolves as stale. */
  ghost predicate NeverStale(d: Defaults, os: Os) {
    forall k :: k in Stored(d) ==> !(os.resolve(Stored(d)[k]).Resolved? && os.resolve(Stored(d)[k]).isStale)
  }

  ghost predicate DistinctKeys(tries: seq<Path>) {
    forall i, j :: 0 <= i < j < |tries| ==> PathString(tries[i]) != PathString(tries[j])
  }

  /** With no stale bookmark, the walk leaves the record under every key it did not try as it was. */
  lemma {:induction false} WalkKeepsUntriedRecords(s: State, tries: seq<Path>, os: Os, key: string)
    requires NeverStale(s.defaults, os)
    requires forall i :: 0 <= i < |tries| ==> PathString(tries[i]) != key
    ensures var d' := Walk(s, tries, os).state.defaults;
      && (key in Stored(d') <==> key in Stored(s.defaults))
      && (key in Stored(s.defaults) ==> Stored(d')[key] == Stored(s.defaults)[key])
    decreases |tries|
  {
    if tries != [] {
      var first := Restore(s, tries[0], os);
      assert AgreeExcept(s.defaults, first.state.defaults, PathString(tries[0]));
      if first.url.None? {
        assert NeverStale(first.state.defaults, os);
        assert forall i :: 0 <= i < |tries[1..]| ==> tries[1..][i] == tries[i + 1];
        WalkKeepsUntriedRecords(first.state, tries[1..], os, key);
      }
    }
  }

  /** With no record under any of the locations, the walk fails and changes nothing. */
  lemma {:induction false} WalkWithoutRecords(s: State, tries: seq<Path>, os: Os)
    requires forall i :: 0 <= i < |tries| ==> PathString(tries[i]) !in Stored(s.defaults)
    ensures Walk(s, tries, os) == WalkResult(false, tries, s)
    decreases |tries|
  {
    if tries != [] {
      WalkWithoutRecords(s, tries[1..], os);
    }
  }

  /**
   * When no bookmark is stale and the locations have distinct keys, the walk
   * succeeds exactly when one of the locations holds a record that grants access.
   */
  lemma {:induction false} WalkFindsGrant(s: State, tries: seq<Path>, os: Os)
    requires NeverStale(s.defaults, os) && DistinctKeys(tries)
    ensures Walk(s, tries, os).found <==> exists k :: 0 <= k < |tries| && Grants(s.defaults, tries[k], os)
    decreases |tries|
  {
    if tries != [] {
      var first := Restore(s, tries[0], os);
      if first.url.None? {
        var d' := first.state.defaults;
        var key := PathString(tries[0]);
        assert !Grants(s.defaults, tries[0], os);
        assert AgreeExcept(s.defaults, d', key);
        assert NeverStale(d', os);
        assert DistinctKeys(tries[1..]) by {
          forall i, j | 0 <= i < j < |tries[1..]| ensures PathString(tries[1..][i]) != PathString(tries[1..][j]) {
            assert tries[1..][i] == tries[i + 1] && tries[1..][j] == tries[j + 1];
          }
        }
        WalkFindsGrant(first.state, tries[1..], os);
        forall k | 1 <= k < |tries| ensures Grants(d', tries[k], os) <==> Grants(s.defaults, tries[k], os) {
          assert PathString(tries[k]) != key;
        }
        if Walk(first.state, tries[1..], os).found {
          var k :| 0 <= k < |tries[1..]| && Grants(d', tries[1..][k], os);
          assert tries[1..][k] == tries[k + 1];
        } else {
          forall k | 0 <= k < |tries| ensures !Grants(s.defaults, tries[k], os) {
            if k > 0 {
              assert tries[1..][k - 1] == tries[k];
            }
          }
        }
      }
    }
  }

  /** The directory and its ancestors are stored under pairwise distinct keys. */
  lemma AncestorKeysDistinct(dir: Path)
    requires ValidPath(dir)
    ensures DistinctKeys(Ancestors(dir))
  {
    var a := Ancestors(dir);
    forall i, j | 0 <= i < j < |a| ensures PathString(a[i]) != PathString(a[j]) {
      assert a[i] == dir[..|dir| - i] && a[j] == dir[..|dir| - j];
      assert a[j] == a[i][..|dir| - j];
      assert ValidPath(a[i]) by {
        forall c | 0 <= c < |a[i]| ensures ValidComponent(a[i][c]) {
          assert a[i][c] == dir[c];
        }
      }
      PrefixPathStringShorter(a[i], |dir| - j);
    }
  }

  /**
   * `restoreAccessForDirectory` succeeds exactly when the directory or one of its
   * ancestors, the root included, holds a record that grants access (no stale bookmarks).
   */
  lemma DirectoryAccessFindsGrant(s: State, dir: Path, os: Os)
    requires ValidPath(dir) && NeverStale(s.defaults, os)
    ensures Walk(s, Ancestors(dir), os).found <==>
      exists n :: 0 <= n <= |dir| && Grants(s.defaults, dir[..n], os)
  {
    AncestorKeysDistinct(dir);
    WalkFindsGrant(s, Ancestors(dir), os);
    var a := Ancestors(dir);
    if Walk(s, a, os).found {
      var k :| 0 <= k < |a| && Grants(s.defaults, a[k], os);
      assert a[k] == dir[..|dir| - k];
    } else {
      forall n | 0 <= n <= |dir| ensures !Grants(s.defaults, dir[..n], os) {
        assert a[|dir| - n] == dir[..n];
      }
    }
  }

  /**
   * A grant on a folder covers a file inside it: after saving a bookmark for
   * `folder` that resolves to itself and starts, the walk from `folder + [name]` succeeds
   * on its second try, without a record for the file.
   */
  lemma FolderGrantCoversFile(d: Defaults, folder: Path, name: string, os: Os)
    requires ValidPath(folder) && ValidComponent(name)
    requires PathString(folder + [name]) !in Stored(d)
    requires os.bookmarkData(folder).Some?
    requires os.resolve(os.bookmarkData(folder).value) == Resolved(folder, false)
    requires os.startAccessing(folder)
    ensures var w := Walk(State(Saved(d, folder, os), []), Ancestors(folder + [name]), os);
      w.found && w.attempted == [folder + [name], folder] && w.state.active == [folder]
  {
    var file := folder + [name];
    assert ValidPath(file) by {
      forall i | 0 <= i < |file| ensures ValidComponent(file[i]) {
        if i < |folder| { assert file[i] == folder[i]; }
      }
    }
    assert file[..|folder|] == folder;
    PrefixPathStringShorter(file, |folder|);
    assert Parent(file) == folder;
    var s := State(Saved(d, folder, os), []);
    assert Restore(s, file, os) == Restored(None, s);
  }

  // ---------------------------------------------------------------------------
  // The store in place

  class BookmarkManager {
    /** The `SavedFolderBookmarks` preferences entry. */
    var defaults: Defaults
    /** `activeSecurityScopedURLs`. */
    var active: seq<Path>

    /** The process starts with whatever was persisted, and no active access. */
    constructor (persisted: Defaults)
      ensures defaults == persisted && active == []
    {
      defaults := persisted;
      active := [];
    }

    function Current(): State
      reads this
    {
      State(defaults, active)
    }

    /** `getStoredBookmarks`. */
    function StoredBookmarks(): (m: map<string, Token>)
      reads this
      ensures defaults.None? ==> m == map[]
      ensures defaults.Some? ==> m == defaults.value
    {
      Stored(defaults)
    }

    method SaveBookmark(url: Path, os: Os)
      modifies this`defaults
      ensures defaults == Saved(old(defaults), url, os)
    {
      match os.bookmarkData(url) {
        case None =>
        case Some(token) =>
          var bookmarks := StoredBookmarks();
          bookmarks := bookmarks[PathString(url) := token];
          defaults := Some(bookmarks);
      }
    }

    method RemoveBookmark(url: Path)
      modifies this`defaults
      ensures defaults == Removed(old(defaults), url)
    {
      var bookmarks := StoredBookmarks();
      bookmarks := bookmarks - {PathString(url)};
      defaults := Some(bookmarks);
    }

    method RestoreAccess(path: Path, os: Os) returns (url: Option<Path>)
      modifies this
      ensures Restored(url, Current()) == Restore(old(Current()), path, os)
    {
      var key := PathString(path);
      var bookmarks := StoredBookmarks();
      if key !in bookmarks {
        return None;
      }
      match os.resolve(bookmarks[key]) {
        case Unresolvable =>
          RemoveBookmark(path);
          url := None;
        case Resolved(u, isStale) =>
          if isStale {
            SaveBookmark(u, os);
          }
          if os.startAccessing(u) {
            active := active + [u];
            url := Some(u);
          } else {
            url := None;
          }
      }
    }

    /** Tries the directory, then each ancestor up to and including the root. */
    method RestoreAccessForDirectory(directory: Path, os: Os) returns (ok: bool)
      requires ValidPath(directory)
      modifies this
      ensures var w := Walk(old(Current()), Ancestors(directory), os);
        ok == w.found && Current() == w.state
    {
      ghost var start := Current();
      var r := RestoreAccess(directory, os);
      if r.Some? {
        return true;
      }
      var current := directory;
      while PathString(current) != "/"
        invariant |current| <= |directory| && ValidPath(current)
        invariant Walk(start, Ancestors(directory), os).found == Walk(Current(), Ancestors(current)[1..], os).found
        invariant Walk(start, Ancestors(directory), os).state == Walk(Current(), Ancestors(current)[1..], os).state
        decreases |current|
      {
        PathStringIsRoot(current);
        assert Ancestors(current)[1..] == Ancestors(Parent(current));
        ParentValid(current);
        current := Parent(current);
        r := RestoreAccess(current, os);
        if r.Some? {
          return true;
        }
      }
      PathStringIsRoot(current);
      return false;
    }

    /** `getSavedFolders`: every stored path, once each, in ascending order. */
    function GetSavedFolders(): (r: seq<string>)
      reads this
      ensures StrictlyAscending(r)
      ensures forall k :: k in r <==> k in StoredBookmarks()
      ensures |r| == |StoredBookmarks()|
    {
      SortedStrings(StoredBookmarks().Keys)
    }

    /** `hasBookmark(for:)`: a record exists; it is not resolved. */
    function HasBookmark(path: string): (b: bool)
      reads this
      ensures b <==> path in GetSavedFolders()
    {
      path in StoredBookmarks()
    }

    /** Stops every active session, in order, and empties the list; returns the sessions stopped. */
    method ReleaseAllAccess() returns (stopped: seq<Path>)
      modifies this`active
      ensures stopped == old(active)
      ensures active == []
    {
      stopped := [];
      for i := 0 to |active|
        invariant stopped == active[..i]
      {
        stopped := stopped + [active[i]];
      }
      active := [];
    }

    /** Deletes every record; sessions already started stay active. */
    method ClearAllBookmarks()
      modifies this`defaults
      ensures defaults == None
      ensures StoredBookmarks() == map[] && active == old(active)
    {
      defaults := None;
    }
  }

  /** Releasing twice in a row: the second call stops nothing and leaves the list empty. */
  method ReleaseTwice(m: BookmarkManager) returns (first: seq<Path>, second: seq<Path>)
    modifies m`active
    ensures first == old(m.active) && second == [] && m.active == []
  {
    first := m.ReleaseAllAccess();
    second := m.ReleaseAllAccess();
  }
}
