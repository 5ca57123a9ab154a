/**
 * The non-presentation logic of the viewer window: wrap-around navigation,
 * neighbour prefetch, building the image list from opened files and folders,
 * the offset clamp, and picking the image to show.
 *
 * The file system is an oracle (`Finder`); the file-name order
 * (`localizedStandardCompare`) is a parameter `order` that is a total preorder.
 */
module Viewer {
  import opened Wrappers
  import opened Paths
  import opened Ordering

  datatype Size = Size(width: real, height: real)

  /** A decoded image; only its size matters here. */
  datatype Image = Image(size: Size, bitmap: seq<bv8>)

  /** One item of a directory listing; `isDirectory` is None when the lookup fails. */
  datatype Entry = Entry(url: Url, isDirectory: Option<bool>)

  /**
   * The file system: a directory's listing (None when reading it throws; hidden
   * files already skipped) and whether an access session starts for a URL.
   */
  datatype Finder = Finder(
    contentsOfDirectory: Url -> Option<seq<Entry>>,
    startAccessing: Url -> bool)

  /** The file extensions `getImagesFromDirectory` accepts. */
  const ImageExtensions: seq<string> := ["jpg", "jpeg", "png", "gif", "heic", "webp", "tiff", "bmp", "svg"]

  // ---------------------------------------------------------------------------
  // Helpers

  /** `Array.subscript(safe:)`. */
  function SafeGet<T>(s: seq<T>, i: int): (r: Option<T>)
    ensures r.Some? <==> 0 <= i < |s|
    ensures r.Some? ==> r.value == s[i]
  {
    if 0 <= i < |s| then Some(s[i]) else None
  }

  function Min(a: real, b: real): real { if a <= b then a else b }
  function Max(a: real, b: real): real { if a >= b then a else b }

  /** `Comparable.clamped(to: lower...upper)`; the range must not be empty. */
  function Clamped(x: real, lower: real, upper: real): (r: real)
    requires lower <= upper
    ensures lower <= r <= upper
    ensures lower <= x <= upper ==> r == x
    ensures x < lower ==> r == lower
    ensures x > upper ==> r == upper
  {
    Min(Max(x, lower), upper)
  }

  /** How far the scaled image may move off centre along one axis. */
  function MaxOffset(extent: real, scale: real, viewport: real): (m: real)
    ensures m >= 0.0
    ensures m >= (extent * scale - viewport) / 2.0
    ensures m == 0.0 || m == (extent * scale - viewport) / 2.0
  {
    Max(0.0, (extent * scale - viewport) / 2.0)
  }

  ghost predicate WithinBounds(offset: Size, scale: real, imageSize: Size, viewportSize: Size) {
    && -MaxOffset(imageSize.width, scale, viewportSize.width) <= offset.width <= MaxOffset(imageSize.width, scale, viewportSize.width)
    && -MaxOffset(imageSize.height, scale, viewportSize.height) <= offset.height <= MaxOffset(imageSize.height, scale, viewportSize.height)
  }

  /** `clampOffset`: no panning unless zoomed in; otherwise keep part of the image in view. */
  function ClampOffset(offset: Size, scale: real, imageSize: Size, viewportSize: Size): (r: Size)
    ensures scale <= 1.0 ==> r == Size(0.0, 0.0)
    ensures scale > 1.0 ==> WithinBounds(r, scale, imageSize, viewportSize)
    ensures scale > 1.0 && WithinBounds(offset, scale, imageSize, viewportSize) ==> r == offset
    // an out-of-bounds component goes to the nearer bound
    ensures scale > 1.0 ==>
      var mx := MaxOffset(imageSize.width, scale, viewportSize.width);
      var my := MaxOffset(imageSize.height, scale, viewportSize.height);
      && (offset.width > mx ==> r.width == mx) && (offset.width < -mx ==> r.width == -mx)
      && (offset.height > my ==> r.height == my) && (offset.height < -my ==> r.height == -my)
    // a component already within its bound is kept, whatever the other one does
    ensures scale > 1.0 ==>
      var mx := MaxOffset(imageSize.width, scale, viewportSize.width);
      var my := MaxOffset(imageSize.height, scale, viewportSize.height);
      && (-mx <= offset.width <= mx ==> r.width == offset.width)
      && (-my <= offset.height <= my ==> r.height == offset.height)
  {
    if scale <= 1.0 then Size(0.0, 0.0)
    else
      var maxX := MaxOffset(imageSize.width, scale, viewportSize.width);
      var maxY := MaxOffset(imageSize.height, scale, viewportSize.height);
      Size(Clamped(offset.width, -maxX, maxX), Clamped(offset.height, -maxY, maxY))
  }

  /** Clamping twice is clamping once. */
  lemma ClampOffsetIdempotent(offset: Size, scale: real, imageSize: Size, viewportSize: Size)
    ensures var once := ClampOffset(offset, scale, imageSize, viewportSize);
      ClampOffset(once, scale, imageSize, viewportSize) == once
  {
  }

  /** Swift's `%` on `Int`: the remainder takes the sign of the dividend. */
  function SwiftRem(a: int, n: int): (r: int)
    requires n > 0
    ensures -n < r < n
    ensures a >= 0 ==> r >= 0
    ensures a <= 0 ==> r <= 0
    ensures a >= 0 ==> r == a % n
    ensures a < 0 ==> r == -((-a) % n)
  {
    if a >= 0 then a % n else -((-a) % n)
  }

  /** The index `previous` moves to (also the left neighbour `preloadNeighbors` loads). */
  function PrevIndex(i: int, total: int): (r: int)
    requires total >= 0
    ensures total == 0 ==> r == i
    ensures 0 <= i < total ==> 0 <= r < total && r == (if i == 0 then total - 1 else i - 1)
  {
    if total == 0 then i else SwiftRem(i - 1 + total, total)
  }

  /** The index `next` moves to (also the right neighbour `preloadNeighbors` loads). */
  function NextIndex(i: int, total: int): (r: int)
    requires total >= 0
    ensures total == 0 ==> r == i
    ensures 0 <= i < total ==> 0 <= r < total && r == (if i == total - 1 then 0 else i + 1)
  {
    if total == 0 then i else SwiftRem(i + 1, total)
  }

  /** Stepping forward and back, in either order, returns to where one started. */
  lemma PrevNextInverse(i: int, total: int)
    requires 0 <= i < total
    ensures PrevIndex(NextIndex(i, total), total) == i
    ensures NextIndex(PrevIndex(i, total), total) == i
    ensures NextIndex(total - 1, total) == 0 && PrevIndex(0, total) == total - 1
  {
  }

  /** The neighbours are in range and are what Euclidean wrap-around gives. */
  lemma NeighborsInRange(i: int, total: int)
    requires 0 <= i < total
    ensures 0 <= PrevIndex(i, total) < total && PrevIndex(i, total) == (i - 1 + total) % total
    ensures 0 <= NextIndex(i, total) < total && NextIndex(i, total) == (i + 1) % total
  {
  }

  // ---------------------------------------------------------------------------
  // Directory listings

  /** A listed item that is not a directory and has an image extension, in any case. */
  predicate IsImageEntry(e: Entry)
    ensures IsImageEntry(e) ==> e.isDirectory != Some(true)
    // an image name has a dot after its first character: a bare ".png" is no image
    ensures IsImageEntry(e) ==> var name := LastPathComponent(e.url); |name| > 1 && '.' in name[1..]
  {
    && !e.isDirectory.GetOr(false)
    && Lowercased(PathExtension(LastPathComponent(e.url))) in ImageExtensions
  }

  /** The URLs of the items of a listing that satisfy `keep`, in listing order. */
  function UrlsWhere(entries: seq<Entry>, keep: Entry -> bool): (r: seq<Url>)
    ensures |r| <= |entries|
    ensures forall u :: u in r <==> exists i :: 0 <= i < |entries| && entries[i].url == u && keep(entries[i])
  {
    if entries == [] then []
    else
      var init := entries[..|entries| - 1];
      var last := entries[|entries| - 1];
      assert forall i :: 0 <= i < |init| ==> init[i] == entries[i];
      UrlsWhere(init, keep) + (if keep(last) then [last.url] else [])
  }

  /** The URLs of the image items of a listing, in listing order. */
  function ImageUrls(entries: seq<Entry>): (r: seq<Url>)
    ensures |r| <= |entries|
    ensures forall u :: u in r <==> exists i :: 0 <= i < |entries| && entries[i].url == u && IsImageEntry(entries[i])
  {
    UrlsWhere(entries, IsImageEntry)
  }

  /** The images of a directory, sorted by file name; none when it cannot be read. */
  function DirectoryImages(directory: Url, fs: Finder, order: (string, string) -> bool): (r: seq<Url>)
    requires TotalPreorder(order)
    ensures fs.contentsOfDirectory(directory).None? ==> r == []
    ensures fs.contentsOfDirectory(directory).Some? ==>
      multiset(r) == multiset(ImageUrls(fs.contentsOfDirectory(directory).value))
    ensures SortedBy(r, LastPathComponent, order)
  {
    match fs.contentsOfDirectory(directory)
    case None => []
    case Some(contents) =>
      SortBySorted(ImageUrls(contents), LastPathComponent, order);
      SortBy(ImageUrls(contents), LastPathComponent, order)
  }

  /** `getImagesFromDirectory`: the directory's images, sorted by file name. */
  method GetImagesFromDirectory(directory: Url, fs: Finder, order: (string, string) -> bool) returns (r: seq<Url>)
    requires TotalPreorder(order)
    ensures r == DirectoryImages(directory, fs, order)
    ensures fs.contentsOfDirectory(directory).None? ==> r == []
    ensures fs.contentsOfDirectory(directory).Some? ==>
      multiset(r) == multiset(ImageUrls(fs.contentsOfDirectory(directory).value))
    ensures SortedBy(r, LastPathComponent, order)
  {
    match fs.contentsOfDirectory(directory) {
      case None =>
        r := [];
      case Some(contents) =>
        var imageURLs: seq<Url> := [];
        for i := 0 to |contents|
          invariant imageURLs == ImageUrls(contents[..i])
        {
          assert contents[..i + 1][..i] == contents[..i];
          if IsImageEntry(contents[i]) {
            imageURLs := imageURLs + [contents[i].url];
          }
        }
        assert contents[..|contents|] == contents;
        r := SortBy(imageURLs, LastPathComponent, order);
    }
  }

  // ---------------------------------------------------------------------------
  // Opening files and folders

  /** What one opened URL contributes to the list: a folder its images, a file itself. */
  function Contribution(u: Url, fs: Finder): (c: set<Url>)
    ensures !u.hasDirectoryPath ==> c == {u}
    ensures u.hasDirectoryPath && fs.contentsOfDirectory(u).None? ==> c == {}
    ensures u.hasDirectoryPath && fs.contentsOfDirectory(u).Some? ==>
      forall x :: x in c <==> x in ImageUrls(fs.contentsOfDirectory(u).value)
  {
    if !u.hasDirectoryPath then {u}
    else
      match fs.contentsOfDirectory(u)
      case None => {}
      case Some(entries) => set x | x in ImageUrls(entries)
  }

  /** Every image the opened URLs contribute. */
  function Found(urls: seq<Url>, fs: Finder): (f: set<Url>)
    ensures forall x :: x in f <==> exists i :: 0 <= i < |urls| && x in Contribution(urls[i], fs)
  {
    if urls == [] then {}
    else
      var init := urls[..|urls| - 1];
      var f := Found(init, fs) + Contribution(urls[|urls| - 1], fs);
      assert forall x :: x in f <==> exists i :: 0 <= i < |urls| && x in Contribution(urls[i], fs) by {
        forall x | x in f ensures exists i :: 0 <= i < |urls| && x in Contribution(urls[i], fs) {
          if x in Found(init, fs) {
            var i :| 0 <= i < |init| && x in Contribution(init[i], fs);
            assert init[i] == urls[i];
          }
        }
        forall x, i | 0 <= i < |urls| && x in Contribution(urls[i], fs) ensures x in f {
          if i < |init| {
            assert init[i] == urls[i];
          }
        }
      }
      f
  }

  /** The images to load, in collection order: each folder's sorted images, each file itself. */
  function ToLoad(urls: seq<Url>, fs: Finder, order: (string, string) -> bool): (r: seq<Url>)
    requires TotalPreorder(order)
    ensures forall x :: x in r <==> x in Found(urls, fs)
  {
    if urls == [] then []
    else
      var init := urls[..|urls| - 1];
      var last := urls[|urls| - 1];
      var more := if last.hasDirectoryPath then DirectoryImages(last, fs, order) else [last];
      assert forall x :: x in more <==> x in Contribution(last, fs) by {
        if last.hasDirectoryPath && fs.contentsOfDirectory(last).Some? {
          assert forall x :: x in more <==> x in multiset(more);
          assert forall x :: x in ImageUrls(fs.contentsOfDirectory(last).value) <==>
            x in multiset(ImageUrls(fs.contentsOfDirectory(last).value));
        }
      }
      ToLoad(init, fs, order) + more
  }

  /** The first opened URL that is not a folder: the image to start on. */
  function FirstFile(urls: seq<Url>): (r: Option<Url>)
    ensures r.None? <==> forall i :: 0 <= i < |urls| ==> urls[i].hasDirectoryPath
    ensures r.Some? ==> !r.value.hasDirectoryPath
    ensures r.Some? ==>
      exists i :: 0 <= i < |urls| && urls[i] == r.value && (forall j :: 0 <= j < i ==> urls[j].hasDirectoryPath)
  {
    if urls == [] then None
    else
      var init := urls[..|urls| - 1];
      assert forall i :: 0 <= i < |init| ==> init[i] == urls[i];
      match FirstFile(init)
      case Some(u) => Some(u)
      case None => if urls[|urls| - 1].hasDirectoryPath then None else Some(urls[|urls| - 1])
  }

  /** The file to start on is itself one of the images found. */
  lemma {:induction false} FirstFileFound(urls: seq<Url>, fs: Finder)
    ensures FirstFile(urls).Some? ==> FirstFile(urls).value in Found(urls, fs)
  {
    if urls != [] {
      var init := urls[..|urls| - 1];
      FirstFileFound(init, fs);
    }
  }

  /** The opened URLs whose access session started, in the order they were opened. */
  function Kept(urls: seq<Url>, fs: Finder): (r: seq<Url>)
    ensures |r| <= |urls|
    ensures forall x :: x in r <==> x in urls && fs.startAccessing(x)
  {
    if urls == [] then []
    else
      var init := urls[..|urls| - 1];
      var last := urls[|urls| - 1];
      assert urls == init + [last];
      Kept(init, fs) + (if fs.startAccessing(last) then [last] else [])
  }

  /** One opened URL is kept exactly when its session starts. */
  lemma KeptSingle(u: Url, fs: Finder)
    ensures Kept([u], fs) == if fs.startAccessing(u) then [u] else []
  {
    assert [u][..0] == [];
  }

  /** Keeping is done URL by URL, in opening order: it distributes over concatenation. */
  lemma {:induction false} KeptAppend(a: seq<Url>, b: seq<Url>, fs: Finder)
    ensures Kept(a + b, fs) == Kept(a, fs) + Kept(b, fs)
    decreases |b|
  {
    if b == [] {
      assert a + b == a;
    } else {
      var init := b[..|b| - 1];
      var last := b[|b| - 1];
      assert (a + b)[..|a + b| - 1] == a + init;
      assert (a + b)[|a + b| - 1] == last;
      KeptAppend(a, init, fs);
    }
  }

  /** The loop of `handleOpenFiles`: images to load, first selected file, URLs kept open. */
  method CollectOpenedFiles(urls: seq<Url>, fs: Finder, order: (string, string) -> bool)
    returns (toLoad: seq<Url>, selected: Option<Url>, keep: seq<Url>)
    requires TotalPreorder(order)
    ensures toLoad == ToLoad(urls, fs, order)
    ensures selected == FirstFile(urls)
    ensures keep == Kept(urls, fs)
  {
    toLoad, selected, keep := [], None, [];
    for i := 0 to |urls|
      invariant toLoad == ToLoad(urls[..i], fs, order)
      invariant selected == FirstFile(urls[..i])
      invariant keep == Kept(urls[..i], fs)
    {
      var url := urls[i];
      assert urls[..i + 1][..i] == urls[..i];
      if url.hasDirectoryPath {
        if fs.startAccessing(url) {
          keep := keep + [url];
        }
        var imagesInDir := GetImagesFromDirectory(url, fs, order);
        toLoad := toLoad + imagesInDir;
      } else {
        toLoad := toLoad + [url];
        if selected.None? {
          selected := Some(url);
        }
        if fs.startAccessing(url) {
          keep := keep + [url];
        }
      }
    }
    assert urls[..|urls|] == urls;
  }

  /** `Set(urls)` sorted by file name: every URL once, in name order. */
  function UniqueSorted(urls: seq<Url>, order: (string, string) -> bool): (r: seq<Url>)
    requires TotalPreorder(order)
    ensures forall x :: x in r <==> x in urls
    ensures NoDuplicates(r)
    ensures SortedBy(r, LastPathComponent, order)
  {
    var unique := Dedup(urls);
    SortBySorted(unique, LastPathComponent, order);
    SortByNoDuplicates(unique, LastPathComponent, order);
    var sorted := SortBy(unique, LastPathComponent, order);
    assert forall x :: x in sorted <==> x in multiset(unique);
    sorted
  }

  /** Only an empty list of opened images sorts to the empty list. */
  lemma UniqueSortedEmpty(urls: seq<Url>, order: (string, string) -> bool)
    requires TotalPreorder(order)
    ensures UniqueSorted(urls, order) == [] <==> urls == []
  {
    if urls != [] {
      assert urls[0] in UniqueSorted(urls, order);
    }
  }

  /** Where browsing starts: the position of the selected file, otherwise the first image. */
  function StartIndex(list: seq<Url>, selected: Option<Url>): (i: nat)
    requires list != []
    ensures i < |list|
    ensures selected.Some? && selected.value in list ==>
      list[i] == selected.value && forall j :: 0 <= j < i ==> list[j] != selected.value
    ensures selected.None? ==> i == 0
    ensures selected.Some? && selected.value !in list ==> i == 0
  {
    if selected.None? then 0
    else
      match FirstIndexOf(list, selected.value)
      case Some(index) => index
      case None => 0
  }

  /** The list opened from `urls`: `Set` of the collected images, sorted by file name. */
  lemma {:induction false} OpenedList(urls: seq<Url>, fs: Finder, order: (string, string) -> bool)
    requires TotalPreorder(order)
    ensures ToLoad(urls, fs, order) == [] <==> Found(urls, fs) == {}
    ensures var list := UniqueSorted(ToLoad(urls, fs, order), order);
      && (forall x :: x in list <==> x in Found(urls, fs))
      && NoDuplicates(list)
      && SortedBy(list, LastPathComponent, order)
    ensures var list := UniqueSorted(ToLoad(urls, fs, order), order);
      FirstFile(urls).Some? ==> list != [] && list[StartIndex(list, FirstFile(urls))] == FirstFile(urls).value
  {
    var toLoad := ToLoad(urls, fs, order);
    if toLoad == [] {
      assert forall x :: x !in Found(urls, fs);
    } else {
      assert toLoad[0] in Found(urls, fs);
    }
    FirstFileFound(urls, fs);
  }

  /** `m` after `loadImage(at: index)` has published a cache hit for `list`. */
  function CachedAt(m: map<int, Image>, list: seq<Url>, cache: map<Url, Image>, index: int): (r: map<int, Image>)
    ensures 0 <= index < |list| && list[index] in cache ==> index in r && r[index] == cache[list[index]]
    ensures !(0 <= index < |list| && list[index] in cache) ==> r == m
    ensures forall k :: k in m && k != index ==> k in r && r[k] == m[k]
    ensures forall k :: k in r ==> k in m || k == index
  {
    if 0 <= index < |list| && list[index] in cache then m[index := cache[list[index]]] else m
  }

  /**
   * What a fresh list shows after loading `index` and preloading its neighbours:
   * exactly the cached images among the three positions.
   */
  function Window(list: seq<Url>, index: nat, cache: map<Url, Image>): (m: map<int, Image>)
    requires index < |list|
    ensures var n := |list|;
      var window := {index, PrevIndex(index, n), NextIndex(index, n)};
      && (forall k :: k in m <==> k in window && 0 <= k < n && list[k] in cache)
      && (forall k :: k in m ==> 0 <= k < n && m[k] == cache[list[k]])
  {
    var n := |list|;
    CachedAt(CachedAt(CachedAt(map[], list, cache, index), list, cache, PrevIndex(index, n)), list, cache, NextIndex(index, n))
  }

  // ---------------------------------------------------------------------------
  // The window state

  class ContentView {
    /** The bundled demo images, shown while no file is open. */
    var images: seq<Image>
    var imageURLs: seq<Url>
    /** Decoded images by position in `imageURLs`. */
    var loadedImages: map<int, Image>
    var currentIndex: int
    var securityScopedURLs: seq<Url>
    /** The shared image cache, keyed by URL. */
    var cache: map<Url, Image>

    constructor (demoImages: seq<Image>, sharedCache: map<Url, Image>)
      ensures images == demoImages && cache == sharedCache
      ensures imageURLs == [] && loadedImages == map[] && currentIndex == 0 && securityScopedURLs == []
      ensures Valid()
    {
      images := demoImages;
      imageURLs := [];
      loadedImages := map[];
      currentIndex := 0;
      securityScopedURLs := [];
      cache := sharedCache;
    }

    /** The number of images one can page through. */
    function TotalCount(): (n: nat)
      reads this
      ensures imageURLs != [] ==> n == |imageURLs|
      ensures imageURLs == [] ==> n == |images|
      ensures n == 0 <==> imageURLs == [] && images == []
    {
      if imageURLs == [] then |images| else |imageURLs|
    }

    /** The current index points at an image whenever there is one. */
    predicate Valid()
      reads this
    {
      0 <= currentIndex && (TotalCount() > 0 ==> currentIndex < TotalCount())
    }

    method Previous()
      modifies this`currentIndex
      ensures currentIndex == PrevIndex(old(currentIndex), TotalCount())
      ensures old(Valid()) ==> Valid()
    {
      var totalCount := TotalCount();
      if totalCount == 0 {
        return;
      }
      currentIndex := SwiftRem(currentIndex - 1 + totalCount, totalCount);
    }

    method Next()
      modifies this`currentIndex
      ensures currentIndex == NextIndex(old(currentIndex), TotalCount())
      ensures old(Valid()) ==> Valid()
    {
      var totalCount := TotalCount();
      if totalCount == 0 {
        return;
      }
      currentIndex := SwiftRem(currentIndex + 1, totalCount);
    }

    /** `getCurrentImage`: with files open, the cached image first, then the loaded one. */
    function GetCurrentImage(): (r: Option<Image>)
      reads this
      ensures imageURLs != [] && !(0 <= currentIndex < |imageURLs|) ==> r == None
      ensures imageURLs != [] && 0 <= currentIndex < |imageURLs| && imageURLs[currentIndex] in cache ==>
        r == Some(cache[imageURLs[currentIndex]])
      ensures imageURLs != [] && 0 <= currentIndex < |imageURLs| && imageURLs[currentIndex] !in cache ==>
        (r.Some? <==> currentIndex in loadedImages) && (r.Some? ==> r.value == loadedImages[currentIndex])
      ensures imageURLs == [] ==> r == SafeGet(images, currentIndex)
    {
      if imageURLs != [] then
        if !(0 <= currentIndex < |imageURLs|) then None
        else if imageURLs[currentIndex] in cache then Some(cache[imageURLs[currentIndex]])
        else if currentIndex in loadedImages then Some(loadedImages[currentIndex])
        else None
      else SafeGet(images, currentIndex)
    }

    /** `loadImage(at:)`: ignores an index out of range; on a cache hit records the image. */
    method LoadImage(index: int)
      modifies this`loadedImages
      ensures loadedImages == CachedAt(old(loadedImages), imageURLs, cache, index)
      ensures !(0 <= index < |imageURLs|) ==> loadedImages == old(loadedImages)
    {
      if !(0 <= index < |imageURLs|) {
        return;
      }
      var url := imageURLs[index];
      if url in cache {
        loadedImages := loadedImages[index := cache[url]];
        return;
      }
    }

    method PreloadNeighbors()
      modifies this`loadedImages
      ensures imageURLs == [] ==> loadedImages == old(loadedImages)
      ensures imageURLs != [] ==>
        var n := |imageURLs|;
        var left := CachedAt(old(loadedImages), imageURLs, cache, PrevIndex(currentIndex, n));
        loadedImages == CachedAt(left, imageURLs, cache, NextIndex(currentIndex, n))
      // from a valid position, both neighbours are in range and loaded whenever cached
      ensures Valid() && imageURLs != [] ==>
        var n := |imageURLs|;
        var left := PrevIndex(currentIndex, n);
        var right := NextIndex(currentIndex, n);
        && 0 <= left < n && 0 <= right < n
        && (imageURLs[left] in cache ==> left in loadedImages && loadedImages[left] == cache[imageURLs[left]])
        && (imageURLs[right] in cache ==> right in loadedImages && loadedImages[right] == cache[imageURLs[right]])
    {
      if imageURLs == [] {
        return;
      }
      var left := SwiftRem(currentIndex - 1 + |imageURLs|, |imageURLs|);
      var right := SwiftRem(currentIndex + 1, |imageURLs|);
      LoadImage(left);
      LoadImage(right);
    }

    /** `releaseSecurityScopedAccess`: stops every kept session in order and forgets them. */
    method ReleaseSecurityScopedAccess() returns (stopped: seq<Url>)
      modifies this`securityScopedURLs
      ensures stopped == old(securityScopedURLs)
      ensures securityScopedURLs == []
    {
      stopped := [];
      for i := 0 to |securityScopedURLs|
        invariant stopped == securityScopedURLs[..i]
      {
        stopped := stopped + [securityScopedURLs[i]];
      }
      securityScopedURLs := [];
    }
  
    /** `handleOpenFiles`; returns the sessions it released. */
    method HandleOpenFiles(urls: seq<Url>, fs: Finder, order: (string, string) -> bool) returns (released: seq<Url>)
      requires TotalPreorder(order)
      modifies this`securityScopedURLs, this`imageURLs, this`loadedImages, this`currentIndex
      // nothing opened: nothing changes
      ensures urls == [] ==>
        && released == []
        && imageURLs == old(imageURLs) && loadedImages == old(loadedImages)
        && currentIndex == old(currentIndex) && securityScopedURLs == old(securityScopedURLs)
      // the old sessions are released, the ones that started are kept, in opening order
      ensures urls != [] ==> released == old(securityScopedURLs) && securityScopedURLs == Kept(urls, fs)
      // no image found: the list shown stays as it was
      ensures urls != [] && ToLoad(urls, fs, order) == [] ==>
        imageURLs == old(imageURLs) && loadedImages == old(loadedImages) && currentIndex == old(currentIndex)
      // otherwise the opened list, from the first selected file, with its window loaded
      ensures urls != [] && ToLoad(urls, fs, order) != [] ==>
        && imageURLs == UniqueSorted(ToLoad(urls, fs, order), order)
        && currentIndex == StartIndex(imageURLs, FirstFile(urls))
        && loadedImages == Window(imageURLs, currentIndex, cache)
      ensures old(Valid()) ==> Valid()
    {
      if urls == [] {
        return [];
      }
      released := ReleaseSecurityScopedAccess();
      var imageURLsToLoad, selectedFileURL, urlsToKeepAccess := CollectOpenedFiles(urls, fs, order);
      securityScopedURLs := urlsToKeepAccess;

      var sortedURLs := UniqueSorted(imageURLsToLoad, order);
      UniqueSortedEmpty(imageURLsToLoad, order);
      if sortedURLs == [] {
        return;
      }
      var selectedFileIndex := StartIndex(sortedURLs, selectedFileURL);
      ShowList(sortedURLs, selectedFileIndex);
    }

    /** The last step of `handleOpenFiles`: show `list` from `index` and load around it. */
    method ShowList(list: seq<Url>, index: nat)
      requires index < |list|
      modifies this`imageURLs, this`loadedImages, this`currentIndex
      ensures imageURLs == list && currentIndex == index
      ensures loadedImages == Window(list, index, cache)
    {
      imageURLs := list;
      loadedImages := map[];
      currentIndex := index;
      LoadImage(index);
      PreloadNeighbors();
    }
  }
}
