# easyView core, modelled in Dafny

easyView is a small macOS image viewer. This project models the two parts of it that hold
logic beyond UI glue, and proves properties of the model.

- **The folder-permission store** (`BookmarkManager`, module `Bookmarks`). It persists
  security-scoped bookmarks under their path strings in the `SavedFolderBookmarks`
  preferences entry. It also keeps the list of locations whose security-scoped access this
  process has started. Its operations are:
  - save (upsert);
  - remove;
  - restore, which re-saves a stale bookmark ("self-heal") and deletes one that no longer
    resolves ("purge");
  - the ancestor walk of `restoreAccessForDirectory`;
  - the sorted listing and the membership test;
  - releasing every session, and clearing the store.

  The class `Bookmarks.BookmarkManager` performs these operations in place on two fields:
  `defaults` (the preferences entry) and `active` (`activeSecurityScopedURLs`). Four
  methods are proved equal to a pure step function on a `State`: `SaveBookmark` to `Saved`,
  `RemoveBookmark` to `Removed`, `RestoreAccess` to `Restore`, and
  `RestoreAccessForDirectory` to `Walk`. The lemmas are stated on those functions. The
  other members (`GetSavedFolders`, `HasBookmark`, `ReleaseAllAccess`,
  `ClearAllBookmarks`) state their effect directly in their own contracts.
- **The viewer's list and navigation logic** (`ContentView`, module `Viewer`). It covers:
  - wrap-around `previous` / `next` and the neighbour indices for prefetch;
  - `loadImage` (the index guard and the cache hit) and `getCurrentImage`;
  - `handleOpenFiles`: release the old sessions, collect images from the opened files and
    folders, de-duplicate and sort them, pick the start index, and keep the new sessions;
  - `getImagesFromDirectory` with its extension allow-list;
  - `clamped`, `clampOffset` and `subscript(safe:)`.

  The class `Viewer.ContentView` has the view's state fields: `images`, `imageURLs`,
  `loadedImages`, `currentIndex` and `securityScopedURLs`. It also has the shared image
  cache, as a `map<Url, Image>`.

Supporting modules:
- `Paths` holds standardized paths as component sequences: no component is empty, `.` or
  `..`. The root `/` is the empty sequence, so on such paths `deletingLastPathComponent`
  drops the last component. `PathString` renders a path as
  `URL.path`. `Url` records `hasDirectoryPath`. The module also holds `lastPathComponent`,
  `pathExtension` and ASCII `lowercased`.
- `Ordering` holds code-point string order for `sorted()`, a keyed insertion sort for
  `sorted(by:)`, and keep-first de-duplication for `Set(...)`.

The operating system is passed in as oracle values:
- `Bookmarks.Os`: deriving a bookmark (`None` when it throws), resolving one
  (`Unresolvable`, or `Resolved(path, isStale)`), and starting access.
- `Viewer.Finder`: a directory listing (`None` when reading it throws) and starting access.

Stop-access calls are returned as a trace, in the `stopped` / `released`
out-parameters.

The file-name comparator `localizedStandardCompare` is a parameter `order` that must be a
total preorder. `order(a, b)` means name `a` does not sort after name `b`.

## Model

| member | source | states |
|---|---|---|
| Bookmarks.Stored | easyView/BookmarkManager.swift:136-138 | a missing or ill-typed entry reads as the empty dictionary; otherwise the entry itself |
| Bookmarks.Saved | easyView/BookmarkManager.swift:22-37 | when the token derives, the store maps the path to it and every other key keeps its record; when derivation throws, the store is unchanged |
| Bookmarks.Removed | easyView/BookmarkManager.swift:41-46 | afterwards the path has no record, every other record is unchanged, and removing an absent path leaves the same dictionary |
| Bookmarks.Restore | easyView/BookmarkManager.swift:51-85 | no record: returns nil, state unchanged. Unresolvable: returns nil, the record is purged, other records and the active list are unchanged. Resolved: the record stays; a stale token is re-saved under the resolved path before access starts, whatever start-access then does; the URL is returned iff start-access succeeds; the active list grows by exactly the returned URL |
| Bookmarks.Walk | easyView/BookmarkManager.swift:88-104 | tries locations in order: what it attempted is a prefix of the tries, all of them on failure; on failure the active list is unchanged; on success exactly one location is appended |
| Bookmarks.WalkStopsAtFirstSuccess | easyView/BookmarkManager.swift:88-104 | on success the walk stops at the first success: every earlier try fails, the last attempted one succeeds, and the final state is exactly what that `Restore` leaves, so later locations are never touched |
| Bookmarks.WalkKeepsUntriedRecords | easyView/BookmarkManager.swift:88-104 | with no stale bookmark, the record under every key the walk did not try is left as it was |
| Bookmarks.WalkWithoutRecords | easyView/BookmarkManager.swift:88-104 | when none of the tried locations has a record, the walk fails, tries them all, and changes nothing |
| Bookmarks.WalkFindsGrant | easyView/BookmarkManager.swift:88-104 | with no stale bookmark and distinct keys, the walk succeeds iff some tried location holds a record that resolves and whose access starts |
| Bookmarks.AncestorKeysDistinct | easyView/BookmarkManager.swift:95-101 | the directory and each of its ancestors up to `/` are stored under pairwise distinct path strings |
| Bookmarks.DirectoryAccessFindsGrant | easyView/BookmarkManager.swift:88-104 | `restoreAccessForDirectory` succeeds iff the directory, one of its ancestors, or the root `/` holds a record that grants access (no stale bookmarks) |
| Bookmarks.FolderGrantCoversFile | easyView/BookmarkManager.swift:88-104 | after saving a folder's bookmark, the walk from a file inside it fails on the file, which has no record, then succeeds on the folder |
| Bookmarks.BookmarkManager.StoredBookmarks | easyView/BookmarkManager.swift:136-138 | the persisted dictionary, or the empty one when there is none |
| Bookmarks.BookmarkManager.SaveBookmark | easyView/BookmarkManager.swift:22-37 | the new store is `Saved` of the old one |
| Bookmarks.BookmarkManager.RemoveBookmark | easyView/BookmarkManager.swift:41-46 | the new store is `Removed` of the old one |
| Bookmarks.BookmarkManager.RestoreAccess | easyView/BookmarkManager.swift:51-85 | the URL returned and the new store and active list are those of `Restore` on the old state |
| Bookmarks.BookmarkManager.RestoreAccessForDirectory | easyView/BookmarkManager.swift:88-104 | the loop, guarded like the source by the path string not being `/`, terminates on a standardized path; its result and new state are those of `Walk` over the directory's ancestors, the root included |
| Bookmarks.BookmarkManager.GetSavedFolders | easyView/BookmarkManager.swift:109-111 | exactly the stored keys, strictly ascending (so no duplicates), as many as there are keys |
| Bookmarks.BookmarkManager.HasBookmark | easyView/BookmarkManager.swift:114-116 | holds iff the path is among the saved folders |
| Bookmarks.BookmarkManager.ReleaseAllAccess | easyView/BookmarkManager.swift:121-126 | stops every active session in order and leaves the active list empty |
| Bookmarks.BookmarkManager.ClearAllBookmarks | easyView/BookmarkManager.swift:129-132 | the entry is removed, so the store reads as empty; the active list is untouched |
| Bookmarks.ReleaseTwice | easyView/BookmarkManager.swift:121-126 | releasing is idempotent: a second release stops nothing and the list stays empty |
| Paths.Parent | easyView/BookmarkManager.swift:97 | on a standardized path, `deletingLastPathComponent` drops exactly the last component |
| Paths.PathString | easyView/BookmarkManager.swift:96 | `url.path`, the key bookmarks are stored under and the loop guard compares: always non-empty and absolute, starting with `/` |
| Paths.LastPathComponent | easyView/ContentView.swift:529 | `lastPathComponent`: the last component of the path, or `/` for the root |
| Paths.PathStringIsRoot | easyView/BookmarkManager.swift:96 | on a standardized path, the loop guard `path != "/"` fails exactly at the root |
| Paths.Ancestors | easyView/BookmarkManager.swift:90-101 | the tries are the directory, then each shorter prefix in turn, ending with the root: one more try than `dir` has components, the k-th being `dir` minus its last k components |
| Paths.PathExtension | easyView/ContentView.swift:517 | when the last dot is not the first character, exactly the text after it; empty when there is no dot or the only dot leads a hidden name; never contains a dot |
| Paths.Lowercased | easyView/ContentView.swift:517 | same length, every ASCII letter lowered, no upper-case ASCII letter left |
| Ordering.SortedStrings | easyView/BookmarkManager.swift:110 | the set's elements listed once each in strictly ascending order |
| Ordering.StrLtIrreflexive | easyView/BookmarkManager.swift:110 | no string sorts before itself under the order `sorted()` uses |
| Ordering.StrLtAsymmetric | easyView/BookmarkManager.swift:110 | if `a` sorts before `b`, then `b` does not sort before `a` |
| Ordering.StrLtTransitive | easyView/BookmarkManager.swift:110 | the order `sorted()` uses is transitive |
| Ordering.StrLtTrichotomy | easyView/BookmarkManager.swift:110 | any two strings are equal or one sorts before the other: the order is total |
| Ordering.SortBy | easyView/ContentView.swift:528-530 | sorting by file name is a permutation of the input: same elements with the same multiplicities, same length |
| Ordering.SortBySorted | easyView/ContentView.swift:528-530 | the keyed sort's result is sorted by the key under any total preorder |
| Ordering.Dedup | easyView/ContentView.swift:455 | the same elements as the input, each once |
| Ordering.FirstIndexOf | easyView/ContentView.swift:471 | None iff the element is absent; otherwise an index holding it, with no earlier one |
| Viewer.SafeGet | easyView/ContentView.swift:581-585 | an element iff the index is in range, and that element is the one at the index |
| Viewer.Clamped | easyView/ContentView.swift:719-723 | the result is in `[lower, upper]`, equals the input when it is inside, and is the nearer bound otherwise |
| Viewer.MaxOffset | easyView/ContentView.swift:309-310 | the allowed offset is the larger of 0 and half the overhang of the scaled image: at least both, and equal to one of them |
| Viewer.ClampOffset | easyView/ContentView.swift:297-317 | zero offset when the scale is at most 1; otherwise each component is within plus or minus `max(0, (scaled - viewport)/2)`, each in-bounds component is kept whatever the other one is, and an out-of-bounds component goes to the nearer bound |
| Viewer.ClampOffsetIdempotent | easyView/ContentView.swift:297-317 | clamping twice is clamping once |
| Viewer.SwiftRem | easyView/ContentView.swift:262 | Swift's `%`, truncating toward zero: the remainder is smaller than the divisor in magnitude, has the sign of the dividend, and is the Euclidean remainder for a non-negative dividend |
| Viewer.PrevIndex | easyView/ContentView.swift:259-264 | with a total of 0 the index is unchanged; otherwise from an index in range it goes one back, wrapping from 0 to total-1 |
| Viewer.NextIndex | easyView/ContentView.swift:266-271 | with a total of 0 the index is unchanged; otherwise from an index in range it goes one forward, wrapping from total-1 to 0 |
| Viewer.PrevNextInverse | easyView/ContentView.swift:259-271 | `next` and `previous` undo each other; `next` from total-1 is 0 and `previous` from 0 is total-1 |
| Viewer.NeighborsInRange | easyView/ContentView.swift:561-567 | both neighbours of an in-range index are in range and equal `(i-1+n)%n` and `(i+1)%n` |
| Viewer.ImageUrls | easyView/ContentView.swift:511-523 | a URL is kept iff some listed item with it is not a directory (a failed lookup counts as not a directory) and has a lowercased extension in the allow-list |
| Viewer.IsImageEntry | easyView/ContentView.swift:513-518 | an item known to be a directory is never an image, and an image name has a dot after its first character (a bare `.png` is no image) |
| Viewer.DirectoryImages | easyView/ContentView.swift:494-536 | a listing error gives no images; otherwise exactly the kept URLs, sorted by file name |
| Viewer.GetImagesFromDirectory | easyView/ContentView.swift:494-536 | the loop's result is `DirectoryImages`: empty on a listing error, else the filtered URLs sorted by file name |
| Viewer.Contribution | easyView/ContentView.swift:420-445 | a file contributes itself; a folder contributes its images, or nothing when it cannot be read |
| Viewer.Found | easyView/ContentView.swift:417-446 | a URL is found iff some opened URL contributes it |
| Viewer.ToLoad | easyView/ContentView.swift:413-446 | the collected list holds exactly the images found |
| Viewer.FirstFile | easyView/ContentView.swift:433-438 | none iff every opened URL is a folder; otherwise the first opened URL that is not a folder |
| Viewer.FirstFileFound | easyView/ContentView.swift:433-438 | the first selected file is itself among the images found |
| Viewer.Kept | easyView/ContentView.swift:415-446 | holds exactly the opened URLs whose access started, and is no longer than the input |
| Viewer.KeptSingle | easyView/ContentView.swift:422-425 | one opened URL is kept iff its session starts |
| Viewer.KeptAppend | easyView/ContentView.swift:417-446 | keeping distributes over concatenation, so with `KeptSingle` the kept list is fixed: the URLs whose session started, in opening order, once per opening |
| Viewer.CollectOpenedFiles | easyView/ContentView.swift:413-446 | the loop yields `ToLoad`, `FirstFile` and `Kept` of the opened URLs |
| Viewer.UniqueSorted | easyView/ContentView.swift:455-458 | the same URLs as the input, each once, sorted by file name |
| Viewer.UniqueSortedEmpty | easyView/ContentView.swift:455-466 | the sorted list is empty iff nothing was collected |
| Viewer.StartIndex | easyView/ContentView.swift:469-474 | an index in range; the first position of the selected file when it is listed; 0 when nothing is selected or the selection is not listed |
| Viewer.OpenedList | easyView/ContentView.swift:455-474 | nothing collected iff nothing found; the new list holds every found image once, sorted by file name; the start index points at the first selected file |
| Viewer.Window | easyView/ContentView.swift:484-490 | after a fresh load, exactly the cached images at the current index and its two neighbours are loaded, each under its own position |
| Viewer.CachedAt | easyView/ContentView.swift:540-546 | a cache hit at an in-range index is published under that index; every other position keeps its image, no other position is added, and an out-of-range index or a miss changes nothing |
| Viewer.ContentView.TotalCount | easyView/ContentView.swift:260 | the paging count is the URL list's length when there is one, else the number of pictures shown directly; zero exactly when both are empty |
| Viewer.ContentView.Previous | easyView/ContentView.swift:259-264 | the index becomes `PrevIndex` of the old one; an in-range index stays in range |
| Viewer.ContentView.Next | easyView/ContentView.swift:266-271 | the index becomes `NextIndex` of the old one; an in-range index stays in range |
| Viewer.ContentView.GetCurrentImage | easyView/ContentView.swift:360-369 | with files open: nil out of range, the cache entry when there is one, else the loaded image; without files: the demo image at the index, if any |
| Viewer.ContentView.LoadImage | easyView/ContentView.swift:539-558 | an out-of-range index changes nothing; a cache hit records the image under its index; a miss changes nothing |
| Viewer.ContentView.PreloadNeighbors | easyView/ContentView.swift:561-567 | nothing on an empty list; otherwise loads the left and then the right neighbour; from a valid index both neighbours are in range and end up loaded whenever they are cached |
| Viewer.ContentView.ReleaseSecurityScopedAccess | easyView/ContentView.swift:570-576 | stops every kept session in order and empties the list |
| Viewer.ContentView.HandleOpenFiles | easyView/ContentView.swift:404-491 | no input: nothing changes. Otherwise the old sessions are released and the kept list becomes `Kept`. With no images the list, loaded images and index are unchanged. Otherwise the list is `UniqueSorted` of what was collected, the index is `StartIndex` for the first selected file, and the loaded images are `Window` |
| Viewer.ContentView.ShowList | easyView/ContentView.swift:484-490 | the list and index are set, and the loaded images are exactly `Window` of them |

## Left out

- The SwiftUI views, layout, hover state, animations, `togglePin`, gestures, scroll-wheel zoom
  and key handling: these are presentation and event plumbing.
- `loadImage`'s background decode on a cache miss: a miss changes nothing in the model.
- `loadImage`'s cache hit is published through `DispatchQueue.main.async`. The model records
  it at once, so a late publish after `loadedImages.removeAll()` is not modelled.
- easyView/ImageCache.swift is not part of this model. The cache is a fixed map that the
  view reads; its eviction and cost limits are not modelled.
- `loadDemoImages` (bundle asset lookup) is not modelled. The constructor takes the demo
  images as a parameter.
- easyView/SettingsView.swift and easyView/easyViewApp.swift are not part of this model.
- `UserDefaults`, `FileManager`, `Data(contentsOf:)` and `NSImage` are not modelled. The
  preferences entry is a field. Directory listings, bookmark derivation and resolution, and
  start-access come from oracle values.
- Stop-access calls and console output: stops are returned as traces, and `print` is
  dropped.
- Paths are taken as standardized: no component is empty, `.` or `..`.
  `restoreAccessForDirectory` requires this. Foundation's `deletingLastPathComponent`
  appends `/..` to a path that ends in `..` instead of shortening it, so on such a path the
  source loop `while currentPath.path != "/"` never ends. The model does not cover that case.
- Bookmarks.BookmarkManager.RestoreAccessForDirectory: requires a standardized directory
  path, for the reason above.
- The store is keyed by path strings rather than by `Path`. `restoreAccess(for:)` takes a
  `Path` and looks it up under `PathString`. The model reads `URL(fileURLWithPath:)` of a
  path back as the same path.
- The `order` oracle must be a total preorder. The locale rules of
  `localizedStandardCompare` are not modelled.
- `sorted()` on the stored keys uses code-point lexicographic order. Swift's Unicode
  canonical-equivalence comparison is not modelled.
- `Set(...)` followed by `sorted(by:)` leaves the order of names that compare equal
  unspecified. The model fixes one such order: first occurrences, then a stable insertion
  sort. The properties proved about it (same elements, each once, sorted) hold for every
  such order.
- Lowercased: the model's `Lowercased` lowers ASCII letters only; Swift's `lowercased()` maps Unicode, which changes no match against this all-ASCII allow-list.
- The start-access oracle is a function of the URL, so the same URL opened twice gets the
  same answer both times.
- `Int` overflow, and CGFloat rounding and NaN, are not modelled. Indices are unbounded
  integers and sizes are reals.
- Bookmarks.WalkKeepsUntriedRecords: proved only when no bookmark is stale. A stale re-save
  writes under the resolved location's key, which need not be one the walk tried.
- Bookmarks.WalkFindsGrant: the if-and-only-if is proved only when no bookmark is stale. A
  stale re-save can write a record under an ancestor's key before that ancestor is tried.
- Bookmarks.DirectoryAccessFindsGrant: stated under the same no-stale-bookmark condition,
  for the same reason.
