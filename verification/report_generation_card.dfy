/**
 * The report-generation panel of the dashboard viewer: an expandable card that
 * captures the dashboard page currently on screen into the browser's local
 * storage, keeps the ordered list of captured page names, and holds the page
 * size and orientation of the report to be generated.
 *
 * The browser is reduced to what the panel observes of it: the current URL is
 * a parameter, the screenshot taken by html2canvas is an opaque
 * `CaptureRecord`, and `localStorage` is a `LocalStorage` object holding a map.
 */
module ReportGenerationCard {
  import opened Wrappers
  import opened JsBuiltins

  /** The page sizes and orientations the two select fields offer, in display order. */
  const PageSizes: seq<string> := ["A4", "Letter", "A3"]
  const Orientations: seq<string> := ["Landscape", "Portrait"]

  const DefaultPageSize: string := "A4"
  const DefaultOrientation: string := "Landscape"

  /** Captured pages are stored under this prefix followed by the page name. */
  const ReportKeyPrefix: string := "_dashboard-report:"

  /** An entry of the `pages` property: the page's URL segment and its display name. */
  datatype Page = Page(id: string, name: string)

  /** What a capture stores: the PNG data URI, the canvas size and the capture time. */
  datatype CaptureRecord = CaptureRecord(imageData: string, width: int, height: int, timestamp: int)

  /** The storage key of the capture of page `name`. */
  function ReportKey(name: string): string
  {
    ReportKeyPrefix + name
  }

  /** Distinct page names are stored under distinct keys. */
  lemma {:induction false} ReportKeyInjective(a: string, b: string)
    ensures ReportKey(a) == ReportKey(b) ==> a == b
  {
    if ReportKey(a) == ReportKey(b) {
      assert a == ReportKey(a)[|ReportKeyPrefix|..];
      assert b == ReportKey(b)[|ReportKeyPrefix|..];
    }
  }

  /** A capture's key is never the bare page name: it is longer. */
  lemma {:induction false} ReportKeyIsNotBareName(name: string)
    ensures ReportKey(name) != name
  {
    assert |ReportKey(name)| == |ReportKeyPrefix| + |name|;
  }

  // ---------------------------------------------------------------------------
  // Locating the current page
  // ---------------------------------------------------------------------------

  /**
   * The URL segment that names the current page: the last `/`-separated part
   * of the URL, or the one before it when the last is empty. For the empty URL
   * the part before does not exist and JavaScript yields `undefined`: `None`.
   */
  function CurrentPageKey(url: string): (r: Option<string>)
    ensures r.Some? ==> Slash !in r.value
    ensures url == [] ==> r.None?
  {
    var parts := Split(url);
    var last := parts[|parts| - 1];
    if last == [] then
      (if |parts| >= 2 then Some(parts[|parts| - 2]) else None)
    else Some(last)
  }

  /**
   * The page key, stated on the URL itself: ignoring one trailing slash, it is
   * the longest slash-free text at the end of the URL. There is a key for
   * every URL except the empty one.
   */
  lemma {:induction false} CurrentPageKeyIsLastSegment(url: string)
    ensures CurrentPageKey(url).None? <==> url == []
    ensures CurrentPageKey(url).Some? ==>
      var seg := CurrentPageKey(url).value;
      var n := if url[|url| - 1] == Slash then |url| - 1 else |url|;
      && Slash !in seg
      && |seg| <= n && seg == url[n - |seg|..n]
      && (|seg| == n || url[n - |seg| - 1] == Slash)
  {
    if url != [] {
      if url[|url| - 1] == Slash {
        KeyAfterTrailingSlash(url);
      } else {
        KeyWithoutTrailingSlash(url);
      }
    }
  }

  /** The page key of a URL that does not end with a slash is its last piece. */
  lemma {:induction false} KeyWithoutTrailingSlash(url: string)
    requires url != [] && url[|url| - 1] != Slash
    ensures CurrentPageKey(url).Some?
    ensures var seg := CurrentPageKey(url).value;
      && Slash !in seg
      && |seg| <= |url| && seg == url[|url| - |seg|..]
      && (|seg| == |url| || url[|url| - |seg| - 1] == Slash)
  {
    LastPieceLocation(url);
    var p := Split(url);
    assert p[|p| - 1] != [];
  }

  /** The page key of a URL that ends with a slash is the last piece before that slash. */
  lemma {:induction false} KeyAfterTrailingSlash(url: string)
    requires url != [] && url[|url| - 1] == Slash
    ensures CurrentPageKey(url).Some?
    ensures var seg := CurrentPageKey(url).value;
      var n := |url| - 1;
      && Slash !in seg
      && |seg| <= n && seg == url[n - |seg|..n]
      && (|seg| == n || url[n - |seg| - 1] == Slash)
  {
    var n := |url| - 1;
    var pre := url[..n];
    assert url == pre + [Slash];
    SplitSnocSlash(pre);
    var q := Split(pre);
    assert Split(url) == q + [[]];
    LastPieceLocation(pre);
    var seg := q[|q| - 1];
    assert CurrentPageKey(url) == Some(seg);
    assert pre[n - |seg|..] == url[n - |seg|..n];
    if |seg| < n {
      assert pre[n - |seg| - 1] == url[n - |seg| - 1];
    }
  }

  /** A trailing slash does not change which page the URL names. */
  lemma {:induction false} TrailingSlashSameKey(url: string)
    requires url != [] && url[|url| - 1] != Slash
    ensures CurrentPageKey(url + [Slash]) == CurrentPageKey(url)
  {
    SplitSnocSlash(url);
    KeyWithoutTrailingSlash(url);
    var p := Split(url);
    var q := Split(url + [Slash]);
    assert q[|q| - 2] == p[|p| - 1];
  }

  /**
   * `pages.find(page => page.id === key)`: the first page whose id is the key,
   * or `None` when no page has it (always so when the key is `undefined`).
   */
  function FindPage(pages: seq<Page>, key: Option<string>): (r: Option<Page>)
    ensures r.Some? ==> r.value in pages && key == Some(r.value.id)
    ensures r.None? <==> forall i :: 0 <= i < |pages| ==> key != Some(pages[i].id)
  {
    if pages == [] then None
    else if key == Some(pages[0].id) then Some(pages[0])
    else FindPage(pages[1..], key)
  }

  /** `find` yields the first match, not any match. */
  lemma {:induction false} FindPageIsFirst(pages: seq<Page>, key: Option<string>, i: nat)
    requires i < |pages| && key == Some(pages[i].id)
    requires forall j :: 0 <= j < i ==> key != Some(pages[j].id)
    ensures FindPage(pages, key) == Some(pages[i])
  {
    if i > 0 {
      FindPageIsFirst(pages[1..], key, i - 1);
    }
  }

  // ---------------------------------------------------------------------------
  // The page list after a removal
  // ---------------------------------------------------------------------------

  /** The list `removePage(name)` leaves: `splice(indexOf(name), 1)` on a copy. */
  function AfterRemove<T(==)>(list: seq<T>, name: T): (r: seq<T>)
    ensures |r| == if list == [] then 0 else |list| - 1
  {
    SpliceOne(list, IndexOf(list, name))
  }

  /**
   * Removing a listed name drops exactly its first occurrence and keeps the
   * order of everything else.
   */
  lemma {:induction false} RemoveListedName<T>(list: seq<T>, name: T)
    requires name in list
    ensures var i := IndexOf(list, name);
      0 <= i && list[i] == name && forall j :: 0 <= j < i ==> list[j] != name
    ensures var i := IndexOf(list, name);
      0 <= i && AfterRemove(list, name) == list[..i] + list[i + 1..]
    ensures |AfterRemove(list, name)| == |list| - 1
    ensures multiset(AfterRemove(list, name)) == multiset(list) - multiset{name}
  {
    var i := IndexOf(list, name);
    var r := AfterRemove(list, name);
    assert 0 <= i && list[i] == name && forall j :: 0 <= j < i ==> list[j] != name by {
      FirstOccurrence(list, name);
    }
    assert r == list[..i] + list[i + 1..] && |r| == |list| - 1 by {
      RemovedAt(list, name, i);
    }
    assert multiset(r) == multiset(list) - multiset{name} by {
      RemovedAt(list, name, i);
    }
  }

  /** `indexOf` of a listed name finds its first occurrence. */
  lemma {:induction false} FirstOccurrence<T>(list: seq<T>, name: T)
    requires name in list
    ensures var i := IndexOf(list, name);
      0 <= i && list[i] == name && forall j :: 0 <= j < i ==> list[j] != name
  {
    var i := IndexOf(list, name);
    assert 0 <= i && list[i] == name && name !in list[..i];
    forall j | 0 <= j < i ensures list[j] != name {
      assert list[j] == list[..i][j];
    }
  }

  /** Removing the name found at index `i` leaves out exactly that entry. */
  lemma {:induction false} RemovedAt<T>(list: seq<T>, name: T, i: nat)
    requires i < |list| && list[i] == name && IndexOf(list, name) == i
    ensures AfterRemove(list, name) == list[..i] + list[i + 1..]
    ensures |AfterRemove(list, name)| == |list| - 1
    ensures multiset(AfterRemove(list, name)) == multiset(list) - multiset{name}
  {
    AfterRemoveAt(list, name, i);
    MultisetWithout(list, name, i);
  }

  /** Leaving out the element at index `i` removes one copy of it from the multiset. */
  lemma {:induction false} MultisetWithout<T>(list: seq<T>, name: T, i: nat)
    requires i < |list| && list[i] == name
    ensures multiset(list[..i] + list[i + 1..]) == multiset(list) - multiset{name}
  {
    var before, after := list[..i], list[i + 1..];
    assert list == before + ([list[i]] + after);
    assert multiset(list) == multiset(before) + multiset{list[i]} + multiset(after);
  }

  /**
   * Removing a name that is not listed drops the last entry, because
   * `splice(-1, 1)` counts from the end; an empty list stays empty.
   */
  lemma {:induction false} RemoveUnlistedName<T>(list: seq<T>, name: T)
    requires name !in list
    ensures AfterRemove(list, name) == if list == [] then [] else list[..|list| - 1]
  {
    if list != [] {
      var r := AfterRemove(list, name);
      assert r == r[..|list| - 1] + r[|list| - 1..];
    }
  }

  /** Where `indexOf` finds a name once one more entry is appended. */
  lemma {:induction false} IndexOfAppend<T>(list: seq<T>, name: T, y: T)
    ensures IndexOf(list + [y], name) ==
      if name in list then IndexOf(list, name) else if name == y then |list| else -1
  {
    if list != [] {
      assert (list + [y])[1..] == list[1..] + [y];
      IndexOfAppend(list[1..], name, y);
    }
  }

  /**
   * Capturing a page and then removing it: if the page was listed before, its
   * earlier occurrence goes and the new one stays at the end; if not, the list
   * is back to what it was.
   */
  lemma {:induction false} RemoveAfterCapture<T>(list: seq<T>, name: T)
    ensures AfterRemove(list + [name], name) ==
      if name in list then AfterRemove(list, name) + [name] else list
  {
    if name in list {
      RemoveAfterRecapture(list, name);
    } else {
      RemoveAfterFirstCapture(list, name);
    }
  }

  /** Removing the name found at index `i` splices out exactly that index. */
  lemma {:induction false} AfterRemoveAt<T>(list: seq<T>, name: T, i: nat)
    requires i < |list| && IndexOf(list, name) == i
    ensures AfterRemove(list, name) == list[..i] + list[i + 1..]
  {
    var r := AfterRemove(list, name);
    assert SpliceStart(|list|, i) == i;
    assert r == r[..i] + r[i..];
  }

  /** Capturing a listed page again, then removing it, drops its earlier occurrence. */
  lemma {:induction false} RemoveAfterRecapture<T>(list: seq<T>, name: T)
    requires name in list
    ensures AfterRemove(list + [name], name) == AfterRemove(list, name) + [name]
  {
    var ext := list + [name];
    var i := IndexOf(list, name);
    IndexOfAppend(list, name, name);
    AfterRemoveAt(list, name, i);
    AfterRemoveAt(ext, name, i);
    assert ext[..i] == list[..i];
    assert ext[i + 1..] == list[i + 1..] + [name];
    calc {
      AfterRemove(ext, name);
      list[..i] + (list[i + 1..] + [name]);
      (list[..i] + list[i + 1..]) + [name];
      AfterRemove(list, name) + [name];
    }
  }

  /** Capturing a new page, then removing it, restores the list. */
  lemma {:induction false} RemoveAfterFirstCapture<T>(list: seq<T>, name: T)
    requires name !in list
    ensures AfterRemove(list + [name], name) == list
  {
    var ext := list + [name];
    IndexOfAppend(list, name, name);
    assert IndexOf(ext, name) == |list|;
    var r := AfterRemove(ext, name);
    assert SpliceStart(|ext|, |list|) == |list|;
    assert r[..|list|] == ext[..|list|] == list;
  }

  /**
   * A name captured twice stays listed after one removal, so its storage key
   * is not deleted until the last copy goes.
   */
  lemma {:induction false} DuplicateSurvivesOneRemoval<T>(list: seq<T>, name: T)
    requires name in list
    ensures name in AfterRemove(list + [name], name)
  {
    RemoveAfterCapture(list, name);
    var r := AfterRemove(list, name) + [name];
    assert r[|r| - 1] == name;
  }

  // ---------------------------------------------------------------------------
  // localStorage
  // ---------------------------------------------------------------------------

  /** The browser's `localStorage`, holding capture records by key. */
  class LocalStorage {
    var items: map<string, CaptureRecord>

    constructor (initial: map<string, CaptureRecord>)
      ensures items == initial
    {
      items := initial;
    }

    /** `localStorage.setItem(key, value)`. */
    method SetItem(key: string, value: CaptureRecord)
      modifies this
      ensures items == old(items)[key := value]
    {
      items := items[key := value];
    }

    /** `localStorage.removeItem(key)`; a missing key is not an error. */
    method RemoveItem(key: string)
      modifies this
      ensures items == old(items) - {key}
    {
      items := items - {key};
    }
  }

  // ---------------------------------------------------------------------------
  // The card component
  // ---------------------------------------------------------------------------

  /** The panel: its properties, the storage it writes, and its component state. */
  class Card {
    const pages: seq<Page>
    const dashboardName: string
    const storage: LocalStorage

    var expanded: bool
    var pageList: seq<string>
    var pageSize: string
    var orientation: string

    /** Both settings hold one of the values their select field offers. */
    ghost predicate Valid()
      reads this
    {
      pageSize in PageSizes && orientation in Orientations
    }

    /** The initial state: collapsed, nothing captured, A4 in landscape. */
    constructor (pages: seq<Page>, dashboardName: string, storage: LocalStorage)
      ensures Valid()
      ensures this.pages == pages && this.dashboardName == dashboardName && this.storage == storage
      ensures !expanded && pageList == []
      ensures pageSize == DefaultPageSize && orientation == DefaultOrientation
    {
      this.pages := pages;
      this.dashboardName := dashboardName;
      this.storage := storage;
      expanded := false;
      pageList := [];
      pageSize := DefaultPageSize;
      orientation := DefaultOrientation;
    }

    /** `handleCardClick(expand)`: the card header expands or collapses the panel. */
    method HandleCardClick(expand: bool)
      requires Valid()
      modifies this
      ensures Valid()
      ensures expanded == expand
      ensures pageList == old(pageList) && pageSize == old(pageSize) && orientation == old(orientation)
    {
      expanded := expand;
    }

    /** The page-size select field's `onChange`: the value is one of the offered sizes. */
    method SelectPageSize(value: string)
      requires Valid() && value in PageSizes
      modifies this
      ensures Valid()
      ensures pageSize == value
      ensures expanded == old(expanded) && pageList == old(pageList) && orientation == old(orientation)
    {
      pageSize := value;
    }

    /** The orientation select field's `onChange`: the value is one of the offered orientations. */
    method SelectOrientation(value: string)
      requires Valid() && value in Orientations
      modifies this
      ensures Valid()
      ensures orientation == value
      ensures expanded == old(expanded) && pageList == old(pageList) && pageSize == old(pageSize)
    {
      orientation := value;
    }

    /**
     * `capturePage`: find the page named by the URL's trailing segment; if
     * there is one, store the screenshot `shot` under that page's report key
     * and append its name to the list (again, if it is already there). When
     * no page matches, reading the name of the missing page throws before
     * anything is written, so nothing changes.
     */
    method CapturePage(url: string, shot: CaptureRecord)
      requires Valid()
      modifies this, storage
      ensures Valid()
      ensures match FindPage(pages, CurrentPageKey(url))
        case Some(page) =>
          && storage.items == old(storage.items)[ReportKey(page.name) := shot]
          && pageList == old(pageList) + [page.name]
        case None =>
          storage.items == old(storage.items) && pageList == old(pageList)
      ensures expanded == old(expanded) && pageSize == old(pageSize) && orientation == old(orientation)
    {
      var currentPage := FindPage(pages, CurrentPageKey(url));
      if currentPage.Some? {
        storage.SetItem(ReportKey(currentPage.value.name), shot);
        var tempPageList := pageList;
        tempPageList := tempPageList + [currentPage.value.name];
        pageList := tempPageList;
      }
    }

    /**
     * `removePage(name)`: splice the first occurrence of `name` out of a copy
     * of the list (the last entry when `name` is not listed) and, if `name`
     * is no longer listed, remove the storage key `name`. That key is the bare
     * name, so the capture record stored under the report key stays.
     */
    method RemovePage(name: string)
      requires Valid()
      modifies this, storage
      ensures Valid()
      ensures pageList == AfterRemove(old(pageList), name)
      ensures storage.items == if name in pageList then old(storage.items) else old(storage.items) - {name}
      ensures ReportKey(name) in old(storage.items) ==>
        ReportKey(name) in storage.items && storage.items[ReportKey(name)] == old(storage.items)[ReportKey(name)]
      ensures expanded == old(expanded) && pageSize == old(pageSize) && orientation == old(orientation)
    {
      var tempPageList := pageList;
      var indexOfPage := IndexOf(tempPageList, name);
      tempPageList := SpliceOne(tempPageList, indexOfPage);
      pageList := tempPageList;
      if IndexOf(tempPageList, name) == -1 {
        ReportKeyIsNotBareName(name);
        storage.RemoveItem(name);
      }
    }
  }

  /**
   * Capturing the same page twice and removing it twice, as a caller sees it:
   * the page is captured once from its URL and once from the URL with a
   * trailing slash; the first removal keeps one copy listed and the storage
   * untouched; the second empties the list, and the capture record is still
   * stored.
   */
  method CaptureTwiceRemoveTwice(page: Page, url: string, shot: CaptureRecord)
    requires url != [] && url[|url| - 1] != Slash
    requires CurrentPageKey(url) == Some(page.id)
  {
    var storage := new LocalStorage(map[]);
    var card := new Card([page], "Overview", storage);
    TrailingSlashSameKey(url);
    var stored := map[ReportKey(page.name) := shot];

    card.CapturePage(url, shot);
    assert card.pageList == [page.name] && storage.items == stored;
    card.CapturePage(url + [Slash], shot);
    assert card.pageList == [page.name] + [page.name] && storage.items == stored;

    RemoveAfterRecapture([page.name], page.name);
    RemoveAfterFirstCapture([], page.name);
    card.RemovePage(page.name);
    assert card.pageList == [page.name];
    assert storage.items == stored;

    card.RemovePage(page.name);
    assert card.pageList == [];
    assert ReportKey(page.name) in storage.items;
  }
}
