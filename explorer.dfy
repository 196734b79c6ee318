/** The explorer controller (src/controllers/explorer.controller.js): shaping
    a directory listing into a page of directories and files, validating a
    create request, and cutting a thumbnail preview to its first lines. */
module Explorer {
  import opened Common
  import opened Text
  import Sorting

  // ---------------------------------------------------------------------
  // Listing entries and their flags
  // ---------------------------------------------------------------------

  /** An entry with the view flags the controller adds to it. */
  datatype Listed = Listed(entry: FileEntry, isDirectory: bool, isFile: bool, isSymlink: bool)

  /** The flags are derived from `type`. */
  function Flag(e: FileEntry): Listed
  {
    Listed(e, e.kind == "directory", e.kind == "file", e.kind == "symlink")
  }

  function FlagAll(s: seq<FileEntry>): (r: seq<Listed>)
    ensures |r| == |s|
    ensures forall i :: 0 <= i < |s| ==> r[i] == Flag(s[i])
  {
    if s == [] then [] else [Flag(s[0])] + FlagAll(s[1..])
  }

  /** `formattedFiles.filter(item => item.isDirectory)` */
  function KeepDirectories(s: seq<Listed>): (r: seq<Listed>)
    ensures forall x :: x in r <==> x in s && x.isDirectory
  {
    if s == [] then []
    else if s[0].isDirectory then [s[0]] + KeepDirectories(s[1..])
    else KeepDirectories(s[1..])
  }

  /** `formattedFiles.filter(item => item.isFile || item.isSymlink)` */
  function KeepFiles(s: seq<Listed>): (r: seq<Listed>)
    ensures forall x :: x in r <==> x in s && (x.isFile || x.isSymlink)
  {
    if s == [] then []
    else if s[0].isFile || s[0].isSymlink then [s[0]] + KeepFiles(s[1..])
    else KeepFiles(s[1..])
  }

  /** The filters keep the input order and every duplicate: filtering a
      concatenation is concatenating the filtered parts, and a single item is
      kept exactly when it passes. */
  lemma {:induction false} KeepConcat(a: seq<Listed>, b: seq<Listed>)
    ensures KeepDirectories(a + b) == KeepDirectories(a) + KeepDirectories(b)
    ensures KeepFiles(a + b) == KeepFiles(a) + KeepFiles(b)
  {
    if a == [] {
      assert a + b == b;
    } else {
      assert (a + b)[0] == a[0] && (a + b)[1..] == a[1..] + b;
      KeepConcat(a[1..], b);
    }
  }

  lemma KeepSingle(x: Listed)
    ensures KeepDirectories([x]) == if x.isDirectory then [x] else []
    ensures KeepFiles([x]) == if x.isFile || x.isSymlink then [x] else []
  {
    assert [x][1..] == [];
  }

  // ---------------------------------------------------------------------
  // Sorting by name
  // ---------------------------------------------------------------------

  /** The collation of names: `localeCompare` is replaced by the
      lexicographic order on character codes. */
  predicate NameLeq(a: string, b: string)
  {
    a == [] || (b != [] && (a[0] < b[0] || (a[0] == b[0] && NameLeq(a[1..], b[1..]))))
  }

  /** The comparator `(a, b) => a.name.localeCompare(b.name)` read as "a may stay before b". */
  predicate ByName(a: Listed, b: Listed)
  {
    NameLeq(a.entry.name, b.entry.name)
  }

  lemma {:induction false} NameLeqTotal(a: string, b: string)
    ensures NameLeq(a, b) || NameLeq(b, a)
  {
    if a != [] && b != [] && a[0] == b[0] {
      NameLeqTotal(a[1..], b[1..]);
    }
  }

  lemma {:induction false} NameLeqTransitive(a: string, b: string, c: string)
    requires NameLeq(a, b) && NameLeq(b, c)
    ensures NameLeq(a, c)
  {
    if a != [] && b != [] && c != [] && a[0] == b[0] == c[0] {
      NameLeqTransitive(a[1..], b[1..], c[1..]);
    }
  }

  /** Sorting by name is sorting by a total preorder. */
  lemma ByNameTotalPreorder()
    ensures Sorting.TotalPreorder(ByName)
  {
    forall a: Listed, b: Listed ensures ByName(a, b) || ByName(b, a) {
      NameLeqTotal(a.entry.name, b.entry.name);
    }
    forall a: Listed, b: Listed, c: Listed | ByName(a, b) && ByName(b, c) ensures ByName(a, c) {
      NameLeqTransitive(a.entry.name, b.entry.name, c.entry.name);
    }
  }

  /** The directories of a listing, sorted by name (lines 45, 51 and 55). */
  function SortedDirectories(listing: seq<FileEntry>): (r: seq<Listed>)
    ensures forall x :: x in r <==> x in FlagAll(listing) && x.entry.kind == "directory"
    ensures multiset(r) == multiset(KeepDirectories(FlagAll(listing)))
    ensures Sorting.SortedBy(r, ByName)
  {
    ByNameTotalPreorder();
    Sorting.SortBySorted(KeepDirectories(FlagAll(listing)), ByName);
    var r := Sorting.SortBy(KeepDirectories(FlagAll(listing)), ByName);
    assert forall x :: x in r <==> x in multiset(r);
    r
  }

  /** The files and symbolic links of a listing, sorted by name (lines 46-47, 52 and 56). */
  function SortedFiles(listing: seq<FileEntry>): (r: seq<Listed>)
    ensures forall x :: x in r <==> x in FlagAll(listing) && (x.entry.kind == "file" || x.entry.kind == "symlink")
    ensures multiset(r) == multiset(KeepFiles(FlagAll(listing)))
    ensures Sorting.SortedBy(r, ByName)
  {
    ByNameTotalPreorder();
    Sorting.SortBySorted(KeepFiles(FlagAll(listing)), ByName);
    var r := Sorting.SortBy(KeepFiles(FlagAll(listing)), ByName);
    assert forall x :: x in r <==> x in multiset(r);
    r
  }

  /** An entry whose type is none of the three appears in neither group. */
  lemma OtherTypesHidden(listing: seq<FileEntry>, i: nat)
    requires i < |listing|
    requires listing[i].kind !in {"directory", "file", "symlink"}
    ensures forall x :: x in SortedDirectories(listing) + SortedFiles(listing) ==> x.entry != listing[i]
  {
  }

  // ---------------------------------------------------------------------
  // The query and the pagination
  // ---------------------------------------------------------------------

  /** The query string of GET /explorer. `page` and `limit` are what
      `parseInt(value, 10)` returned: None stands for NaN (a missing or
      non-numeric value). */
  datatype ExplorerQuery = ExplorerQuery(path: Option<string>, search: Option<string>, page: Option<int>, limit: Option<int>)

  /** `parseInt(...) || default`: NaN and 0 become the default. */
  function NumberOr(parsed: Option<int>, default: int): (r: int)
    requires default != 0
    ensures r != 0
    ensures parsed.Some? && parsed.value != 0 ==> r == parsed.value
    ensures !(parsed.Some? && parsed.value != 0) ==> r == default
  {
    if parsed.Some? && parsed.value != 0 then parsed.value else default
  }

  function PageNumber(q: ExplorerQuery): int { NumberOr(q.page, 1) }

  function PageLimit(q: ExplorerQuery): (r: int) ensures r != 0 { NumberOr(q.limit, 20) }

  function CurrentPath(q: ExplorerQuery): string { StringOr(q.path, "/") }

  /** `Math.ceil(a / b)` for a non-negative count and a non-zero integer divisor. */
  function CeilDiv(a: nat, b: int): int
    requires b != 0
  {
    if b > 0 then (a + b - 1) / b else -(a / -b)
  }

  /** For a positive divisor, `CeilDiv` is the least number of blocks of `b` that hold `a`. */
  lemma CeilDivBounds(a: nat, b: int)
    requires b > 0
    ensures CeilDiv(a, b) >= 0
    ensures CeilDiv(a, b) * b >= a
    ensures (CeilDiv(a, b) - 1) * b < a
  {
    var q := (a + b - 1) / b;
    var m := (a + b - 1) % b;
    assert a + b - 1 == q * b + m;
    assert q * b == a + b - 1 - m;
    assert (q - 1) * b == a - 1 - m;
  }

  /** `Array.prototype.slice(start, end)` on integer arguments: negative
      indices count from the end, and indices are clamped to the sequence. */
  function JsSlice<T>(s: seq<T>, start: int, end: int): (r: seq<T>)
    ensures |r| <= |s|
  {
    var from := if start < 0 then (if |s| + start < 0 then 0 else |s| + start) else (if start < |s| then start else |s|);
    var to := if end < 0 then (if |s| + end < 0 then 0 else |s| + end) else (if end < |s| then end else |s|);
    if from < to then s[from..to] else []
  }

  function Min(a: int, b: int): int { if a < b then a else b }

  /** The pagination block of the rendered view. */
  datatype Pagination = Pagination(currentPage: int, totalPages: int, totalItems: int, limit: int, hasNextPage: bool, hasPrevPage: bool)

  /** Lines 59-75 and 85-92: the page's directories, the page's files and the pagination block. */
  function Paginate(dirs: seq<Listed>, files: seq<Listed>, page: int, limit: int): (r: (seq<Listed>, seq<Listed>, Pagination))
    requires limit != 0
  {
    var totalItems := |dirs| + |files|;
    var totalPages := CeilDiv(totalItems, limit);
    var startIndex := (page - 1) * limit;
    var endIndex := startIndex + limit;
    var pageDirs := JsSlice(dirs, startIndex, Min(endIndex, |dirs|));
    var pageFiles := if endIndex > |dirs| then JsSlice(files, 0, endIndex - |dirs|) else [];
    (pageDirs, pageFiles, Pagination(page, totalPages, totalItems, limit, page < totalPages, page > 1))
  }

  /** On a page from 1 on with a positive limit, the directories are the
      slice `[(page-1)*limit, page*limit)` of the sorted directories, so
      never more than `limit` of them. */
  lemma PageDirectoriesWindow(dirs: seq<Listed>, files: seq<Listed>, page: int, limit: int)
    requires page >= 1 && limit >= 1
    ensures var lo := Min((page - 1) * limit, |dirs|);
            var hi := Min(page * limit, |dirs|);
            Paginate(dirs, files, page, limit).0 == dirs[lo..hi]
    ensures |Paginate(dirs, files, page, limit).0| <= limit
  {
    var start := (page - 1) * limit;
    MulMonotone(0, page - 1, limit);
    assert start + limit == page * limit;
    var lo, hi := Min(start, |dirs|), Min(start + limit, |dirs|);
    assert lo <= hi && hi - lo <= limit;
    assert JsSlice(dirs, start, hi) == dirs[lo..hi];
  }

  /** On a page from 1 on with a positive limit, the files are always a prefix
      of the sorted files, whatever the page: `page*limit - |dirs|` of them, or
      none when the directories fill the page window. */
  lemma PageFilesPrefix(dirs: seq<Listed>, files: seq<Listed>, page: int, limit: int)
    requires page >= 1 && limit >= 1
    ensures var pf := Paginate(dirs, files, page, limit).1;
            && pf <= files
            && (page * limit <= |dirs| ==> pf == [])
            && (page * limit > |dirs| ==> |pf| == Min(|files|, page * limit - |dirs|))
  {
    assert (page - 1) * limit + limit == page * limit;
  }

  /** The files shown on a page are also shown, in the same order, at the
      start of every later page: the file slice does not move with the page. */
  lemma PageFilesGrow(dirs: seq<Listed>, files: seq<Listed>, page: int, limit: int)
    requires page >= 1 && limit >= 1
    ensures Paginate(dirs, files, page, limit).1 <= Paginate(dirs, files, page + 1, limit).1
  {
    PageFilesPrefix(dirs, files, page, limit);
    PageFilesPrefix(dirs, files, page + 1, limit);
    assert (page + 1) * limit == page * limit + limit;
  }

  /** A witness of that behaviour: with no directories, 30 files and 20 per
      page, the second page shows all 30 files, more than the limit and
      repeating the 20 of the first page. */
  lemma SecondPageExceedsLimit(files: seq<Listed>)
    requires |files| == 30
    ensures Paginate([], files, 2, 20).1 == files
    ensures Paginate([], files, 1, 20).1 == files[..20]
  {
  }

  /** The totals: `totalItems` counts both groups, `totalPages` is the least
      number of pages of `limit` items that hold them, and for a positive
      limit there is a next page exactly when items remain after this page's
      window. */
  lemma PaginationTotals(dirs: seq<Listed>, files: seq<Listed>, page: int, limit: int)
    requires limit >= 1
    ensures var p := Paginate(dirs, files, page, limit).2;
            && p.totalItems == |dirs| + |files|
            && p.totalPages * limit >= p.totalItems
            && (p.totalPages - 1) * limit < p.totalItems
            && (p.hasNextPage <==> page * limit < p.totalItems)
            && (p.hasPrevPage <==> page > 1)
  {
    var t := |dirs| + |files|;
    var tp := CeilDiv(t, limit);
    CeilDivBounds(t, limit);
    if page < tp {
      MulMonotone(page, tp - 1, limit);
    } else {
      MulMonotone(tp, page, limit);
    }
  }

  lemma MulMonotone(a: int, b: int, c: int)
    requires a <= b && c >= 0
    ensures a * c <= b * c
  {
  }

  // ---------------------------------------------------------------------
  // getExplorerView
  // ---------------------------------------------------------------------

  /** The remote call that fetches the entries of the listing. */
  datatype ListCall = ListFiles(path: string) | SearchFiles(query: string, page: int, limit: int)

  /** Lines 26-36: a truthy `search` searches with the page and limit, otherwise the path is listed. */
  function ExplorerCall(q: ExplorerQuery): (c: ListCall)
    ensures Present(q.search) <==> c.SearchFiles?
    ensures c.SearchFiles? ==> c == SearchFiles(q.search.value, PageNumber(q), PageLimit(q))
    ensures c.ListFiles? ==> c.path == CurrentPath(q)
  {
    if Present(q.search) then SearchFiles(q.search.value, PageNumber(q), PageLimit(q))
    else ListFiles(CurrentPath(q))
  }

  /** The rendered explorer view, or the view rendered by the catch block. */
  datatype ExplorerPage =
    | Listing(currentPath: string, directories: seq<Listed>, files: seq<Listed>,
              isSearchResult: bool, searchQuery: string, pagination: Pagination)
    | ListingFailed(currentPath: string, pagination: Pagination, message: string)

  /** The view rendered for a query, given what the listing call returned. */
  function GetExplorerView(q: ExplorerQuery, listed: Outcome<seq<FileEntry>>): (v: ExplorerPage)
    ensures v.currentPath == CurrentPath(q)
    ensures !Present(q.path) ==> v.currentPath == "/"
    ensures (q.page.None? || q.page == Some(0)) ==> v.pagination.currentPage == 1
    ensures (q.limit.None? || q.limit == Some(0)) ==> v.pagination.limit == 20
    ensures v.Listing? && q.page.Some? && q.page.value != 0 ==> v.pagination.currentPage == q.page.value
    ensures v.Listing? && q.limit.Some? && q.limit.value != 0 ==> v.pagination.limit == q.limit.value
    ensures listed.Fail? <==> v.ListingFailed?
    ensures v.ListingFailed? ==> v.pagination == Pagination(1, 0, 0, 20, false, false)
                                 && v.message == StringOr(listed.error.message, "Failed to load files")
    ensures v.Listing? ==> && v.isSearchResult == Present(q.search)
                           && v.searchQuery == StringOr(q.search, "")
                           && v.pagination.totalItems == |SortedDirectories(listed.value)| + |SortedFiles(listed.value)|
                           && (v.directories, v.files, v.pagination)
                              == Paginate(SortedDirectories(listed.value), SortedFiles(listed.value), PageNumber(q), PageLimit(q))
    ensures v.Listing? && PageNumber(q) >= 1 && PageLimit(q) >= 1 ==>
              && |v.directories| <= PageLimit(q)
              && v.files <= SortedFiles(listed.value)
              && (forall x :: x in v.directories ==> x in SortedDirectories(listed.value))
  {
    match listed
    case Fail(e) =>
      ListingFailed(CurrentPath(q), Pagination(1, 0, 0, 20, false, false), StringOr(e.message, "Failed to load files"))
    case Ok(entries) =>
      var dirs := SortedDirectories(entries);
      var files := SortedFiles(entries);
      var page := Paginate(dirs, files, PageNumber(q), PageLimit(q));
      if PageNumber(q) >= 1 && PageLimit(q) >= 1 then
        PageDirectoriesWindow(dirs, files, PageNumber(q), PageLimit(q));
        PageFilesPrefix(dirs, files, PageNumber(q), PageLimit(q));
        Listing(CurrentPath(q), page.0, page.1, Present(q.search), StringOr(q.search, ""), page.2)
      else
        Listing(CurrentPath(q), page.0, page.1, Present(q.search), StringOr(q.search, ""), page.2)
  }

  // ---------------------------------------------------------------------
  // createFileOrFolder
  // ---------------------------------------------------------------------

  /** The body of POST /explorer/create. */
  datatype CreateBody = CreateBody(name: Option<string>, kind: Option<string>, parentPath: Option<string>)

  /** The item sent to the create call. `content` is undefined except for files. */
  datatype NewItem = NewItem(name: string, kind: string, parent: string, content: Option<string>)

  /** The calls issued and the reply sent, given the outcome of the create call. */
  function CreateFileOrFolder(body: CreateBody, created: Outcome<()>): (r: (seq<NewItem>, Reply))
    ensures !Present(body.name) || !Present(body.kind) ==>
              r == ([], Reply(400, false, "Name and type are required"))
    ensures Present(body.name) && Present(body.kind) ==>
              && |r.0| == 1
              && r.0[0].name == body.name.value && r.0[0].kind == body.kind.value
              && r.0[0].parent == StringOr(body.parentPath, "/")
              && (r.0[0].content == Some("") <==> body.kind.value == "file")
              && (r.0[0].content.None? <==> body.kind.value != "file")
    ensures Present(body.name) && Present(body.kind) && created.Ok? ==>
              r.1 == Reply(201, true, if body.kind.value == "directory" then "Folder created successfully" else "File created successfully")
    ensures Present(body.name) && Present(body.kind) && created.Fail? ==>
              r.1 == FailureReply(created.error, "Failed to create item")
  {
    if !Present(body.name) || !Present(body.kind) then
      ([], Reply(400, false, "Name and type are required"))
    else
      var kind := body.kind.value;
      var item := NewItem(body.name.value, kind, StringOr(body.parentPath, "/"), if kind == "file" then Some("") else None);
      match created
      case Ok(_) => ([item], Reply(201, true, if kind == "directory" then "Folder created successfully" else "File created successfully"))
      case Fail(e) => ([item], FailureReply(e, "Failed to create item"))
  }

  // ---------------------------------------------------------------------
  // generateThumbnail
  // ---------------------------------------------------------------------

  /** `content.split('\n').slice(0, 5).join('\n')` */
  function PreviewLines(content: string): string
  {
    var lines := Split(content, '\n');
    Join(lines[..Min(5, |lines|)], '\n')
  }

  /** The preview text is the start of the content, made of the content's first
      at most five lines; content of at most five lines is kept whole. */
  lemma PreviewLinesAreFirstLines(content: string)
    ensures PreviewLines(content) <= content
    ensures Split(PreviewLines(content), '\n') == Split(content, '\n')[..Min(5, |Split(content, '\n')|)]
    ensures |Split(PreviewLines(content), '\n')| <= 5
    ensures |Split(content, '\n')| <= 5 ==> PreviewLines(content) == content
  {
    var lines := Split(content, '\n');
    var k := Min(5, |lines|);
    JoinSplit(content, '\n');
    JoinTakeIsPrefix(lines, '\n', k);
    SplitPiecesHaveNoSeparator(content, '\n');
    assert NoSeparator(lines[..k], '\n') by {
      forall i | 0 <= i < k ensures '\n' !in lines[..k][i] { assert lines[..k][i] == lines[i]; }
    }
    SplitJoin(lines[..k], '\n');
    if |lines| <= 5 {
      assert lines[..k] == lines;
    }
  }

  /** `generateThumbnail(content)` with the Markdown renderer passed in:
      empty content gives '', anything else renders only the preview lines. */
  function GenerateThumbnail(content: Option<string>, render: string -> string): (r: string)
    ensures !Present(content) ==> r == ""
    ensures Present(content) ==> r == render(PreviewLines(content.value))
  {
    if !Present(content) then "" else render(PreviewLines(content.value))
  }
}
