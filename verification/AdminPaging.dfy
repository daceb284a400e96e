/** The page arithmetic of the admin lists: each page asks for one row more than it shows. */
module AdminPaging {
  import opened Common
  import opened RawInventory

  const MAX_ADMIN_PAGE := 100

  datatype PageError = PageBeyondCeiling | NoResults | ResultTooLarge | IndexRequired

  datatype PageReply<T> = PageReply(items: seq<T>, page: int, total: int, pages: int, hasMore: bool, totalIsExact: bool)

  datatype PageRequest = PageRequest(page: int, pageSize: int, offset: int)

  function NormalizePage(page: int, pageSize: int): Result<PageRequest, PageError> {
    var p := if page > 1 then page else 1;
    if p > MAX_ADMIN_PAGE then Err(PageBeyondCeiling)
    else
      var size := if pageSize < 10 then 10 else if pageSize > 200 then 200 else pageSize;
      Ok(PageRequest(p, size, (p - 1) * size))
  }

  /** Pages start at one, at most 100 of them, of 10 to 200 rows. */
  lemma NormalizedIs(page: int, pageSize: int)
    ensures var r := NormalizePage(page, pageSize);
            && (r.Err? <==> page > 100) && (r.Err? ==> r.error == PageBeyondCeiling)
            && (r.Ok? ==>
                  && r.value.page == (if page >= 1 then page else 1)
                  && 10 <= r.value.pageSize <= 200
                  && (10 <= pageSize <= 200 ==> r.value.pageSize == pageSize)
                  && (pageSize < 10 ==> r.value.pageSize == 10) && (pageSize > 200 ==> r.value.pageSize == 200)
                  && r.value.offset + r.value.pageSize == r.value.page * r.value.pageSize)
  {
    var r := NormalizePage(page, pageSize);
    if r.Ok? { assert (r.value.page - 1) * r.value.pageSize + r.value.pageSize == r.value.page * r.value.pageSize; }
  }

  function PageResult<T>(items: seq<T>, page: int, pageSize: int, hasMore: bool): Result<PageReply<T>, PageError> {
    if page > 1 && |items| == 0 then Err(NoResults)
    else if page == MAX_ADMIN_PAGE && hasMore then Err(ResultTooLarge)
    else
      var total := (page - 1) * pageSize + |items| + (if hasMore then 1 else 0);
      Ok(PageReply(items, page, total, if hasMore then page + 1 else if total != 0 then page else 0, hasMore, !hasMore))
  }

  /** A list route over an unchanged, ordered set of matches. */
  function ListPage<T>(matches: seq<T>, page: int, pageSize: int): Result<PageReply<T>, PageError> {
    match NormalizePage(page, pageSize)
    case Err(e) => Err(e)
    case Ok(request) =>
      NonNegative(request.page - 1, request.pageSize);
      var rows := Slice(matches, request.offset, request.pageSize + 1);
      PageResult(Slice(rows, 0, request.pageSize), request.page, request.pageSize, |rows| > request.pageSize)
  }

  lemma NonNegative(a: int, b: int)
    requires a >= 0 && b >= 0
    ensures a * b >= 0
  {
  }

  predicate PageSize(pageSize: int) { 10 <= pageSize <= 200 }

  /** A page shows its stretch of the matches; `total` is their number when exact and otherwise a
      lower bound; the page is refused exactly when it lies past the end or is the last allowed
      one with more to come. */
  lemma PageAccounts<T>(matches: seq<T>, page: int, pageSize: int)
    requires PageSize(pageSize) && 1 <= page <= MAX_ADMIN_PAGE
    ensures var before, upTo := (page - 1) * pageSize, page * pageSize;
            match ListPage(matches, page, pageSize)
            case Err(e) =>
              || (e == NoResults && page > 1 && |matches| <= before)
              || (e == ResultTooLarge && page == MAX_ADMIN_PAGE && |matches| > upTo)
            case Ok(reply) =>
              && (page == 1 || |matches| > before)
              && (page == MAX_ADMIN_PAGE ==> |matches| <= upTo)
              && reply.items == Slice(matches, before, pageSize)
              && reply.hasMore == (|matches| > upTo)
              && (reply.totalIsExact ==> reply.total == |matches|)
              && (!reply.totalIsExact ==> reply.total == upTo + 1 <= |matches|)
              && reply.totalIsExact == !reply.hasMore && reply.page == page
              && reply.pages == (if reply.hasMore then page + 1 else if matches == [] then 0 else page)
  {
    NonNegative(page - 1, pageSize);
    assert page * pageSize == (page - 1) * pageSize + pageSize;
  }

  /** The items of pages 1 to n. */
  function Pages<T>(matches: seq<T>, pageSize: int, n: nat): seq<T> {
    if n == 0 then []
    else
      Pages(matches, pageSize, n - 1) +
      match ListPage(matches, n, pageSize)
      case Ok(reply) => reply.items
      case Err(_) => []
  }

  lemma {:induction false} PagesAreFront<T>(matches: seq<T>, pageSize: int, n: nat)
    requires PageSize(pageSize) && n <= MAX_ADMIN_PAGE && |matches| <= MAX_ADMIN_PAGE * pageSize
    ensures n * pageSize >= 0 && Pages(matches, pageSize, n) == Slice(matches, 0, n * pageSize)
  {
    if n > 0 {
      PagesAreFront(matches, pageSize, n - 1);
      PageAccounts(matches, n, pageSize);
      NonNegative(n - 1, pageSize);
      assert n * pageSize == (n - 1) * pageSize + pageSize;
      FrontGrows(matches, (n - 1) * pageSize, pageSize);
    }
  }

  lemma FrontGrows<T>(matches: seq<T>, before: nat, pageSize: nat)
    ensures Slice(matches, 0, before) + Slice(matches, before, pageSize) == Slice(matches, 0, before + pageSize)
  {
  }

  /** Up to 100 full pages, walking pages 1, 2, ... shows every match exactly once, in order. */
  lemma WalkShowsEveryMatchOnce<T>(matches: seq<T>, pageSize: int)
    requires PageSize(pageSize) && |matches| <= MAX_ADMIN_PAGE * pageSize
    ensures Pages(matches, pageSize, MAX_ADMIN_PAGE) == matches
  {
    PagesAreFront(matches, pageSize, MAX_ADMIN_PAGE);
  }

  /** The raw route: the inventory of `page_size + 1` rows from the offset, cut to a page. */
  method RawPage(files: seq<RawFile>, page: int, pageSize: int, filters: Filters, scanLimit: nat)
    returns (r: Result<PageReply<RawFile>, PageError>)
    requires DistinctPaths(files)
    ensures r == if NormalizePage(page, pageSize).Ok? && |files| > scanLimit then Err(IndexRequired)
                 else ListPage(NewestFirst(Matching(filters, files)), page, pageSize)
  {
    var request := NormalizePage(page, pageSize);
    if request.Err? { return Err(request.error); }
    var PageRequest(p, size, offset) := request.value;
    NonNegative(p - 1, size);
    var inventory := RawInventory.RawInventory(files, size + 1, offset, filters, Some(scanLimit));
    if inventory.Err? { return Err(IndexRequired); }
    var rows := inventory.value.files;
    return PageResult(Slice(rows, 0, size), p, size, |rows| > size);
  }
}
