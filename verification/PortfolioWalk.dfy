/** Walking an applicant's portfolio page by page with the cursors each page returns, over a
    fixed snapshot. */
module PortfolioWalk {
  import opened Common
  import opened Ordering
  import opened Text
  import opened Json
  import opened CursorCodec

  const TRADEMARK_PREFIX := "cn:trademark:"
  const MAX_PAGES := 100
  const MAX_RESULTS := 500

  /** One applicant query: the applications bound to it, in order, and the cursor identity. */
  datatype Portfolio = Portfolio(
    applications: seq<string>,
    pageSize: nat,
    sha: Sha,
    queryHash: string,
    sourceVersion: string)
  {
    function Limits(): Limits { CursorCodec.Limits(pageSize, MAX_PAGES, MAX_RESULTS) }
  }

  datatype WalkError = CursorInvalid(error: CursorError) | MalformedCandidate | BoundExhausted

  datatype Page = Page(items: seq<string>, nextCursor: Option<string>)

  ghost predicate Sorted(s: seq<string>) {
    forall i, j :: 0 <= i < j < |s| ==> Less(s[i], s[j])
  }

  function After(applications: seq<string>, after: string): seq<string> {
    if applications == [] then []
    else (if Less(after, applications[0]) then [applications[0]] else []) + After(applications[1..], after)
  }

  function Min(a: int, b: int): int { if a <= b then a else b }

  /** The grouped bindings query; its clause is left out for an empty application number. */
  function Bindings(applications: seq<string>, after: string, limit: nat): seq<string> {
    var rows := if after == "" then applications else After(applications, after);
    rows[..Min(limit, |rows|)]
  }

  /** The last candidate id, the page number and the count before the page. */
  function CursorState(p: Portfolio, token: Option<string>): Result<(string, int, int), WalkError> {
    match token
    case None => Ok(("", 1, 0))
    case Some(text) =>
      match DecodeCursor(p.sha, text, p.queryHash, p.sourceVersion, p.Limits())
      case Err(e) => Err(CursorInvalid(e))
      case Ok(payload) =>
        if |payload.position| != 1 || !payload.position[0].Str? then Err(CursorInvalid(BadPosition))
        else Ok((payload.position[0].s, payload.nextPage, payload.emittedCount))
  }

  function AfterApplication(candidate: string): Result<string, WalkError> {
    if candidate == "" then Ok("")
    else if TRADEMARK_PREFIX <= candidate then Ok(candidate[|TRADEMARK_PREFIX|..])
    else Err(MalformedCandidate)
  }

  function NextCursor(p: Portfolio, application: string, pageNumber: int, emitted: int)
    : Result<Option<string>, WalkError>
  {
    if emitted >= MAX_RESULTS || pageNumber >= MAX_PAGES then Ok(None)
    else
      match EncodeCursor(p.sha, p.queryHash, p.sourceVersion, [Str(TRADEMARK_PREFIX + application)],
                         pageNumber + 1, emitted, p.Limits())
      case Err(e) => Err(CursorInvalid(e))
      case Ok(token) => Ok(Some(token))
  }

  /** The page from a cursor state. */
  function PageFrom(p: Portfolio, after: string, pageNumber: int, before: int): Result<Page, WalkError> {
    var capacity := Min(p.pageSize, MAX_RESULTS - before);
    if capacity <= 0 then Err(BoundExhausted)
    else
      var bindings := Bindings(p.applications, after, capacity + 1);
      var items := bindings[..Min(capacity, |bindings|)];
      if |bindings| > capacity && before + |items| < MAX_RESULTS && items != [] then
        match NextCursor(p, items[|items| - 1], pageNumber, before + |items|)
        case Err(e) => Err(e)
        case Ok(next) => Ok(Page(items, next))
      else Ok(Page(items, None))
  }

  function ReadPortfolio(p: Portfolio, token: Option<string>): Result<Page, WalkError> {
    match CursorState(p, token)
    case Err(e) => Err(e)
    case Ok((candidate, pageNumber, before)) =>
      match AfterApplication(candidate)
      case Err(e) => Err(e)
      case Ok(after) => PageFrom(p, after, pageNumber, before)
  }

  /** At most `pages` pages, following `next_cursor`; the flag says that the walk ended by itself. */
  function Walk(p: Portfolio, token: Option<string>, pages: nat): Result<(seq<string>, bool), WalkError>
    decreases pages
  {
    if pages == 0 then Ok(([], false))
    else
      match ReadPortfolio(p, token)
      case Err(e) => Err(e)
      case Ok(page) =>
        if page.nextCursor.None? then Ok((page.items, true))
        else
          match Walk(p, page.nextCursor, pages - 1)
          case Err(e) => Err(e)
          case Ok((rest, ended)) => Ok((page.items + rest, ended))
  }

  /** The applications come in order and the identities of the query are well formed. */
  ghost predicate WellFormed(p: Portfolio) {
    && Sorted(p.applications)
    && 1 <= p.pageSize <= 100
    && (forall b :: IsDigest(p.sha(b)))
    && IsQueryHash(Strip(p.queryHash)) && IsText(Strip(p.sourceVersion)) && IsAscii(Strip(p.sourceVersion))
  }

  predicate CursorFits(p: Portfolio, application: string, page: int, emitted: int) {
    |RawEnvelope(p.sha, Payload(Strip(p.queryHash), Strip(p.sourceVersion),
                                [Str(TRADEMARK_PREFIX + application)], page, emitted))| <= MAX_CURSOR_JSON_BYTES
  }

  // ---------- The cursor state ----------

  /** A page is read from a cursor exactly when it decodes to a position of one text that is empty or
      a trademark id; what follows the prefix is the application. */
  lemma CursorStateIs(p: Portfolio, token: string, candidate: string, page: int, before: int)
    ensures CursorState(p, Some(token)) == Ok((candidate, page, before)) <==>
              exists hash, snapshot ::
                DecodeCursor(p.sha, token, p.queryHash, p.sourceVersion, Limits(p.pageSize, 100, 500))
                == Ok(Payload(hash, snapshot, [Str(candidate)], page, before))
    ensures CursorState(p, None) == Ok(("", 1, 0))
  {
    hide DecodeCursor;
    var decoded := DecodeCursor(p.sha, token, p.queryHash, p.sourceVersion, p.Limits());
    if CursorState(p, Some(token)) == Ok((candidate, page, before)) {
      assert decoded.value.position == [Str(candidate)];
      assert decoded == Ok(Payload(decoded.value.queryHash, decoded.value.snapshotId, [Str(candidate)], page, before));
    }
  }

  lemma AfterApplicationIs(candidate: string, application: string)
    ensures AfterApplication(candidate) == Ok(application) <==>
              (candidate == "" && application == "") || candidate == "cn:trademark:" + application
  {
    if TRADEMARK_PREFIX <= candidate {
      assert candidate == TRADEMARK_PREFIX + candidate[|TRADEMARK_PREFIX|..];
    }
    assert (TRADEMARK_PREFIX + application)[|TRADEMARK_PREFIX|..] == application;
  }

  // ---------- One page ----------

  lemma {:induction false} AfterAll(s: seq<string>, after: string)
    requires forall a :: a in s ==> Less(after, a)
    ensures After(s, after) == s
  {
    if s != [] { AfterAll(s[1..], after); }
  }

  lemma {:induction false} AfterIsSuffix(s: seq<string>, i: nat)
    requires Sorted(s) && 0 < i <= |s|
    ensures After(s, s[i - 1]) == s[i..]
  {
    if i == 1 {
      LessIrreflexive(s[0]);
      AfterAll(s[1..], s[0]);
    } else {
      LessAsymmetric(s[0], s[i - 1]);
      AfterIsSuffix(s[1..], i - 1);
      assert s[1..][i - 1..] == s[i..];
    }
  }

  lemma TokenEncodes(p: Portfolio, application: string, page: int, emitted: int)
    requires WellFormed(p) && CursorFits(p, application, page + 1, emitted)
    requires 0 < emitted < MAX_RESULTS && 1 <= page < MAX_PAGES
    ensures NextCursor(p, application, page, emitted).Ok?
    ensures NextCursor(p, application, page, emitted).value.Some?
    ensures CursorState(p, NextCursor(p, application, page, emitted).value)
            == Ok((TRADEMARK_PREFIX + application, page + 1, emitted))
  {
    hide DecodeCursor, RawEnvelope, Base64.Encode, Sorted, IsQueryHash, IsText, Strip;
    var position := [Str(TRADEMARK_PREFIX + application)];
    CursorRoundTrip(p.sha, p.queryHash, p.sourceVersion, position, page + 1, emitted, p.Limits(),
                    p.queryHash, p.sourceVersion);
  }

  /** The size bound is the only reason a continuation cursor cannot be issued. */
  lemma NextCursorFailsIffTooLarge(p: Portfolio, application: string, page: int, emitted: int)
    requires IsQueryHash(Strip(p.queryHash)) && IsText(Strip(p.sourceVersion))
    requires 0 < emitted < MAX_RESULTS && 1 <= page < MAX_PAGES
    ensures NextCursor(p, application, page, emitted).Err? <==> !CursorFits(p, application, page + 1, emitted)
    ensures NextCursor(p, application, page, emitted).Err? ==>
              NextCursor(p, application, page, emitted).error == CursorInvalid(TooLarge)
  {
    hide RawEnvelope, Base64.Encode, IsQueryHash, IsText, Strip;
    var position := [Str(TRADEMARK_PREFIX + application)];
    assert IsPosition(position);
  }

  /** Reading with a handed-out cursor is reading after its application. */
  lemma ReadAfter(p: Portfolio, application: string, page: int, emitted: int) returns (token: string)
    requires WellFormed(p) && CursorFits(p, application, page + 1, emitted)
    requires 0 < emitted < MAX_RESULTS && 1 <= page < MAX_PAGES
    ensures NextCursor(p, application, page, emitted) == Ok(Some(token))
    ensures ReadPortfolio(p, Some(token)) == PageFrom(p, application, page + 1, emitted)
  {
    hide DecodeCursor, EncodeCursor, PageFrom, CursorState, WellFormed, CursorFits;
    TokenEncodes(p, application, page, emitted);
    token := NextCursor(p, application, page, emitted).value.value;
    assert (TRADEMARK_PREFIX + application)[|TRADEMARK_PREFIX|..] == application;
  }

  /** A source version outside ASCII gets cursors issued that no later page can be read with. */
  lemma SourceVersionOutsideAscii(p: Portfolio, application: string, page: int, emitted: int, token: string)
    requires (forall b :: IsDigest(p.sha(b))) && !IsAscii(Strip(p.sourceVersion))
    requires NextCursor(p, application, page, emitted) == Ok(Some(token))
    ensures ReadPortfolio(p, Some(token)) == Err(CursorInvalid(NotComparable))
  {
    hide EncodeCursor, DecodeCursor, IsAscii, Strip;
    CursorRoundTrip(p.sha, p.queryHash, p.sourceVersion, [Str(TRADEMARK_PREFIX + application)], page + 1, emitted,
                    p.Limits(), p.queryHash, p.sourceVersion);
  }

  /** How far the walk may go. */
  function Reach(p: Portfolio): int {
    Min(|p.applications|, Min(MAX_RESULTS, MAX_PAGES * p.pageSize))
  }

  predicate EmptyFirstAlone(p: Portfolio) {
    p.pageSize == 1 && |p.applications| >= 2 && p.applications[0] == ""
  }

  /** The cursor issued at the end of page `n`, if one is, fits its size bound. */
  predicate CursorOk(p: Portfolio, n: nat) {
    if EmptyFirstAlone(p) then CursorFits(p, "", n + 1, n)
    else
      var j := n * p.pageSize;
      0 < j < |p.applications| && j < MAX_RESULTS ==> CursorFits(p, p.applications[j - 1], n + 1, j)
  }

  /** So do the cursors of all pages from `page` on. */
  ghost predicate CursorsFit(p: Portfolio, page: nat) {
    forall n: nat :: page <= n < MAX_PAGES ==> CursorOk(p, n)
  }

  /** The outcome of a walk whose cursors are those of the pages from `page` on. */
  ghost function Outcome(p: Portfolio, page: nat, items: seq<string>): Result<(seq<string>, bool), WalkError> {
    if CursorsFit(p, page) then Ok((items, true)) else Err(CursorInvalid(TooLarge))
  }

  lemma FitStep(p: Portfolio, page: nat)
    requires page < MAX_PAGES
    ensures CursorsFit(p, page) <==> CursorOk(p, page) && CursorsFit(p, page + 1)
    ensures CursorsFit(p, MAX_PAGES)
  {
    hide CursorOk;
  }

  /** Only the first application can be the empty string. */
  lemma NotEmptyAt(p: Portfolio, i: nat)
    requires Sorted(p.applications) && 0 < i < |p.applications|
    ensures p.applications[i] != ""
  {
    assert Less(p.applications[0], p.applications[i]);
  }

  lemma BindingsAt(s: seq<string>, i: nat, after: string, limit: nat)
    requires Sorted(s) && i <= |s|
    requires if i == 0 then after == "" else after == s[i - 1] && after != ""
    ensures Bindings(s, after, limit) == s[i..Min(i + limit, |s|)]
  {
    if i > 0 { AfterIsSuffix(s, i); }
    assert s[0..] == s;
  }

  /** The page after the first `i` applications holds the next `pageSize` of them. */
  lemma PageAt(p: Portfolio, i: nat, page: int, after: string)
    requires Sorted(p.applications) && p.pageSize >= 1
    requires i <= |p.applications| && i < MAX_RESULTS && 1 <= page <= MAX_PAGES
    requires if i == 0 then after == "" else after == p.applications[i - 1] && after != ""
    ensures var j := Min(i + Min(p.pageSize, MAX_RESULTS - i), |p.applications|);
            PageFrom(p, after, page, i) ==
              if j < |p.applications| && j < MAX_RESULTS
              then (match NextCursor(p, p.applications[j - 1], page, j)
                    case Err(e) => Err(e)
                    case Ok(next) => Ok(Page(p.applications[i..j], next)))
              else Ok(Page(p.applications[i..j], None))
  {
    hide NextCursor, Bindings, Sorted;
    var s := p.applications;
    var capacity := Min(p.pageSize, MAX_RESULTS - i);
    var bindings := Bindings(s, after, capacity + 1);
    BindingsAt(s, i, after, capacity + 1);
    var j := Min(i + capacity, |s|);
    assert |bindings| == Min(capacity + 1, |s| - i);
    assert bindings[..Min(capacity, |bindings|)] == s[i..j];
    if j > i { assert s[i..j][j - i - 1] == s[j - 1]; }
  }

  function Before(p: Portfolio, page: int): int { (page - 1) * p.pageSize }

  /** The walk from the page after the first `i` applications, `i` being a whole number of pages. */
  lemma {:induction false} WalkFrom(p: Portfolio, token: Option<string>, i: nat, page: nat, after: string)
    requires WellFormed(p) && !EmptyFirstAlone(p)
    requires 1 <= page <= MAX_PAGES && i == Before(p, page) && i < MAX_RESULTS && i <= Reach(p) <= |p.applications|
    requires i == 0 || i < |p.applications|
    requires if i == 0 then after == "" else after == p.applications[i - 1] && after != ""
    requires ReadPortfolio(p, token) == PageFrom(p, after, page, i)
    ensures Walk(p, token, MAX_PAGES + 1 - page) == Outcome(p, page, p.applications[i..Reach(p)])
    decreases MAX_PAGES - page
  {
    hide WellFormed, ReadPortfolio, PageFrom, NextCursor, Sorted, Before, Reach, Walk, CursorFits, CursorsFit, CursorOk;
    WellFormedParts(p);
    PageAt(p, i, page, after);
    var s := p.applications;
    var j := Min(i + Min(p.pageSize, MAX_RESULTS - i), |s|);
    PageStep(p, i, page, j);
    if j < |s| && j < MAX_RESULTS && page < MAX_PAGES {
      FitStep(p, page);
      CursorAtEnd(p, page, j);
      NextCursorFailsIffTooLarge(p, s[j - 1], page, j) by { IdentitiesHold(p); }
      if CursorFits(p, s[j - 1], page + 1, j) {
        var next := ReadAfter(p, s[j - 1], page, j);
        NotEmptyLast(p, i, j);
        WalkFrom(p, Some(next), j, page + 1, s[j - 1]);
        WalkStep(p, token, s[i..j], Some(next), MAX_PAGES - page);
        assert s[i..j] + s[j..Reach(p)] == s[i..Reach(p)];
      } else {
        WalkFails(p, token, CursorInvalid(TooLarge), MAX_PAGES - page);
      }
    } else {
      if j < |s| && j < MAX_RESULTS { LastPage(p, s[j - 1], page, j); }
      NoMoreCursors(p, i, page, j);
      WalkStep(p, token, s[i..j], None, MAX_PAGES - page);
    }
  }

  lemma WalkFails(p: Portfolio, token: Option<string>, e: WalkError, more: nat)
    requires ReadPortfolio(p, token) == Err(e)
    ensures Walk(p, token, more + 1) == Err(e)
  {
    hide ReadPortfolio;
  }

  lemma CursorAtEnd(p: Portfolio, page: nat, j: nat)
    requires !EmptyFirstAlone(p) && j == Before(p, page + 1) && 0 < j < |p.applications| && j < MAX_RESULTS
    ensures CursorOk(p, page) <==> CursorFits(p, p.applications[j - 1], page + 1, j)
  {
    hide CursorFits;
  }

  lemma NoMoreCursors(p: Portfolio, i: nat, page: nat, j: nat)
    requires !EmptyFirstAlone(p) && 1 <= p.pageSize && 1 <= page <= MAX_PAGES && i == Before(p, page) && i < MAX_RESULTS
    requires j == Min(i + Min(p.pageSize, MAX_RESULTS - i), |p.applications|)
    requires !(j < |p.applications| && j < MAX_RESULTS && page < MAX_PAGES)
    ensures CursorsFit(p, page)
  {
    hide CursorFits;
    assert page * p.pageSize == i + p.pageSize;
    forall n: nat | page <= n < MAX_PAGES ensures CursorOk(p, n) {
      Monotone(page, n, p.pageSize);
    }
  }

  lemma WalkStep(p: Portfolio, token: Option<string>, items: seq<string>, next: Option<string>, more: nat)
    requires ReadPortfolio(p, token) == Ok(Page(items, next))
    ensures Walk(p, token, more + 1) ==
              if next.None? then Ok((items, true))
              else
                match Walk(p, next, more)
                case Err(e) => Err(e)
                case Ok((rest, ended)) => Ok((items + rest, ended))
  {
    hide ReadPortfolio;
  }

  lemma LastPage(p: Portfolio, application: string, page: int, emitted: int)
    requires page >= 100 || emitted >= 500
    ensures NextCursor(p, application, page, emitted) == Ok(None)
  {
  }

  lemma NotEmptyLast(p: Portfolio, i: nat, j: nat)
    requires Sorted(p.applications) && !EmptyFirstAlone(p) && p.pageSize >= 1
    requires j == i + Min(p.pageSize, MAX_RESULTS - i) && 0 < j < |p.applications| && i < MAX_RESULTS && j < MAX_RESULTS
    ensures p.applications[j - 1] != ""
  {
    if j > 1 { NotEmptyAt(p, j - 1); }
  }

  lemma WellFormedParts(p: Portfolio)
    requires WellFormed(p)
    ensures Sorted(p.applications) && 1 <= p.pageSize <= 100
  {
  }

  /** The arithmetic of one page: it is full unless it reaches the end. */
  lemma PageStep(p: Portfolio, i: nat, page: nat, j: nat)
    requires 1 <= p.pageSize <= 100 && 1 <= page <= MAX_PAGES && i == Before(p, page) && i < MAX_RESULTS
    requires i == 0 || i < |p.applications|
    requires j == Min(i + Min(p.pageSize, MAX_RESULTS - i), |p.applications|)
    ensures j <= Reach(p) <= |p.applications|
    ensures j < |p.applications| && j < MAX_RESULTS ==> j == Before(p, page + 1) && j == i + p.pageSize
    ensures !(j < |p.applications| && j < MAX_RESULTS && page < MAX_PAGES) ==> j == Reach(p)
  {
    Monotone(page, MAX_PAGES, p.pageSize);
    assert page * p.pageSize == i + p.pageSize;
  }

  lemma Monotone(a: int, b: int, c: int)
    requires a <= b && c >= 0
    ensures a * c <= b * c
  {
  }

  // ---------- Where the empty application number breaks the walk ----------

  function Empties(n: nat): seq<string> {
    if n == 0 then [] else [""] + Empties(n - 1)
  }

  /** Behind a one-row page of the empty application number every page is that page again. */
  lemma {:induction false} WalkRepeats(p: Portfolio, token: Option<string>, page: nat)
    requires WellFormed(p) && EmptyFirstAlone(p) && 1 <= page <= MAX_PAGES
    requires ReadPortfolio(p, token) == PageFrom(p, "", page, page - 1)
    ensures Walk(p, token, MAX_PAGES + 1 - page) == Outcome(p, page, Empties(MAX_PAGES + 1 - page))
    decreases MAX_PAGES - page
  {
    hide WellFormed, ReadPortfolio, NextCursor, PageFrom, Sorted, Walk, CursorFits, CursorsFit;
    WellFormedParts(p);
    FirstPageOnly(p, page);
    if page < MAX_PAGES {
      FitStep(p, page);
      NextCursorFailsIffTooLarge(p, "", page, page) by { IdentitiesHold(p); }
      if CursorFits(p, "", page + 1, page) {
        var next := ReadAfter(p, "", page, page);
        WalkRepeats(p, Some(next), page + 1);
        WalkStep(p, token, [""], Some(next), MAX_PAGES - page);
      } else {
        WalkFails(p, token, CursorInvalid(TooLarge), MAX_PAGES - page);
      }
    } else {
      FitStep(p, MAX_PAGES - 1);
      LastPage(p, "", page, page);
      WalkStep(p, token, [""], None, 0);
      assert Empties(1) == [""];
    }
  }

  lemma IdentitiesHold(p: Portfolio)
    requires WellFormed(p)
    ensures IsQueryHash(Strip(p.queryHash)) && IsText(Strip(p.sourceVersion))
  {
  }

  lemma FirstPageOnly(p: Portfolio, page: nat)
    requires EmptyFirstAlone(p) && 1 <= page <= MAX_PAGES
    ensures PageFrom(p, "", page, page - 1) ==
              match NextCursor(p, "", page, page)
              case Err(e) => Err(e)
              case Ok(next) => Ok(Page([""], next))
  {
    hide NextCursor;
    assert p.applications[..2][..1] == [""];
  }

  /** From the first page the walk succeeds exactly when the cursors at its page ends fit, and
      fails on the size of one otherwise. It then ends by itself, and shows the first `Reach`
      applications in order, each once, exactly when the empty application number does not stand
      alone on page one. */
  lemma WalkIsExact(p: Portfolio)
    requires WellFormed(p)
    ensures Walk(p, None, MAX_PAGES).Ok? <==> CursorsFit(p, 1)
    ensures Walk(p, None, MAX_PAGES).Err? ==> Walk(p, None, MAX_PAGES).error == CursorInvalid(TooLarge)
    ensures Walk(p, None, MAX_PAGES).Ok? ==>
              && Walk(p, None, MAX_PAGES).value.1
              && (Walk(p, None, MAX_PAGES).value.0 == p.applications[..Reach(p)] <==> !EmptyFirstAlone(p))
  {
    hide CursorsFit;
    assert ReadPortfolio(p, None) == PageFrom(p, "", 1, 0);
    if EmptyFirstAlone(p) {
      WalkRepeats(p, None, 1);
      assert Empties(MAX_PAGES)[1] == Empties(MAX_PAGES - 1)[0] == "";
      NotEmptyAt(p, 1);
    } else {
      WalkFrom(p, None, 0, 1, "");
      assert p.applications[0..Reach(p)] == p.applications[..Reach(p)];
    }
  }

  /** A caller can see from the lengths that every cursor of the walk fits. */
  lemma ShortPortfoliosFit(p: Portfolio)
    requires WellFormed(p)
    requires forall a :: a in p.applications ==> |a| + |Strip(p.sourceVersion)| <= 360
    ensures CursorsFit(p, 1)
  {
    hide RawEnvelope, IsQueryHash, Sorted, IsText, IsAscii, Strip;
    forall application, page, emitted |
      application in p.applications && 2 <= page <= MAX_PAGES && 0 < emitted < MAX_RESULTS
      ensures CursorFits(p, application, page, emitted)
    {
      var id := TRADEMARK_PREFIX + application;
      ShortCursorsFit(p.sha, Payload(Strip(p.queryHash), Strip(p.sourceVersion), [Str(id)], page, emitted), id);
    }
    AnyFit(p);
  }

  lemma AnyFit(p: Portfolio)
    requires forall application, page, emitted ::
               application in p.applications && 2 <= page <= MAX_PAGES && 0 < emitted < MAX_RESULTS ==>
                 CursorFits(p, application, page, emitted)
    ensures CursorsFit(p, 1)
  {
    hide CursorFits;
    forall n: nat | 1 <= n < MAX_PAGES ensures CursorOk(p, n) {
      if EmptyFirstAlone(p) { assert p.applications[0] in p.applications; }
    }
  }

  /** Two applications, one a page, of which the walk shows the empty one a hundred times. */
  lemma EmptyNumberRepeats() returns (p: Portfolio)
    ensures WellFormed(p) && p.applications == ["", "1"] && p.pageSize == 1
    ensures Walk(p, None, MAX_PAGES) == Ok((Empties(MAX_PAGES), true))
  {
    hide Walk, IsQueryHash, Strip, CursorsFit;
    var zeros := seq(64, _ => '0');
    p := Portfolio(["", "1"], 1, _ => zeros, "sha256:" + zeros, "v");
    PlainIdentities(zeros);
    ShortPortfoliosFit(p);
    assert ReadPortfolio(p, None) == PageFrom(p, "", 1, 0);
    WalkRepeats(p, None, 1);
  }

  lemma PlainIdentities(digest: string)
    requires IsDigest(digest)
    ensures Strip("sha256:" + digest) == "sha256:" + digest && IsQueryHash("sha256:" + digest)
    ensures Strip("v") == "v"
  {
    var hash := "sha256:" + digest;
    assert hash[0] == 's' && hash[|hash| - 1] == digest[63];
    assert hash[7..] == digest;
  }
}
