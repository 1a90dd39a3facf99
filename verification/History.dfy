/** Reading a chat's history page by page: the query, the service, and the client's walks. */
module History {
  import opened Collections
  import opened Messages
  import opened Timeline
  import B = TimelineBound

  datatype Cursor = Latest | After(sequence: nat) | Before(sequence: nat)

  datatype Page = Page(hasMore: bool, items: seq<Message>, nextAfter: Option<nat>, nextBefore: Option<nat>)

  const MAXIMUM_SEQUENCE: nat := 9_223_372_036_854_775_807
  const MAXIMUM_LIMIT: nat := 100

  // ---- The query ----

  function Reversed(s: seq<Message>): seq<Message> {
    seq(|s|, i requires 0 <= i < |s| => s[|s| - 1 - i])
  }

  /** The rows the statement returns: filtered, in its order, one more than the page holds. */
  function Rows(db: seq<Message>, cursor: Cursor, limit: nat): seq<Message> {
    var ordered :=
      match cursor
      case Latest => Reversed(db)
      case After(sequence) => Above(db, sequence)
      case Before(sequence) => Reversed(Below(db, sequence));
    ordered[..Min(|ordered|, limit + 1)]
  }

  /** The page cut from those rows, oldest first, and the cursors the service derives from it. */
  function ReadPage(db: seq<Message>, cursor: Cursor, limit: nat): Page {
    var rows := Rows(db, cursor, limit);
    var hasMore := |rows| > limit;
    var cut := if hasMore then rows[..limit] else rows;
    var items := if cursor.After? then cut else Reversed(cut);
    Page(hasMore, items,
         if cursor.After? && hasMore && items != [] then Some(items[|items| - 1].sequence) else None,
         if !cursor.After? && hasMore && items != [] then Some(items[0].sequence) else None)
  }

  /** What a backward read starts from. */
  function Older(db: seq<Message>, cursor: Cursor): seq<Message> {
    if cursor.Before? then Below(db, cursor.sequence) else db
  }

  /**
   * A backward page is the end of what lies below its cursor, in order; what is left lies below the
   * next cursor, which is there exactly when something is left.
   */
  lemma BackwardPage(db: seq<Message>, cursor: Cursor, limit: nat)
    requires Ascending(db) && !cursor.After? && limit > 0
    ensures
      var page, older := ReadPage(db, cursor, limit), Older(db, cursor);
      && page.items == older[|older| - Min(|older|, limit)..]
      && page.hasMore == (|older| > limit) == page.nextBefore.Some?
      && page.nextAfter.None?
      && (page.hasMore ==>
            && 0 < page.nextBefore.value <= LastSequence(db, 0)
            && (cursor.Before? ==> page.nextBefore.value < cursor.sequence)
            && older == Below(db, page.nextBefore.value) + page.items)
  {
    var page, older := ReadPage(db, cursor, limit), Older(db, cursor);
    BackwardCut(db, cursor, limit);
    hide ReadPage, Older;
    if page.hasMore {
      var j := |older| - limit;
      assert page.items[0] == older[j];
      OlderSplits(db, cursor, j);
    }
  }

  lemma ReversedTail(s: seq<Message>, n: nat)
    requires n <= |s|
    ensures Reversed(Reversed(s)[..n]) == s[|s| - n..]
  {
  }

  lemma BackwardCut(db: seq<Message>, cursor: Cursor, limit: nat)
    requires !cursor.After? && limit > 0
    ensures
      var page, older := ReadPage(db, cursor, limit), Older(db, cursor);
      && page.items == older[|older| - Min(|older|, limit)..]
      && page.hasMore == (|older| > limit)
      && page.nextAfter.None?
      && page.nextBefore == if page.hasMore then Some(page.items[0].sequence) else None
  {
    var older := Older(db, cursor);
    ReversedTail(older, Min(|older|, limit));
    assert Rows(db, cursor, limit) == Reversed(older)[..Min(|older|, limit + 1)];
    hide Reversed, Below, Above;
    if |older| > limit {
      assert Rows(db, cursor, limit)[..limit] == Reversed(older)[..limit];
    }
  }

  /** The message at an index of what lies below a cursor is itself a cursor for everything before it. */
  lemma OlderSplits(db: seq<Message>, cursor: Cursor, j: nat)
    requires Ascending(db) && !cursor.After? && 0 < j < |Older(db, cursor)|
    ensures
      var older := Older(db, cursor);
      && 0 < older[j].sequence <= LastSequence(db, 0)
      && (cursor.Before? ==> older[j].sequence < cursor.sequence)
      && older == Below(db, older[j].sequence) + older[j..]
  {
    var k := OlderIsPrefix(db, cursor);
    hide Older, Below, Ascending;
    AscendingAt(db, j);
    PrefixCut(db, j, k);
  }

  lemma OlderIsPrefix(db: seq<Message>, cursor: Cursor) returns (k: nat)
    requires Ascending(db) && !cursor.After?
    ensures k <= |db| && Older(db, cursor) == db[..k]
    ensures cursor.Before? ==> forall i :: 0 <= i < k ==> db[i].sequence < cursor.sequence
  {
    k := |db|;
    if cursor.Before? {
      hide Below;
      k := BelowIsPrefix(db, cursor.sequence);
    }
  }

  lemma AscendingAt(db: seq<Message>, j: nat)
    requires Ascending(db) && 0 < j < |db|
    ensures db[0].sequence < db[j].sequence <= db[|db| - 1].sequence
  {
  }

  lemma PrefixCut(db: seq<Message>, j: nat, k: nat)
    requires Ascending(db) && j < k <= |db|
    ensures db[..k] == Below(db, db[j].sequence) + db[..k][j..]
  {
    hide Below;
    BelowCut(db, j, |db|, db[j].sequence);
    assert db[..|db|] == db && db[..k] == db[..j] + db[..k][j..];
  }

  /**
   * A forward page is the start of what lies above its cursor; what is left lies above the next
   * cursor, which is there exactly when something is left and then is larger.
   */
  lemma ForwardPage(db: seq<Message>, after: nat, limit: nat)
    requires Ascending(db) && limit > 0
    ensures
      var page, newer := ReadPage(db, After(after), limit), Above(db, after);
      && page.items == newer[..Min(|newer|, limit)]
      && page.hasMore == (|newer| > limit) == page.nextAfter.Some?
      && page.nextBefore.None?
      && (page.hasMore ==>
            && after < page.nextAfter.value
            && page.nextAfter.value == LastSequence(page.items, after)
            && newer == page.items + Above(db, page.nextAfter.value))
  {
    var page, newer := ReadPage(db, After(after), limit), Above(db, after);
    var k := AboveIsSuffix(db, after);
    hide Above;
    assert page.items == newer[..Min(|newer|, limit)];
    AboveSplits(db, after, page.items);
    if page.hasMore {
      assert page.items[limit - 1] == db[k + limit - 1];
    }
  }

  // ---- The service ----

  datatype Param = Absent | Malformed | Given(sequence: nat)

  datatype HistoryRequest = HistoryRequest(chatKnown: bool, after: Param, before: Param, limit: Option<nat>)

  datatype Access = Allowed | Forbidden | Unavailable

  datatype Outcome = InvalidRequest | NoAccess(reason: Access) | Read(page: Page)

  function ParseAfter(p: Param): Option<nat> {
    if p.Given? && p.sequence <= MAXIMUM_SEQUENCE then Some(p.sequence) else None
  }

  function ParseBefore(p: Param): Option<nat> {
    if p.Given? && 0 < p.sequence <= MAXIMUM_SEQUENCE then Some(p.sequence) else None
  }

  function ReadMessageHistory(db: seq<Message>, access: Access, request: HistoryRequest): Outcome {
    var after := ParseAfter(request.after);
    var before := ParseBefore(request.before);
    if || !request.chatKnown
       || request.limit.None? || !(1 <= request.limit.value <= MAXIMUM_LIMIT)
       || (!request.after.Absent? && after.None?)
       || (!request.before.Absent? && before.None?)
       || (!request.after.Absent? && !request.before.Absent?)
    then InvalidRequest
    else if !access.Allowed? then NoAccess(access)
    else
      var cursor := if after.Some? then After(after.value) else if before.Some? then Before(before.value) else Latest;
      Read(ReadPage(db, cursor, request.limit.value))
  }

  /** A parameter is left out or names a sequence from `least` up to the largest there is. */
  predicate Names(p: Param, least: nat) {
    p == Absent || (p.Given? && least <= p.sequence <= MAXIMUM_SEQUENCE)
  }

  /** At most one cursor, both well formed, a known chat and a limit of 1 to 100. */
  predicate WellFormed(request: HistoryRequest) {
    && request.chatKnown && request.limit.Some? && 1 <= request.limit.value <= 100
    && Names(request.after, 0) && Names(request.before, 1)
    && (request.after == Absent || request.before == Absent)
  }

  /**
   * The order of the checks and who sees what: a request is invalid exactly when it is not well
   * formed, whatever the access; without access a well-formed one learns that and nothing about the
   * messages; with it, it gets the page of the cursor it names.
   */
  lemma ReadersNeedAccess(db: seq<Message>, other: seq<Message>, access: Access, request: HistoryRequest)
    ensures ReadMessageHistory(db, access, request) == InvalidRequest <==> !WellFormed(request)
    ensures WellFormed(request) && access != Allowed ==>
      ReadMessageHistory(db, access, request) == ReadMessageHistory(other, access, request) == NoAccess(access)
    ensures WellFormed(request) && access == Allowed ==>
      ReadMessageHistory(db, access, request) == Read(ReadPage(db,
        if request.after.Given? then After(request.after.sequence)
        else if request.before.Given? then Before(request.before.sequence)
        else Latest,
        request.limit.value))
  {
    hide ReadPage;
  }

  /** A page holds messages of the chat only, no more than asked for, each once, oldest first. */
  lemma PagesHoldMessages(db: seq<Message>, access: Access, request: HistoryRequest)
    requires Ascending(db) && ReadMessageHistory(db, access, request).Read?
    ensures
      var page := ReadMessageHistory(db, access, request).page;
      && access == Allowed && WellFormed(request)
      && |page.items| <= request.limit.value && Ascending(page.items)
      && (forall m :: m in page.items ==>
            && m in db
            && (request.after.Given? ==> m.sequence > request.after.sequence)
            && (request.before.Given? ==> m.sequence < request.before.sequence))
  {
    hide ReadPage, Above, Below, Older;
    ReadersNeedAccess(db, db, access, request);
    var limit := request.limit.value;
    if request.after.Given? {
      ForwardPage(db, request.after.sequence, limit);
      var k := AboveIsSuffix(db, request.after.sequence);
      PieceOf(db, k, |db|, ReadPage(db, After(request.after.sequence), limit).items);
    } else {
      var cursor := if request.before.Given? then Before(request.before.sequence) else Latest;
      BackwardPage(db, cursor, limit);
      var k := OlderIsPrefix(db, cursor);
      var older := Older(db, cursor);
      var start := |older| - Min(|older|, limit);
      assert older[start..] == db[start..k];
      PieceOf(db, start, k, older[start..]);
    }
  }

  lemma PieceOf(db: seq<Message>, from: nat, to: nat, items: seq<Message>)
    requires Ascending(db) && from <= to <= |db| && items <= db[from..to]
    ensures Ascending(items)
    ensures forall m :: m in items ==> m in db && exists i :: from <= i < to && db[i] == m
  {
    assert forall i :: 0 <= i < |items| ==> items[i] == db[from..to][i] == db[from + i];
    forall m | m in items ensures m in db && exists i :: from <= i < to && db[i] == m {
      var i :| 0 <= i < |items| && items[i] == m;
      assert db[from + i] == m;
    }
  }

  lemma NextCursorInRange(db: seq<Message>, cursor: Cursor, limit: nat)
    requires Ascending(db) && limit > 0 && forall m :: m in db ==> m.sequence <= MAXIMUM_SEQUENCE
    ensures
      var page := ReadPage(db, cursor, limit);
      && (page.nextBefore.Some? ==> 0 < page.nextBefore.value <= MAXIMUM_SEQUENCE)
      && (page.nextAfter.Some? ==> page.nextAfter.value <= MAXIMUM_SEQUENCE)
  {
    hide ReadPage, Above, Below, Older;
    if cursor.After? {
      var k := AboveIsSuffix(db, cursor.sequence);
      ForwardPage(db, cursor.sequence, limit);
      var page := ReadPage(db, cursor, limit);
      if page.hasMore { assert page.items[limit - 1] == db[k + limit - 1]; }
    } else {
      BackwardPage(db, cursor, limit);
    }
  }

  /** Every cursor a page hands out is one the service accepts, and leads to the page the walk reads next. */
  lemma NextCursorIsAccepted(db: seq<Message>, later: seq<Message>, request: HistoryRequest, page: Page)
    requires Ascending(db) && forall m :: m in db ==> m.sequence <= MAXIMUM_SEQUENCE
    requires ReadMessageHistory(db, Allowed, request) == Read(page)
    ensures page.nextBefore.Some? ==>
      ReadMessageHistory(later, Allowed, request.(after := Absent, before := Given(page.nextBefore.value)))
        == Read(ReadPage(later, Before(page.nextBefore.value), request.limit.value))
    ensures page.nextAfter.Some? ==>
      ReadMessageHistory(later, Allowed, request.(after := Given(page.nextAfter.value), before := Absent))
        == Read(ReadPage(later, After(page.nextAfter.value), request.limit.value))
  {
    hide ReadPage;
    var cursor :=
      if request.after.Given? then After(request.after.sequence)
      else if request.before.Given? then Before(request.before.sequence) else Latest;
    NextCursorInRange(db, cursor, request.limit.value);
  }

  // ---- Walking back ----

  /** While a client walks, messages are only appended. */
  ghost predicate Growing(server: nat -> seq<Message>) {
    && (forall i :: Ascending(server(i)))
    && (forall i, j :: i <= j ==> server(i) <= server(j))
  }

  /**
   * Following `nextBefore` from the `n`th read on, each read against the history of its moment; older
   * pages go in front.
   */
  ghost function WalkBack(server: nat -> seq<Message>, n: nat, cursor: Cursor, limit: nat): seq<Message>
    requires Growing(server) && !cursor.After? && limit > 0
    decreases if cursor.Latest? then 1 else 0, if cursor.Latest? then 0 else cursor.sequence
  {
    BackwardPage(server(n), cursor, limit);
    var page := ReadPage(server(n), cursor, limit);
    if page.nextBefore.None? then page.items
    else WalkBack(server, n + 1, Before(page.nextBefore.value), limit) + page.items
  }

  /** A backward walk ends, and rebuilds exactly what lay below its cursor at its first read. */
  lemma {:induction false} BackwardWalkRebuilds(server: nat -> seq<Message>, n: nat, cursor: Cursor, limit: nat)
    requires Growing(server) && !cursor.After? && limit > 0
    ensures WalkBack(server, n, cursor, limit) == Older(server(n), cursor)
    decreases if cursor.Latest? then 1 else 0, if cursor.Latest? then 0 else cursor.sequence
  {
    hide Below, ReadPage;
    BackwardPage(server(n), cursor, limit);
    var page := ReadPage(server(n), cursor, limit);
    if page.nextBefore.Some? {
      BackwardWalkRebuilds(server, n + 1, Before(page.nextBefore.value), limit);
      assert server(n) <= server(n + 1);
      BelowIsStable(server(n), server(n + 1), page.nextBefore.value);
    }
  }

  // ---- Catching up ----

  const MAXIMUM_PAGES: nat := 20

  /** While the client catches up a read may fail, and messages are only appended. */
  ghost predicate Answers(server: nat -> Option<seq<Message>>) {
    && (forall i :: server(i).Some? ==> Ascending(server(i).value))
    && (forall i, j :: i <= j && server(i).Some? && server(j).Some? ==> server(i).value <= server(j).value)
  }

  /** How many messages `n` reads can bring. */
  function Capacity(n: nat): nat {
    MAXIMUM_LIMIT * n
  }

  /** What the first `n` reads have brought: as much of what the last of them saw above `start` as they can hold. */
  ghost predicate MergedAfter(server: nat -> Option<seq<Message>>, n: nat, start: nat, merged: seq<Message>) {
    if n == 0 then merged == []
    else
      && server(n - 1).Some?
      && merged <= Above(server(n - 1).value, start)
      && |merged| == Min(|Above(server(n - 1).value, start)|, Capacity(n))
  }

  /** Whether the last of `n` reads saw more than they can hold. */
  ghost predicate MoreAfter(server: nat -> Option<seq<Message>>, n: nat, start: nat) {
    n > 0 && server(n - 1).Some? && |Above(server(n - 1).value, start)| > Capacity(n)
  }

  /** One forward read from the cursor that the reads before it have reached. */
  lemma ForwardStep(server: nat -> Option<seq<Message>>, n: nat, start: nat, merged: seq<Message>)
    requires Answers(server) && server(n).Some? && MergedAfter(server, n, start, merged) && |merged| == Capacity(n)
    ensures
      var page := ReadPage(server(n).value, After(LastSequence(merged, start)), MAXIMUM_LIMIT);
      && MergedAfter(server, n + 1, start, merged + page.items)
      && page.hasMore == MoreAfter(server, n + 1, start)
      && (page.hasMore ==>
            && |merged + page.items| == Capacity(n + 1) && page.nextAfter.Some?
            && page.nextAfter.value > LastSequence(merged, start)
            && page.nextAfter.value == LastSequence(merged + page.items, start))
  {
    hide Above, ReadPage;
    var db := server(n).value;
    if n > 0 { AboveGrows(server(n - 1).value, db, start); }
    AboveSplits(db, start, merged);
    ForwardPage(db, LastSequence(merged, start), MAXIMUM_LIMIT);
  }

  lemma CaughtUp(server: nat -> Option<seq<Message>>, n: nat, start: nat, merged: seq<Message>)
    requires n > 0 && MergedAfter(server, n, start, merged) && !MoreAfter(server, n, start)
    ensures merged == Above(server(n - 1).value, start)
  {
  }

  /** All messages of the reads so far are behind the cursor, and the page read next is ahead of it. */
  lemma PageIsAhead(server: nat -> Option<seq<Message>>, n: nat, start: nat, merged: seq<Message>)
    requires Answers(server) && server(n).Some? && MergedAfter(server, n, start, merged) && |merged| == Capacity(n)
    ensures
      var cursor := LastSequence(merged, start);
      var page := ReadPage(server(n).value, After(cursor), MAXIMUM_LIMIT);
      && start <= cursor && (forall m :: m in merged ==> m.sequence <= cursor)
      && (forall m :: m in page.items ==> m.sequence > cursor)
      && (forall m :: m in merged + page.items ==> m in server(n).value)
  {
    var db, cursor := server(n).value, LastSequence(merged, start);
    ForwardStep(server, n, start, merged);
    ForwardPage(db, cursor, MAXIMUM_LIMIT);
    hide Answers, ReadPage, Above;
    var page := ReadPage(db, After(cursor), MAXIMUM_LIMIT);
    var k := AboveIsSuffix(db, cursor);
    var j := AboveIsSuffix(db, start);
    InSuffix(db, k, page.items);
    InSuffix(db, j, merged + page.items);
    assert merged != [] ==> merged[|merged| - 1] in merged + page.items;
    forall m | m in merged ensures m.sequence <= cursor {
      var i :| 0 <= i < |merged| && merged[i] == m;
      var last := |merged| - 1;
      assert (merged + page.items)[i] == db[j..][i] == db[j + i]
        && (merged + page.items)[last] == db[j..][last] == db[j + last];
    }
  }

  lemma InSuffix(db: seq<Message>, k: nat, s: seq<Message>)
    requires k <= |db| && s <= db[k..]
    ensures forall m :: m in s ==> m in db && exists i :: k <= i < |db| && db[i] == m
  {
    forall m | m in s ensures m in db && exists i :: k <= i < |db| && db[i] == m {
      var i :| 0 <= i < |s| && s[i] == m;
      assert db[k..][i] == m && db[k + i] == m;
    }
  }

  /** A timeline as the panel holds it, up to the cursor it reads on from, and consistent with what the server has. */
  ghost predicate Fits(t: Timeline, cursor: nat, server: nat -> Option<seq<Message>>) {
    && Tidy(t) && |t.items| <= MAXIMUM_RENDERED_ITEMS && t.lastSequence <= cursor
    && forall i :: server(i).Some? ==> B.Consistent(t.items, server(i).value)
  }

  /** Merging and bounding the next page leads where merging everything at once would. */
  lemma PageFits(t: Timeline, server: nat -> Option<seq<Message>>, n: nat, start: nat, merged: seq<Message>)
    requires Answers(server) && server(n).Some? && MergedAfter(server, n, start, merged) && |merged| == Capacity(n)
    requires Fits(t, start, server)
    ensures
      var page := ReadPage(server(n).value, After(LastSequence(merged, start)), MAXIMUM_LIMIT);
      B.Update(B.Update(t, merged), page.items) == B.Update(t, merged + page.items)
  {
    PageIsAhead(server, n, start, merged);
    var page := ReadPage(server(n).value, After(LastSequence(merged, start)), MAXIMUM_LIMIT);
    var db := server(n).value;
    assert B.Consistent(t.items, db);
    hide Answers, ReadPage, MergedAfter, B.Update, Tidy;
    HighestIsLeast(t.lastSequence, merged);
    SomeAreConsistent(t.items, db, merged + page.items);
    B.PagesAreExact(t, merged, page.items);
  }

  lemma SomeAreConsistent(items: seq<Item>, db: seq<Message>, some: seq<Message>)
    requires B.Consistent(items, db) && forall m :: m in some ==> m in db
    ensures B.Consistent(items, some)
  {
  }

  lemma UpdateKeeps(t: Timeline, messages: seq<Message>)
    ensures B.Update(t, messages).lastSequence == Highest(t.lastSequence, messages)
    ensures Tidy(t) ==> Tidy(B.Update(t, messages))
    ensures |B.Update(t, messages).items| <= MAXIMUM_RENDERED_ITEMS
  {
    B.MergeCursor(t, messages);
    if Tidy(t) {
      MergeIsTidy(t, messages);
      BoundIsTidy(Merge(t, messages));
    }
  }

  /** What the list shows after `n` reads. */
  ghost predicate Renders(
      t: Timeline, server: nat -> Option<seq<Message>>, n: nat, start: nat, merged: seq<Message>, r: Timeline) {
    && (Fits(t, start, server) ==> r == if n == 0 then t else B.Update(t, merged))
    && r.lastSequence == Highest(t.lastSequence, merged)
    && (Tidy(t) ==> Tidy(r))
    && (if n == 0 then r == t else |r.items| <= MAXIMUM_RENDERED_ITEMS)
  }

  lemma RenderStep(
      t: Timeline, server: nat -> Option<seq<Message>>, n: nat, start: nat, merged: seq<Message>, r: Timeline)
    requires Answers(server) && server(n).Some? && MergedAfter(server, n, start, merged) && |merged| == Capacity(n)
    requires Renders(t, server, n, start, merged, r)
    ensures
      var page := ReadPage(server(n).value, After(LastSequence(merged, start)), MAXIMUM_LIMIT);
      Renders(t, server, n + 1, start, merged + page.items, B.Update(r, page.items))
  {
    hide Answers, ReadPage, Fits, B.Update, Tidy, Highest;
    var page := ReadPage(server(n).value, After(LastSequence(merged, start)), MAXIMUM_LIMIT);
    if Fits(t, start, server) { PageFits(t, server, n, start, merged); }
    UpdateKeeps(r, page.items);
    HighestOfBoth(t.lastSequence, merged, page.items);
    assert n == 0 ==> merged == [] && [] + page.items == page.items;
  }

  lemma NothingReadYet(server: nat -> Option<seq<Message>>, start: nat, t: Timeline)
    ensures MergedAfter(server, 0, start, []) && Capacity(0) == 0 && Renders(t, server, 0, start, [], t)
    ensures !MoreAfter(server, 0, start)
  {
  }

  /**
   * The loop that reads forward and merges each page. It ends connected exactly when its last read
   * showed nothing beyond the pages read, and then has merged exactly the messages above its
   * starting cursor at that read; otherwise a read failed or the last page allowed still had more.
   * The exit for a cursor that does not move is never taken.
   */
  method CatchUp(server: nat -> Option<seq<Message>>, initialAfterSequence: nat, timeline: Timeline)
    returns (r: Timeline, connected: bool, pages: nat, ghost merged: seq<Message>)
    requires Answers(server)
    ensures pages <= MAXIMUM_PAGES && forall i :: 0 <= i < pages ==> server(i).Some?
    ensures MergedAfter(server, pages, initialAfterSequence, merged)
    ensures connected <==> pages > 0 && !MoreAfter(server, pages, initialAfterSequence)
    ensures connected ==> merged == Above(server(pages - 1).value, initialAfterSequence)
    ensures !connected ==> pages == MAXIMUM_PAGES || server(pages).None?
    ensures Renders(timeline, server, pages, initialAfterSequence, merged, r)
  {
    hide ReadPage, Above, Answers, Renders, Merge, BoundedTimeline, MergedAfter, MoreAfter, Capacity;
    r, connected, pages, merged := timeline, false, 0, [];
    var cursor := initialAfterSequence;
    NothingReadYet(server, initialAfterSequence, timeline);
    while pages < MAXIMUM_PAGES
      invariant pages <= MAXIMUM_PAGES && forall i :: 0 <= i < pages ==> server(i).Some?
      invariant MergedAfter(server, pages, initialAfterSequence, merged)
      invariant pages > 0 ==> MoreAfter(server, pages, initialAfterSequence)
      invariant |merged| == Capacity(pages) && cursor == LastSequence(merged, initialAfterSequence)
      invariant Renders(timeline, server, pages, initialAfterSequence, merged, r)
    {
      var answer := server(pages);
      if answer.None? { return; }
      var page := ReadPage(answer.value, After(cursor), MAXIMUM_LIMIT);
      ForwardStep(server, pages, initialAfterSequence, merged);
      RenderStep(timeline, server, pages, initialAfterSequence, merged, r);
      r := MergeStoredMessages(r, page.items);
      r := BoundedTimeline(r);
      merged := merged + page.items;
      pages := pages + 1;
      if !page.hasMore {
        connected := true;
        CaughtUp(server, pages, initialAfterSequence, merged);
        return;
      }
      if page.nextAfter.None? || page.nextAfter.value == cursor {
        assert false;
      }
      cursor := page.nextAfter.value;
    }
  }
}
