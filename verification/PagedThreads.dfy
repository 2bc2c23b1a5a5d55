/** Reading every open review thread: GitLab's numbered pages (`forge/gitlab.py`) and GitHub's
    slurped GraphQL pages (`forge/github.py`). */
module PagedThreads {
  import opened Basics

  datatype Thread = Thread(rootId: int, threadId: Option<string>, path: string, line: Option<int>)

  datatype ForgeError =
    | NoFirstNote | NoResolvable | NoResolved
    | Unreadable | NotAnArray(page: nat) | TooManyPages
    | NoPage | NoData | ErrorsNextToData | NoConnection | NoNodesOrPageInfo | NotAThread | Truncated

  function IntOf(j: Json): Option<int> {
    if j.Int? then Some(j.n) else None
  }

  function IntOrZero(j: Json): int {
    if j.Int? then j.n else 0
  }

  function StringOf(j: Json): string {
    if j.Str? then j.s else ""
  }

  /** The first line number given, of two. */
  function LineOf(a: Json, b: Json): Option<int> {
    if a.Int? then IntOf(a) else IntOf(b)
  }

  // Results in sequence: what a loop that extends a list and may raise computes.

  function Append<T, E>(a: Result<seq<T>, E>, b: Result<seq<T>, E>): Result<seq<T>, E> {
    match a
    case Err(e) => Err(e)
    case Ok(xs) => if b.Ok? then Ok(xs + b.value) else b
  }

  function OneOrNone<T, E>(r: Result<Option<T>, E>): Result<seq<T>, E> {
    match r
    case Err(e) => Err(e)
    case Ok(None) => Ok([])
    case Ok(Some(x)) => Ok([x])
  }

  /** Read a listing entry by entry; the first entry that raises ends it. */
  function ReadAll<D, T, E>(read: D -> Result<Option<T>, E>, entries: seq<D>): Result<seq<T>, E> {
    if entries == [] then Ok([])
    else Append(ReadAll(read, entries[..|entries| - 1]), OneOrNone(read(entries[|entries| - 1])))
  }

  lemma AppendAssociates<T, E>(a: Result<seq<T>, E>, b: Result<seq<T>, E>, c: Result<seq<T>, E>)
    ensures Append(Append(a, b), c) == Append(a, Append(b, c))
  {
    if a.Ok? && b.Ok? && c.Ok? { Assoc(a.value, b.value, c.value); }
  }

  lemma AppendNothing<T, E>(a: Result<seq<T>, E>)
    ensures Append(a, Ok([])) == a == Append(Ok([]), a)
  {
    assert a.Ok? ==> a.value + [] == a.value == [] + a.value;
  }

  /** Reading two listings one after the other is reading their concatenation. */
  lemma {:induction false} ReadAllAppend<D, T, E>(read: D -> Result<Option<T>, E>, a: seq<D>, b: seq<D>)
    ensures ReadAll(read, a + b) == Append(ReadAll(read, a), ReadAll(read, b))
  {
    if b == [] {
      assert a + b == a;
      assert ReadAll(read, a).Ok? ==> ReadAll(read, a).value + [] == ReadAll(read, a).value;
    } else {
      var front, last := b[..|b| - 1], b[|b| - 1];
      assert (a + b)[..|a + b| - 1] == a + front && (a + b)[|a + b| - 1] == last;
      ReadAllAppend(read, a, front);
      AppendAssociates(ReadAll(read, a), ReadAll(read, front), OneOrNone(read(last)));
    }
  }

  /** The entries that count, in order. */
  function Filter<D>(keep: D -> bool, entries: seq<D>): seq<D> {
    if entries == [] then []
    else
      var last := entries[|entries| - 1];
      Filter(keep, entries[..|entries| - 1]) + if keep(last) then [last] else []
  }

  function Map<D, T>(f: D -> T, entries: seq<D>): (r: seq<T>)
    ensures |r| == |entries|
  {
    if entries == [] then [] else Map(f, entries[..|entries| - 1]) + [f(entries[|entries| - 1])]
  }

  /** What the reader of one entry does, seen from outside: it raises on a malformed entry, keeps
      an open one and skips the others. */
  ghost predicate ReaderIs<D(!new), T(!new), E(!new)>(read: D -> Result<Option<T>, E>, wellFormed: D -> bool,
                                                     open: D -> bool, thread: D -> T) {
    && (forall d :: read(d).Ok? <==> wellFormed(d))
    && (forall d | wellFormed(d) :: read(d) == Ok(if open(d) then Some(thread(d)) else None))
  }

  /** A listing is never read as fewer open threads: either every entry is well formed and the
      threads are exactly its open ones, or the read raises. */
  lemma {:induction false} ReadAllIsExact<D(!new), T(!new), E(!new)>(
      read: D -> Result<Option<T>, E>, wellFormed: D -> bool, open: D -> bool, thread: D -> T, entries: seq<D>)
    requires ReaderIs(read, wellFormed, open, thread)
    ensures ReadAll(read, entries).Ok? <==> forall d | d in entries :: wellFormed(d)
    ensures ReadAll(read, entries).Ok? ==> ReadAll(read, entries).value == Map(thread, Filter(open, entries))
  {
    if entries != [] {
      var front, last := entries[..|entries| - 1], entries[|entries| - 1];
      ReadAllIsExact(read, wellFormed, open, thread, front);
      assert forall d :: d in entries <==> d in front || d == last;
      var kept := Filter(open, front);
      if wellFormed(last) {
        assert read(last) == Ok(if open(last) then Some(thread(last)) else None);
        if open(last) {
          assert (kept + [last])[..|kept + [last]| - 1] == kept;
        } else {
          assert Filter(open, entries) == kept;
          AppendNothing(ReadAll(read, front));
        }
      }
    }
  }

  // GitLab.

  function FirstNote(discussion: Json): Json { First(Get(discussion, "notes")) }

  /** The loop body of `unresolved_threads_from_discussions`. */
  function ReadDiscussion(discussion: Json): Result<Option<Thread>, ForgeError> {
    var first := FirstNote(discussion);
    if !first.Obj? then Err(NoFirstNote)
    else if !Get(first, "resolvable").Bool? then Err(NoResolvable)
    else if !Get(first, "resolvable").b then Ok(None)
    else if !Get(first, "resolved").Bool? then Err(NoResolved)
    else if Get(first, "resolved").b then Ok(None)
    else Ok(Some(DiscussionThread(discussion)))
  }

  function DiscussionThread(discussion: Json): Thread {
    var first := FirstNote(discussion);
    var where := Get(first, "position");
    var path := if Truthy(Get(where, "new_path")) then Get(where, "new_path") else Get(where, "old_path");
    var id := Get(discussion, "id");
    Thread(IntOrZero(Get(first, "id")), if id.Str? then Some(id.s) else None, StringOf(path),
           LineOf(Get(where, "new_line"), Get(where, "old_line")))
  }

  /** The first note says with booleans whether it is resolvable and, when it is, resolved. */
  predicate WellFormedDiscussion(discussion: Json) {
    var first := FirstNote(discussion);
    first.Obj? && (Get(first, "resolvable") == Bool(false) ||
                   (Get(first, "resolvable") == Bool(true) && Get(first, "resolved").Bool?))
  }

  predicate OpenDiscussion(discussion: Json) {
    Get(FirstNote(discussion), "resolvable") == Bool(true) && Get(FirstNote(discussion), "resolved") == Bool(false)
  }

  method UnresolvedThreadsFromDiscussions(discussions: seq<Json>) returns (r: Result<seq<Thread>, ForgeError>)
    ensures r == ReadAll(ReadDiscussion, discussions)
  {
    var threads: seq<Thread> := [];
    for i := 0 to |discussions|
      invariant ReadAll(ReadDiscussion, discussions[..i]) == Ok(threads)
    {
      TakeOneMore([], discussions, i);
      match ReadDiscussion(discussions[i])
      case Err(e) =>
        ErrorIsFinal(ReadDiscussion, discussions, i + 1);
        return Err(e);
      case Ok(None) =>
        assert threads + [] == threads;
      case Ok(Some(thread)) =>
        threads := threads + [thread];
    }
    TakeAll(discussions);
    r := Ok(threads);
  }

  lemma {:induction false} ErrorIsFinal<D, T, E>(read: D -> Result<Option<T>, E>, entries: seq<D>, n: nat)
    requires n <= |entries| && ReadAll(read, entries[..n]).Err?
    ensures ReadAll(read, entries) == ReadAll(read, entries[..n])
  {
    assert entries == entries[..n] + entries[n..];
    ReadAllAppend(read, entries[..n], entries[n..]);
  }

  const DISCUSSION_PAGES_MAX := 50
  const PER_PAGE := 100

  /** What asking for one page by number answers. */
  datatype Reply = Failed | Decoded(value: Json)

  /** Reads one discussion. */
  type Reader = Json -> Result<Option<Thread>, ForgeError>

  /** The pages from `page` on. */
  function ReadPages(read: Reader, reply: nat -> Reply, page: nat): Result<seq<Thread>, ForgeError>
    decreases DISCUSSION_PAGES_MAX - page
  {
    if page > DISCUSSION_PAGES_MAX then Err(TooManyPages)
    else
      match reply(page)
      case Failed => Err(Unreadable)
      case Decoded(value) =>
        if !value.Arr? then Err(NotAnArray(page))
        else if value.items == [] then Ok([])
        else Append(ReadAll(read, value.items), ReadPages(read, reply, page + 1))
  }

  method UnresolvedThreads(reply: nat -> Reply) returns (r: Result<seq<Thread>, ForgeError>)
    ensures r == ReadPages(ReadDiscussion, reply, 1)
  {
    var open: seq<Thread> := [];
    AppendNothing(ReadPages(ReadDiscussion, reply, 1));
    for page := 1 to DISCUSSION_PAGES_MAX + 1
      invariant ReadPages(ReadDiscussion, reply, 1) == Append(Ok(open), ReadPages(ReadDiscussion, reply, page))
    {
      match reply(page)
      case Failed => return Err(Unreadable);
      case Decoded(value) =>
        if !value.Arr? {
          return Err(NotAnArray(page));
        }
        if value.items == [] {
          assert open + [] == open;
          return Ok(open);
        }
        var more := UnresolvedThreadsFromDiscussions(value.items);
        AppendAssociates(Ok(open), more, ReadPages(ReadDiscussion, reply, page + 1));
        if more.Err? {
          return more;
        }
        open := open + more.value;
    }
    r := Err(TooManyPages);
  }

  // Pages of any size.

  /** From page `p` on the server answers these pages, none of them empty, and then an empty one. */
  ghost predicate ServesPages(reply: nat -> Reply, p: nat, pages: seq<seq<Json>>) {
    && (forall i :: 0 <= i < |pages| ==> PageServed(reply, p + i, pages[i]))
    && reply(p + |pages|) == Decoded(Arr([]))
  }

  predicate PageServed(reply: nat -> Reply, p: nat, page: seq<Json>) {
    page != [] && reply(p) == Decoded(Arr(page))
  }

  function Concat(pages: seq<seq<Json>>): seq<Json> {
    if pages == [] then [] else pages[0] + Concat(pages[1..])
  }

  lemma RestServed(reply: nat -> Reply, p: nat, pages: seq<seq<Json>>)
    requires ServesPages(reply, p, pages) && pages != []
    ensures PageServed(reply, p, pages[0]) && ServesPages(reply, p + 1, pages[1..])
  {
    assert PageServed(reply, p + 0, pages[0]);
    forall i | 0 <= i < |pages[1..]| ensures PageServed(reply, p + 1 + i, pages[1..][i]) {
      assert PageServed(reply, p + (i + 1), pages[i + 1]);
    }
  }

  lemma OnePageMore(reply: nat -> Reply, p: nat, page: seq<Json>, rest: seq<seq<Json>>)
    requires PageServed(reply, p, page) && ServesPages(reply, p + 1, rest)
    ensures ServesPages(reply, p, [page] + rest) && Concat([page] + rest) == page + Concat(rest)
  {
    var pages := [page] + rest;
    assert pages[1..] == rest;
    forall i | 0 <= i < |pages| ensures PageServed(reply, p + i, pages[i]) {
      if i > 0 { assert PageServed(reply, p + 1 + (i - 1), rest[i - 1]); }
    }
  }

  lemma OnePage(read: Reader, reply: nat -> Reply, p: nat, page: seq<Json>)
    requires PageServed(reply, p, page) && p <= DISCUSSION_PAGES_MAX
    ensures ReadPages(read, reply, p) == Append(ReadAll(read, page), ReadPages(read, reply, p + 1))
  {
  }

  /** When the empty page comes within the cap, the read is that of the whole listing. */
  lemma {:induction false} PagesAreTheListing(read: Reader, reply: nat -> Reply, p: nat, pages: seq<seq<Json>>)
    requires ServesPages(reply, p, pages) && p + |pages| <= DISCUSSION_PAGES_MAX
    ensures ReadPages(read, reply, p) == ReadAll(read, Concat(pages))
    decreases |pages|
  {
    if pages != [] {
      RestServed(reply, p, pages);
      calc {
        ReadPages(read, reply, p);
        { OnePage(read, reply, p, pages[0]); }
        Append(ReadAll(read, pages[0]), ReadPages(read, reply, p + 1));
        { PagesAreTheListing(read, reply, p + 1, pages[1..]); }
        Append(ReadAll(read, pages[0]), ReadAll(read, Concat(pages[1..])));
        { ReadAllOf(read, pages[0], Concat(pages[1..]), Concat(pages)); }
        ReadAll(read, Concat(pages));
      }
    }
  }

  lemma ReadAllOf(read: Reader, a: seq<Json>, b: seq<Json>, whole: seq<Json>)
    requires whole == a + b
    ensures ReadAll(read, whole) == Append(ReadAll(read, a), ReadAll(read, b))
  {
    ReadAllAppend(read, a, b);
  }

  /** A read that succeeds has met non-empty pages, then an empty one within the cap. */
  lemma {:induction false} SuccessSawTheEnd(read: Reader, reply: nat -> Reply, p: nat) returns (pages: seq<seq<Json>>)
    requires ReadPages(read, reply, p).Ok?
    ensures ServesPages(reply, p, pages) && p + |pages| <= DISCUSSION_PAGES_MAX
    decreases DISCUSSION_PAGES_MAX - p
  {
    var page := reply(p).value.items;
    if page == [] {
      pages := [];
    } else {
      var rest := SuccessSawTheEnd(read, reply, p + 1);
      pages := [page] + rest;
      OnePageMore(reply, p, page, rest);
    }
  }

  lemma {:induction false} SamePages(reply: nat -> Reply, p: nat, pages: seq<seq<Json>>, other: seq<seq<Json>>)
    requires ServesPages(reply, p, pages) && ServesPages(reply, p, other)
    ensures pages == other
    decreases |pages|
  {
    if pages != [] { assert PageServed(reply, p + 0, pages[0]); }
    if other != [] { assert PageServed(reply, p + 0, other[0]); }
    if pages != [] && other != [] {
      RestServed(reply, p, pages);
      RestServed(reply, p, other);
      SamePages(reply, p + 1, pages[1..], other[1..]);
      assert pages == [pages[0]] + pages[1..] && other == [other[0]] + other[1..];
    }
  }

  lemma DiscussionReader()
    ensures ReaderIs(ReadDiscussion, WellFormedDiscussion, OpenDiscussion, DiscussionThread)
  {
  }

  /** The whole listing was served: its pages, whatever their sizes, and an empty one within the cap. */
  ghost predicate Listed(reply: nat -> Reply, pages: seq<seq<Json>>) {
    ServesPages(reply, 1, pages) && |pages| < DISCUSSION_PAGES_MAX
  }

  /** Whatever the server: a read that succeeds has read a whole listing, every discussion of it well
      formed, and answers its open ones, all of them, in order. */
  lemma SuccessIsExact(reply: nat -> Reply)
    requires ReadPages(ReadDiscussion, reply, 1).Ok?
    ensures exists pages ::
              && Listed(reply, pages) && (forall d | d in Concat(pages) :: WellFormedDiscussion(d))
              && ReadPages(ReadDiscussion, reply, 1).value
                 == Map(DiscussionThread, Filter(OpenDiscussion, Concat(pages)))
  {
    var pages := SuccessSawTheEnd(ReadDiscussion, reply, 1);
    PagesAreTheListing(ReadDiscussion, reply, 1, pages);
    DiscussionReader();
    ReadAllIsExact(ReadDiscussion, WellFormedDiscussion, OpenDiscussion, DiscussionThread, Concat(pages));
    assert Listed(reply, pages);
  }

  /** What is wrong with a malformed discussion. */
  predicate FaultIs(discussion: Json, e: ForgeError) {
    var first := FirstNote(discussion);
    e == if !first.Obj? then NoFirstNote else if !Get(first, "resolvable").Bool? then NoResolvable else NoResolved
  }

  /** The first malformed entry of a page. */
  predicate FirstMalformed(entries: seq<Json>, i: nat) {
    && i < |entries| && !WellFormedDiscussion(entries[i])
    && forall j | 0 <= j < i :: WellFormedDiscussion(entries[j])
  }

  /** What ends a read at page `p`: past the cap, no answer, no array, or a page's first malformed entry. */
  ghost predicate EndsIn(reply: nat -> Reply, p: nat, e: ForgeError) {
    if p > 50 then e == TooManyPages
    else if reply(p).Failed? then e == Unreadable
    else if !reply(p).value.Arr? then e == NotAnArray(p)
    else exists i: nat :: FirstMalformed(reply(p).value.items, i) && FaultIs(reply(p).value.items[i], e)
  }

  lemma OneFault(discussion: Json, e: ForgeError)
    requires ReadDiscussion(discussion) == Err(e)
    ensures !WellFormedDiscussion(discussion) && FaultIs(discussion, e)
  {
  }

  lemma ReadIsWellFormed(entries: seq<Json>)
    ensures ReadAll(ReadDiscussion, entries).Ok? <==> forall d | d in entries :: WellFormedDiscussion(d)
  {
    DiscussionReader();
    ReadAllIsExact(ReadDiscussion, WellFormedDiscussion, OpenDiscussion, DiscussionThread, entries);
  }

  lemma {:induction false} PageFaultIsFirst(entries: seq<Json>, e: ForgeError) returns (i: nat)
    requires ReadAll(ReadDiscussion, entries) == Err(e)
    ensures FirstMalformed(entries, i) && FaultIs(entries[i], e)
  {
    i := |entries| - 1;
    var front := entries[..i];
    if ReadAll(ReadDiscussion, front).Err? {
      i := PageFaultIsFirst(front, e);
    } else {
      ReadIsWellFormed(front);
      OneFault(entries[i], e);
      forall j | 0 <= j < i ensures WellFormedDiscussion(entries[j]) { assert front[j] in front; }
    }
  }

  /** Every page before `p`, from page `from` on, was full of well-formed discussions. */
  ghost predicate ReadUpTo(reply: nat -> Reply, from: nat, p: nat) {
    forall k :: from <= k < p ==> PageIsRead(reply, k)
  }

  predicate PageIsRead(reply: nat -> Reply, k: nat) {
    && reply(k).Decoded? && reply(k).value.Arr? && reply(k).value.items != []
    && forall d | d in reply(k).value.items :: WellFormedDiscussion(d)
  }

  lemma {:induction false} ReadStopsAt(reply: nat -> Reply, from: nat, e: ForgeError) returns (p: nat)
    requires from <= 51 && ReadPages(ReadDiscussion, reply, from) == Err(e)
    ensures from <= p <= 51 && ReadUpTo(reply, from, p) && EndsIn(reply, p, e)
    decreases 51 - from
  {
    p := from;
    if from <= 50 && reply(from).Decoded? && reply(from).value.Arr? {
      var page := reply(from).value.items;
      if ReadAll(ReadDiscussion, page).Err? {
        var i := PageFaultIsFirst(page, e);
      } else {
        ReadIsWellFormed(page);
        p := ReadStopsAt(reply, from + 1, e);
        assert PageIsRead(reply, from);
      }
    }
  }

  /** And a read that raises names the first thing wrong: some page ends it so, and every page before
      that one was a non-empty list of well-formed discussions. */
  lemma FailureIsTheFirstFault(reply: nat -> Reply)
    requires ReadPages(ReadDiscussion, reply, 1).Err?
    ensures exists p ::
              1 <= p <= 51 && ReadUpTo(reply, 1, p) && EndsIn(reply, p, ReadPages(ReadDiscussion, reply, 1).error)
  {
    var p := ReadStopsAt(reply, 1, ReadPages(ReadDiscussion, reply, 1).error);
  }

  /** And on pages of any sizes it succeeds exactly when there are at most 49 of them and every
      discussion is well formed. */
  lemma ListingIsReadIff(reply: nat -> Reply, pages: seq<seq<Json>>)
    requires ServesPages(reply, 1, pages)
    ensures var r := ReadPages(ReadDiscussion, reply, 1);
            && (r.Ok? <==> |pages| <= 49 && forall d | d in Concat(pages) :: WellFormedDiscussion(d))
            && (r.Ok? ==> r.value == Map(DiscussionThread, Filter(OpenDiscussion, Concat(pages))))
  {
    if ReadPages(ReadDiscussion, reply, 1).Ok? {
      var seen := SuccessSawTheEnd(ReadDiscussion, reply, 1);
      SamePages(reply, 1, pages, seen);
    }
    if |pages| <= 49 {
      PagesAreTheListing(ReadDiscussion, reply, 1, pages);
      DiscussionReader();
      ReadAllIsExact(ReadDiscussion, WellFormedDiscussion, OpenDiscussion, DiscussionThread, Concat(pages));
    }
  }

  // Full pages.

  /** The server cuts one listing into pages of a hundred. */
  function PageOf(listing: seq<Json>, page: nat): seq<Json>
    requires page >= 1
  {
    var lo := PER_PAGE * (page - 1);
    if lo >= |listing| then []
    else listing[lo..if lo + PER_PAGE < |listing| then lo + PER_PAGE else |listing|]
  }

  ghost predicate Serves(reply: nat -> Reply, listing: seq<Json>) {
    forall page: nat | page >= 1 :: ServesPage(reply, listing, page)
  }

  ghost predicate ServesPage(reply: nat -> Reply, listing: seq<Json>, page: nat)
    requires page >= 1
  {
    reply(page) == Decoded(Arr(PageOf(listing, page)))
  }

  function From(listing: seq<Json>, page: nat): seq<Json>
    requires page >= 1
  {
    if PER_PAGE * (page - 1) >= |listing| then [] else listing[PER_PAGE * (page - 1)..]
  }

  lemma PageSplits(listing: seq<Json>, page: nat)
    requires page >= 1
    ensures From(listing, page) == PageOf(listing, page) + From(listing, page + 1)
    ensures PageOf(listing, page) == [] <==> |listing| <= PER_PAGE * (page - 1)
    ensures PageOf(listing, page) == [] ==> From(listing, page) == []
  {
    var lo := PER_PAGE * (page - 1);
    assert PER_PAGE * page == lo + PER_PAGE;
  }

  /** The non-empty pages from one on. */
  lemma {:induction false} FullPages(reply: nat -> Reply, listing: seq<Json>, page: nat) returns (pages: seq<seq<Json>>)
    requires Serves(reply, listing) && page >= 1
    ensures ServesPages(reply, page, pages) && Concat(pages) == From(listing, page)
    ensures |listing| <= PER_PAGE * (page - 1 + |pages|)
    ensures pages != [] ==> |listing| > PER_PAGE * (page - 2 + |pages|)
    decreases |From(listing, page)|
  {
    PageSplits(listing, page);
    assert ServesPage(reply, listing, page);
    var first := PageOf(listing, page);
    if first == [] {
      pages := [];
    } else {
      assert |From(listing, page + 1)| < |From(listing, page)|;
      var rest := FullPages(reply, listing, page + 1);
      pages := [first] + rest;
      assert page - 1 + |pages| == page + |rest|;
      OnePageMore(reply, page, first, rest);
    }
  }

  /** On full pages of a hundred the bound is 4900 discussions. */
  lemma PagedReadIsExact(reply: nat -> Reply, listing: seq<Json>)
    requires Serves(reply, listing)
    ensures var r := ReadPages(ReadDiscussion, reply, 1);
            && (r.Ok? <==> |listing| <= 4900 && forall d | d in listing :: WellFormedDiscussion(d))
            && (r.Ok? ==> r.value == Map(DiscussionThread, Filter(OpenDiscussion, listing)))
  {
    var pages := FullPages(reply, listing, 1);
    assert From(listing, 1) == listing;
    ListingIsReadIff(reply, pages);
  }

  // A discussion as the forge writes it.

  /** Where a thread stands: on the new side of the diff, where what is said of the old side does not
      matter, on the old side only, or nowhere in particular. */
  datatype Side = NewSide(oldPath: Json, oldLine: Json) | OldSide | NoPosition

  function Encoded(line: Option<int>): Json { if line.Some? then Int(line.value) else Null }

  function Position(t: Thread, side: Side): Json {
    match side
    case NoPosition => Null
    case OldSide =>
      Obj(map["new_path" := Null, "old_path" := Str(t.path), "new_line" := Null, "old_line" := Encoded(t.line)])
    case NewSide(oldPath, oldLine) =>
      Obj(map["new_path" := Str(t.path), "old_path" := oldPath, "new_line" := Encoded(t.line), "old_line" := oldLine])
  }

  predicate StandsThere(t: Thread, side: Side) {
    match side
    case NoPosition => t.path == "" && t.line == None
    case OldSide => true
    case NewSide(_, _) => t.path != "" && t.line.Some?
  }

  function RootNote(t: Thread, side: Side, resolvable: bool, resolved: bool): Json {
    Obj(map["id" := Int(t.rootId), "resolvable" := Bool(resolvable), "resolved" := Bool(resolved),
            "position" := Position(t, side)])
  }

  /** A discussion: the root note and any replies. */
  function DiscussionOf(t: Thread, root: Json, replies: seq<Json>): Json {
    Obj(map["id" := if t.threadId.Some? then Str(t.threadId.value) else Null, "notes" := Arr([root] + replies)])
  }

  lemma PositionIsRead(t: Thread, side: Side)
    requires StandsThere(t, side)
    ensures var where := Position(t, side);
            var path := if Truthy(Get(where, "new_path")) then Get(where, "new_path") else Get(where, "old_path");
            && StringOf(path) == t.path
            && LineOf(Get(where, "new_line"), Get(where, "old_line")) == t.line
  {
  }

  /** A thread that the forge writes is read back whole while it is open, and counts for nothing when it
      is resolved or cannot be. */
  lemma ThreadIsReadBack(t: Thread, side: Side, resolvable: bool, resolved: bool, replies: seq<Json>)
    requires StandsThere(t, side)
    ensures ReadDiscussion(DiscussionOf(t, RootNote(t, side, resolvable, resolved), replies))
         == Ok(if resolvable && !resolved then Some(t) else None)
  {
    var root := RootNote(t, side, resolvable, resolved);
    var discussion := DiscussionOf(t, root, replies);
    assert FirstNote(discussion) == root;
    PositionIsRead(t, side);
    assert Get(root, "position") == Position(t, side);
  }

  // GitHub.

  function Connection(page: Json): Json {
    Get(Get(Get(Get(page, "data"), "repository"), "pullRequest"), "reviewThreads")
  }

  function HasNext(page: Json): Json { Get(Get(Connection(page), "pageInfo"), "hasNextPage") }

  /** Why a page cannot be counted, if it cannot. */
  function PageError(page: Json): Option<ForgeError> {
    if !Get(page, "data").Obj? then Some(NoData)
    else if Truthy(Get(page, "errors")) then Some(ErrorsNextToData)
    else if !Connection(page).Obj? then Some(NoConnection)
    else if !HasNext(page).Bool? || !Get(Connection(page), "nodes").Arr? then Some(NoNodesOrPageInfo)
    else None
  }

  function Nodes(page: Json): seq<Json> {
    var nodes := Get(Connection(page), "nodes");
    if nodes.Arr? then nodes.items else []
  }

  function ReadNode(node: Json): Result<Option<Thread>, ForgeError> {
    if !node.Obj? then Err(NotAThread)
    else if Get(node, "isResolved") == Bool(true) then Ok(None)
    else Ok(Some(NodeThread(node)))
  }

  /** A thread whose first comment carries no id still counts, as number 0. */
  function NodeThread(node: Json): Thread {
    var head := First(Get(Get(node, "comments"), "nodes"));
    Thread(IntOrZero(Get(head, "databaseId")), None, StringOf(Get(node, "path")),
           LineOf(Get(node, "line"), Get(node, "originalLine")))
  }

  function ReadPage(page: Json): Result<seq<Thread>, ForgeError> {
    match PageError(page)
    case Some(e) => Err(e)
    case None => ReadAll(ReadNode, Nodes(page))
  }

  /** The outer loop: the threads of all pages, and whether the last one announced another. */
  function ReadSlurped(pages: seq<Json>): Result<seq<Thread>, ForgeError> {
    if pages == [] then Ok([])
    else Append(ReadSlurped(pages[..|pages| - 1]), ReadPage(pages[|pages| - 1]))
  }

  function ThreadsFromGitHub(payload: Json): Result<seq<Thread>, ForgeError> {
    var pages := if payload.Arr? then payload.items else [payload];
    if pages == [] then Err(NoPage)
    else
      var r := ReadSlurped(pages);
      if r.Ok? && HasNext(pages[|pages| - 1]) == Bool(true) then Err(Truncated) else r
  }

  method ReadNodes(nodes: seq<Json>) returns (r: Result<seq<Thread>, ForgeError>)
    ensures r == ReadAll(ReadNode, nodes)
  {
    var threads: seq<Thread> := [];
    for i := 0 to |nodes|
      invariant ReadAll(ReadNode, nodes[..i]) == Ok(threads)
    {
      TakeOneMore([], nodes, i);
      match ReadNode(nodes[i])
      case Err(e) =>
        ErrorIsFinal(ReadNode, nodes, i + 1);
        return Err(e);
      case Ok(None) =>
        assert threads + [] == threads;
      case Ok(Some(thread)) =>
        threads := threads + [thread];
    }
    TakeAll(nodes);
    r := Ok(threads);
  }

  lemma {:induction false} SlurpedErrorIsFinal(pages: seq<Json>, n: nat)
    requires n <= |pages| && ReadSlurped(pages[..n]).Err?
    ensures ReadSlurped(pages) == ReadSlurped(pages[..n])
  {
    if n < |pages| {
      assert pages[..|pages| - 1][..n] == pages[..n];
      SlurpedErrorIsFinal(pages[..|pages| - 1], n);
    } else {
      TakeAll(pages);
    }
  }

  lemma OneMorePage(pages: seq<Json>, i: nat)
    requires i < |pages|
    ensures ReadSlurped(pages[..i + 1]) == Append(ReadSlurped(pages[..i]), ReadPage(pages[i]))
  {
    TakeOneMore([], pages, i);
  }

  /** The outer loop over the pages. */
  method ReadSlurpedPages(pages: seq<Json>) returns (read: Result<seq<Thread>, ForgeError>, more: bool)
    ensures read == ReadSlurped(pages)
    ensures read.Ok? && pages != [] ==> HasNext(pages[|pages| - 1]) == Bool(more)
  {
    var threads: seq<Thread> := [];
    more := false;
    for i := 0 to |pages|
      invariant ReadSlurped(pages[..i]) == Ok(threads)
      invariant i > 0 ==> HasNext(pages[i - 1]) == Bool(more)
    {
      OneMorePage(pages, i);
      var page := pages[i];
      var error := PageError(page);
      if error.Some? {
        SlurpedErrorIsFinal(pages, i + 1);
        return Err(error.value), more;
      }
      more := HasNext(page).b;
      read := ReadNodes(Nodes(page));
      if read.Err? {
        SlurpedErrorIsFinal(pages, i + 1);
        return;
      }
      threads := threads + read.value;
    }
    TakeAll(pages);
    read := Ok(threads);
  }

  method UnresolvedThreadsFromGitHub(payload: Json) returns (r: Result<seq<Thread>, ForgeError>)
    ensures r == ThreadsFromGitHub(payload)
  {
    var pages := if payload.Arr? then payload.items else [payload];
    if pages == [] {
      return Err(NoPage);
    }
    var read, more := ReadSlurpedPages(pages);
    r := if read.Ok? && more then Err(Truncated) else read;
  }

  function AllNodes(pages: seq<Json>): seq<Json> {
    if pages == [] then [] else AllNodes(pages[..|pages| - 1]) + Nodes(pages[|pages| - 1])
  }

  lemma {:induction false} SlurpedIsWhole(pages: seq<Json>)
    ensures ReadSlurped(pages).Ok? <==>
            (forall p | p in pages :: PageError(p).None?) && ReadAll(ReadNode, AllNodes(pages)).Ok?
    ensures ReadSlurped(pages).Ok? ==> ReadSlurped(pages) == ReadAll(ReadNode, AllNodes(pages))
  {
    if pages != [] {
      var front, last := pages[..|pages| - 1], pages[|pages| - 1];
      SlurpedIsWhole(front);
      ReadAllAppend(ReadNode, AllNodes(front), Nodes(last));
      assert forall p :: p in pages <==> p in front || p == last;
    }
  }

  predicate IsNode(node: Json) { node.Obj? }

  predicate OpenNode(node: Json) { Get(node, "isResolved") != Bool(true) }

  /** The slurped read succeeds exactly when there is a page, every page and node is well formed and
      the last page announces no other; it then answers every unresolved node of every page. */
  lemma SlurpedReadIsExact(pages: seq<Json>)
    ensures var r := ThreadsFromGitHub(Arr(pages));
            && (r.Ok? <==> pages != [] && (forall p | p in pages :: PageError(p).None?)
                           && (forall n | n in AllNodes(pages) :: IsNode(n))
                           && HasNext(pages[|pages| - 1]) != Bool(true))
            && (r.Ok? ==> r.value == Map(NodeThread, Filter(OpenNode, AllNodes(pages))))
  {
    SlurpedIsWhole(pages);
    assert ReaderIs(ReadNode, IsNode, OpenNode, NodeThread);
    ReadAllIsExact(ReadNode, IsNode, OpenNode, NodeThread, AllNodes(pages));
  }

  // A page as GitHub writes it.

  /** The value at a path of keys through objects. */
  function At(j: Json, path: seq<string>): Option<Json> {
    if path == [] then Some(j)
    else if j.Obj? && path[0] in j.fields then At(j.fields[path[0]], path[1..])
    else None
  }

  const CONNECTION_PATH: seq<string> := ["data", "repository", "pullRequest", "reviewThreads"]

  predicate IsObjectAt(j: Json, path: seq<string>) { At(j, path).Some? && At(j, path).value.Obj? }

  predicate HasErrors(page: Json) { At(page, ["errors"]).Some? && Truthy(At(page, ["errors"]).value) }

  /** The page carries these nodes and says whether another page follows. */
  predicate Carries(page: Json, nodes: seq<Json>, more: bool) {
    && !HasErrors(page)
    && At(page, CONNECTION_PATH + ["nodes"]) == Some(Arr(nodes))
    && At(page, CONNECTION_PATH + ["pageInfo", "hasNextPage"]) == Some(Bool(more))
  }

  lemma AtOne(j: Json, key: string)
    ensures Get(j, key) == if At(j, [key]).Some? then At(j, [key]).value else Null
  {
    if j.Obj? && key in j.fields {
      assert [key][1..] == [];
      assert At(j.fields[key], []) == Some(j.fields[key]);
    }
  }

  lemma {:induction false} AtFollows(j: Json, path: seq<string>, key: string)
    ensures At(j, path + [key]) == if At(j, path).Some? then At(At(j, path).value, [key]) else None
  {
    if path == [] {
      assert path + [key] == [key];
    } else {
      assert (path + [key])[1..] == path[1..] + [key];
      if j.Obj? && path[0] in j.fields { AtFollows(j.fields[path[0]], path[1..], key); }
    }
  }

  /** Reading one key further. */
  lemma GetFollows(j: Json, path: seq<string>, key: string, v: Json)
    requires v == if At(j, path).Some? then At(j, path).value else Null
    ensures Get(v, key) == if At(j, path + [key]).Some? then At(j, path + [key]).value else Null
  {
    AtFollows(j, path, key);
    AtOne(v, key);
  }

  lemma ConnectionIsAt(page: Json)
    ensures Connection(page) == if At(page, CONNECTION_PATH).Some? then At(page, CONNECTION_PATH).value else Null
    ensures Get(page, "data") == if At(page, ["data"]).Some? then At(page, ["data"]).value else Null
    ensures IsObjectAt(page, CONNECTION_PATH) ==> IsObjectAt(page, ["data"])
  {
    var p1, p2, p3 := ["data"], ["data", "repository"], ["data", "repository", "pullRequest"];
    AtOne(page, "data");
    GetFollows(page, p1, "repository", Get(page, "data"));
    assert p1 + ["repository"] == p2;
    GetFollows(page, p2, "pullRequest", Get(Get(page, "data"), "repository"));
    assert p2 + ["pullRequest"] == p3;
    GetFollows(page, p3, "reviewThreads", Get(Get(Get(page, "data"), "repository"), "pullRequest"));
    assert p3 + ["reviewThreads"] == CONNECTION_PATH;
    AtFollows(page, p1, "repository");
    AtFollows(page, p2, "pullRequest");
    AtFollows(page, p3, "reviewThreads");
  }

  lemma PageInfoIsAt(page: Json)
    ensures var next := At(page, CONNECTION_PATH + ["pageInfo", "hasNextPage"]);
            && (HasNext(page).Bool? ==> next == Some(HasNext(page)))
            && (!HasNext(page).Bool? ==> forall more :: next != Some(Bool(more)))
  {
    ConnectionIsAt(page);
    var info := CONNECTION_PATH + ["pageInfo"];
    GetFollows(page, CONNECTION_PATH, "pageInfo", Connection(page));
    GetFollows(page, info, "hasNextPage", Get(Connection(page), "pageInfo"));
    assert info + ["hasNextPage"] == CONNECTION_PATH + ["pageInfo", "hasNextPage"];
  }

  lemma NodesAreAt(page: Json)
    ensures var nodes := Get(Connection(page), "nodes");
            && (nodes.Arr? ==> At(page, CONNECTION_PATH + ["nodes"]) == Some(Arr(Nodes(page))))
            && (!nodes.Arr? ==> forall ns :: At(page, CONNECTION_PATH + ["nodes"]) != Some(Arr(ns)))
  {
    ConnectionIsAt(page);
    GetFollows(page, CONNECTION_PATH, "nodes", Connection(page));
  }

  /** A page counts exactly when it carries nodes and a word on what follows, and no errors beside; those
      are then what is read of it. */
  lemma PageCountsIff(page: Json, nodes: seq<Json>, more: bool)
    ensures Carries(page, nodes, more) <==>
            PageError(page) == None && Nodes(page) == nodes && HasNext(page) == Bool(more)
  {
    ConnectionIsAt(page);
    PageInfoIsAt(page);
    NodesAreAt(page);
    AtOne(page, "errors");
    AtFollows(page, CONNECTION_PATH, "nodes");
  }

  /** What is wrong with a page that does not count, the first of four faults. */
  lemma PageFaultIs(page: Json)
    ensures PageError(page) == Some(NoData) <==> !IsObjectAt(page, ["data"])
    ensures PageError(page) == Some(ErrorsNextToData) <==> IsObjectAt(page, ["data"]) && HasErrors(page)
    ensures PageError(page) == Some(NoConnection) <==>
            IsObjectAt(page, ["data"]) && !HasErrors(page) && !IsObjectAt(page, CONNECTION_PATH)
    ensures PageError(page) == Some(NoNodesOrPageInfo) <==>
            IsObjectAt(page, CONNECTION_PATH) && !HasErrors(page) && forall nodes, more :: !Carries(page, nodes, more)
  {
    ConnectionIsAt(page);
    AtOne(page, "errors");
    if PageError(page) == None { PageCountsIff(page, Nodes(page), HasNext(page).b); }
    forall nodes, more | Carries(page, nodes, more) ensures PageError(page) == None {
      PageCountsIff(page, nodes, more);
    }
  }

  /** A thread node: the root comment and any replies, its line in the new text or only in the old. */
  function NodeOf(t: Thread, resolved: bool, outdated: bool, original: Json, replies: seq<Json>): Json {
    Obj(map["isResolved" := Bool(resolved), "path" := Str(t.path),
            "line" := if outdated then Null else Encoded(t.line),
            "originalLine" := if outdated then Encoded(t.line) else original,
            "comments" := Obj(map["nodes" := Arr([Obj(map["databaseId" := Int(t.rootId)])] + replies)])])
  }

  /** And read back. */
  lemma NodeIsReadBack(t: Thread, resolved: bool, outdated: bool, original: Json, replies: seq<Json>)
    requires t.threadId == None && (!outdated ==> t.line.Some?)
    ensures ReadNode(NodeOf(t, resolved, outdated, original, replies)) == Ok(if resolved then None else Some(t))
  {
    var node := NodeOf(t, resolved, outdated, original, replies);
    var comments := Obj(map["nodes" := Arr([Obj(map["databaseId" := Int(t.rootId)])] + replies)]);
    assert Get(node, "comments") == comments;
    assert First(Get(comments, "nodes")) == Obj(map["databaseId" := Int(t.rootId)]);
  }
}
