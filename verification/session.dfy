/** The picker over a whole session: the events that reach it (calls to
    `fetch`, the list reaching its end, the photo query settling, taps on
    images), in the order they arrive. The photo library is represented by
    the number of queries it has not yet answered; it answers only queries
    it was sent, each exactly once. Every event is handled to completion
    before the next, as the single JavaScript thread does. */
module Session {
  import opened PickerTypes
  import opened PickerSpec

  /** The controller state, the queries sent so far, how many of them are
      still unanswered, and the callbacks made so far. */
  datatype Machine = Machine(
    s: PickerState,
    sent: seq<FetchParams>,
    inFlight: nat,
    calls: seq<Notification>)

  datatype Event =
    | CallFetch                       // `fetch()`, as the mount and permission flow call it
    | EndReached                      // the list's `onEndReached`
    | Resolve(page: Page)             // a query fulfils: `_appendImages(data)`
    | Reject                          // a query rejects: the error is only logged
    | Tap(index: nat)                 // a press on the image at `index`

  function Start(cfg: Config): Machine
  {
    Machine(Initial(cfg), [], 0, [])
  }

  /** Records the query a `fetch` sent, if it sent one. */
  function Issue(m: Machine, f: FetchOutcome): Machine
  {
    match f.request
    case None => m.(s := f.state)
    case Some(p) => m.(s := f.state, sent := m.sent + [p], inFlight := m.inFlight + 1)
  }

  /** One event. A query can only settle while one is unanswered, and a
      tap can only land on a loaded image; other events cannot occur and
      leave everything as it is. */
  function Step(cfg: Config, platform: Platform, m: Machine, e: Event): (r: Machine)
    ensures m.s.images <= r.s.images && m.sent <= r.sent && m.calls <= r.calls
    ensures m.s.noMore ==> r.s.noMore
    ensures |r.sent| <= |m.sent| + 1
    ensures |r.sent| == |m.sent| + 1 ==> r.inFlight == m.inFlight + 1 && r.s.loadingMore
    ensures r.inFlight < m.inFlight ==> r.inFlight == m.inFlight - 1 && (e.Resolve? || e.Reject?)
    ensures !e.Tap? ==> r.calls == m.calls && r.s.selected == m.s.selected && r.s.selectedImages == m.s.selectedImages
  {
    match e
    case CallFetch => Issue(m, FetchStep(m.s, cfg, platform))
    case EndReached => Issue(m, EndReachedStep(m.s, cfg, platform))
    case Resolve(page) =>
      if m.inFlight == 0 then m
      else m.(s := AppendStep(m.s, page), inFlight := m.inFlight - 1)
    case Reject =>
      if m.inFlight == 0 then m
      else m.(inFlight := m.inFlight - 1)
    case Tap(index) =>
      if index < |m.s.images| then
        var t := ToggleStep(m.s, cfg, index, m.s.images[index].node.image);
        m.(s := t.state, calls := m.calls + t.notes)
      else m
  }

  function Run(cfg: Config, platform: Platform, m: Machine, events: seq<Event>): Machine
    decreases |events|
  {
    if events == [] then m
    else Run(cfg, platform, Step(cfg, platform, m, events[0]), events[1..])
  }

  /** Every reachable machine: at most one query is unanswered, and while
      one is, `loadingMore` is raised; the selection invariant holds. */
  ghost predicate Inv(cfg: Config, m: Machine)
  {
    && m.inFlight <= 1
    && (m.inFlight == 1 ==> m.s.loadingMore)
    && SelectionInv(cfg, m.s)
  }

  lemma StepKeepsInv(cfg: Config, platform: Platform, m: Machine, e: Event)
    requires Inv(cfg, m)
    ensures Inv(cfg, Step(cfg, platform, m, e))
  {
    match e
    case Tap(index) =>
      if index < |m.s.images| {
        ToggleKeepsInv(m.s, cfg, index, m.s.images[index].node.image);
      }
    case _ =>
  }

  lemma {:induction false} RunKeepsInv(cfg: Config, platform: Platform, m: Machine, events: seq<Event>)
    requires Inv(cfg, m)
    ensures Inv(cfg, Run(cfg, platform, m, events))
    decreases |events|
  {
    if events != [] {
      StepKeepsInv(cfg, platform, m, events[0]);
      RunKeepsInv(cfg, platform, Step(cfg, platform, m, events[0]), events[1..]);
    }
  }

  /** Whatever happens in a session, never two queries are outstanding,
      and while one is `loadingMore` is raised. */
  lemma AtMostOneQuery(cfg: Config, platform: Platform, events: seq<Event>)
    ensures var m := Run(cfg, platform, Start(cfg), events);
      && m.inFlight <= 1
      && (m.inFlight == 1 ==> m.s.loadingMore)
  {
    InitialSatisfiesInv(cfg);
    RunKeepsInv(cfg, platform, Start(cfg), events);
  }

  /** Whatever happens in a session, the selected indices are distinct,
      point at loaded images, number at most `maximum` (at most one in
      single-select mode) and never outnumber the selected images. */
  lemma SelectionBounds(cfg: Config, platform: Platform, events: seq<Event>)
    ensures var m := Run(cfg, platform, Start(cfg), events);
      && Distinct(m.s.selected)
      && (forall k | 0 <= k < |m.s.selected| :: m.s.selected[k] < |m.s.images|)
      && (m.s.selected == [] || |m.s.selected| <= cfg.maximum)
      && (cfg.selectSingleItem ==> |m.s.selected| <= 1)
      && |m.s.selected| <= |m.s.selectedImages|
  {
    InitialSatisfiesInv(cfg);
    RunKeepsInv(cfg, platform, Start(cfg), events);
  }

  /** Loaded images are only ever extended, a finished list stays
      finished, the sent queries and the callbacks made are only ever
      extended. */
  lemma {:induction false} RunOnlyExtends(cfg: Config, platform: Platform, m: Machine, events: seq<Event>)
    ensures var r := Run(cfg, platform, m, events);
      && m.s.images <= r.s.images
      && (m.s.noMore ==> r.s.noMore)
      && m.sent <= r.sent
      && m.calls <= r.calls
    decreases |events|
  {
    if events != [] {
      var m' := Step(cfg, platform, m, events[0]);
      assert m.s.images <= m'.s.images && m.sent <= m'.sent && m.calls <= m'.calls;
      RunOnlyExtends(cfg, platform, m', events[1..]);
    }
  }

  /** A rejected query leaves `loadingMore` raised with nothing
      outstanding: from then on no `fetch` or end-of-list event sends a
      query and the loaded images, cursor, end flag and `initialLoading`
      never change (a rejected first query leaves the loader up for good). */
  lemma {:induction false} RejectionWedges(cfg: Config, platform: Platform, m: Machine, events: seq<Event>)
    requires m.s.loadingMore && m.inFlight == 0
    ensures var r := Run(cfg, platform, m, events);
      && r.s.loadingMore && r.inFlight == 0 && r.sent == m.sent
      && r.s.images == m.s.images && r.s.lastCursor == m.s.lastCursor && r.s.noMore == m.s.noMore
      && r.s.initialLoading == m.s.initialLoading
    decreases |events|
  {
    if events != [] {
      RejectionWedges(cfg, platform, Step(cfg, platform, m, events[0]), events[1..]);
    }
  }

  /** The rejection of the one outstanding query puts the machine in the
      state `RejectionWedges` starts from, changing nothing else. */
  lemma RejectLeavesLoadingMore(cfg: Config, platform: Platform, m: Machine)
    requires Inv(cfg, m) && m.inFlight == 1
    ensures var r := Step(cfg, platform, m, Reject);
      r.s == m.s && r.s.loadingMore && r.inFlight == 0
  {
  }

  // ---------------------------------------------------------------------
  // Paging through the library

  /** Fetch, then let the query return the next page, for every page. */
  function FetchEach(pages: seq<Page>): seq<Event>
  {
    if pages == [] then [] else [CallFetch, Resolve(pages[0])] + FetchEach(pages[1..])
  }

  function AllEdges(pages: seq<Page>): seq<Edge>
  {
    if pages == [] then [] else pages[0].edges + AllEdges(pages[1..])
  }

  lemma RunAppend(cfg: Config, platform: Platform, m: Machine, a: seq<Event>, b: seq<Event>)
    ensures Run(cfg, platform, m, a + b) == Run(cfg, platform, Run(cfg, platform, m, a), b)
    decreases |a|
  {
    if a == [] {
      assert a + b == b;
    } else {
      assert (a + b)[0] == a[0] && (a + b)[1..] == a[1..] + b;
      RunAppend(cfg, platform, Step(cfg, platform, m, a[0]), a[1..], b);
    }
  }

  /** Loading page after page, each query sent while none is outstanding:
      each `fetch` sends exactly one query, and `images` ends up as the old
      images followed by every page's assets in order (empty pages add
      nothing). */
  lemma {:induction false} PagesAccumulate(cfg: Config, platform: Platform, m: Machine, pages: seq<Page>)
    requires !m.s.loadingMore && m.inFlight == 0
    ensures var r := Run(cfg, platform, m, FetchEach(pages));
      && r.s.images == m.s.images + AllEdges(pages)
      && |r.sent| == |m.sent| + |pages|
      && !r.s.loadingMore && r.inFlight == 0
    decreases |pages|
  {
    if pages != [] {
      var first := [CallFetch, Resolve(pages[0])];
      var m2 := Run(cfg, platform, m, first);
      var m1 := Step(cfg, platform, m, CallFetch);
      assert first[0] == CallFetch && first[1..] == [Resolve(pages[0])];
      assert m2 == Run(cfg, platform, m1, [Resolve(pages[0])]);
      var one := [Resolve(pages[0])];
      assert one[0] == Resolve(pages[0]) && one[1..] == [];
      assert Run(cfg, platform, m1, one) == Run(cfg, platform, Step(cfg, platform, m1, one[0]), one[1..]);
      assert m2 == Step(cfg, platform, m1, Resolve(pages[0]));
      assert FetchEach(pages) == first + FetchEach(pages[1..]);
      assert AllEdges(pages) == pages[0].edges + AllEdges(pages[1..]);
      RunAppend(cfg, platform, m, [CallFetch, Resolve(pages[0])], FetchEach(pages[1..]));
      PagesAccumulate(cfg, platform, m2, pages[1..]);
    }
  }

  /** Each query sent asks for a full page of the configured asset type
      and continues from the cursor the machine held when it was sent. */
  lemma SentQueryShape(cfg: Config, platform: Platform, m: Machine, e: Event)
    requires e == CallFetch || e == EndReached
    ensures var r := Step(cfg, platform, m, e);
      && (r.sent != m.sent ==> r.sent == m.sent + [BuildFetchParams(cfg, m.s.lastCursor, platform)])
      && (r.sent != m.sent <==> !m.s.loadingMore && (e == EndReached ==> !m.s.noMore))
  {
  }

  // ---------------------------------------------------------------------
  // Scenarios

  const A := Edge(AssetNode(Image("a", 1, 1), "Camera"))
  const B := Edge(AssetNode(Image("b", 1, 1), "Camera"))
  const C := Edge(AssetNode(Image("c", 1, 1), "Camera"))

  /** Two pages, [A, B] with more to come and [C] as the last: the second
      query continues from the first page's cursor; once the last page is
      in, reaching the end of the list sends nothing, while a direct
      `fetch()` still sends a query. */
  lemma ScenarioPaging()
    ensures var cfg := DefaultConfig;
      var p1 := Page([A, B], PageInfo(true, Some("c1")));
      var p2 := Page([C], PageInfo(false, None));
      var m1 := Step(cfg, Ios, Start(cfg), CallFetch);
      var m2 := Step(cfg, Ios, m1, Resolve(p1));
      var m3 := Step(cfg, Ios, m2, EndReached);
      var m4 := Step(cfg, Ios, m3, Resolve(p2));
      var m5 := Step(cfg, Ios, m4, EndReached);
      && m1.sent == [FetchParams(PageSize, Some(SavedPhotos), Photos, None)]
      && m3.sent == m1.sent + [FetchParams(PageSize, Some(SavedPhotos), Photos, Some("c1"))]
      && m4.s.images == [A, B, C] && m4.s.noMore && !m4.s.loadingMore
      && m5 == m4
      && |Step(cfg, Ios, m4, CallFetch).sent| == 3
  {
  }

  /** Multi-select with `maximum` 2: the third distinct tap is refused,
      `callbackMaximum` fires and the selection stays as it was. */
  lemma ScenarioMaximum()
    ensures var cfg := DefaultConfig.(maximum := 2);
      var loaded := Step(cfg, Ios, Step(cfg, Ios, Start(cfg), CallFetch), Resolve(Page([A, B, C], PageInfo(false, None))));
      var m1 := Step(cfg, Ios, loaded, Tap(0));
      var m2 := Step(cfg, Ios, m1, Tap(1));
      var m3 := Step(cfg, Ios, m2, Tap(2));
      && m2.s.selected == [0, 1]
      && m3.s == m2.s
      && m3.calls == m2.calls + [MaximumReached, SelectionChanged([A.node.image, B.node.image], C.node.image)]
  {
    var cfg := DefaultConfig.(maximum := 2);
    var loaded := Step(cfg, Ios, Step(cfg, Ios, Start(cfg), CallFetch), Resolve(Page([A, B, C], PageInfo(false, None))));
    assert loaded.s.images == [A, B, C] && loaded.s.selected == [] && loaded.s.selectedImages == [];
    var m1 := Step(cfg, Ios, loaded, Tap(0));
    assert m1.s.selected == [0] && m1.s.selectedImages == [A.node.image];
    var m2 := Step(cfg, Ios, m1, Tap(1));
    assert m2.s.selected == [0, 1] && m2.s.selectedImages == [A.node.image, B.node.image];
    SelectMultiEffect(m2.s, cfg, 2, C.node.image);
  }

  /** Single-select mode: the second tap replaces the selected index, but
      the first image stays in `selectedImages`, which is what `callback`
      receives. */
  lemma ScenarioSingle()
    ensures var cfg := DefaultConfig.(selectSingleItem := true);
      var loaded := Step(cfg, Ios, Step(cfg, Ios, Start(cfg), CallFetch), Resolve(Page([A, B], PageInfo(false, None))));
      var m1 := Step(cfg, Ios, loaded, Tap(0));
      var m2 := Step(cfg, Ios, m1, Tap(1));
      && m1.s.selected == [0]
      && m2.s.selected == [1]
      && m2.s.selectedImages == [A.node.image, B.node.image]
      && m2.calls == m1.calls + [SelectionChanged([A.node.image, B.node.image], B.node.image)]
  {
  }

  /** A caller-supplied initial selection lands in `selectedImages` only:
      the two arrays differ in length from the start. */
  lemma ScenarioInitialSelection()
    ensures var x := Image("x", 1, 1);
      var cfg := DefaultConfig.(selected := [x]);
      var loaded := Step(cfg, Ios, Step(cfg, Ios, Start(cfg), CallFetch), Resolve(Page([A], PageInfo(false, None))));
      var m := Step(cfg, Ios, loaded, Tap(0));
      && m.s.selected == [0] && m.s.selectedImages == [x, A.node.image]
  {
  }
}
