/** The picker's seven state fields as one value, and each operation of the
    controller as a function from the old state to the new one. The class in
    module CameraRollPicker is proved to follow these functions. */
module PickerSpec {
  import opened PickerTypes
  import opened JsArray

  /** The component state: loaded assets, the two selection arrays, the
      continuation cursor and the three loading flags. */
  datatype PickerState = PickerState(
    images: seq<Edge>,
    selectedImages: seq<Image>,
    selected: seq<nat>,
    lastCursor: Option<string>,
    initialLoading: bool,
    loadingMore: bool,
    noMore: bool)

  /** The state the constructor sets up: `selectedImages` is the caller's
      `selected` prop while `selected` (the indices) starts empty. */
  function Initial(cfg: Config): (s: PickerState)
    ensures s.images == [] && s.selected == [] && s.selectedImages == cfg.selected
    ensures s.lastCursor.None? && s.initialLoading && !s.loadingMore && !s.noMore
  {
    PickerState([], cfg.selected, [], None, true, false, false)
  }

  // ---------------------------------------------------------------------
  // Loading

  /** The query `_fetch` builds: it starts from all three fields, deletes
      `groupTypes` on Android and adds `after` when the cursor is truthy. */
  function BuildFetchParams(cfg: Config, lastCursor: Option<string>, platform: Platform): (p: FetchParams)
    ensures p.first == PageSize && p.assetType == cfg.assetType
    ensures p.after.Some? <==> Truthy(lastCursor)
    ensures p.after.Some? ==> p.after == lastCursor
    ensures p.groupTypes.None? <==> platform == Android
    ensures p.groupTypes.Some? ==> p.groupTypes.value == cfg.groupTypes
  {
    var base := FetchParams(PageSize, Some(cfg.groupTypes), cfg.assetType, None);
    var withoutGroups := if platform == Android then base.(groupTypes := None) else base;
    if Truthy(lastCursor) then withoutGroups.(after := lastCursor) else withoutGroups
  }

  /** What a call to `fetch` or `_onEndReached` leaves: the new state and
      the query sent to the photo library, if any. */
  datatype FetchOutcome = FetchOutcome(state: PickerState, request: Option<FetchParams>)

  /** `fetch`: only when no request is in flight does it raise
      `loadingMore` and send one query built from the current cursor. */
  function FetchStep(s: PickerState, cfg: Config, platform: Platform): (f: FetchOutcome)
    ensures f.request.Some? <==> !s.loadingMore
    ensures f.request.Some? ==> f.request.value == BuildFetchParams(cfg, s.lastCursor, platform)
    ensures f.state.loadingMore
    ensures f.state.(loadingMore := s.loadingMore) == s
  {
    if s.loadingMore then FetchOutcome(s, None)
    else
      var t := s.(loadingMore := true);
      FetchOutcome(t, Some(BuildFetchParams(cfg, t.lastCursor, platform)))
  }

  /** `_onEndReached`: fetches only while more pages remain. */
  function EndReachedStep(s: PickerState, cfg: Config, platform: Platform): (f: FetchOutcome)
    ensures f.request.Some? <==> !s.noMore && !s.loadingMore
    ensures f.request.Some? ==> f.request.value == BuildFetchParams(cfg, s.lastCursor, platform)
    ensures s.noMore ==> f.state == s
    ensures f.state.(loadingMore := s.loadingMore) == s
  {
    if s.noMore then FetchOutcome(s, None) else FetchStep(s, cfg, platform)
  }

  /** `_appendImages`: applies one returned page. */
  function AppendStep(s: PickerState, page: Page): (t: PickerState)
    ensures t.images == s.images + page.edges
    ensures t.lastCursor == if page.edges == [] then s.lastCursor else page.pageInfo.endCursor
    ensures t.noMore == (s.noMore || !page.pageInfo.hasNextPage)
    ensures !t.loadingMore && !t.initialLoading
    ensures t.selected == s.selected && t.selectedImages == s.selectedImages
  {
    var cleared := s.(loadingMore := false, initialLoading := false);
    var flagged := if !page.pageInfo.hasNextPage then cleared.(noMore := true) else cleared;
    if |page.edges| > 0 then
      flagged.(lastCursor := page.pageInfo.endCursor, images := s.images + page.edges)
    else
      assert s.images + page.edges == s.images;
      flagged
  }

  // ---------------------------------------------------------------------
  // Selection

  /** `s` without the first occurrence of `x`. */
  function RemoveFirst<T(==)>(s: seq<T>, x: T): seq<T>
  {
    if s == [] then []
    else if s[0] == x then s[1..]
    else [s[0]] + RemoveFirst(s[1..], x)
  }

  /** The `uri` of every image, in order. */
  function Uris(imgs: seq<Image>): (us: seq<string>)
    ensures |us| == |imgs|
    ensures forall k | 0 <= k < |imgs| :: us[k] == imgs[k].uri
  {
    seq(|imgs|, k requires 0 <= k < |imgs| => imgs[k].uri)
  }

  /** `imgs` without the first image whose `uri` is `uri`. */
  function RemoveFirstUri(imgs: seq<Image>, uri: string): seq<Image>
  {
    if imgs == [] then []
    else if imgs[0].uri == uri then imgs[1..]
    else [imgs[0]] + RemoveFirstUri(imgs[1..], uri)
  }

  /** What deselecting does to `selectedImages`: the first image with the
      deselected asset's `uri` goes; when there is none, the last image goes
      instead (a lookup that fails yields -1, and a splice at -1 takes the
      last element). */
  function DropImageFor(imgs: seq<Image>, uri: string): (r: seq<Image>)
    ensures |r| == if imgs == [] then 0 else |imgs| - 1
    ensures multiset(r) <= multiset(imgs)
    ensures uri !in Uris(imgs) ==> r <= imgs
  {
    if uri in Uris(imgs) then
      RemoveFirstUriIsCut(imgs, uri);
      CutShrinks(imgs, IndexOf(Uris(imgs), uri));
      RemoveFirstUri(imgs, uri)
    else if imgs == [] then []
    else
      CutShrinks(imgs, |imgs| - 1);
      assert imgs[|imgs|..] == [];
      imgs[..|imgs| - 1]
  }

  /** What a toggle leaves: the new state and the callbacks it made. */
  datatype ToggleOutcome = ToggleOutcome(state: PickerState, notes: seq<Notification>)

  /** `_selectImage(image, index)`. A selected index is deselected. An
      unselected one is added when fewer than `maximum` are selected, after
      single-select mode has dropped the selected indices (but not the
      selected images); otherwise `callbackMaximum` fires. `callback` fires
      in every case, with the new `selectedImages`. */
  function ToggleStep(s: PickerState, cfg: Config, index: nat, image: Image): (r: ToggleOutcome)
    requires index < |s.images|
    ensures r.state == s.(selected := r.state.selected, selectedImages := r.state.selectedImages)
    ensures 1 <= |r.notes| <= 2
    ensures r.notes[|r.notes| - 1] == SelectionChanged(r.state.selectedImages, image)
    ensures |r.notes| == 2 ==> r.notes[0] == MaximumReached && r.state.selectedImages == s.selectedImages
  {
    if index in s.selected then
      var imgs := DropImageFor(s.selectedImages, s.images[index].node.image.uri);
      ToggleOutcome(s.(selected := RemoveFirst(s.selected, index), selectedImages := imgs),
                    [SelectionChanged(imgs, image)])
    else
      var kept := if cfg.selectSingleItem then [] else s.selected;
      if |kept| < cfg.maximum then
        var imgs := s.selectedImages + [image];
        ToggleOutcome(s.(selected := kept + [index], selectedImages := imgs),
                      [SelectionChanged(imgs, image)])
      else
        ToggleOutcome(s.(selected := kept),
                      [MaximumReached, SelectionChanged(s.selectedImages, image)])
  }

  // ---------------------------------------------------------------------
  // The splice/indexOf mechanics agree with the definitions above

  /** Cutting the tail at `j` and putting the head back is cutting at `j + 1`. */
  lemma ConsCut<T>(s: seq<T>, j: nat)
    requires j + 1 < |s|
    ensures [s[0]] + (s[1..][..j] + s[1..][j + 1..]) == s[..j + 1] + s[j + 2..]
  {
    assert [s[0]] + s[1..][..j] == s[..j + 1];
    assert s[1..][j + 1..] == s[j + 2..];
  }

  /** Removing the first occurrence is cutting the sequence at `indexOf`. */
  lemma {:induction false} RemoveFirstIsCut<T>(s: seq<T>, x: T)
    requires x in s
    ensures RemoveFirst(s, x) == s[..IndexOf(s, x)] + s[IndexOf(s, x) + 1..]
  {
    if s[0] != x {
      var k := IndexOf(s, x);
      assert s[1..][k - 1] == x;
      RemoveFirstIsCut(s[1..], x);
      var j := IndexOf(s[1..], x);
      assert k == j + 1;
      ConsCut(s, j);
    }
  }

  /** Removing the first image with a `uri` is cutting at that `uri`'s
      `indexOf` in the `uri` list. */
  lemma {:induction false} RemoveFirstUriIsCut(imgs: seq<Image>, uri: string)
    requires uri in Uris(imgs)
    ensures RemoveFirstUri(imgs, uri) == imgs[..IndexOf(Uris(imgs), uri)] + imgs[IndexOf(Uris(imgs), uri) + 1..]
  {
    if imgs[0].uri != uri {
      var k := IndexOf(Uris(imgs), uri);
      assert Uris(imgs)[1..] == Uris(imgs[1..]);
      assert Uris(imgs[1..])[k - 1] == uri;
      RemoveFirstUriIsCut(imgs[1..], uri);
      var j := IndexOf(Uris(imgs[1..]), uri);
      assert k == j + 1;
      ConsCut(imgs, j);
    }
  }

  /** Cutting out one position leaves one element fewer, all from `s`. */
  lemma CutShrinks<T>(s: seq<T>, k: nat)
    requires k < |s|
    ensures |s[..k] + s[k + 1..]| == |s| - 1
    ensures multiset(s[..k] + s[k + 1..]) <= multiset(s)
  {
    assert s == s[..k] + [s[k]] + s[k + 1..];
  }

  /** `selected.splice(selected.indexOf(index), 1)` on a selected index. */
  lemma {:induction false} SpliceAtIndexOf(s: seq<nat>, x: nat)
    requires x in s
    ensures Splice(s, IndexOf(s, x), 1) == RemoveFirst(s, x)
  {
    RemoveFirstIsCut(s, x);
  }

  /** `selectedImages.splice(uris.indexOf(uri), 1)`, whether or not the
      lookup finds the `uri`. */
  lemma SpliceAtUriIndex(imgs: seq<Image>, uri: string)
    ensures Splice(imgs, IndexOf(Uris(imgs), uri), 1) == DropImageFor(imgs, uri)
  {
    if uri in Uris(imgs) {
      RemoveFirstUriIsCut(imgs, uri);
    }
  }

  // ---------------------------------------------------------------------
  // What a toggle promises

  predicate Distinct<T(==)>(s: seq<T>)
  {
    forall i, j | 0 <= i < j < |s| :: s[i] != s[j]
  }

  /** Deselecting removes exactly the first (for distinct indices, the
      only) occurrence of `index`, keeping the rest in order; it removes
      from `selectedImages` the first image with the asset's `uri`, or the
      last image when none matches; nothing else changes, and `callback`
      fires once. */
  lemma {:induction false} DeselectEffect(s: PickerState, cfg: Config, index: nat, image: Image)
    requires index < |s.images| && index in s.selected
    ensures var t := ToggleStep(s, cfg, index, image);
      var uri := s.images[index].node.image.uri;
      && (exists k | 0 <= k < |s.selected| ::
            s.selected[k] == index && index !in s.selected[..k] &&
            t.state.selected == s.selected[..k] + s.selected[k + 1..])
      && (uri !in Uris(s.selectedImages) && s.selectedImages != [] ==>
            t.state.selectedImages == s.selectedImages[..|s.selectedImages| - 1])
      && (s.selectedImages == [] ==> t.state.selectedImages == [])
      && (uri in Uris(s.selectedImages) ==>
            exists j | 0 <= j < |s.selectedImages| ::
              s.selectedImages[j].uri == uri && uri !in Uris(s.selectedImages[..j]) &&
              t.state.selectedImages == s.selectedImages[..j] + s.selectedImages[j + 1..])
      && t.state == s.(selected := t.state.selected, selectedImages := t.state.selectedImages)
      && t.notes == [SelectionChanged(t.state.selectedImages, image)]
  {
    var t := ToggleStep(s, cfg, index, image);
    var uri := s.images[index].node.image.uri;
    assert t.state.selected == RemoveFirst(s.selected, index);
    assert t.state.selectedImages == DropImageFor(s.selectedImages, uri);
    FirstOccurrenceCut(s.selected, index);
    if uri in Uris(s.selectedImages) {
      FirstUriCut(s.selectedImages, uri);
    }
  }

  /** The first occurrence of `x`, and what removing it leaves. */
  lemma FirstOccurrenceCut(s: seq<nat>, x: nat)
    requires x in s
    ensures exists k | 0 <= k < |s| ::
      s[k] == x && x !in s[..k] && RemoveFirst(s, x) == s[..k] + s[k + 1..]
  {
    var k := IndexOf(s, x);
    RemoveFirstIsCut(s, x);
    assert s[k] == x && x !in s[..k];
  }

  /** The first image with `uri`, and what dropping the image for `uri`
      leaves. */
  lemma FirstUriCut(imgs: seq<Image>, uri: string)
    requires uri in Uris(imgs)
    ensures exists j | 0 <= j < |imgs| ::
      imgs[j].uri == uri && uri !in Uris(imgs[..j]) && DropImageFor(imgs, uri) == imgs[..j] + imgs[j + 1..]
  {
    RemoveFirstUriIsCut(imgs, uri);
    var j := IndexOf(Uris(imgs), uri);
    assert Uris(imgs[..j]) == Uris(imgs)[..j];
    assert imgs[j].uri == uri;
  }

  /** Selecting an index that is not selected, in multi-select mode.
      With fewer than `maximum` selected, the index and the image are
      appended and `callback` fires with the longer `selectedImages`.
      Otherwise the state is unchanged, and `callbackMaximum` fires before
      `callback`. */
  lemma SelectMultiEffect(s: PickerState, cfg: Config, index: nat, image: Image)
    requires index < |s.images| && index !in s.selected && !cfg.selectSingleItem
    ensures var t := ToggleStep(s, cfg, index, image);
      && (|s.selected| < cfg.maximum ==>
            && t.state == s.(selected := s.selected + [index], selectedImages := s.selectedImages + [image])
            && t.notes == [SelectionChanged(s.selectedImages + [image], image)])
      && (|s.selected| >= cfg.maximum ==>
            && t.state == s
            && t.notes == [MaximumReached, SelectionChanged(s.selectedImages, image)])
  {
  }

  /** Selecting an index that is not selected, in single-select mode: the
      index ends up alone in `selected` (when `maximum` is positive; with
      no room at all `selected` ends empty and `callbackMaximum` fires),
      while no entry leaves `selectedImages`: the image is appended after
      the earlier ones. */
  lemma SelectSingleEffect(s: PickerState, cfg: Config, index: nat, image: Image)
    requires index < |s.images| && index !in s.selected && cfg.selectSingleItem
    ensures var t := ToggleStep(s, cfg, index, image);
      && t.state.selected == (if cfg.maximum >= 1 then [index] else [])
      && s.selectedImages <= t.state.selectedImages
      && t.state.selectedImages == (if cfg.maximum >= 1 then s.selectedImages + [image] else s.selectedImages)
      && t.state == s.(selected := t.state.selected, selectedImages := t.state.selectedImages)
      && t.notes == (if cfg.maximum >= 1 then [] else [MaximumReached])
                    + [SelectionChanged(t.state.selectedImages, image)]
  {
  }

  // ---------------------------------------------------------------------
  // Selection invariant

  /** What every reachable state satisfies about the selection: indices
      are distinct and point into `images`; there are never more indices
      than images (the two arrays are not in lock-step, but `selectedImages`
      only ever has extra entries); no more than `maximum` indices (none
      when `maximum` is not positive), and at most one in single mode. */
  predicate SelectionInv(cfg: Config, s: PickerState)
  {
    && Distinct(s.selected)
    && (forall k | 0 <= k < |s.selected| :: s.selected[k] < |s.images|)
    && |s.selected| <= |s.selectedImages|
    && (s.selected == [] || |s.selected| <= cfg.maximum)
    && (cfg.selectSingleItem ==> |s.selected| <= 1)
  }

  lemma InitialSatisfiesInv(cfg: Config)
    ensures SelectionInv(cfg, Initial(cfg))
  {
  }

  /** A cut sequence keeps distinctness and its elements come from the
      original. */
  lemma CutFacts(s: seq<nat>, k: nat)
    requires k < |s| && Distinct(s)
    ensures Distinct(s[..k] + s[k + 1..])
    ensures forall y | y in s[..k] + s[k + 1..] :: y in s
  {
  }

  /** Deselecting keeps the selection invariant. */
  lemma DeselectKeepsInv(s: PickerState, cfg: Config, index: nat, image: Image)
    requires SelectionInv(cfg, s) && index < |s.images| && index in s.selected
    ensures SelectionInv(cfg, ToggleStep(s, cfg, index, image).state)
  {
    var t := ToggleStep(s, cfg, index, image).state;
    var k := IndexOf(s.selected, index);
    RemoveFirstIsCut(s.selected, index);
    CutFacts(s.selected, k);
    assert t.selected == s.selected[..k] + s.selected[k + 1..];
    assert t.images == s.images;
    assert |t.selected| == |s.selected| - 1 && |t.selectedImages| == |s.selectedImages| - 1;
    forall m | 0 <= m < |t.selected| ensures t.selected[m] < |t.images| {
      assert t.selected[m] in s.selected;
    }
  }

  /** Selecting a new index keeps the selection invariant. */
  lemma SelectKeepsInv(s: PickerState, cfg: Config, index: nat, image: Image)
    requires SelectionInv(cfg, s) && index < |s.images| && index !in s.selected
    ensures SelectionInv(cfg, ToggleStep(s, cfg, index, image).state)
  {
  }

  /** Every toggle keeps the selection invariant. */
  lemma ToggleKeepsInv(s: PickerState, cfg: Config, index: nat, image: Image)
    requires SelectionInv(cfg, s) && index < |s.images|
    ensures SelectionInv(cfg, ToggleStep(s, cfg, index, image).state)
  {
    if index in s.selected {
      DeselectKeepsInv(s, cfg, index, image);
    } else {
      SelectKeepsInv(s, cfg, index, image);
    }
  }

  /** Loading never touches the selection, and only extends `images`. */
  lemma AppendKeepsInv(s: PickerState, cfg: Config, page: Page)
    requires SelectionInv(cfg, s)
    ensures SelectionInv(cfg, AppendStep(s, page))
  {
  }
}
