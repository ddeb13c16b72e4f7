/** The `CameraRollPicker` component's controller: its state fields, updated
    in place by the paging and selection handlers. Each handler is proved to
    follow the matching step function of module PickerSpec. */
module CameraRollPicker {
  import opened PickerTypes
  import opened JsArray
  import opened PickerSpec

  class Picker {
    /** The props the handlers read. */
    const config: Config

    var images: seq<Edge>
    var selectedImages: seq<Image>
    var selected: seq<nat>
    var lastCursor: Option<string>
    var initialLoading: bool
    var loadingMore: bool
    var noMore: bool

    /** The seven fields as one value. */
    function State(): PickerState
      reads this
    {
      PickerState(images, selectedImages, selected, lastCursor, initialLoading, loadingMore, noMore)
    }

    ghost predicate Valid()
      reads this
    {
      SelectionInv(config, State())
    }

    constructor (cfg: Config)
      ensures config == cfg && State() == Initial(cfg)
      ensures Valid()
    {
      config := cfg;
      images := [];
      selectedImages := cfg.selected;
      selected := [];
      lastCursor := None;
      initialLoading := true;
      loadingMore := false;
      noMore := false;
    }

    /** `fetch`, with `_fetch`'s query as the result: nothing happens while a
        request is in flight; otherwise `loadingMore` is raised and one query
        goes out, carrying the stored cursor. */
    method Fetch(platform: Platform) returns (request: Option<FetchParams>)
      requires Valid()
      modifies this
      ensures Valid()
      ensures FetchOutcome(State(), request) == FetchStep(old(State()), config, platform)
      ensures old(loadingMore) ==> request.None? && State() == old(State())
      ensures !old(loadingMore) ==>
        && State() == old(State()).(loadingMore := true)
        && request == Some(BuildFetchParams(config, lastCursor, platform))
    {
      if !loadingMore {
        loadingMore := true;
        request := Some(BuildFetchParams(config, lastCursor, platform));
      } else {
        request := None;
      }
    }

    /** `_onEndReached`: once the last page has arrived no query goes out. */
    method OnEndReached(platform: Platform) returns (request: Option<FetchParams>)
      requires Valid()
      modifies this
      ensures Valid()
      ensures FetchOutcome(State(), request) == EndReachedStep(old(State()), config, platform)
      ensures old(noMore) ==> request.None? && State() == old(State())
    {
      if !noMore {
        request := Fetch(platform);
      } else {
        request := None;
      }
    }

    /** `_appendImages`: the success handler of the photo query. */
    method AppendImages(data: Page)
      requires Valid()
      modifies this
      ensures Valid()
      ensures State() == AppendStep(old(State()), data)
      ensures images == old(images) + data.edges
      ensures noMore == (old(noMore) || !data.pageInfo.hasNextPage)
      ensures !loadingMore && !initialLoading
    {
      var assets := data.edges;
      loadingMore := false;
      initialLoading := false;
      if !data.pageInfo.hasNextPage {
        noMore := true;
      }
      if |assets| > 0 {
        lastCursor := data.pageInfo.endCursor;
        images := images + assets;
      }
      AppendKeepsInv(old(State()), config, data);
    }

    /** `_selectImage(image, index)`, with the callbacks it makes as the
        result: a selected index is deselected, any other one selected, and
        `callback` then fires with the new `selectedImages`. */
    method SelectImage(image: Image, index: nat) returns (notes: seq<Notification>)
      requires Valid() && index < |images|
      modifies this
      ensures Valid()
      ensures ToggleOutcome(State(), notes) == ToggleStep(old(State()), config, index, image)
    {
      var indexInSelected := IndexOf(selected, index);
      if indexInSelected >= 0 {
        Deselect(index, indexInSelected);
        notes := [];
      } else {
        notes := Select(image, index);
      }
      notes := notes + [SelectionChanged(selectedImages, image)];
      ToggleKeepsInv(old(State()), config, index, image);
    }

    /** The deselect branch of `_selectImage`: both arrays are spliced at
        the positions `indexOf` gives, which removes the index and the
        first image with the asset's `uri` (the last image when none has
        it). */
    method Deselect(index: nat, indexInSelected: int)
      requires index < |images| && indexInSelected == IndexOf(selected, index) && indexInSelected >= 0
      modifies this
      ensures images == old(images) && lastCursor == old(lastCursor)
      ensures selected == RemoveFirst(old(selected), index)
      ensures selectedImages == DropImageFor(old(selectedImages), images[index].node.image.uri)
      ensures initialLoading == old(initialLoading) && loadingMore == old(loadingMore) && noMore == old(noMore)
    {
      SpliceAtIndexOf(selected, index);
      var remaining := Splice(selected, indexInSelected, 1);
      var uri := images[index].node.image.uri;
      var indexInSelectedImages := IndexOf(Uris(selectedImages), uri);
      SpliceAtUriIndex(selectedImages, uri);
      var remainingImages := Splice(selectedImages, indexInSelectedImages, 1);
      selected, selectedImages := remaining, remainingImages;
    }

    /** The select branch of `_selectImage`, up to the final `callback`:
        single-select mode first empties `selected`; then the index and the
        image are pushed if fewer than `maximum` are selected, and
        otherwise `callbackMaximum` fires. */
    method Select(image: Image, index: nat) returns (notes: seq<Notification>)
      modifies this
      ensures var kept := if config.selectSingleItem then [] else old(selected);
        if |kept| < config.maximum then
          State() == old(State()).(selected := kept + [index], selectedImages := old(selectedImages) + [image]) && notes == []
        else
          State() == old(State()).(selected := kept) && notes == [MaximumReached]
    {
      if config.selectSingleItem {
        selected := Splice(selected, 0, |selected|);
        // The delete count here is a hoisted variable that is still
        // undefined, which splice converts to 0: nothing is removed.
        selectedImages := Splice(selectedImages, 0, 0);
      }
      if |selected| < config.maximum {
        selected := selected + [index];
        selectedImages := selectedImages + [image];
        notes := [];
      } else {
        notes := [MaximumReached];
      }
    }
  }
}
