# Camera roll picker: paging and selection controller

This project models the controller inside the `CameraRollPicker` React Native
component. The component pages through the device photo library and keeps a
selection of photos. The model covers:

- its seven state fields (`images`, `selectedImages`, `selected`,
  `lastCursor`, `initialLoading`, `loadingMore`, `noMore`);
- the load guard `fetch`, the end-of-list handler `_onEndReached` and the
  query that `_fetch` builds;
- the page handler `_appendImages`;
- the selection toggle `_selectImage`;
- the row chunker `_nEveryRow`.

Layout:

- `types.dfy` (module `PickerTypes`): props, assets, pages, the query and the
  callbacks.
- `jsarray.dfy` (module `JsArray`): JavaScript `indexOf` and `splice` over
  sequences. Splice follows ECMAScript 2015 section 22.1.3.25, including a
  negative start and an `undefined` delete count (which counts as 0).
- `picker_spec.dfy` (module `PickerSpec`): the state as a value, and each
  handler as a step function from the old state to the new one. It also
  holds the lemmas that tie the `indexOf`/`splice` mechanics to those
  functions, and the selection invariant.
- `picker.dfy` (module `CameraRollPicker`): class `Picker`. Its fields are
  the component state, and its methods update them in place as the source
  does. Each handler is proved to follow its step function and to keep the
  invariant.
- `rows.dfy` (module `Rows`): `_nEveryRow` as a method with loops.
- `session.dfy` (module `Session`): whole sessions, as sequences of events
  (fetch calls, end of list, the query resolving or rejecting, taps). It
  proves properties that span many events, plus concrete scenarios.

Behaviour as the code has it. The model follows the code on each point:

- `fetch()` checks only `loadingMore`. Only `_onEndReached` checks `noMore`,
  so a direct `fetch()` after the last page still sends a query.
- When a query is rejected, the error is only logged. `loadingMore` stays
  raised, so no later `fetch` sends anything.
- `selectedImages` starts as the caller's `selected` prop, while `selected`
  (the indices) starts empty. The two arrays are therefore not in
  lock-step. What the code does guarantee is that there are never more
  indices than images.
- In single-select mode, `selected` is emptied before the new index is
  added. The `selectedImages.splice(0, indexInSelectedImages)` call receives
  a hoisted variable that is still `undefined`, so it removes nothing.
- Deselecting removes the first selected image with the asset's `uri`.
  When no image matches, the lookup gives -1 and `splice(-1, 1)` removes
  the last image instead.
- There is no reload or scope change, no request generation and no
  first-page event. An empty page with no cursor does not by itself end
  paging: only `has_next_page` sets `noMore`.

## Model

| member | source | states |
|---|---|---|
| `PickerSpec.Initial` | index.js:21-29 | the initial state: no images, no indices, `selectedImages` equal to the `selected` prop, no cursor, `initialLoading` raised, `loadingMore` and `noMore` lowered |
| `CameraRollPicker.Picker.constructor` | index.js:18-30 | the fields start as `Initial` says, and the selection invariant holds |
| `PickerSpec.BuildFetchParams` | index.js:78-94 | the query always asks for 1000 assets of the configured `assetType`; it carries `after` exactly when the stored cursor is truthy, and then `after` is that cursor; `groupTypes` is absent exactly on Android and otherwise is the configured one |
| `CameraRollPicker.Picker.Fetch` | index.js:70-76 | while `loadingMore` is raised, no query is sent and nothing changes; otherwise `loadingMore` is raised, nothing else changes, and exactly one query goes out, built from the current cursor |
| `CameraRollPicker.Picker.OnEndReached` | index.js:218-222 | once `noMore` is set, no query is sent and nothing changes; otherwise it behaves as `fetch` |
| `PickerSpec.AppendStep` | index.js:102-119 | after a page, `images` is the old images followed by the page's assets in order (unchanged for an empty page); the cursor becomes `end_cursor` only for a non-empty page; `noMore` becomes `old noMore or not has_next_page`, so it never goes back to false; both loading flags are lowered; the selection is untouched |
| `CameraRollPicker.Picker.AppendImages` | index.js:102-119 | the fields change exactly as `AppendStep` says, and the invariant is kept |
| `PickerTypes.Truthy` | index.js:92 | a stored cursor is falsy exactly when it is absent (`null`/`undefined`) or the empty string |
| `PickerSpec.FetchStep` | index.js:70-76 | a query goes out exactly when `loadingMore` was lowered, and it is the one built from the stored cursor; afterwards `loadingMore` is raised and no other field changes |
| `PickerSpec.EndReachedStep` | index.js:218-222 | a query goes out exactly when neither `noMore` nor `loadingMore` was set, built from the stored cursor; with `noMore` set nothing changes; only `loadingMore` can change |
| `PickerSpec.DropImageFor` | index.js:239-242 | deselecting removes exactly one entry from a non-empty `selectedImages` (none from an empty one), every remaining entry was there before, and when no image has the asset's `uri` what remains is a prefix of the old array |
| `PickerSpec.ToggleStep` | index.js:224-263 | a toggle changes only `selected` and `selectedImages`; it makes one or two callbacks, the last being `callback` with the new `selectedImages`; two callbacks means `callbackMaximum` came first and `selectedImages` is unchanged |
| `JsArray.IndexOf` | index.js:233 | `indexOf` gives -1 exactly when the value is absent, and otherwise the position of its first occurrence |
| `JsArray.Splice` | index.js:236-246 | `splice(k, 1)` at an in-range `k` removes exactly position `k`; `splice(-1, 1)` removes the last element of a non-empty array and nothing from an empty one; `splice(0, n)` with `n` at least the length empties the array; a delete count of 0 or less removes nothing; in general the number removed is the clamped delete count |
| `PickerSpec.RemoveFirstIsCut` | index.js:236 | removing the first occurrence of a value is cutting the sequence at its `indexOf` |
| `PickerSpec.RemoveFirstUriIsCut` | index.js:239-242 | removing the first image with a `uri` is cutting at that `uri`'s `indexOf` in the list of `uri`s |
| `PickerSpec.SpliceAtIndexOf` | index.js:233-236 | `selected.splice(selected.indexOf(index), 1)` removes the first occurrence of a selected index |
| `PickerSpec.SpliceAtUriIndex` | index.js:239-242 | `selectedImages.splice(uris.indexOf(uri), 1)` removes the first image with that `uri`, or the last image when none has it |
| `PickerSpec.DeselectEffect` | index.js:233-242 | toggling a selected index removes exactly its first occurrence from `selected` and keeps the rest in order; it removes the first image with the asset's `uri` from `selectedImages`, or the last image when none matches; an empty `selectedImages` stays empty; nothing else changes; `callback` fires once with the new `selectedImages` |
| `PickerSpec.SelectMultiEffect` | index.js:243-262 | toggling an unselected index in multi-select mode: with fewer than `maximum` selected, the index and the image are appended, nothing else changes, and `callback` fires with the longer `selectedImages`; otherwise the state is unchanged, `callbackMaximum` fires, then `callback` with the unchanged `selectedImages` |
| `PickerSpec.SelectSingleEffect` | index.js:243-262 | toggling an unselected index in single-select mode: `selected` becomes just that index (empty, with `callbackMaximum`, when `maximum` is below 1); no entry leaves `selectedImages`, which gains the image after the earlier ones when `maximum` is at least 1 and is otherwise unchanged; nothing else changes; `callback` fires last |
| `CameraRollPicker.Picker.SelectImage` | index.js:224-263 | the `indexOf`/`splice`/`push` edits leave exactly the state and the callbacks that `ToggleStep` defines, and the invariant is kept |
| `CameraRollPicker.Picker.Deselect` | index.js:233-242 | the deselect branch: splicing at the positions `indexOf` gives leaves `selected` without the first occurrence of the index and `selectedImages` as `DropImageFor` says (first image with the asset's `uri`, or the last image); the other fields are untouched |
| `CameraRollPicker.Picker.Select` | index.js:243-254 | the select branch: single-select mode empties `selected` and keeps `selectedImages`; with fewer than `maximum` selected the index and image are pushed and no callback is made yet, otherwise nothing more changes and `callbackMaximum` fires |
| `PickerSpec.InitialSatisfiesInv` | index.js:21-29 | the initial state satisfies the selection invariant: distinct in-range indices, no more indices than images, at most `maximum` indices, at most one in single mode |
| `PickerSpec.DeselectKeepsInv` | index.js:233-242 | deselecting keeps the selection invariant |
| `PickerSpec.SelectKeepsInv` | index.js:243-254 | selecting a new index keeps the selection invariant |
| `PickerSpec.ToggleKeepsInv` | index.js:224-263 | every toggle keeps the selection invariant |
| `PickerSpec.AppendKeepsInv` | index.js:102-119 | applying a page keeps the selection invariant |
| `Rows.NEveryRow` | index.js:265-285 | for `n >= 1`, every row has exactly `n` cells; there are `|data| / n` rows rounded up (none for empty data); read in order, the rows give `data` followed by fewer than `n` nulls |
| `Rows.FullRowAt` | index.js:270 | the test `i % n === 0` fires exactly when the row being filled is full |
| `Rows.PadWithNulls` | index.js:277-281 | the padding loop leaves the row followed by exactly enough nulls to hold `n` cells |
| `Session.Step` | index.js:70-263 | one event only extends `images`, the queries sent and the callbacks made; `noMore` never goes back to false; at most one query is sent, and a sent query is counted as unanswered with `loadingMore` raised; the unanswered count drops by one only when a query settles; only a tap changes `selected` or `selectedImages` or makes callbacks |
| `Session.StepKeepsInv` | index.js:70-119 | each event keeps the session invariant: at most one query outstanding, `loadingMore` raised while one is, and the selection invariant |
| `Session.RunKeepsInv` | index.js:70-119 | any sequence of events keeps the session invariant |
| `Session.AtMostOneQuery` | index.js:70-76 | in every reachable state, at most one query is unanswered, and `loadingMore` is raised while one is |
| `Session.SelectionBounds` | index.js:224-263 | in every reachable state, the selected indices are distinct and point at loaded images; there are at most `maximum` of them (at most one in single mode); there are never more of them than selected images |
| `Session.RunOnlyExtends` | index.js:102-119 | across any events, `images`, the queries sent and the callbacks made are only extended, and `noMore` never goes back to false |
| `Session.RejectLeavesLoadingMore` | index.js:96-99 | the rejection of the outstanding query changes no state field and leaves `loadingMore` raised with nothing outstanding |
| `Session.RejectionWedges` | index.js:96-99 | from that state, no later event sends a query, and the images, cursor, `noMore` and `initialLoading` never change, so a rejected first query leaves the loader shown for good (index.js:136) |
| `Session.PagesAccumulate` | index.js:113-116 | fetching and receiving pages one after another sends one query per page, and `images` ends as the old images followed by every page's assets in order |
| `Session.SentQueryShape` | index.js:70-94 | a `fetch` or end-of-list event sends a query exactly when `loadingMore` is lowered (and, for end of list, `noMore` is false), whether or not a query is outstanding; that query is built from the cursor held at that moment |
| `Session.ScenarioPaging` | index.js:218-222 | pages [A, B] (more to come, cursor c1) and then [C] (last): the second query carries `after = c1`; `images` ends as [A, B, C] with `noMore` set; a later end-of-list event does nothing, while a direct `fetch()` still sends a query |
| `Session.ScenarioMaximum` | index.js:248-254 | with `maximum` 2, the third distinct tap leaves the selection as it was, fires `callbackMaximum`, and then fires `callback` with the two selected images |
| `Session.ScenarioSingle` | index.js:244-250 | in single mode, a second tap replaces the selected index, but the first image stays in `selectedImages` |
| `Session.ScenarioInitialSelection` | index.js:23-24 | an image from the `selected` prop stays in `selectedImages` next to the tapped image, while `selected` holds only the tapped index |

## Left out

- Rendering is not modelled: `render`, `_renderImage`, `_renderFooterSpinner`, the styles and `ImageItem.js`, which only computes a floating-point thumbnail size.
- The permission flow (`componentWillMount`, `_requestPermission`) is not modelled. It consists of platform permission promises and alert dialogs; a granted permission is just a `fetch()` call, which is the `CallFetch` event.
- `CameraRoll.getPhotos` is a foreign asynchronous call and is not modelled. `Picker.Fetch` returns the query it would be given. The query's result is the `Page` argument of `AppendImages`, and its settling is the `Resolve`/`Reject` event of `Session`. The rejection handler's `console.log` is not modelled.
- `setState` is treated as an immediate assignment, and its completion callback as running straight after. React may batch updates, so two `fetch()` calls in one batch could both pass the guard; that is not modelled.
- Aliasing is not modelled. `selectedImages` is the caller's `selected` prop array, updated in place, and `callback` receives that same array. The model works on sequence values. In particular, a picker mounted without a `selected` prop starts from the one shared default array (index.js:353) and pushes into it, so a later instance starts with the earlier instances' selections; `Initial` with an empty `selected` describes only the first such mount. `Picker.Deselect` computes both spliced arrays and then stores them together, as the closing `setState` does; the in-place edits before it are not observable in the model.
- Session.SelectionBounds: the props (`maximum`, `selectSingleItem`, `groupTypes`, `assetType`) are read from `this.props` on every call, but the model fixes them when the component is constructed and assumes they stay constant. The bounds on `selected` (at most `maximum`, at most one in single-select mode) depend on that: a parent that lowers `maximum` or switches on single-select mode later can leave more indices selected than the new props allow.
- The `callback` and `callbackMaximum` props are assumed to be set, as their defaults are. A caller that passes a falsy callback turns that call off; that case is not modelled.
- `maximum` is modelled as an integer; a fractional `maximum` is not modelled. `groupTypes` and `assetType` are limited to the values their prop types list.
- The props read only by rendering (`imagesPerRow`, `imageMargin`, `pageSize`, `initialListSize`, `emptyText`, `loader`, `ratio` and the rest) are not modelled.
- CameraRollPicker.Picker.SelectImage: requires `index` to be the position of a loaded image, as the list's `renderItem` always supplies. An out-of-range index would throw a `TypeError` in the deselect branch; that is not modelled.
- Rows.NEveryRow: requires `n >= 1`. With `n == 0` and non-empty data, the source's padding loop never ends.
