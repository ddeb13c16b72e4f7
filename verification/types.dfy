/** Values that the camera-roll picker receives from its caller and from the
    platform photo library: configuration props, assets, pages and the query
    it sends. */
module PickerTypes {

  datatype Option<T> = None | Some(value: T)

  /** The platform the component runs on; only the Android/other split
      matters to the picker. */
  datatype Platform = Ios | Android

  /** The `groupTypes` prop (one of the seven values its prop type lists). */
  datatype GroupTypes = Album | All | Event | Faces | Library | PhotoStream | SavedPhotos

  /** The `assetType` prop. */
  datatype AssetType = Photos | Videos | AllAssets

  /** `node.image` of an asset, and also what the picker hands to its
      selection callback. Only `uri` is inspected. */
  datatype Image = Image(uri: string, width: nat, height: nat)

  /** `node` of an asset edge. */
  datatype AssetNode = AssetNode(image: Image, groupName: string)

  /** One entry of `edges` in a page returned by the photo query. */
  datatype Edge = Edge(node: AssetNode)

  /** `page_info` of a returned page; `end_cursor` may be missing. */
  datatype PageInfo = PageInfo(hasNextPage: bool, endCursor: Option<string>)

  /** A page returned by the photo query. */
  datatype Page = Page(edges: seq<Edge>, pageInfo: PageInfo)

  /** The query object the picker hands to the photo library. A field that
      the source deletes or never sets is `None`. */
  datatype FetchParams = FetchParams(
    first: int,
    groupTypes: Option<GroupTypes>,
    assetType: AssetType,
    after: Option<string>)

  /** The props the controller logic reads. */
  datatype Config = Config(
    maximum: int,
    selectSingleItem: bool,
    selected: seq<Image>,
    assetType: AssetType,
    groupTypes: GroupTypes)

  /** The props' defaults. */
  const DefaultConfig := Config(15, false, [], Photos, SavedPhotos)

  /** Number of assets asked for per query. */
  const PageSize := 1000

  /** Calls the picker makes to its caller's callbacks:
      `callbackMaximum()` and `callback(selectedImages, image)`. */
  datatype Notification =
    | MaximumReached
    | SelectionChanged(selectedImages: seq<Image>, image: Image)

  /** JavaScript truthiness of the stored cursor: null, undefined and the
      empty string are falsy. */
  predicate Truthy(cursor: Option<string>)
    ensures !Truthy(cursor) <==> cursor == None || cursor == Some("")
  {
    cursor.Some? && cursor.value != ""
  }
}
