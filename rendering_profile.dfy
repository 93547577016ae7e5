/**
 * The watermark state of the rendering-profile view-model: whether a
 * watermark is enabled, which file is selected, and the list of watermark
 * files offered by the server, with the continuations that run when the
 * server answers a list, delete or upload request.
 */
module RenderingProfile {
  import opened Wrappers
  import opened Watermark
  import opened JsArrays
  import JsCoercion

  /** The profile fields that are copied from the constructor's values and not touched again. */
  datatype ProfileSettings = ProfileSettings(
    guid: string,
    name: string,
    description: string,
    enabled: bool,
    fpsCalculationType: string,
    runLengthSeconds: real,
    fps: real,
    maxFps: real,
    minFps: real,
    outputFormat: string,
    syncWithTimelapse: bool,
    bitrate: string,
    flipH: bool,
    flipV: bool,
    rotate90: bool,
    postRollSeconds: real,
    preRollSeconds: real,
    outputTemplate: string)

  /** The values object the view-model is built from. */
  datatype ProfileValues = ProfileValues(
    settings: ProfileSettings,
    enableWatermark: bool,
    selectedWatermark: string)

  /** The server's answer to `GET rendering/watermark`. */
  datatype ListResult = Listed(filepaths: seq<string>) | ListFailed

  /** The server's answer to `POST rendering/watermark/delete`. */
  datatype DeleteResult = Deleted | DeleteFailed

  /** How a handler ends: normally, or by throwing a TypeError (reading `filepath` of `undefined`). */
  datatype Outcome = Completed | TypeError

  /** The text of the placeholder entry shown when the list cannot be loaded. */
  const ListFailedMessage: string := "Failed to load watermarks from Octolapse data directory."

  /** The file paths of a list of watermark images, in order. */
  function Filepaths(list: seq<WatermarkImage>): (paths: seq<string>)
    ensures |paths| == |list|
  {
    seq(|list|, i requires 0 <= i < |list| => list[i].filepath)
  }

  /** A list of images is determined by its file paths. */
  lemma FilepathsInjective(a: seq<WatermarkImage>, b: seq<WatermarkImage>)
    requires Filepaths(a) == Filepaths(b)
    ensures a == b
  {
    assert |a| == |Filepaths(a)| && |b| == |Filepaths(b)|;
    forall i | 0 <= i < |a| ensures a[i] == b[i] {
      assert a[i].filepath == Filepaths(a)[i] == Filepaths(b)[i] == b[i].filepath;
    }
  }

  /** The watermark list after a refresh has received `response`. */
  function RefreshedList(response: ListResult): (list: seq<WatermarkImage>)
    ensures response.Listed? ==> Filepaths(list) == response.filepaths
    ensures response.ListFailed? ==> |list| == 1 && list[0].filepath == ListFailedMessage
  {
    match response
    case Listed(paths) => seq(|paths|, i requires 0 <= i < |paths| => WatermarkImage(paths[i]))
    case ListFailed => [WatermarkImage(ListFailedMessage)]
  }

  /** `k` is the position of the first entry of `list` whose filename is `name`. */
  predicate IsFirstMatch(list: seq<WatermarkImage>, name: string, k: int)
  {
    0 <= k < |list| && list[k].GetFilename() == name &&
    forall j :: 0 <= j < k ==> list[j].GetFilename() != name
  }

  /** No entry of `list` has the filename `name`. */
  predicate NoMatch(list: seq<WatermarkImage>, name: string)
  {
    forall i :: 0 <= i < |list| ==> list[i].GetFilename() != name
  }

  class RenderingProfileViewModel {
    const profileTypeName: string
    const settings: ProfileSettings
    var enableWatermark: bool
    /** Full path of the selected watermark file. */
    var selectedWatermark: string
    /** The watermark files available on the server. */
    var watermarkList: seq<WatermarkImage>

    constructor (values: ProfileValues)
      ensures profileTypeName == "Render" && settings == values.settings
      ensures enableWatermark == values.enableWatermark && selectedWatermark == values.selectedWatermark
      ensures watermarkList == []
    {
      profileTypeName := "Render";
      settings := values.settings;
      enableWatermark := values.enableWatermark;
      selectedWatermark := values.selectedWatermark;
      watermarkList := [];
    }

    /**
     * `selectWatermark(image)`. Without an image the selection is first
     * cleared, but the code goes on to enable watermarking and then throws
     * when it reads the path of the missing image.
     */
    method SelectWatermark(image: Option<WatermarkImage>) returns (outcome: Outcome)
      modifies this
      ensures outcome == if image.None? then TypeError else Completed
      ensures enableWatermark
      ensures selectedWatermark == if image.Some? then image.value.filepath else ""
      ensures watermarkList == old(watermarkList)
    {
      if image.None? {
        enableWatermark := false;
        selectedWatermark := "";
      }
      enableWatermark := true;
      if image.None? {
        return TypeError;
      }
      selectedWatermark := image.value.filepath;
      outcome := Completed;
    }

    /** The success handler of the list request: clear the list, then push one image per returned path. */
    method OnListLoaded(filepaths: seq<string>)
      modifies this
      ensures Filepaths(watermarkList) == filepaths
      ensures enableWatermark == old(enableWatermark)
      ensures selectedWatermark == old(selectedWatermark)
    {
      watermarkList := [];
      for i := 0 to |filepaths|
        invariant |watermarkList| == i
        invariant forall k :: 0 <= k < i ==> watermarkList[k].filepath == filepaths[k]
        invariant enableWatermark == old(enableWatermark)
        invariant selectedWatermark == old(selectedWatermark)
      {
        watermarkList := watermarkList + [WatermarkImage(filepaths[i])];
      }
    }

    /** The failure handler of the list request: the list becomes the single placeholder entry. */
    method OnListFailed()
      modifies this
      ensures watermarkList == [WatermarkImage(ListFailedMessage)]
      ensures enableWatermark == old(enableWatermark)
      ensures selectedWatermark == old(selectedWatermark)
    {
      watermarkList := [];
      watermarkList := watermarkList + [WatermarkImage(ListFailedMessage)];
    }

    /** `updateWatermarkList()` once the server has answered with `response`. */
    method UpdateWatermarkList(response: ListResult)
      modifies this
      ensures watermarkList == RefreshedList(response)
      ensures enableWatermark == old(enableWatermark)
      ensures selectedWatermark == old(selectedWatermark)
    {
      match response
      case Listed(paths) =>
        OnListLoaded(paths);
        FilepathsInjective(watermarkList, RefreshedList(response));
      case ListFailed =>
        OnListFailed();
    }

    /**
     * The handlers of the delete request for `image`. After a successful
     * delete of the selected file, the no-argument `selectWatermark` throws
     * before the list refresh is issued; otherwise the refresh is issued
     * and `listing` is the server's answer to it.
     */
    method OnDeleteResponse(image: WatermarkImage, response: DeleteResult, listing: ListResult)
      returns (outcome: Outcome)
      modifies this
      ensures response.DeleteFailed? ==>
        outcome == Completed && enableWatermark == old(enableWatermark) &&
        selectedWatermark == old(selectedWatermark) && watermarkList == old(watermarkList)
      ensures response.Deleted? && old(selectedWatermark) == image.filepath ==>
        outcome == TypeError && enableWatermark && selectedWatermark == "" &&
        watermarkList == old(watermarkList)
      ensures response.Deleted? && old(selectedWatermark) != image.filepath ==>
        outcome == Completed && enableWatermark == old(enableWatermark) &&
        selectedWatermark == old(selectedWatermark) && watermarkList == RefreshedList(listing)
    {
      if response.DeleteFailed? {
        // Only logged to the console.
        return Completed;
      }
      if selectedWatermark == image.filepath {
        outcome := SelectWatermark(None);
        if outcome == TypeError {
          return;
        }
      }
      UpdateWatermarkList(listing);
      outcome := Completed;
    }

    /**
     * The step after an upload named `name` completed and the list was
     * refreshed: select the first entry whose filename is `name`, if any.
     */
    method SelectUploaded(name: string) returns (outcome: Outcome)
      modifies this
      ensures outcome == Completed
      ensures watermarkList == old(watermarkList)
      ensures NoMatch(watermarkList, name) ==>
        enableWatermark == old(enableWatermark) && selectedWatermark == old(selectedWatermark)
      ensures forall k :: IsFirstMatch(watermarkList, name, k) ==>
        enableWatermark && selectedWatermark == watermarkList[k].filepath
    {
      var named := (w: WatermarkImage) => w.GetFilename() == name;
      var matching := Filter(watermarkList, named);
      FilterEmpty(watermarkList, named);
      if |matching| == 0 {
        // Only logged to the console.
        return Completed;
      }
      if JsCoercion.ArrayGreaterThan(matching, 1) {
        // Only a console warning; the check is never true (JsCoercion.ArrayNeverGreaterThan).
      }
      ghost var list := watermarkList;
      outcome := SelectWatermark(Some(matching[0]));
      forall k | IsFirstMatch(list, name, k) ensures matching[0] == list[k] {
        FilterFirst(list, named, k);
      }
    }

    /**
     * The upload `done` handler: the list is refreshed with `listing`, and the
     * find-and-select step runs after either refresh handler.
     */
    method OnUploadDone(name: string, listing: ListResult) returns (outcome: Outcome)
      modifies this
      ensures outcome == Completed
      ensures watermarkList == RefreshedList(listing)
      ensures NoMatch(watermarkList, name) ==>
        enableWatermark == old(enableWatermark) && selectedWatermark == old(selectedWatermark)
      ensures forall k :: IsFirstMatch(watermarkList, name, k) ==>
        enableWatermark && selectedWatermark == watermarkList[k].filepath
    {
      UpdateWatermarkList(listing);
      outcome := SelectUploaded(name);
    }
  }
}
