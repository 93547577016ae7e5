# Octolapse rendering profile: watermark model

This project models the watermark logic of Octolapse's rendering-profile
view-model (`octoprint_octolapse/static/js/octolapse.profiles.rendering.js`),
the browser-side editor for the settings that turn timelapse frames into a video.

- `Watermark.WatermarkImage` is a watermark file known by its full server path.
  `GetFilename` is the source's `filepath.split('\\').pop().split('/').pop()`,
  built from a model of JavaScript's one-character `split` (`PathSegments.Split`)
  and of `pop`. It is proved equal to two independent descriptions:
  the last segment of the path (a suffix with no separator, preceded by a
  separator or equal to the whole path), and the text after
  `LastIndexOfAny(path, {'/', '\\'})`.
- `RenderingProfile.RenderingProfileViewModel` is a class holding the watermark
  state: `enableWatermark`, `selectedWatermark` and `watermarkList`. The other
  profile fields are one `ProfileSettings` record, copied by the constructor
  and never changed again. Its methods are the source's `selectWatermark` and
  the continuations that run when the server answers a list, delete or upload
  request. Each server answer (`ListResult`, `DeleteResult`) is a parameter,
  and so is the uploaded file's name.
- `selectWatermark()` without an image is modelled as written. It clears the
  selection, falls through and sets `enableWatermark` to true, then reads
  `filepath` of `undefined`. That read throws a `TypeError`, modelled as
  `Outcome.TypeError`. So after deleting the selected watermark, the delete
  handler ends with `enableWatermark == true`, `selectedWatermark == ""` and the
  list left as it was: the refresh at line 85 is never reached. The comment at
  line 81 and the `if` at line 69 suggest the intent was to clear the selection
  and then refresh; this model follows what the code does.
- `JsCoercion` models how JavaScript evaluates `matchingWatermarks > 1`, which
  compares an array of objects with a number. The array becomes
  `"[object Object],…"` and then `NaN`, or becomes `""` and then `0`. The
  lemma `ArrayNeverGreaterThan` shows the check is never true.
- The upload `done` handler chains its find-and-select step on the promise
  returned by `updateWatermarkList()`, which is a jQuery Deferred. The model
  assumes Promises/A+ `then` semantics, which jQuery follows from version 3.0.
  Under them the refresh's failure handler returns normally and so resolves the
  chained promise. The step then runs after a failed refresh too, against the
  placeholder list. `OnUploadDone` models this. The jQuery version loaded by
  the host page is not part of this model.

## Model

| member | source | states |
|---|---|---|
| PathSegments.Split | octoprint_octolapse/static/js/octolapse.profiles.rendering.js:33 | `split` on one separator gives at least one piece; no piece holds the separator; there is exactly one piece iff the string has no separator |
| PathSegments.JoinSplit | octoprint_octolapse/static/js/octolapse.profiles.rendering.js:33 | joining the pieces of a split with the separator gives back the string |
| PathSegments.LastOfSplit | octoprint_octolapse/static/js/octolapse.profiles.rendering.js:33 | the piece `pop` takes after `split(sep)` is the last segment of the string with respect to `sep` |
| PathSegments.Last | octoprint_octolapse/static/js/octolapse.profiles.rendering.js:33 | `pop` on a non-empty array yields the element whose removal leaves the rest of the array |
| PathSegments.LastSegmentOfTail | octoprint_octolapse/static/js/octolapse.profiles.rendering.js:33 | a last segment of a string's tail is one of the string, unless it is the whole tail and the first character is no separator |
| PathSegments.LastPiece | octoprint_octolapse/static/js/octolapse.profiles.rendering.js:33 | `split(sep).pop()` is the last segment of the string with respect to `sep` |
| PathSegments.LastSegmentCompose | octoprint_octolapse/static/js/octolapse.profiles.rendering.js:33 | taking the last `\` segment and then its last `/` segment gives the last segment with respect to both separators |
| PathSegments.LastSegmentUnique | octoprint_octolapse/static/js/octolapse.profiles.rendering.js:30-34 | a string has at most one last segment |
| PathSegments.WholeIsLastSegment | octoprint_octolapse/static/js/octolapse.profiles.rendering.js:30-34 | a string without separators is its own last segment |
| PathSegments.LastIndexOfAny | octoprint_octolapse/static/js/octolapse.profiles.rendering.js:30-34 | reference definition: the index of the last separator (or -1): a separator sits there and none after it |
| PathSegments.AfterLastIndexIsLastSegment | octoprint_octolapse/static/js/octolapse.profiles.rendering.js:30-34 | the text after `LastIndexOfAny` is the last segment |
| Watermark.WatermarkImage.GetFilename | octoprint_octolapse/static/js/octolapse.profiles.rendering.js:31-34 | `getFilename` is a suffix of the path with no `/` or `\`, and is the whole path or follows a separator |
| Watermark.LastSegmentIsFilename | octoprint_octolapse/static/js/octolapse.profiles.rendering.js:31-34 | conversely, any string with that description is `getFilename`'s result |
| Watermark.FilenameAfterLastSeparator | octoprint_octolapse/static/js/octolapse.profiles.rendering.js:31-34 | `getFilename` is the text after the last `/` or `\` of the path |
| Watermark.FilenameWithoutSeparator | octoprint_octolapse/static/js/octolapse.profiles.rendering.js:33 | a path with neither separator, the empty path included, is returned whole |
| Watermark.FilenameIdempotent | octoprint_octolapse/static/js/octolapse.profiles.rendering.js:33 | the filename has no separator, is a suffix of the path, and applying `getFilename` to it returns it unchanged |
| JsArrays.Filter | octoprint_octolapse/static/js/octolapse.profiles.rendering.js:135 | `filter` keeps only elements the predicate accepts, each taken from the array, and is no longer than the array |
| JsArrays.FilterEmpty | octoprint_octolapse/static/js/octolapse.profiles.rendering.js:135-139 | the filter is empty iff the predicate accepts no element (for the upload: no entry's filename is the uploaded name) |
| JsArrays.FilterFirst | octoprint_octolapse/static/js/octolapse.profiles.rendering.js:135-143 | the filter's first element is the first accepted element in array order (for the upload: the first entry named like the upload) |
| JsCoercion.ArrayToString | octoprint_octolapse/static/js/octolapse.profiles.rendering.js:140 | an array of plain objects converts to the empty string iff it is empty, and otherwise to a string starting with `[` of length 16n-1 |
| JsCoercion.ToNumber | octoprint_octolapse/static/js/octolapse.profiles.rendering.js:140 | converting the array's string to a number gives 0 for the empty string and `NaN` for a string whose first character is not a digit |
| JsCoercion.ArrayGreaterThan | octoprint_octolapse/static/js/octolapse.profiles.rendering.js:140 | `array > k`: an empty array compares as 0 > k, and any other array of plain objects compares false |
| JsCoercion.ArrayNeverGreaterThan | octoprint_octolapse/static/js/octolapse.profiles.rendering.js:140-142 | `array > k` is false for every array of plain objects and every k ≥ 0, so the multiple-match warning never fires |
| RenderingProfile.FilepathsInjective | octoprint_octolapse/static/js/octolapse.profiles.rendering.js:100-101 | a list of watermark images is determined by its file paths |
| RenderingProfile.RefreshedList | octoprint_octolapse/static/js/octolapse.profiles.rendering.js:98-106 | after a successful listing the file paths are exactly the returned ones in order; after a failure the list is the one placeholder entry with the fixed message |
| RenderingProfile.RenderingProfileViewModel.constructor | octoprint_octolapse/static/js/octolapse.profiles.rendering.js:37-60 | every field is taken from the values object, the type name is "Render", and the watermark list starts empty |
| RenderingProfile.RenderingProfileViewModel.SelectWatermark | octoprint_octolapse/static/js/octolapse.profiles.rendering.js:68-75 | with an image: watermark enabled and its path selected; without one: watermark enabled, selection "" and a TypeError; the list and other fields never change |
| RenderingProfile.RenderingProfileViewModel.OnListLoaded | octoprint_octolapse/static/js/octolapse.profiles.rendering.js:98-102 | the list's file paths become exactly the returned ones, in order; the old entries are gone and the selection is untouched |
| RenderingProfile.RenderingProfileViewModel.OnListFailed | octoprint_octolapse/static/js/octolapse.profiles.rendering.js:103-106 | the list becomes the single placeholder entry; the selection is untouched |
| RenderingProfile.RenderingProfileViewModel.UpdateWatermarkList | octoprint_octolapse/static/js/octolapse.profiles.rendering.js:95-108 | the list becomes `RefreshedList(response)` and nothing else changes |
| RenderingProfile.RenderingProfileViewModel.OnDeleteResponse | octoprint_octolapse/static/js/octolapse.profiles.rendering.js:77-92 | a failed delete changes nothing; deleting the selected path ends in a TypeError with watermark enabled, selection "" and no refresh; deleting another path keeps the selection and refreshes the list |
| RenderingProfile.RenderingProfileViewModel.SelectUploaded | octoprint_octolapse/static/js/octolapse.profiles.rendering.js:133-144 | no entry named like the upload: selection unchanged; otherwise the first such entry in list order is selected; the list is untouched |
| RenderingProfile.RenderingProfileViewModel.OnUploadDone | octoprint_octolapse/static/js/octolapse.profiles.rendering.js:130-145 | the list becomes `RefreshedList(listing)`, whether the refresh succeeded or failed, and then the first entry named like the upload, if any, is selected |

## Left out

- Network calls (`OctoPrint.postJson`, `OctoPrint.get`, `getBlueprintUrl`, request headers): only their results appear, as method parameters.
- Asynchronous ordering: each handler runs to completion with its server answer given. A refresh issued from a handler is applied at once with the answer passed in. Overlapping requests and answers arriving out of order are not modelled.
- A list response without a `filepaths` array (a malformed server answer) is not modelled; `Listed` always carries the paths.
- `onShow` only issues the list request (modelled by `UpdateWatermarkList`) and wires the upload widget, so it has no member of its own.
- The `fileupload` widget's configuration, chunking, progress percentage (floating-point arithmetic) and the progress-bar text and animation are foreign-library calls and UI.
- `data.files[0].name` is taken as given: the uploaded name is a parameter.
- `RenderingProfileValidationRules` is declarative configuration read by an external validation library, with checks defined elsewhere or on the server.
- Knockout observable notifications: the transient `false` written to `enable_watermark` at line 70 is overwritten at line 73 and only visible to subscribers, which are not modelled.
- `console.log` output and `event.stopPropagation()`.
- RenderingProfile.RenderingProfileViewModel.OnUploadDone: the outcome under jQuery 1.8 to 2.x is not modelled. There `then` rejects the chained promise after the refresh's failure handler, so nothing is selected after a failed refresh and the selection stays as it was.
- JsCoercion.ToNumber: only the empty string, plain decimal digits and strings that cannot be numbers are distinguished. Blanks, signs, fractions, exponents, hexadecimal and `Infinity` are not modelled; the strings an array of objects converts to never use them.
