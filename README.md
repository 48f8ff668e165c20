# Chub card downloader: a verified model of its download rules

The Chub card downloader is a small desktop tool. The user types a card name and presses a button. The tool then:

1. searches the Chub API for the card;
2. writes an HTML report about the card;
3. downloads the card image and the card's gallery images;
4. optionally zips the card folder and deletes the loose files.

This project models the rules behind that button in Dafny and proves properties about them. It covers `download_card` and `generate_html` in `chub_card_downloader.py`.

The project has six modules, one file each:

- `Wrappers` (`wrappers.dfy`): `Option`.
- `OrderedDict` (`ordered_dict.dfy`): a Python `dict` as an insertion-ordered sequence of pairs. Assigning a new key appends it. Assigning an existing key overwrites the value in place.
- `PyString` (`py_string.dfy`): the `str` methods the code calls, namely `strip()`, one-character `replace`, `title()`, `", ".join(...)` and `split('/')[-1]`.
- `TokenCounts` (`token_counts.dfy`): reading the `TOKEN_COUNTS` label.
  - `ExtractTokenCounts` is the scan, with its inner loop and its early `break`.
  - `CountsOf` and `Collect` are the functions it is proved against.
- `Report` (`report.dfy`): the report.
  - The report is a sequence of blocks: a header, one information item per field, an optional token-count list, and a footer.
  - `GenerateHtml` builds it with the same appending loops as the template string.
  - `Report.Report` is the function it is proved against.
- `Download` (`download.dfy`): one press of the download button.
  - `DownloadCard` and its helper methods return the effects, in order: messages, requests with their headers, folder and file writes, archive steps and removals.
  - Every such method is proved equal to a trace function, and the properties are proved as lemmas about those functions.
  - The network replies, the file listing of the card folder and the markdown renderer are inputs.
  - An exception that nothing catches becomes the step `Crash`.

## Model

| member | source | states |
|---|---|---|
| PyString.Strip | chub_card_downloader.py:122 | `strip()` returns the slice between the leading and trailing white space. The slice starts and ends with a non-space character. |
| PyString.StripEmptyIff | chub_card_downloader.py:127 | A name strips to `""` exactly when it is all white space. |
| PyString.StripIdempotent | chub_card_downloader.py:122 | Stripping twice is stripping once. |
| PyString.Replace | chub_card_downloader.py:190 | A one-character `replace` changes exactly the target characters and keeps the length. |
| PyString.ReplaceRemovesTarget | chub_card_downloader.py:280 | After a `replace`, no target character is left, and a second pass changes nothing. |
| PyString.TitleFrom | chub_card_downloader.py:280 | Each character is upper-cased after an uncased character and lower-cased after a cased one. This is CPython's title loop. |
| PyString.Title | chub_card_downloader.py:280 | In every run of letters, the first letter is upper case and the rest are lower case. Every non-letter, digits included, is kept and ends a run. The length is unchanged. |
| PyString.TitleIdempotent | chub_card_downloader.py:280 | Title-casing a title-cased string changes nothing. |
| PyString.JoinItems | chub_card_downloader.py:294 | `sep.join(xs)` holds every item, in order, at its offset, and has exactly the length of the items plus the separators. |
| PyString.JoinSeparators | chub_card_downloader.py:294 | Exactly `sep` sits between every two neighbouring items. |
| PyString.Join | chub_card_downloader.py:294 | Reference definition of `sep.join(xs)`. `JoinItems` and `JoinSeparators` state its properties. |
| PyString.LastPart | chub_card_downloader.py:239 | `split(sep)[-1]` is the suffix after the last separator, or the whole string when there is none. It contains no separator. |
| PyString.LastPartOfJoin | chub_card_downloader.py:239 | `LastPart` recovers `part` from `prefix + part` when the prefix is empty or ends in the separator. |
| OrderedDict.Get | chub_card_downloader.py:281 | A lookup finds the value stored under the key, and finds nothing when the key is absent. |
| OrderedDict.Put | chub_card_downloader.py:281 | `d[k] = v` keeps keys unique. An existing key keeps its position and gets the new value. A new key is appended. |
| OrderedDict.GetPutSame | chub_card_downloader.py:281 | After `d[k] = v`, `d[k]` is `v`. |
| OrderedDict.GetPutOther | chub_card_downloader.py:281 | `d[k] = v` leaves every other key's value unchanged. |
| OrderedDict.PutKeys | chub_card_downloader.py:281 | After `d[k] = v`, the keys are the old keys plus `k`. |
| TokenCounts.HumaniseKey | chub_card_downloader.py:280 | The humanised key has the raw key's length. Every `_` becomes a space. Each letter keeps its identity, and it is upper case exactly when it starts a run of letters. Every other character is unchanged. |
| TokenCounts.HumaniseKeyIdempotent | chub_card_downloader.py:280 | Humanising an already humanised key changes nothing. |
| TokenCounts.Collect | chub_card_downloader.py:277-281 | The dict built from the entries has unique keys, and none of its values is zero. |
| TokenCounts.CollectHasKey | chub_card_downloader.py:277-281 | A display key is present exactly when some entry with a non-zero value and a key other than `total` humanises to it. |
| TokenCounts.CollectGet | chub_card_downloader.py:281 | The value under a key comes from the last surviving entry that humanises to it. Later entries overwrite earlier ones. |
| TokenCounts.CollectInOrder | chub_card_downloader.py:277-281 | When no two survivors collide, the dict is exactly the surviving entries, humanised, in document order. |
| TokenCounts.CollectKeyOrder | chub_card_downloader.py:277-281 | For all entries, colliding ones included, the dict's keys in order are the display keys of the surviving entries with later repeats dropped. A key keeps the position where it first appeared. |
| TokenCounts.Kept | chub_card_downloader.py:278 | Reference definition of the filter: a non-zero value and a raw key other than `total`. `CollectHasKey` and `ExampleCounts` use it. |
| TokenCounts.ExtractTokenCounts | chub_card_downloader.py:271-284 | The label scan with its inner loop and its `break` computes `CountsOf(labels)`, with unique keys. |
| TokenCounts.CountsOf | chub_card_downloader.py:272-284 | Reference definition of the scan: the counts of the first `TOKEN_COUNTS` label that parses, or an empty dict. `ExtractTokenCounts` is proved equal to it, and `FirstDecisiveLabelWins`, `SkippedLabelIgnored` and `NoDecisiveLabelNoCounts` state its behaviour. |
| TokenCounts.SkippedLabelIgnored | chub_card_downloader.py:273-284 | These labels contribute nothing, and the scan goes on past them: a label with another title, and a `TOKEN_COUNTS` label whose JSON is invalid. |
| TokenCounts.FirstDecisiveLabelWins | chub_card_downloader.py:274-282 | The first `TOKEN_COUNTS` label that parses alone decides the counts. Later labels are never read. |
| TokenCounts.NoDecisiveLabelNoCounts | chub_card_downloader.py:272-284 | Without such a label, the dict stays empty. |
| TokenCounts.ExampleCounts | chub_card_downloader.py:277-281 | `{"total": 10, "foo_bar": 0, "baz": 5}` yields exactly `Baz → 5`. |
| Report.Fields | chub_card_downloader.py:287-304 | The sixteen labels of the table are pairwise distinct, so the dict literal keeps every row: sixteen rows, each label paired with its value, in declaration order. |
| Report.FieldValues | chub_card_downloader.py:287-304 | Each row shows its node key's value, or `''` when the key is missing. `Tags` shows the topics joined by `", "`. |
| Report.FieldValue | chub_card_downloader.py:288-303 | Reference definition of one row's value. `FieldValues` states it on the node's own data. |
| Report.InfoItems | chub_card_downloader.py:441-448 | Every information item has a caption outside `Name`, `Description` and `Avatar URL`. |
| Report.InfoItemsEntries | chub_card_downloader.py:441-448 | Items made from fields with no excluded label carry exactly those fields, in order. |
| Report.ExcludedLabels | chub_card_downloader.py:442 | Of the table's labels, only the first (`Name`) and the last (`Avatar URL`) are excluded. `Description` is not in the table. |
| Report.InfoList | chub_card_downloader.py:440-448 | The information list is the table without `Name` and `Avatar URL`: exactly fourteen items, in declaration order, and no token entry. |
| Report.AppendInfoItems | chub_card_downloader.py:440-448 | The loop over the field table appends exactly `InfoItems(fields)` to the document. |
| Report.TokenItems | chub_card_downloader.py:462-468 | There is one token item per dict entry, in insertion order, with that entry's key and count. |
| Report.TokenItemsEntries | chub_card_downloader.py:462-468 | The token items carry exactly the dict's entries and no information entry. |
| Report.AppendTokenSection | chub_card_downloader.py:455-472 | Appends the token-count list. The list is absent for an empty dict. Otherwise it has an opening, one item per entry and a closing. |
| Report.TokenSectionIff | chub_card_downloader.py:455-472 | The report has a token-count list exactly when some count survived extraction. |
| Report.TokenSectionEntries | chub_card_downloader.py:455-472 | The token-count list carries exactly the extracted dict, in order. |
| Report.TokenSection | chub_card_downloader.py:455-472 | Reference definition of the token-count list. `TokenSectionIff` and `TokenSectionEntries` state its properties. |
| Report.ReportHead | chub_card_downloader.py:428-453 | Reference definition of the report up to the end of the information list. `ReportHeadEntries` states its contents. |
| Report.Report | chub_card_downloader.py:306-481 | Reference definition of the whole report. `GenerateHtml` is proved equal to it, and `ReportEntries` and `TokenSectionIff` state its contents. |
| Report.ReportHeadEntries | chub_card_downloader.py:428-453 | Up to the end of the information list, the report carries the fourteen information entries and no token entry. |
| Report.ReportEntries | chub_card_downloader.py:440-472 | The whole report carries the fourteen information entries, then exactly the extracted token counts. |
| Report.GenerateHtml | chub_card_downloader.py:267-483 | Builds the document block by block and gives `Report(node, markdown(description))`: header, information list, token-count list, footer. |
| Download.RequestHeaders | chub_card_downloader.py:135-141 | The API headers have exactly the keys `accept` and `User-Agent`, plus `Authorization` exactly when the token is non-empty. They accept JSON and carry the client's user agent. The authorization value is `Bearer ` + token. |
| Download.DownloadHeaders | chub_card_downloader.py:207-210 | The download copy accepts `*/*` and sends `Content-Type: application/json`. Every other header, authorization included, is unchanged. |
| Download.SentAuthorization | chub_card_downloader.py:207-212 | Both header sets carry `Authorization` exactly when a token is set, then as `Bearer <token>`. Both carry the user agent. |
| Download.SentAccept | chub_card_downloader.py:207-210 | The search and gallery headers accept JSON. The download copy accepts anything and declares a JSON body. |
| Download.Classify | chub_card_downloader.py:164-177 | A missing count or 0 finds nothing, with the token hint exactly when no token is set. A count above 1 finds several cards. Any other count, 1 or negative, goes on with the first node. The cases are exclusive and cover every count. |
| Download.OneMatchIffSingle | chub_card_downloader.py:164-179 | For a non-negative count, the search proceeds exactly when the count is 1. |
| Download.DirName | chub_card_downloader.py:190 | The card folder is the card name with every space replaced by `_`. Other characters and the length are unchanged. |
| Download.DirNameFixedPoints | chub_card_downloader.py:190 | A name is its own folder name exactly when it has no space. Deriving the folder name twice changes nothing. |
| Download.GalleryFileName | chub_card_downloader.py:239 | An image's file name is the suffix of its URL after the last `/`. It contains no `/`. |
| Download.GalleryFileNameOfPath | chub_card_downloader.py:239 | The file name of `prefix/name` is `name` whenever `name` has no `/`. |
| Download.DownloadCard | chub_card_downloader.py:121-265 | The whole press of the button gives exactly `Trace`: validation, search, outcome, card, gallery and bundle. |
| Download.SaveCard | chub_card_downloader.py:185-222 | For the found card: make both folders, write the report, request the image, then continue. |
| Download.FetchCardImage | chub_card_downloader.py:199-222 | A failed card-image download ends the operation with its message. A successful one saves `<name>.png` and requests the gallery. |
| Download.FetchGallery | chub_card_downloader.py:224-249 | Covers the gallery request's failures and a missing `nodes` key. A count ≥ 1 loops over the images. Otherwise the operation shows "no gallery images" and goes on to the bundle step. |
| Download.SaveImages | chub_card_downloader.py:235-241 | The loop over gallery nodes computes `GalleryLoop(images)`. It returns early when a node lacks a path or its fetch raises. |
| Download.BundleFolder | chub_card_downloader.py:251-265 | The bundle step's two walks give exactly `Bundle`. |
| Download.Trace | chub_card_downloader.py:121-265 | Reference definition of one press of the button. `DownloadCard` is proved equal to it. `ValidationFirst`, `UnresolvedSearchStops`, `FilesOnlyForOneCard`, `ResolvedCardLayout`, `AuthorizationIffToken` and `ArchiveBeforeRemoval` state its properties. |
| Download.AfterSearch | chub_card_downloader.py:146-183 | Reference definition of what follows the search request. `AfterSearchResolved` and `AfterSearchShort` state its two shapes. |
| Download.Assemble | chub_card_downloader.py:185-265 | Reference definition of the steps for a found card. `SaveCard` is proved equal to it, and `ResolvedCardLayout` states its layout. |
| Download.CardSetup | chub_card_downloader.py:185-212 | Reference definition of the folders, the report file and the card-image request. `ResolvedCardLayout` states them in the trace. |
| Download.AfterPng | chub_card_downloader.py:212-228 | Reference definition of what follows the card-image request. `FetchCardImage` is proved equal to it. |
| Download.AfterGallery | chub_card_downloader.py:227-265 | Reference definition of the gallery branches and the bundle step. `FetchGallery` is proved equal to it. `EmptyGallerySkipsImages` and `GalleryFailureSkipsBundle` state its branches. |
| Download.GalleryLoop | chub_card_downloader.py:235-241 | Reference definition of the loop over gallery nodes. `SaveImages` is proved equal to it. `GalleryLoopCompletes`, `GalleryLoopFetches`, `GalleryLoopWrites` and `GalleryLoopSteps` state its properties. |
| Download.Bundle | chub_card_downloader.py:252-265 | Reference definition of the bundle step. `BundleFolder` is proved equal to it, and `BundleOrder` and `BundleDisciplined` state its properties. |
| Download.AfterSearchResolved | chub_card_downloader.py:179-183 | A resolved search continues with the first node. |
| Download.AfterSearchShort | chub_card_downloader.py:146-179 | Any other search outcome ends after one message or a crash. |
| Download.ValidationFirst | chub_card_downloader.py:122-133 | An empty stripped name or an unset output directory only warns. Nothing is sent. Otherwise the first step is the search for the stripped name with headers from the stripped token. |
| Download.UnresolvedSearchStops | chub_card_downloader.py:164-177 | A search with no card or several cards ends right after its message. The token hint is shown exactly when no token is set. |
| Download.FilesOnlyForOneCard | chub_card_downloader.py:164-192 | No step touches the file system unless the search count classifies as one match (1, or a negative count) and the first node exists and has the keys the download reads. |
| Download.ResolvedCardLayout | chub_card_downloader.py:185-228 | For a found card, the steps come in order: both folders, with the folder named `DirName(name)`; `<name>_info.html` with the card's report; the image request with the download headers; then `<name>.png` and the gallery request with the API headers, or a single failure message. |
| Download.AuthorizationIffToken | chub_card_downloader.py:135-141 | In every download, every request with headers carries `Authorization` exactly when the stripped token is non-empty, and then as `Bearer <token>`. |
| Download.ArchiveBeforeRemoval | chub_card_downloader.py:252-265 | The archive is closed before anything is removed. Every removed file was added to the archive first. With the "Folder" option, nothing is archived or removed. |
| Download.TraceDisciplined | chub_card_downloader.py:121-265 | Every download builds all its headers from the stripped token and keeps the archive discipline above. |
| Download.GalleryLoopSteps | chub_card_downloader.py:235-249 | The gallery loop only fetches images, writes images and reports the gallery error. |
| Download.BundleDisciplined | chub_card_downloader.py:252-265 | The bundle step keeps the rules every trace keeps: the archive is closed before any removal, every removed file was archived first, no request headers are sent, and any option other than "Zip" neither archives nor removes. |
| Download.BundleOrder | chub_card_downloader.py:252-265 | "Zip" first opens the archive on the card folder. It adds every listed file before the one `ZipClose` and removes each of them after it. It then removes the folder and reports success. Any other option only reports success. |
| Download.GalleryLoopCompletes | chub_card_downloader.py:234-249 | The gallery loop finishes exactly when every node has a path and every fetch returns. Otherwise its last step is the error message. |
| Download.GalleryLoopFinishes | chub_card_downloader.py:234-249 | The loop runs to its end exactly when every node has an image path and every fetch returns. |
| Download.GalleryLoopEndsInFailure | chub_card_downloader.py:234-249 | A loop that stops early ends with the error message about the gallery. |
| Download.GalleryLoopFetches | chub_card_downloader.py:234-249 | For every input, finished or not, the loop fetches the URLs of the nodes it got past, in order. If it stopped at a node whose fetch raised, that URL follows. |
| Download.GalleryLoopWrites | chub_card_downloader.py:234-249 | For every input, finished or not, the loop writes exactly the images among the nodes it got past that came back with status 200, in order, each under its URL's last segment. When the loop stops early, those files stay. |
| Download.GalleryFailureSkipsBundle | chub_card_downloader.py:234-249 | When the loop stops at a bad node, the download ends with the loop's steps. No bundle step follows, so nothing is archived or removed. |
| Download.EmptyGallerySkipsImages | chub_card_downloader.py:232-243 | A gallery count below 1, or a missing count, fetches and writes no image. The bundle step follows the notice. |

## Left out

- The Tk window, its widgets, the settings dialog and `config.ini` persistence: user interface and file I/O. The token and the form's values enter as `Settings`.
- HTTP requests: the replies are inputs. The URLs, query strings, the download payload and the text of every error message are not modelled. A message is identified by its kind, and an HTTP error by its status.
- `markdown.markdown` is a function parameter. `json.loads` is abstract: a label carries its parse result.
- `ExtractTokenCounts` models a parsed description as an object of integer counts or as invalid JSON. Other JSON values are not modelled. Valid JSON that is not an object makes `.items()` raise `AttributeError` inside the `try`, and it escapes because only `json.JSONDecodeError` is caught (line 283). Non-integer values are not representable. A label without a `description` is modelled through its parse result, which for the default `'{}'` is the empty object.
- `PyString.Title`: case exists only for ASCII letters. Python's `title()` also cases non-ASCII letters, and those are treated as uncased characters here.
- `Download.Classify` and the gallery count treat the count as an integer. A JSON count of another type is not modelled.
- The PIL decode and re-save of the card image is folded into one step, `SavePng`. A decoding failure is the `PngException` reply. The image bytes are not modelled.
- File-system failures (`makedirs`, `open`, `write`, `zipfile`, `os.remove`, `os.rmdir` raising) are not modelled. Each of these steps always succeeds in the model.
- The archive is modelled over a flat listing of the card folder. `os.walk` into sub-directories, `arcname` collisions and the `.zip` path are not modelled.
- Report markup, CSS and the page title are constant text and are not modelled. Values go into the document unescaped, and the model keeps them unescaped.
- `Crash` stands for an exception that escapes `download_card`. It is not told apart by kind. The modelled ones are:
  - an invalid search body (`response.json()` sits outside the `try`);
  - a missing `nodes` key or an empty node list;
  - a node without `id`, `fullPath`, `description` or `name`.

  Other uncaught exceptions are not modelled. These include a failing folder or report write at lines 187-197, which are outside any `try`, and the non-object `TOKEN_COUNTS` description and non-integer count noted above.
- A card whose `name` is not a string: the model's node keeps the text form of each value and goes on, while in the code `.replace` raises at line 190.

### Behaviour of the code worth knowing

- No general filename sanitiser exists. Only the folder name replaces spaces with `_` (line 190). `<name>_info.html` and `<name>.png` use the card's raw name (lines 196 and 216).
- The card image is decoded and re-saved through PIL (lines 215-216), so the file is re-encoded rather than a copy of the downloaded bytes.
- A gallery image with a status other than 200 is skipped (line 238). A node without `primary_image_path`, or an image fetch that raises, ends the whole operation with an error message (lines 247-249). The bundle step is then not reached, and the images saved so far stay in the folder.
- `download_card` runs directly as the button's command (line 540), with no background worker, so the model is one sequential trace.
