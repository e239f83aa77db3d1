# Compliance evidence form — a Dafny model

This project models the evidence-submission tool of the compliance center. On the client
(`web/src/App.tsx`) the user fills in three application fields, picks a spreadsheet and
keeps an ordered list of evidence items. Each item has a category, a screenshot source, an
optional attachment type and a list of images. A derived gate, `requiredMissing`, decides
whether the form may be submitted. Submitting sends three requests one after another and
stops at the first one that fails:

1. the spreadsheet upload (the code skips it when there is no file, but a form without a
   spreadsheet never gets past the gate, so on every submission that is sent this upload
   happens: `Submission.SubmittablePlanUploadsSpreadsheet`);
2. a single upload of every image, named `evidence_<idx>_<j>_<name>`;
3. a JSON payload that gives each item's image count instead of its images.

On the server (`server/index.js`) four stateless handlers answer those requests and serve
a fixed CSV template.

Modules:

- `Wrappers`: `Option`, for JavaScript's `null` / `undefined`.
- `Decimal`: how a template literal writes a natural number (`${idx}`, `${Date.now()}`), and
  the parse that reads it back.
- `Json`: the JSON values a handler reads, JavaScript truthiness, and `x?.key`.
- `EvidenceForm`: the form state, `requiredMissing`, and the whole-list replacements written
  with `map`, `filter` and spread. These are pure functions.
- `Submission`: naming and flattening the image upload, the payload, and `handleSubmit`. The
  nested `forEach` loops become a method with nested `while` loops. `handleSubmit` becomes a
  method whose ordered request log, notice and next state equal `SubmitSpec`.
- `Server`: the handlers with Express and multer stripped away.
- `Integration`: what the server's handlers receive from each client request, and what the
  two sides prove together.

The model has these interfaces to the outside:

- The network is a parameter `respond: Request -> bool`. A request answers true when axios
  resolves, that is on a 2xx status. It answers false when axios throws.
- The clock reading behind `Date.now()` is a parameter `now: nat`.
- A browser `File` is reduced to its `name` and its `size`.
- The page reload after a successful submit is a reset to `Initial()`.
- The two `alert`s are the outcomes `Succeeded` and `Failed`.

The submit button is disabled while `requiredMissing` holds, and `handleSubmit` checks the
gate again and returns at once (`web/src/App.tsx:77`). The model follows the code and sends
nothing in that case (`Submission.SubmitBlocked`). Once a row has been added it cannot be
deleted: the source offers no way to remove a row, and the model keeps that restriction.

## Model

| member | source | states |
|---|---|---|
| `EvidenceForm.DefaultItem` | web/src/App.tsx:21-26 | the default item has category "BoKS Entitlements (AIMS)", an empty screenshot source, attachment type "" and no images |
| `EvidenceForm.Initial` | web/src/App.tsx:14-27 | the initial state is application CPLAT / COMMONS PLATFORM / C-306701, no spreadsheet and exactly one default item |
| `EvidenceForm.SomeMissingIff` | web/src/App.tsx:31-33 | the front-to-back `some` scan is true iff some position holds an item with an empty category, an empty source or no images |
| `EvidenceForm.RequiredMissingIff` | web/src/App.tsx:29-35 | `requiredMissing` holds iff the spreadsheet is absent or some item has an empty category, an empty source or zero images |
| `EvidenceForm.InitialIsMissing` | web/src/App.tsx:14-35 | the form as first shown cannot be submitted |
| `EvidenceForm.SetApplicationField` | web/src/App.tsx:110-122 | setting one application field replaces exactly that field and keeps the other two |
| `EvidenceForm.SetApplicationFieldKeepsGate` | web/src/App.tsx:29-35 | the application fields never change whether the form may be submitted |
| `EvidenceForm.ChooseSpreadsheet` | web/src/App.tsx:142 | the spreadsheet is the first chosen file, and absent when the input gives no file list or an empty one |
| `EvidenceForm.ClearedSpreadsheetBlocks` | web/src/App.tsx:142 | choosing no spreadsheet closes the submission gate |
| `EvidenceForm.MapFrom` | web/src/App.tsx:159-161 | the index-matching `map` keeps the length, applies the update exactly at the matching index and copies every other element |
| `EvidenceForm.MapAt` | web/src/App.tsx:159-161 | replacing the item at `idx` keeps the length and every other item, and changes nothing when `idx` is out of range |
| `EvidenceForm.WithField` | web/src/App.tsx:160 | the spread update sets the chosen field and keeps the other fields and the images |
| `EvidenceForm.UpdateField` | web/src/App.tsx:156-195 | a field edit changes only that field of item `idx`, keeps the length and all other items, and is a no-op for an out-of-range `idx` |
| `EvidenceForm.AppendImages` | web/src/App.tsx:202-205 | item `idx`'s images become the old images followed by the new files in order, with its other fields and all other items unchanged |
| `EvidenceForm.FilterFromKeeps` | web/src/App.tsx:219 | filtering out a position `i` that lies outside a slice starting at `start` keeps the slice as it is |
| `EvidenceForm.FilterFromDeletes` | web/src/App.tsx:219 | filtering out a position `i` inside a slice starting at `start` deletes exactly the element at `i`, keeping the others in order |
| `EvidenceForm.DropIndexDeletes` | web/src/App.tsx:219 | `filter((_, j) => j !== i)` gives the list minus position `i`, one shorter and in the same order; an invalid `i` changes nothing |
| `EvidenceForm.RemoveImage` | web/src/App.tsx:215-222 | removing an image changes only item `idx`'s image list, and only by deleting position `i` |
| `EvidenceForm.RemoveImageDeletes` | web/src/App.tsx:215-222 | for a valid image, item `idx` keeps its text fields and loses exactly image `i`, the list is one shorter and the other items are unchanged |
| `EvidenceForm.AppendThenRemove` | web/src/App.tsx:202-222 | appending files and then removing position `k` gives the old images plus the files with position `k` deleted |
| `EvidenceForm.AddRow` | web/src/App.tsx:237-241 | adding a row keeps the existing items as a prefix and appends exactly one default item at the end |
| `EvidenceForm.AddRowBlocks` | web/src/App.tsx:237-241 | after a row is added the form cannot be submitted |
| `Decimal.Show` | web/src/App.tsx:68 | writing a number gives a non-empty run of digits with no leading zero |
| `Decimal.ParseShow` | web/src/App.tsx:68 | reading back a written number gives the number |
| `Decimal.ShowInjective` | web/src/App.tsx:68 | distinct numbers are written as distinct strings |
| `Submission.IndexOf` | web/src/App.tsx:68 | a helper of the name decoder, not code of the source: the search finds the first occurrence of a character, or reports that there is none |
| `Submission.EntryNameDecodes` | web/src/App.tsx:68 | an upload name `evidence_<idx>_<j>_<name>` reads back as exactly its item index, image position and file name |
| `Submission.EntryNameInjective` | web/src/App.tsx:68 | two image entries get the same upload name only when index, position and file name all agree |
| `Submission.ItemParts` | web/src/App.tsx:67-69 | an item contributes one part per image, in image order, each part being field `images` with the entry name for that position |
| `Submission.ImagePartsLength` | web/src/App.tsx:64-70 | the image upload has as many entries as there are images over all items |
| `Submission.ImagePartsAt` | web/src/App.tsx:66-69 | image `j` of item `idx` sits after all images of earlier items and the earlier images of its own item |
| `Submission.LocatePart` | web/src/App.tsx:66-69 | every entry of the image upload is some image `j` of some item `idx` |
| `Submission.PositionsDistinct` | web/src/App.tsx:66-69 | different (item, image) pairs occupy different positions of the upload |
| `Submission.ImageNamesUnique` | web/src/App.tsx:64-70 | no two entries of one image upload carry the same file name |
| `Submission.BuildImageParts` | web/src/App.tsx:64-70 | the nested loops build exactly the flattened, named upload list |
| `Submission.Summaries` | web/src/App.tsx:83-88 | the payload has one element per item, in order, with the three text fields copied and `imagesCount` equal to the item's image count |
| `Submission.PayloadCountsMatchUpload` | web/src/App.tsx:64-88 | the payload's `imagesCount` fields add up to the number of entries in the image upload |
| `Submission.SummaryJsonFields` | web/src/App.tsx:83-88 | an `evidence` element is an object holding exactly the category, screenshot source and image count, plus the attachment type exactly when there is one (`JSON.stringify` drops `undefined`) |
| `Submission.PayloadJson` | web/src/App.tsx:81-89 | the JSON body has an object `application` and an array `evidence` with one element per item |
| `Submission.PayloadJsonFields` | web/src/App.tsx:81-89 | the body's `application` is `{name, area, centerId}` and its `evidence` elements are the summaries' JSON, in order |
| `Submission.PayloadJsonCarriesForm` | web/src/App.tsx:81-90 | the body sent to `/api/submit` carries the form's application name, area and center id, and for each item in order its category, screenshot source, image count and attachment type, present exactly when the item has one |
| `Submission.Plan` | web/src/App.tsx:76-90 | the full request order is spreadsheet upload (only with a file), then the image upload, then the submit with the payload |
| `Submission.SubmittablePlanUploadsSpreadsheet` | web/src/App.tsx:55-62 | a form that passes the gate always has a spreadsheet, so its plan is three requests starting with the spreadsheet upload; the skip at line 56 is never taken after the gate |
| `Submission.RunCons` | web/src/App.tsx:78-95 | the first request is sent, and the remaining ones only when it succeeded |
| `Submission.Run` | web/src/App.tsx:78-95 | the requests sent are a prefix of the plan, all but the last one succeeded, and the run succeeds iff every planned request does, in which case all were sent |
| `Submission.SubmitSpecSteps` | web/src/App.tsx:76-95 | a submittable form sends the spreadsheet, then the images, then the submit, each only when the previous one succeeded; it fails at the first failure and is reset when all three succeed |
| `Submission.HandleSubmit` | web/src/App.tsx:76-95 | the submit routine's request log, outcome and next form state are those of `SubmitSpec` |
| `Submission.SubmitBlocked` | web/src/App.tsx:77 | while `requiredMissing` holds, submit sends nothing and keeps the form |
| `Submission.SubmitSteps` | web/src/App.tsx:76-95 | a submittable form sends a prefix of the plan; success means every request succeeded, all were sent and the form was reset; failure means the last request sent failed, nothing after it was sent and the form was kept |
| `Submission.SubmitOrder` | web/src/App.tsx:79-90 | the spreadsheet upload is sent first when there is a file and never otherwise, and the submit directly follows the image upload |
| `Server.UploadExcel` | server/index.js:34-40 | answers 400 iff no file is attached, and otherwise answers exactly the file's size and original name |
| `Server.TotalBytesCons` | server/index.js:46 | the byte total of a list with one more file at the front grows by that file's size |
| `Server.TotalBytesAppend` | server/index.js:46 | the byte total of two lists joined is the sum of their totals |
| `Server.SizeFoldIsTotal` | server/index.js:46 | the `reduce` that starts from `acc` gives `acc` plus the sum of the file sizes |
| `Server.SummariseImages` | server/index.js:43-46 | `count` is the number of received files and `totalBytes` their total size; with no file list both are 0 |
| `Server.UploadImages` | server/index.js:43-47 | the handler always answers 200 with `count`, the number of received files, and `totalBytes`, their total size, and no other field |
| `Server.SubmissionIdShape` | server/index.js:57 | the submission id is `EV-` followed by a non-empty run of digits that reads back as the clock value |
| `Server.Submit` | server/index.js:50-58 | answers 400 with "Invalid payload" and no id iff `application` or `evidence` is missing or falsy, and otherwise answers "accepted" with id `EV-<now>` |
| `Server.SubmitEmptyObjectRefused` | server/index.js:50-55 | the body `{}` is refused with 400 and the refusal has no `id` |
| `Server.SubmitEmptySectionsAccepted` | server/index.js:50-57 | `{"application":{},"evidence":[]}` is accepted with an `EV-` id |
| `Server.FirstLine` | server/index.js:25-28 | a helper for stating the template's shape, not code of the source (which splits nothing): the first line is the longest newline-free prefix of the text |
| `Server.FirstLineOf` | server/index.js:25-28 | a helper for stating the template's shape: the first line of a newline-free line followed by a newline and more text is that line |
| `Server.LinesOfTerminated` | server/index.js:25-28 | a helper for stating the template's shape: splitting newline-terminated lines gives back exactly those lines |
| `Server.TemplateShape` | server/index.js:25-28 | the template is exactly three newline-terminated lines, and the first is `User,Role,Repository,Permission,Notes` |
| `Integration.WrongFieldRefused` | server/index.js:34-42 | a spreadsheet sent under a field other than `excel`, or an image upload with a part outside `images`, is refused by multer with a non-200 answer |
| `Integration.ImagePartsUnderImages` | web/src/App.tsx:66-69 | every part of the client's image upload is appended under the field `images`, which the image endpoint accepts |
| `Integration.ExcelEchoed` | server/index.js:34-40 | the spreadsheet the client uploads is answered with 200, its size and its name |
| `Integration.PayloadAccepted` | server/index.js:50-57 | every payload the client builds passes the server's presence check and is accepted |
| `Integration.ItemBytesReceived` | server/index.js:46 | the server's byte total for one item's parts equals the size of that item's images |
| `Integration.ImageBytesReceived` | server/index.js:46 | the server's byte total for the whole image upload equals the size of all images of all items |
| `Integration.ImagesReply` | server/index.js:42-47 | the image reply counts every image of every item, equal to the sum of the payload's `imagesCount`s, and totals their sizes |
| `Integration.SubmitSucceedsAgainstServer` | web/src/App.tsx:76-95 | talking to the server as modelled over a network that loses nothing, a submittable form sends the whole plan, succeeds and is reset |

## Left out

- Rendering, JSX layout, CSS, and the `useState` / `useMemo` mechanics are left out. They are UI, not logic. The model recomputes `requiredMissing` from the state it is given.
- `web/src/components/FileDropzone.tsx` and `web/src/components/Section.tsx` are not part of this model. The dropzone's only logic is that a null file list calls nothing. The section component only presents.
- `handleDownloadTemplate` (Blob, `createObjectURL`, a temporary link) is left out as browser I/O. The template text itself is modelled as `Server.Template`.
- `axios`, `FormData`, multipart encoding and the `Content-Type` headers are left out. Requests are abstract values in an ordered log, and the network is the `respond` parameter.
- `async` / `await` scheduling is left out. The three steps are sequential. A second click while a submission is in flight is not modelled.
- `alert` and `window.location.reload` are modelled only as the outcome of `HandleSubmit` and the reset to `Initial()`.
- The `/health` endpoint is left out. It returns a constant and takes no part in the workflow.
- Express routing, `cors`, `morgan`, the 10 MB limit of `express.json` and its parse errors, multer's memory storage, and `app.listen` are left out. They are middleware and bootstrapping.
- Integration.SubmitSucceedsAgainstServer: it does not model multer's 20-file limit on `/api/upload-images`, nor the 10 MB body limit of `express.json` on `/api/submit`. The real server rejects an image upload with more than 20 files and a submit body larger than 10 MB. The lemma's claim of success therefore matches the real system only when the form holds at most 20 images in total and the JSON payload stays under 10 MB.
- `Date.now()` is replaced by the parameter `now`. File sizes, counts, indices and the clock are unbounded naturals, where JavaScript numbers are doubles; they agree for integers below 2^53.
- Server.Submit: a JSON number in a request body is an integer in the model (`Json.JNum(n: int)`). A fractional number such as `0.5` cannot be written, so the presence check (truthy unless `0`) is modelled for integer-valued bodies only.
- Server.UploadImages: `upload.array("images", 20)` makes multer reject a request with more than 20 image files before the handler runs. The model covers the handler only, so its "always 200" holds for at most 20 files.
- Multipart file names: multer's decoding of the multipart file name (busboy's handling of its encoding) is not modelled. The received `originalname` is taken to be exactly the name the client sent.
- File contents are left out. A file is its name and byte size.
- The category `<select>` offers three values, but the modelled setter accepts any string, like the state setter it calls.
