/**
 * The client's requests as the server's handlers see them. Multer turns each
 * multipart entry into a file with the entry's file name and the file's size;
 * axios resolves on a 2xx answer and throws otherwise.
 */
module Integration {
  import opened Wrappers
  import opened Json
  import opened EvidenceForm
  import opened Submission
  import Server

  function Received(p: Part): Server.UploadedFile {
    Server.UploadedFile(p.filename, p.file.size)
  }

  /** What multer hands the handler for a list of parts: one file per part, in order. */
  function ReceivedAll(parts: seq<Part>): seq<Server.UploadedFile> {
    seq(|parts|, i requires 0 <= i < |parts| => Received(parts[i]))
  }

  /**
   * Multer's `upload.single("excel")` / `upload.array("images", 20)` refuse a
   * file under any other field name ("Unexpected field"); Express then
   * answers with its default error status.
   */
  function UnexpectedField(): Server.Response {
    Server.Response(500, JStr("MulterError: Unexpected field"))
  }

  predicate AllUnder(ps: seq<Part>, field: string) {
    forall i :: 0 <= i < |ps| ==> ps[i].field == field
  }

  /** The server's answer to one client request; `now` is the clock reading at the server. */
  function Deliver(req: Request, now: nat): Server.Response {
    match req
    case ExcelUpload(p) =>
      if p.field == "excel" then Server.UploadExcel(Some(Received(p))) else UnexpectedField()
    case ImagesUpload(ps) =>
      if AllUnder(ps, "images") then Server.UploadImages(Some(ReceivedAll(ps))) else UnexpectedField()
    case SubmitPost(body) => Server.Submit(Some(body), now)
  }

  /** A file sent under the wrong field name is refused before any handler runs. */
  lemma WrongFieldRefused(p: Part, ps: seq<Part>, now: nat)
    ensures p.field != "excel" ==> Deliver(ExcelUpload(p), now).status != 200
    ensures !AllUnder(ps, "images") ==> Deliver(ImagesUpload(ps), now).status != 200
  {
  }

  /** Every part of the client's image upload is sent under the field `images`. */
  lemma ImagePartsUnderImages(items: seq<EvidenceItem>)
    ensures AllUnder(ImageParts(items), "images")
  {
    forall p | 0 <= p < |ImageParts(items)|
      ensures ImageParts(items)[p].field == "images"
    {
      var idx, j := LocatePart(items, p);
      ImagePartsAt(items, idx, j);
    }
  }

  /** A network that delivers every request to the server and succeeds on a 200 answer. */
  function ServerNetwork(now: nat): Request -> bool {
    (req: Request) => Deliver(req, now).status == 200
  }

  /** The spreadsheet endpoint echoes the chosen file's size and name. */
  lemma ExcelEchoed(f: File, now: nat)
    ensures var r := Deliver(ExcelUpload(ExcelPart(f)), now);
      r.status == 200 && r.body.fields["bytes"] == JNum(f.size) && r.body.fields["filename"] == JStr(f.name)
  {
  }

  /** Every payload the client builds has a truthy `application` and `evidence`, so the server accepts it. */
  lemma PayloadAccepted(s: FormState, now: nat)
    ensures var r := Server.Submit(Some(PayloadJson(MakePayload(s))), now);
      r.status == 200 && r.body.fields["status"] == JStr("accepted")
  {
  }

  /** The byte size of a list of images. */
  function FileBytes(imgs: seq<File>): nat
    decreases |imgs|
  {
    if |imgs| == 0 then 0 else FileBytes(imgs[..|imgs| - 1]) + imgs[|imgs| - 1].size
  }

  /** The byte size of all images of all items. */
  function ImageBytes(items: seq<EvidenceItem>): nat
    decreases |items|
  {
    if |items| == 0 then 0 else ImageBytes(items[..|items| - 1]) + FileBytes(items[|items| - 1].images)
  }

  lemma ReceivedAllAppend(a: seq<Part>, b: seq<Part>)
    ensures ReceivedAll(a + b) == ReceivedAll(a) + ReceivedAll(b)
  {
  }

  lemma {:induction false} ItemBytesReceived(idx: nat, imgs: seq<File>)
    ensures Server.TotalBytes(ReceivedAll(ItemParts(idx, imgs))) == FileBytes(imgs)
    decreases |imgs|
  {
    if |imgs| > 0 {
      var init := imgs[..|imgs| - 1];
      ItemBytesReceived(idx, init);
      var parts := ItemParts(idx, imgs);
      assert parts == ItemParts(idx, init) + [ImagePart(idx, |imgs| - 1, imgs[|imgs| - 1])];
      ReceivedAllAppend(ItemParts(idx, init), [ImagePart(idx, |imgs| - 1, imgs[|imgs| - 1])]);
      Server.TotalBytesAppend(ReceivedAll(ItemParts(idx, init)), ReceivedAll([ImagePart(idx, |imgs| - 1, imgs[|imgs| - 1])]));
    }
  }

  lemma {:induction false} ImageBytesReceived(items: seq<EvidenceItem>)
    ensures Server.TotalBytes(ReceivedAll(ImageParts(items))) == ImageBytes(items)
    decreases |items|
  {
    if |items| > 0 {
      var n := |items|;
      var init := items[..n - 1];
      ImageBytesReceived(init);
      ItemBytesReceived(n - 1, items[n - 1].images);
      ReceivedAllAppend(ImageParts(init), ItemParts(n - 1, items[n - 1].images));
      Server.TotalBytesAppend(ReceivedAll(ImageParts(init)), ReceivedAll(ItemParts(n - 1, items[n - 1].images)));
    }
  }

  /**
   * The image endpoint's reply to the client's image upload counts every
   * image of every item, which is also the sum of the payload's
   * `imagesCount` fields, and totals every image's size.
   */
  lemma ImagesReply(items: seq<EvidenceItem>)
    ensures var summary := Server.SummariseImages(Some(ReceivedAll(ImageParts(items))));
      summary.count == TotalImages(items) &&
      summary.count == CountSum(Summaries(items)) &&
      summary.totalBytes == ImageBytes(items)
  {
    ImagePartsLength(items);
    PayloadCountsMatchUpload(items);
    ImageBytesReceived(items);
  }

  /**
   * Against the server as written and a network that loses nothing, a
   * submittable form sends every planned request, succeeds and is reset.
   */
  lemma SubmitSucceedsAgainstServer(s: FormState, now: nat)
    requires !RequiredMissing(s)
    ensures SubmitSpec(s, ServerNetwork(now)) == Session(Plan(s), Succeeded, Initial())
  {
    var plan := Plan(s);
    forall i | 0 <= i < |plan|
      ensures ServerNetwork(now)(plan[i])
    {
      if plan[i].SubmitPost? {
        PayloadAccepted(s, now);
      } else if plan[i].ImagesUpload? {
        ImagePartsUnderImages(s.items);
      }
    }
  }
}
