/**
 * The submission workflow of web/src/App.tsx: the flattened, deterministically
 * named image upload (`uploadImagesIfNeeded`), the JSON payload, and
 * `handleSubmit`, which sends its requests one after another and stops at the
 * first one that fails. The network is a parameter `respond` that says, for
 * each request, whether it comes back with a success status (true) or throws
 * (false); what was sent is returned as an ordered request log.
 */
module Submission {
  import opened Wrappers
  import opened Decimal
  import opened Json
  import opened EvidenceForm

  /** One entry of a multipart form: `form.append(field, file, filename)`. */
  datatype Part = Part(field: string, filename: string, file: File)

  // ---------------------------------------------------------------------------
  // Image upload: naming and flattening

  const ImageNamePrefix: string := "evidence_"

  /** `evidence_${idx}_${j}_${img.name}` */
  function EntryName(idx: nat, j: nat, name: string): string {
    ImageNamePrefix + Show(idx) + "_" + Show(j) + "_" + name
  }

  /** The position of the first `c` in `s`. */
  function IndexOf(s: string, c: char): (r: Option<nat>)
    ensures r.Some? ==> r.value < |s| && s[r.value] == c && c !in s[..r.value]
    ensures r.None? ==> c !in s
    decreases |s|
  {
    if |s| == 0 then None
    else if s[0] == c then Some(0)
    else match IndexOf(s[1..], c)
      case None => None
      case Some(k) => Some(k + 1)
  }

  lemma {:induction false} IndexOfAfterDigits(d: string, rest: string)
    requires AllDigits(d)
    ensures IndexOf(d + "_" + rest, '_') == Some(|d|)
    decreases |d|
  {
    if |d| > 0 {
      assert IsDigit(d[0]);
      assert (d + "_" + rest)[1..] == d[1..] + "_" + rest;
      IndexOfAfterDigits(d[1..], rest);
    }
  }

  /** The text before and after the first underscore. */
  function SplitAtUnderscore(r: string): Option<(string, string)> {
    match IndexOf(r, '_')
    case None => None
    case Some(k) => Some((r[..k], r[k + 1..]))
  }

  lemma SplitAfterDigits(d: string, rest: string)
    requires AllDigits(d)
    ensures SplitAtUnderscore(d + "_" + rest) == Some((d, rest))
  {
    IndexOfAfterDigits(d, rest);
    var s := d + "_" + rest;
    assert s[..|d|] == d && s[|d| + 1..] == rest;
  }

  /** Reads an image entry name back into its item index, image position and file name. */
  function DecodeEntryName(s: string): Option<(nat, nat, string)> {
    if |s| < |ImageNamePrefix| || s[..|ImageNamePrefix|] != ImageNamePrefix then None
    else
      match SplitAtUnderscore(s[|ImageNamePrefix|..])
      case None => None
      case Some((d1, r)) =>
        match SplitAtUnderscore(r)
        case None => None
        case Some((d2, name)) =>
          if AllDigits(d1) && AllDigits(d2) then Some((Parse(d1), Parse(d2), name)) else None
  }

  lemma {:induction false} EntryNameDecodes(idx: nat, j: nat, name: string)
    ensures DecodeEntryName(EntryName(idx, j, name)) == Some((idx, j, name))
  {
    var d1, d2 := Show(idx), Show(j);
    var r := d2 + "_" + name;
    var s := EntryName(idx, j, name);
    assert s == ImageNamePrefix + (d1 + "_" + r);
    assert s[..|ImageNamePrefix|] == ImageNamePrefix;
    assert s[|ImageNamePrefix|..] == d1 + "_" + r;
    SplitAfterDigits(d1, r);
    SplitAfterDigits(d2, name);
    ParseShow(idx);
    ParseShow(j);
  }

  /**
   * Two image entries get the same upload name only when they have the same
   * item index, the same position and the same file name: the names cannot collide.
   */
  lemma EntryNameInjective(i1: nat, j1: nat, n1: string, i2: nat, j2: nat, n2: string)
    requires EntryName(i1, j1, n1) == EntryName(i2, j2, n2)
    ensures i1 == i2 && j1 == j2 && n1 == n2
  {
    EntryNameDecodes(i1, j1, n1);
    EntryNameDecodes(i2, j2, n2);
  }

  function ImagePart(idx: nat, j: nat, img: File): Part {
    Part("images", EntryName(idx, j, img.name), img)
  }

  /** The parts that `item.images.forEach((img, j) => ...)` appends for item `idx`. */
  function ItemParts(idx: nat, imgs: seq<File>): (r: seq<Part>)
    ensures |r| == |imgs|
    ensures forall j :: 0 <= j < |imgs| ==> r[j] == ImagePart(idx, j, imgs[j])
    decreases |imgs|
  {
    if |imgs| == 0 then []
    else ItemParts(idx, imgs[..|imgs| - 1]) + [ImagePart(idx, |imgs| - 1, imgs[|imgs| - 1])]
  }

  /** All parts of the image upload: item by item, and within an item image by image. */
  function ImageParts(items: seq<EvidenceItem>): seq<Part>
    decreases |items|
  {
    if |items| == 0 then []
    else ImageParts(items[..|items| - 1]) + ItemParts(|items| - 1, items[|items| - 1].images)
  }

  /** The number of images over all items: the sum of all `images.length`. */
  function TotalImages(items: seq<EvidenceItem>): nat
    decreases |items|
  {
    if |items| == 0 then 0 else TotalImages(items[..|items| - 1]) + |items[|items| - 1].images|
  }

  lemma {:induction false} ImagePartsLength(items: seq<EvidenceItem>)
    ensures |ImageParts(items)| == TotalImages(items)
    decreases |items|
  {
    if |items| > 0 {
      ImagePartsLength(items[..|items| - 1]);
    }
  }

  lemma {:induction false} TotalImagesPrefix(items: seq<EvidenceItem>, idx: nat)
    requires idx < |items|
    ensures TotalImages(items[..idx + 1]) == TotalImages(items[..idx]) + |items[idx].images|
  {
    assert items[..idx + 1][..idx] == items[..idx];
  }

  lemma {:induction false} TotalImagesMonotone(items: seq<EvidenceItem>, a: nat, b: nat)
    requires a <= b <= |items|
    ensures TotalImages(items[..a]) <= TotalImages(items[..b])
    decreases b - a
  {
    if a < b {
      TotalImagesPrefix(items, b - 1);
      TotalImagesMonotone(items, a, b - 1);
    }
  }

  /**
   * Image `j` of item `idx` is sent at position TotalImages(items[..idx]) + j,
   * that is after all images of earlier items and after the earlier images of
   * its own item, under the name `evidence_<idx>_<j>_<name>`.
   */
  lemma {:induction false} ImagePartsAt(items: seq<EvidenceItem>, idx: nat, j: nat)
    requires idx < |items| && j < |items[idx].images|
    ensures TotalImages(items[..idx]) + j < |ImageParts(items)|
    ensures ImageParts(items)[TotalImages(items[..idx]) + j] == ImagePart(idx, j, items[idx].images[j])
    decreases |items|
  {
    var n := |items|;
    var init := items[..n - 1];
    ImagePartsLength(items);
    ImagePartsLength(init);
    if idx == n - 1 {
      assert items[..idx] == init;
    } else {
      ImagePartsAt(init, idx, j);
      assert init[..idx] == items[..idx];
      assert init[idx] == items[idx];
    }
  }

  /** Every position of the upload holds some image `j` of some item `idx`. */
  lemma {:induction false} LocatePart(items: seq<EvidenceItem>, p: nat) returns (idx: nat, j: nat)
    requires p < |ImageParts(items)|
    ensures idx < |items| && j < |items[idx].images|
    ensures p == TotalImages(items[..idx]) + j
    decreases |items|
  {
    var n := |items|;
    var init := items[..n - 1];
    ImagePartsLength(init);
    if p < |ImageParts(init)| {
      idx, j := LocatePart(init, p);
      assert init[..idx] == items[..idx] && init[idx] == items[idx];
    } else {
      idx, j := n - 1, p - TotalImages(init);
    }
  }

  /** Distinct (item, image) coordinates occupy distinct positions of the upload. */
  lemma PositionsDistinct(items: seq<EvidenceItem>, i1: nat, j1: nat, i2: nat, j2: nat)
    requires i1 < |items| && j1 < |items[i1].images|
    requires i2 < |items| && j2 < |items[i2].images|
    requires TotalImages(items[..i1]) + j1 == TotalImages(items[..i2]) + j2
    ensures i1 == i2 && j1 == j2
  {
    if i1 < i2 {
      TotalImagesPrefix(items, i1);
      TotalImagesMonotone(items, i1 + 1, i2);
    } else if i2 < i1 {
      TotalImagesPrefix(items, i2);
      TotalImagesMonotone(items, i2 + 1, i1);
    }
  }

  /** No two entries of the image upload carry the same file name. */
  lemma ImageNamesUnique(items: seq<EvidenceItem>, p: nat, q: nat)
    requires p < q < |ImageParts(items)|
    ensures ImageParts(items)[p].filename != ImageParts(items)[q].filename
  {
    var i1, j1 := LocatePart(items, p);
    var i2, j2 := LocatePart(items, q);
    ImagePartsAt(items, i1, j1);
    ImagePartsAt(items, i2, j2);
    if ImageParts(items)[p].filename == ImageParts(items)[q].filename {
      EntryNameInjective(i1, j1, items[i1].images[j1].name, i2, j2, items[i2].images[j2].name);
      PositionsDistinct(items, i1, j1, i2, j2);
    }
  }

  /**
   * `uploadImagesIfNeeded`'s form building: the nested `forEach` loops append
   * one part per image, items in order, images in order within each item.
   */
  method BuildImageParts(items: seq<EvidenceItem>) returns (parts: seq<Part>)
    ensures parts == ImageParts(items)
  {
    parts := [];
    var idx := 0;
    while idx < |items|
      invariant 0 <= idx <= |items|
      invariant parts == ImageParts(items[..idx])
    {
      var imgs := items[idx].images;
      var j := 0;
      while j < |imgs|
        invariant 0 <= j <= |imgs|
        invariant parts == ImageParts(items[..idx]) + ItemParts(idx, imgs[..j])
      {
        ItemPartsSnoc(idx, imgs, j);
        parts := parts + [ImagePart(idx, j, imgs[j])];
        j := j + 1;
      }
      ImagePartsSnoc(items, idx);
      idx := idx + 1;
    }
    assert items[..idx] == items;
  }

  lemma ItemPartsSnoc(idx: nat, imgs: seq<File>, j: nat)
    requires j < |imgs|
    ensures ItemParts(idx, imgs[..j + 1]) == ItemParts(idx, imgs[..j]) + [ImagePart(idx, j, imgs[j])]
  {
    assert imgs[..j + 1][..j] == imgs[..j];
  }

  lemma ImagePartsSnoc(items: seq<EvidenceItem>, idx: nat)
    requires idx < |items|
    ensures ImageParts(items[..idx + 1]) == ImageParts(items[..idx]) + ItemParts(idx, items[idx].images[..|items[idx].images|])
  {
    assert items[..idx + 1][..idx] == items[..idx];
    assert items[idx].images[..|items[idx].images|] == items[idx].images;
  }

  // ---------------------------------------------------------------------------
  // The JSON payload

  datatype EvidenceSummary = EvidenceSummary(
    category: string,
    screenshotSource: string,
    attachmentType: Option<string>,
    imagesCount: nat)

  datatype Payload = Payload(application: Application, evidence: seq<EvidenceSummary>)

  /** The text fields of an item with its images replaced by their count. */
  function Summarise(x: EvidenceItem): EvidenceSummary {
    EvidenceSummary(x.category, x.screenshotSource, x.attachmentType, |x.images|)
  }

  /** `evidenceItems.map(...)`: one summary per item, in order. */
  function Summaries(items: seq<EvidenceItem>): (r: seq<EvidenceSummary>)
    ensures |r| == |items|
    ensures forall k :: 0 <= k < |items| ==>
      r[k].category == items[k].category &&
      r[k].screenshotSource == items[k].screenshotSource &&
      r[k].attachmentType == items[k].attachmentType &&
      r[k].imagesCount == |items[k].images|
  {
    seq(|items|, k requires 0 <= k < |items| => Summarise(items[k]))
  }

  function MakePayload(s: FormState): Payload {
    Payload(s.app, Summaries(s.items))
  }

  /** The sum of the `imagesCount` fields of a payload's evidence list. */
  function CountSum(ev: seq<EvidenceSummary>): nat
    decreases |ev|
  {
    if |ev| == 0 then 0 else CountSum(ev[..|ev| - 1]) + ev[|ev| - 1].imagesCount
  }

  /** The payload announces exactly as many images as the image upload carries. */
  lemma {:induction false} PayloadCountsMatchUpload(items: seq<EvidenceItem>)
    ensures CountSum(Summaries(items)) == |ImageParts(items)|
    decreases |items|
  {
    ImagePartsLength(items);
    if |items| > 0 {
      var init := items[..|items| - 1];
      PayloadCountsMatchUpload(init);
      ImagePartsLength(init);
      assert Summaries(items)[..|items| - 1] == Summaries(init);
    }
  }

  /** One element of the payload's `evidence` array. */
  function SummaryJson(e: EvidenceSummary): Json {
    var fields := map["category" := JStr(e.category),
                      "screenshotSource" := JStr(e.screenshotSource),
                      "imagesCount" := JNum(e.imagesCount)];
    // `JSON.stringify` drops a property whose value is `undefined`.
    match e.attachmentType
    case None => JObj(fields)
    case Some(t) => JObj(fields["attachmentType" := JStr(t)])
  }

  /**
   * An `evidence` element is an object with exactly the summary's category,
   * screenshot source and image count, and its attachment type exactly when
   * there is one.
   */
  lemma SummaryJsonFields(e: EvidenceSummary)
    ensures var j := SummaryJson(e);
      j.JObj? &&
      j.fields.Keys == {"category", "screenshotSource", "imagesCount"} +
        (if e.attachmentType.Some? then {"attachmentType"} else {}) &&
      Member(Some(j), "category") == Some(JStr(e.category)) &&
      Member(Some(j), "screenshotSource") == Some(JStr(e.screenshotSource)) &&
      Member(Some(j), "imagesCount") == Some(JNum(e.imagesCount)) &&
      (Member(Some(j), "attachmentType").Some? <==> e.attachmentType.Some?) &&
      (e.attachmentType.Some? ==> Member(Some(j), "attachmentType") == Some(JStr(e.attachmentType.value)))
  {
  }

  /** The body `axios.post("/api/submit", payload)` sends. */
  function PayloadJson(p: Payload): (j: Json)
    ensures Member(Some(j), "application").Some? && Member(Some(j), "application").value.JObj?
    ensures Member(Some(j), "evidence").Some? && Member(Some(j), "evidence").value.JArr?
    ensures |Member(Some(j), "evidence").value.elems| == |p.evidence|
  {
    JObj(map[
      "application" := JObj(map["name" := JStr(p.application.name),
                                "area" := JStr(p.application.area),
                                "centerId" := JStr(p.application.centerId)]),
      "evidence" := JArr(seq(|p.evidence|, k requires 0 <= k < |p.evidence| => SummaryJson(p.evidence[k])))])
  }

  /** The body holds the application's three fields and one `evidence` element per summary, in order. */
  lemma PayloadJsonFields(p: Payload)
    ensures var j := PayloadJson(p);
      Member(Some(j), "application") == Some(JObj(map["name" := JStr(p.application.name),
                                                      "area" := JStr(p.application.area),
                                                      "centerId" := JStr(p.application.centerId)])) &&
      forall k :: 0 <= k < |p.evidence| ==>
        Member(Some(j), "evidence").value.elems[k] == SummaryJson(p.evidence[k])
  {
  }

  /**
   * The body sent to `/api/submit` carries the form's three application
   * fields and, for each item in order, its category, screenshot source,
   * attachment type (present exactly when the item has one) and image count.
   */
  lemma PayloadJsonCarriesForm(s: FormState)
    ensures var body := Some(PayloadJson(MakePayload(s)));
      var app := Member(body, "application");
      Member(app, "name") == Some(JStr(s.app.name)) &&
      Member(app, "area") == Some(JStr(s.app.area)) &&
      Member(app, "centerId") == Some(JStr(s.app.centerId))
    ensures var ev := Member(Some(PayloadJson(MakePayload(s))), "evidence").value.elems;
      |ev| == |s.items| &&
      forall k :: 0 <= k < |s.items| ==>
        Member(Some(ev[k]), "category") == Some(JStr(s.items[k].category)) &&
        Member(Some(ev[k]), "screenshotSource") == Some(JStr(s.items[k].screenshotSource)) &&
        Member(Some(ev[k]), "imagesCount") == Some(JNum(|s.items[k].images|)) &&
        (Member(Some(ev[k]), "attachmentType").Some? <==> s.items[k].attachmentType.Some?) &&
        (s.items[k].attachmentType.Some? ==>
          Member(Some(ev[k]), "attachmentType") == Some(JStr(s.items[k].attachmentType.value)))
  {
    var p := MakePayload(s);
    var ev := Member(Some(PayloadJson(p)), "evidence").value.elems;
    PayloadJsonFields(p);
    forall k | 0 <= k < |s.items|
      ensures Member(Some(ev[k]), "category") == Some(JStr(s.items[k].category)) &&
        Member(Some(ev[k]), "screenshotSource") == Some(JStr(s.items[k].screenshotSource)) &&
        Member(Some(ev[k]), "imagesCount") == Some(JNum(|s.items[k].images|)) &&
        (Member(Some(ev[k]), "attachmentType").Some? <==> s.items[k].attachmentType.Some?) &&
        (s.items[k].attachmentType.Some? ==>
          Member(Some(ev[k]), "attachmentType") == Some(JStr(s.items[k].attachmentType.value)))
    {
      assert ev[k] == SummaryJson(p.evidence[k]);
      SummaryJsonFields(p.evidence[k]);
    }
  }

  // ---------------------------------------------------------------------------
  // handleSubmit

  datatype Request =
    | ExcelUpload(part: Part)        // POST /api/upload-excel
    | ImagesUpload(parts: seq<Part>)  // POST /api/upload-images
    | SubmitPost(body: Json)          // POST /api/submit

  /** `form.append("excel", excelFile)`: the spreadsheet under its own name. */
  function ExcelPart(f: File): Part {
    Part("excel", f.name, f)
  }

  /** The requests a submission makes when every one of them succeeds. */
  function Plan(s: FormState): (r: seq<Request>)
    ensures |r| == if s.excel.Some? then 3 else 2
    ensures s.excel.Some? ==> r[0] == ExcelUpload(ExcelPart(s.excel.value))
    ensures r[|r| - 2] == ImagesUpload(ImageParts(s.items))
    ensures r[|r| - 1] == SubmitPost(PayloadJson(MakePayload(s)))
  {
    (if s.excel.Some? then [ExcelUpload(ExcelPart(s.excel.value))] else [])
    + [ImagesUpload(ImageParts(s.items)), SubmitPost(PayloadJson(MakePayload(s)))]
  }

  /**
   * A form that passes the gate always has a spreadsheet, so its plan always
   * starts with the spreadsheet upload: the skip for a missing file is never
   * taken on a submission that gets past the gate.
   */
  lemma SubmittablePlanUploadsSpreadsheet(s: FormState)
    requires !RequiredMissing(s)
    ensures |Plan(s)| == 3 && Plan(s)[0] == ExcelUpload(ExcelPart(s.excel.value))
  {
  }

  /**
   * Sending `plan` in order through `respond`, stopping at the first request
   * that fails: what is sent is a prefix of the plan, every request but the
   * last one sent succeeded, and the run succeeds exactly when every planned
   * request does, in which case all of them were sent.
   */
  function Run(plan: seq<Request>, respond: Request -> bool): (r: (seq<Request>, bool))
    ensures |r.0| <= |plan| && r.0 == plan[..|r.0|]
    ensures forall i :: 0 <= i < |r.0| - 1 ==> respond(r.0[i])
    ensures r.1 <==> forall i :: 0 <= i < |plan| ==> respond(plan[i])
    ensures r.1 ==> r.0 == plan
    ensures !r.1 ==> |r.0| > 0 && !respond(r.0[|r.0| - 1])
    decreases |plan|
  {
    if |plan| == 0 then ([], true)
    else if !respond(plan[0]) then ([plan[0]], false)
    else
      var rest := Run(plan[1..], respond);
      assert forall i :: 1 <= i < |plan| ==> plan[i] == plan[1..][i - 1];
      ([plan[0]] + rest.0, rest.1)
  }

  /** One step of `Run`: the first request is sent, and the rest only if it succeeded. */
  lemma RunCons(plan: seq<Request>, respond: Request -> bool)
    requires |plan| > 0
    ensures Run(plan, respond) ==
      if respond(plan[0]) then ([plan[0]] + Run(plan[1..], respond).0, Run(plan[1..], respond).1)
      else ([plan[0]], false)
  {
  }

  datatype Outcome =
    | Blocked    // `requiredMissing`: nothing is sent
    | Succeeded  // "Evidence submitted successfully." and the page reloads
    | Failed     // "Submission failed."

  datatype Session = Session(log: seq<Request>, outcome: Outcome, form: FormState)

  /** What `handleSubmit` does to the request log, the notice shown and the form state. */
  function SubmitSpec(s: FormState, respond: Request -> bool): Session {
    if RequiredMissing(s) then Session([], Blocked, s)
    else
      var r := Run(Plan(s), respond);
      if r.1 then Session(r.0, Succeeded, Initial()) else Session(r.0, Failed, s)
  }

  /**
   * A submittable form, step by step: the spreadsheet upload, then the image
   * upload, then the submit, each sent only when the one before succeeded.
   */
  lemma SubmitSpecSteps(s: FormState, respond: Request -> bool)
    requires !RequiredMissing(s)
    ensures var excel := ExcelUpload(ExcelPart(s.excel.value));
      var images := ImagesUpload(ImageParts(s.items));
      var submit := SubmitPost(PayloadJson(MakePayload(s)));
      SubmitSpec(s, respond) ==
        if !respond(excel) then Session([excel], Failed, s)
        else if !respond(images) then Session([excel, images], Failed, s)
        else if !respond(submit) then Session([excel, images, submit], Failed, s)
        else Session([excel, images, submit], Succeeded, Initial())
  {
    var plan := Plan(s);
    RunCons(plan, respond);
    RunCons(plan[1..], respond);
    RunCons(plan[2..], respond);
    assert plan[1..][1..] == plan[2..] && plan[2..][1..] == [];
  }

  /**
   * `handleSubmit`: gated by `requiredMissing`, then the spreadsheet upload
   * (skipped without a file), the image upload and the JSON submit, each
   * awaited; a failure anywhere ends the attempt and keeps the form, success
   * reloads the page, which starts over from the initial state.
   */
  method HandleSubmit(s: FormState, respond: Request -> bool)
    returns (log: seq<Request>, outcome: Outcome, next: FormState)
    ensures Session(log, outcome, next) == SubmitSpec(s, respond)
  {
    log, next := [], s;
    if RequiredMissing(s) {
      outcome := Blocked;
      return;
    }
    SubmitSpecSteps(s, respond);
    // uploadExcelIfNeeded
    if s.excel.Some? {
      var req := ExcelUpload(ExcelPart(s.excel.value));
      log := log + [req];
      if !respond(req) {
        outcome := Failed;
        return;
      }
    }
    // uploadImagesIfNeeded
    var parts := BuildImageParts(s.items);
    var images := ImagesUpload(parts);
    log := log + [images];
    if !respond(images) {
      outcome := Failed;
      return;
    }
    // the JSON payload
    var submit := SubmitPost(PayloadJson(MakePayload(s)));
    log := log + [submit];
    if !respond(submit) {
      outcome := Failed;
      return;
    }
    outcome := Succeeded;
    next := Initial();
  }

  /** A blocked form sends nothing and stays as it is. */
  lemma SubmitBlocked(s: FormState, respond: Request -> bool)
    requires RequiredMissing(s)
    ensures SubmitSpec(s, respond) == Session([], Blocked, s)
  {
  }

  /**
   * A submittable form sends a prefix of [spreadsheet (if any), images,
   * submit]; it succeeds exactly when every one of those succeeds, and then
   * all of them were sent and the form is reset; otherwise the last request
   * sent is the one that failed, nothing after it was sent, and the form is kept.
   */
  lemma SubmitSteps(s: FormState, respond: Request -> bool)
    requires !RequiredMissing(s)
    ensures var r := SubmitSpec(s, respond);
      r.outcome != Blocked &&
      |r.log| <= |Plan(s)| && r.log == Plan(s)[..|r.log|] &&
      (r.outcome == Succeeded <==> forall i :: 0 <= i < |Plan(s)| ==> respond(Plan(s)[i])) &&
      (r.outcome == Succeeded ==> r.log == Plan(s) && r.form == Initial()) &&
      (r.outcome == Failed ==>
        r.form == s && |r.log| > 0 && !respond(r.log[|r.log| - 1]) &&
        forall i :: 0 <= i < |r.log| - 1 ==> respond(r.log[i]))
  {
  }

  /** The spreadsheet upload, when there is one, is the first request sent, and submit is never sent before the image upload. */
  lemma SubmitOrder(s: FormState, respond: Request -> bool, i: nat)
    requires !RequiredMissing(s)
    requires i < |SubmitSpec(s, respond).log|
    ensures var log := SubmitSpec(s, respond).log;
      (log[i].ExcelUpload? <==> i == 0 && s.excel.Some?) &&
      (log[i].SubmitPost? ==> i > 0 && log[i - 1].ImagesUpload?)
  {
  }
}
