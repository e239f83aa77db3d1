/**
 * The request handlers of server/index.js with the Express and multer
 * plumbing stripped away: each one computes its response from what the
 * request carries, and shares no state with any other request.
 */
module Server {
  import opened Wrappers
  import opened Decimal
  import opened Json

  /** A file as multer hands it to a handler: `originalname` and `size`. */
  datatype UploadedFile = UploadedFile(originalname: string, size: nat)

  /** An HTTP status with a JSON body (`res.json` answers 200 unless a status was set). */
  datatype Response = Response(status: nat, body: Json)

  function ErrorResponse(message: string): Response {
    Response(400, JObj(map["error" := JStr(message)]))
  }

  // ---------------------------------------------------------------------------
  // POST /api/upload-excel

  /** 400 when no file came under the `excel` field, else the file's size and original name. */
  function UploadExcel(file: Option<UploadedFile>): (r: Response)
    ensures r.status == 400 <==> file.None?
    ensures file.None? ==> r.body == JObj(map["error" := JStr("No file uploaded")])
    ensures file.Some? ==>
      r.status == 200 &&
      r.body.JObj? && r.body.fields.Keys == {"bytes", "filename"} &&
      r.body.fields["bytes"] == JNum(file.value.size) &&
      r.body.fields["filename"] == JStr(file.value.originalname)
  {
    match file
    case None => ErrorResponse("No file uploaded")
    case Some(f) => Response(200, JObj(map["bytes" := JNum(f.size), "filename" := JStr(f.originalname)]))
  }

  // ---------------------------------------------------------------------------
  // POST /api/upload-images

  /** `files.reduce((n, f) => n + f.size, acc)` */
  function SizeFold(acc: nat, files: seq<UploadedFile>): nat
    decreases |files|
  {
    if |files| == 0 then acc else SizeFold(acc + files[0].size, files[1..])
  }

  /** The total byte size of a list of files, summed from the back. */
  function TotalBytes(files: seq<UploadedFile>): nat
    decreases |files|
  {
    if |files| == 0 then 0 else TotalBytes(files[..|files| - 1]) + files[|files| - 1].size
  }

  lemma {:induction false} TotalBytesCons(f: UploadedFile, files: seq<UploadedFile>)
    ensures TotalBytes([f] + files) == f.size + TotalBytes(files)
    decreases |files|
  {
    if |files| > 0 {
      var init := files[..|files| - 1];
      TotalBytesCons(f, init);
      assert ([f] + files)[..|files|] == [f] + init;
    }
  }

  lemma {:induction false} TotalBytesAppend(a: seq<UploadedFile>, b: seq<UploadedFile>)
    ensures TotalBytes(a + b) == TotalBytes(a) + TotalBytes(b)
    decreases |b|
  {
    if |b| == 0 {
      assert a + b == a;
    } else {
      var init := b[..|b| - 1];
      TotalBytesAppend(a, init);
      assert (a + b)[..|a + b| - 1] == a + init;
    }
  }

  /** The reduce with starting value `acc` adds the files' total to `acc`. */
  lemma {:induction false} SizeFoldIsTotal(acc: nat, files: seq<UploadedFile>)
    ensures SizeFold(acc, files) == acc + TotalBytes(files)
    decreases |files|
  {
    if |files| > 0 {
      SizeFoldIsTotal(acc + files[0].size, files[1..]);
      assert [files[0]] + files[1..] == files;
      TotalBytesCons(files[0], files[1..]);
    }
  }

  datatype ImagesSummary = ImagesSummary(count: nat, totalBytes: nat)

  /**
   * `const files = req.files || []` and the `count` / `totalBytes` reply:
   * the number of received files and the sum of their sizes; with no file
   * list at all both are 0.
   */
  function SummariseImages(files: Option<seq<UploadedFile>>): (r: ImagesSummary)
    ensures files.None? ==> r == ImagesSummary(0, 0)
    ensures files.Some? ==> r.count == |files.value| && r.totalBytes == TotalBytes(files.value)
  {
    var fs := if files.Some? then files.value else [];
    SizeFoldIsTotal(0, fs);
    ImagesSummary(|fs|, SizeFold(0, fs))
  }

  /**
   * The image handler answers 200 with `count`, the number of received files,
   * and `totalBytes`, their total size; no file list counts as an empty one.
   */
  function UploadImages(files: Option<seq<UploadedFile>>): (r: Response)
    ensures var fs := if files.Some? then files.value else [];
      r.status == 200 &&
      r.body.JObj? && r.body.fields.Keys == {"count", "totalBytes"} &&
      r.body.fields["count"] == JNum(|fs|) &&
      r.body.fields["totalBytes"] == JNum(TotalBytes(fs))
  {
    var summary := SummariseImages(files);
    Response(200, JObj(map["count" := JNum(summary.count), "totalBytes" := JNum(summary.totalBytes)]))
  }

  // ---------------------------------------------------------------------------
  // POST /api/submit

  /** `EV-${Date.now()}`, with the clock reading passed in as `now`. */
  function SubmissionId(now: nat): string {
    "EV-" + Show(now)
  }

  /** The identifier is `EV-` followed by a non-empty run of digits that reads back as `now`. */
  lemma SubmissionIdShape(now: nat)
    ensures var id := SubmissionId(now);
      |id| > 3 && id[..3] == "EV-" && AllDigits(id[3..]) && Parse(id[3..]) == now
  {
    var id := SubmissionId(now);
    assert id[3..] == Show(now);
    ParseShow(now);
  }

  /**
   * 400 without an `id` when the body's `application` or `evidence` is
   * missing or falsy; otherwise status "accepted" and a fresh identifier.
   */
  function Submit(body: Option<Json>, now: nat): (r: Response)
    ensures r.status == 400 <==> !Present(Member(body, "application")) || !Present(Member(body, "evidence"))
    ensures r.status == 400 ==> r.body == JObj(map["error" := JStr("Invalid payload")])
    ensures r.status != 400 ==>
      r.status == 200 &&
      r.body.JObj? && r.body.fields.Keys == {"status", "id"} &&
      r.body.fields["status"] == JStr("accepted") &&
      r.body.fields["id"] == JStr(SubmissionId(now))
  {
    if !Present(Member(body, "application")) || !Present(Member(body, "evidence")) then
      ErrorResponse("Invalid payload")
    else
      Response(200, JObj(map["status" := JStr("accepted"), "id" := JStr(SubmissionId(now))]))
  }

  /** An empty object is refused, and the refusal carries no `id`. */
  lemma SubmitEmptyObjectRefused(now: nat)
    ensures var r := Submit(Some(JObj(map[])), now);
      r.status == 400 && "id" !in r.body.fields
  {
  }

  /** `{"application":{},"evidence":[]}` is accepted: an empty object and an empty array are truthy. */
  lemma SubmitEmptySectionsAccepted(now: nat)
    ensures var r := Submit(Some(JObj(map["application" := JObj(map[]), "evidence" := JArr([])])), now);
      r.status == 200 && r.body.fields["id"] == JStr(SubmissionId(now))
  {
  }

  // ---------------------------------------------------------------------------
  // GET /api/template

  const TemplateHeader: string := "User,Role,Repository,Permission,Notes"

  /** The CSV text the template endpoint sends. */
  const Template: string :=
    "User,Role,Repository,Permission,Notes\n" +
    "alice,Developer,repo-a,write,\n" +
    "bob,Admin,repo-b,admin,\n"

  /** The text of `lines`, each followed by a newline. */
  function Terminated(lines: seq<string>): string
    decreases |lines|
  {
    if |lines| == 0 then "" else lines[0] + "\n" + Terminated(lines[1..])
  }

  /** The text before the first newline (all of `s` when there is none). */
  function FirstLine(s: string): (l: string)
    ensures |l| <= |s| && l == s[..|l|] && '\n' !in l
    ensures |l| < |s| ==> s[|l|] == '\n'
    decreases |s|
  {
    if |s| == 0 || s[0] == '\n' then "" else [s[0]] + FirstLine(s[1..])
  }

  /** The lines of a text, each ending at a newline or at the end of the text. */
  function Lines(s: string): seq<string>
    decreases |s|
  {
    if |s| == 0 then []
    else
      var l := FirstLine(s);
      [l] + (if |l| < |s| then Lines(s[|l| + 1..]) else [])
  }

  lemma {:induction false} FirstLineOf(l: string, rest: string)
    requires '\n' !in l
    ensures FirstLine(l + "\n" + rest) == l
    decreases |l|
  {
    if |l| > 0 {
      assert (l + "\n" + rest)[1..] == l[1..] + "\n" + rest;
      assert l[0] in l;
      FirstLineOf(l[1..], rest);
      assert [l[0]] + l[1..] == l;
    }
  }

  /** Splitting newline-terminated lines gives back those lines. */
  lemma {:induction false} LinesOfTerminated(lines: seq<string>)
    requires forall i :: 0 <= i < |lines| ==> '\n' !in lines[i]
    ensures Lines(Terminated(lines)) == lines
    decreases |lines|
  {
    if |lines| > 0 {
      var rest := Terminated(lines[1..]);
      var s := lines[0] + "\n" + rest;
      FirstLineOf(lines[0], rest);
      assert s[|lines[0]| + 1..] == rest;
      LinesOfTerminated(lines[1..]);
      if |rest| == 0 {
        assert lines[1..] == [];
      }
    }
  }

  /**
   * The template is exactly three newline-terminated lines, and the first of
   * them is the header row `User,Role,Repository,Permission,Notes`.
   */
  lemma TemplateShape()
    ensures Template == Terminated(Lines(Template))
    ensures |Lines(Template)| == 3
    ensures forall i :: 0 <= i < 3 ==> '\n' !in Lines(Template)[i]
    ensures FirstLine(Template) == TemplateHeader
    ensures Lines(Template)[0] == TemplateHeader
  {
    var rows := [TemplateHeader, "alice,Developer,repo-a,write,", "bob,Admin,repo-b,admin,"];
    assert rows[1..][1..][1..] == [];
    assert Terminated(rows[1..][1..]) == rows[2] + "\n";
    assert Terminated(rows[1..]) == rows[1] + "\n" + rows[2] + "\n";
    assert Template == Terminated(rows);
    assert forall i :: 0 <= i < 3 ==> '\n' !in rows[i];
    LinesOfTerminated(rows);
    FirstLineOf(TemplateHeader, Terminated(rows[1..]));
  }
}
