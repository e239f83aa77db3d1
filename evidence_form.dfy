/**
 * The evidence form's client-side state (web/src/App.tsx): the application
 * details, the optional spreadsheet, and the ordered list of evidence items;
 * the derived `requiredMissing` gate; and the whole-list replacements that
 * the form's event handlers write with `map`, `filter` and spread.
 */
module EvidenceForm {
  import opened Wrappers

  /** A browser `File`, reduced to what the model observes: its name and byte size. */
  datatype File = File(name: string, size: nat)

  datatype EvidenceItem = EvidenceItem(
    category: string,
    screenshotSource: string,
    attachmentType: Option<string>,  // optional in the item type; None is `undefined`
    images: seq<File>)

  datatype Application = Application(name: string, area: string, centerId: string)

  /** The four pieces of form state: three application fields, the spreadsheet, the items. */
  datatype FormState = FormState(app: Application, excel: Option<File>, items: seq<EvidenceItem>)

  const DefaultCategory: string := "BoKS Entitlements (AIMS)"

  /** The item the form starts with and the one the "+" button appends. */
  function DefaultItem(): (x: EvidenceItem)
    ensures x.category == DefaultCategory && x.screenshotSource == "" && x.images == []
    ensures x.attachmentType == Some("")
  {
    EvidenceItem(DefaultCategory, "", Some(""), [])
  }

  /** The state after the page loads (and after the reload that follows a successful submit). */
  function Initial(): (s: FormState)
    ensures s.app == Application("CPLAT", "COMMONS PLATFORM", "C-306701")
    ensures s.excel == None && s.items == [DefaultItem()]
  {
    FormState(Application("CPLAT", "COMMONS PLATFORM", "C-306701"), None, [DefaultItem()])
  }

  // ---------------------------------------------------------------------------
  // The submission gate

  /** `!i.category || !i.screenshotSource || i.images.length === 0` */
  predicate ItemMissing(x: EvidenceItem) {
    x.category == "" || x.screenshotSource == "" || |x.images| == 0
  }

  /** `items.some(ItemMissing)`, scanning from the front as `Array.prototype.some` does. */
  function SomeMissing(items: seq<EvidenceItem>): bool
    decreases |items|
  {
    if |items| == 0 then false else ItemMissing(items[0]) || SomeMissing(items[1..])
  }

  /** `requiredMissing`: no spreadsheet, or some item lacks a required part. */
  predicate RequiredMissing(s: FormState) {
    s.excel.None? || SomeMissing(s.items)
  }

  lemma {:induction false} SomeMissingIff(items: seq<EvidenceItem>)
    ensures SomeMissing(items) <==> exists k :: 0 <= k < |items| && ItemMissing(items[k])
    decreases |items|
  {
    if |items| > 0 {
      SomeMissingIff(items[1..]);
      if !ItemMissing(items[0]) && exists k :: 0 <= k < |items| && ItemMissing(items[k]) {
        var k :| 0 <= k < |items| && ItemMissing(items[k]);
        assert items[1..][k - 1] == items[k];
      }
    }
  }

  /** The gate is closed exactly when the spreadsheet is absent or some item is incomplete. */
  lemma RequiredMissingIff(s: FormState)
    ensures RequiredMissing(s) <==>
      s.excel.None? ||
      exists k :: 0 <= k < |s.items| &&
        (s.items[k].category == "" || s.items[k].screenshotSource == "" || |s.items[k].images| == 0)
  {
    SomeMissingIff(s.items);
    assert forall k :: 0 <= k < |s.items| ==>
      (ItemMissing(s.items[k]) <==>
        (s.items[k].category == "" || s.items[k].screenshotSource == "" || |s.items[k].images| == 0));
  }

  /** The form as first shown cannot be submitted. */
  lemma InitialIsMissing()
    ensures RequiredMissing(Initial())
  {
  }

  // ---------------------------------------------------------------------------
  // Application details and the spreadsheet

  datatype AppField = Name | Area | CenterId

  /** `setAppName` / `setAppArea` / `setCenterId`: any string is accepted. */
  function SetApplicationField(a: Application, f: AppField, v: string): (r: Application)
    ensures f == Name ==> r == a.(name := v)
    ensures f == Area ==> r == a.(area := v)
    ensures f == CenterId ==> r == a.(centerId := v)
  {
    match f
    case Name => a.(name := v)
    case Area => a.(area := v)
    case CenterId => a.(centerId := v)
  }

  /** The application details never affect whether the form may be submitted. */
  lemma SetApplicationFieldKeepsGate(s: FormState, f: AppField, v: string)
    ensures RequiredMissing(s.(app := SetApplicationField(s.app, f, v))) == RequiredMissing(s)
  {
  }

  /**
   * `setExcelFile(e.target.files?.[0] ?? null)`: the first chosen file, or no
   * spreadsheet when the input has no file list or an empty one.
   */
  function ChooseSpreadsheet(files: Option<seq<File>>): (r: Option<File>)
    ensures r.Some? <==> files.Some? && |files.value| > 0
    ensures r.Some? ==> r.value == files.value[0]
  {
    if files.Some? && |files.value| > 0 then Some(files.value[0]) else None
  }

  /** Clearing the spreadsheet input closes the submission gate. */
  lemma ClearedSpreadsheetBlocks(s: FormState, files: Option<seq<File>>)
    requires files.None? || files.value == []
    ensures RequiredMissing(s.(excel := ChooseSpreadsheet(files)))
  {
  }

  // ---------------------------------------------------------------------------
  // Whole-list replacements of the evidence items

  /**
   * `arr.map((x, i) => (i === idx ? g(x) : x))` over the elements of `items`,
   * the first of which has index `start` in the whole list.
   */
  function MapFrom(items: seq<EvidenceItem>, start: int, idx: int, g: EvidenceItem -> EvidenceItem): (r: seq<EvidenceItem>)
    ensures |r| == |items|
    ensures forall k :: 0 <= k < |items| ==> r[k] == (if start + k == idx then g(items[k]) else items[k])
    decreases |items|
  {
    if |items| == 0 then []
    else [if start == idx then g(items[0]) else items[0]] + MapFrom(items[1..], start + 1, idx, g)
  }

  /** Replace the item at `idx` by `g` of it; every other item stays as it was. */
  function MapAt(items: seq<EvidenceItem>, idx: int, g: EvidenceItem -> EvidenceItem): (r: seq<EvidenceItem>)
    ensures |r| == |items|
    ensures forall k :: 0 <= k < |items| && k != idx ==> r[k] == items[k]
    ensures 0 <= idx < |items| ==> r[idx] == g(items[idx])
    ensures !(0 <= idx < |items|) ==> r == items
  {
    var r := MapFrom(items, 0, idx, g);
    assert !(0 <= idx < |items|) ==> r == items;
    r
  }

  datatype EvidenceField = Category | ScreenshotSource | AttachmentType

  /** `{ ...x, <field>: v }` */
  function WithField(x: EvidenceItem, f: EvidenceField, v: string): (y: EvidenceItem)
    ensures y.images == x.images
    ensures y.category == (if f == Category then v else x.category)
    ensures y.screenshotSource == (if f == ScreenshotSource then v else x.screenshotSource)
    ensures y.attachmentType == (if f == AttachmentType then Some(v) else x.attachmentType)
  {
    match f
    case Category => x.(category := v)
    case ScreenshotSource => x.(screenshotSource := v)
    case AttachmentType => x.(attachmentType := Some(v))
  }

  /**
   * The category select and the two text inputs: set one field of the item
   * at `idx`. Every other field and every other item is unchanged, and an
   * index outside the list changes nothing.
   */
  function UpdateField(items: seq<EvidenceItem>, idx: int, f: EvidenceField, v: string): (r: seq<EvidenceItem>)
    ensures |r| == |items|
    ensures forall k :: 0 <= k < |items| && k != idx ==> r[k] == items[k]
    ensures 0 <= idx < |items| ==>
      r[idx].images == items[idx].images &&
      r[idx].category == (if f == Category then v else items[idx].category) &&
      r[idx].screenshotSource == (if f == ScreenshotSource then v else items[idx].screenshotSource) &&
      r[idx].attachmentType == (if f == AttachmentType then Some(v) else items[idx].attachmentType)
    ensures !(0 <= idx < |items|) ==> r == items
  {
    MapAt(items, idx, x => WithField(x, f, v))
  }

  /**
   * The dropzone's `onFiles`: the new files go after the item's existing
   * images, in the order given; nothing else changes.
   */
  function AppendImages(items: seq<EvidenceItem>, idx: int, files: seq<File>): (r: seq<EvidenceItem>)
    ensures |r| == |items|
    ensures forall k :: 0 <= k < |items| && k != idx ==> r[k] == items[k]
    ensures 0 <= idx < |items| ==> r[idx] == items[idx].(images := items[idx].images + files)
    ensures !(0 <= idx < |items|) ==> r == items
  {
    MapAt(items, idx, (x: EvidenceItem) => x.(images := x.images + files))
  }

  /**
   * `images.filter((_, j) => j !== i)` applied to the elements of `s`, the
   * first of which has position `start`.
   */
  function FilterFrom(s: seq<File>, start: int, i: int): (r: seq<File>)
    decreases |s|
  {
    if |s| == 0 then []
    else (if start == i then [] else [s[0]]) + FilterFrom(s[1..], start + 1, i)
  }

  /** `s.filter((_, j) => j !== i)` */
  function DropIndex(s: seq<File>, i: int): seq<File> {
    FilterFrom(s, 0, i)
  }

  lemma {:induction false} FilterFromKeeps(s: seq<File>, start: int, i: int)
    requires !(start <= i < start + |s|)
    ensures FilterFrom(s, start, i) == s
    decreases |s|
  {
    if |s| > 0 {
      var t := s[1..];
      assert s == [s[0]] + t;
      FilterFromKeeps(t, start + 1, i);
    }
  }

  lemma {:induction false} FilterFromDeletes(s: seq<File>, start: int, i: int)
    requires start <= i < start + |s|
    ensures FilterFrom(s, start, i) == s[..i - start] + s[i - start + 1..]
    decreases |s|
  {
    if start == i {
      FilterFromKeeps(s[1..], start + 1, i);
    } else {
      FilterFromDeletes(s[1..], start + 1, i);
      ConsDelete(s, i - start);
    }
  }

  /** Putting the head back in front of the tail with one position deleted. */
  lemma ConsDelete(s: seq<File>, m: int)
    requires 0 < m < |s|
    ensures [s[0]] + (s[1..][..m - 1] + s[1..][m..]) == s[..m] + s[m + 1..]
  {
    assert s[..m] == [s[0]] + s[1..][..m - 1];
    assert s[m + 1..] == s[1..][m..];
  }

  /**
   * Filtering out position `i` deletes exactly that image, keeping the order
   * of the rest, and leaves the list as it was when `i` is not a position.
   */
  lemma DropIndexDeletes(s: seq<File>, i: int)
    ensures 0 <= i < |s| ==> DropIndex(s, i) == s[..i] + s[i + 1..] && |DropIndex(s, i)| == |s| - 1
    ensures !(0 <= i < |s|) ==> DropIndex(s, i) == s
  {
    if 0 <= i < |s| {
      FilterFromDeletes(s, 0, i);
    } else {
      FilterFromKeeps(s, 0, i);
    }
  }

  /** The "×" button on image `i` of item `idx`. */
  function RemoveImage(items: seq<EvidenceItem>, idx: int, i: int): (r: seq<EvidenceItem>)
    ensures |r| == |items|
    ensures forall k :: 0 <= k < |items| && k != idx ==> r[k] == items[k]
    ensures 0 <= idx < |items| ==>
      r[idx] == items[idx].(images := DropIndex(items[idx].images, i))
    ensures !(0 <= idx < |items|) ==> r == items
  {
    MapAt(items, idx, (x: EvidenceItem) => x.(images := DropIndex(x.images, i)))
  }

  /**
   * Removing image `i` of item `idx` leaves that item with its image list
   * minus position `i`, one shorter, and everything else as it was.
   */
  lemma RemoveImageDeletes(items: seq<EvidenceItem>, idx: int, i: int)
    requires 0 <= idx < |items| && 0 <= i < |items[idx].images|
    ensures var r := RemoveImage(items, idx, i);
      |r| == |items| &&
      r[idx].images == items[idx].images[..i] + items[idx].images[i + 1..] &&
      |r[idx].images| == |items[idx].images| - 1 &&
      r[idx].category == items[idx].category &&
      r[idx].screenshotSource == items[idx].screenshotSource &&
      r[idx].attachmentType == items[idx].attachmentType &&
      forall k :: 0 <= k < |items| && k != idx ==> r[k] == items[k]
  {
    DropIndexDeletes(items[idx].images, i);
  }

  /**
   * Appending `files` to item `idx` and then removing image `k` gives the
   * original images followed by `files`, with position `k` deleted.
   */
  lemma AppendThenRemove(items: seq<EvidenceItem>, idx: int, files: seq<File>, k: int)
    requires 0 <= idx < |items| && 0 <= k < |items[idx].images| + |files|
    ensures var all := items[idx].images + files;
      RemoveImage(AppendImages(items, idx, files), idx, k)[idx].images == all[..k] + all[k + 1..]
  {
    var appended := AppendImages(items, idx, files);
    DropIndexDeletes(appended[idx].images, k);
  }

  /** The "+" button: `[...arr, DefaultItem()]`. */
  function AddRow(items: seq<EvidenceItem>): (r: seq<EvidenceItem>)
    ensures |r| == |items| + 1
    ensures r[..|items|] == items
    ensures r[|items|] == DefaultItem()
  {
    items + [DefaultItem()]
  }

  /** A freshly added row has no source and no images, so the form cannot be submitted. */
  lemma AddRowBlocks(s: FormState)
    ensures RequiredMissing(s.(items := AddRow(s.items)))
  {
    var items := AddRow(s.items);
    assert ItemMissing(items[|items| - 1]);
    SomeMissingIff(items);
  }
}
