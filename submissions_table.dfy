/**
 * The admin table's export logic: how a stored selection and its free text are shown, the
 * rows of the spreadsheet export, the guard on downloading an empty list, and the record-count
 * caption.
 */
module SubmissionsTable {
  import opened Wrappers
  import opened Text

  /** Labels of the known selections. */
  const PlayerTypeLabels: map<string, string> :=
    map["batsman" := "Batsman", "bowler" := "Bowler", "all_rounder" := "All Rounder", "other" := "Other"]
  const FoodTypeLabels: map<string, string> :=
    map["veg" := "Veg", "non_veg" := "Non-Veg", "other" := "Other"]
  const FeeLabels: map<string, string> :=
    map["yes" := "Payment YES", "no" := "Payment NO", "other" := "Other"]

  /** `primary` has a (non-empty) label in `labels`. */
  predicate KnownLabel(primary: Option<string>, labels: Option<map<string, string>>) {
    labels.Some? && primary.Some? && primary.value != ""
    && primary.value in labels.value && labels.value[primary.value] != ""
  }

  /**
   * `formatValue`: the free text when there is one; otherwise the label of a known selection,
   * or the selection itself.
   */
  function FormatValue(primary: Option<string>, other: Option<string>, labels: Option<map<string, string>>)
    : (r: Option<string>)
    ensures other.Some? && other.value != "" ==> r == other
    ensures (other.None? || other.value == "") && KnownLabel(primary, labels) ==>
      r == Some(labels.value[primary.value])
    ensures (other.None? || other.value == "") && !KnownLabel(primary, labels) ==> r == primary
  {
    if labels.Some? && primary.Some? && primary.value != ""
       && primary.value in labels.value && labels.value[primary.value] != "" then
      if other.Some? && other.value != "" then other else Some(labels.value[primary.value])
    else if other.Some? && other.value != "" then other
    else primary
  }

  /** The registered free text wins over every selection, known or not. */
  lemma FormatValueOtherWins(primary: Option<string>, other: string, labels: Option<map<string, string>>)
    requires other != ""
    ensures FormatValue(primary, Some(other), labels) == Some(other)
  {
  }

  /** The fields of a stored submission the export reads. */
  datatype Submission = Submission(
    id: Option<string>, createdAt: Option<string>, name: Option<string>, address: Option<string>,
    playerType: Option<string>, playerTypeOther: Option<string>, tshirtSize: Option<string>,
    jerseyName: Option<string>, jerseyNumber: Option<string>,
    foodType: Option<string>, foodTypeOther: Option<string>,
    feeResponse: Option<string>, feeResponseOther: Option<string>,
    photo: Option<string>, paymentScreenshot: Option<string>)

  /** One spreadsheet row, column by column. */
  datatype ExportRow = ExportRow(
    submittedAt: string, name: Option<string>, address: Option<string>, playerType: Option<string>,
    tshirtSize: Option<string>, jerseyName: Option<string>, jerseyNumber: Option<string>,
    foodPreference: Option<string>, feeResponse: Option<string>,
    photoUrl: string, paymentScreenshotUrl: string, submissionId: Option<string>)

  /**
   * An attachment's absolute URL, or "" without one. `resolve` stands for
   * `new URL(path, window.location.origin).href`.
   */
  function AttachmentUrl(path: Option<string>, resolve: string -> string): string {
    if path.Some? && path.value != "" then resolve(path.value) else ""
  }

  /** The row of one submission; `formatDate` stands for `new Date(createdAt).toLocaleString()`. */
  function ExportRowOf(s: Submission, formatDate: Option<string> -> string, resolve: string -> string): (row: ExportRow)
    ensures row.submittedAt == formatDate(s.createdAt) && row.submissionId == s.id
    ensures row.name == s.name && row.address == s.address && row.tshirtSize == s.tshirtSize
    ensures row.jerseyName == s.jerseyName && row.jerseyNumber == s.jerseyNumber
    ensures row.playerType == FormatValue(s.playerType, s.playerTypeOther, Some(PlayerTypeLabels))
    ensures row.foodPreference == FormatValue(s.foodType, s.foodTypeOther, Some(FoodTypeLabels))
    ensures row.feeResponse == FormatValue(s.feeResponse, s.feeResponseOther, Some(FeeLabels))
    ensures row.photoUrl == if s.photo.Some? && s.photo.value != "" then resolve(s.photo.value) else ""
    ensures row.paymentScreenshotUrl ==
      if s.paymentScreenshot.Some? && s.paymentScreenshot.value != "" then resolve(s.paymentScreenshot.value) else ""
  {
    ExportRow(
      formatDate(s.createdAt), s.name, s.address,
      FormatValue(s.playerType, s.playerTypeOther, Some(PlayerTypeLabels)),
      s.tshirtSize, s.jerseyName, s.jerseyNumber,
      FormatValue(s.foodType, s.foodTypeOther, Some(FoodTypeLabels)),
      FormatValue(s.feeResponse, s.feeResponseOther, Some(FeeLabels)),
      AttachmentUrl(s.photo, resolve), AttachmentUrl(s.paymentScreenshot, resolve), s.id)
  }

  /**
   * `buildExportRows`: one row per submission, in order, keyed by the submission's id, with
   * empty URL cells for missing attachments.
   */
  function BuildExportRows(subs: seq<Submission>, formatDate: Option<string> -> string, resolve: string -> string)
    : (rows: seq<ExportRow>)
    ensures |rows| == |subs|
    ensures forall i :: 0 <= i < |subs| ==> rows[i] == ExportRowOf(subs[i], formatDate, resolve)
    ensures forall i :: 0 <= i < |subs| ==> rows[i].submissionId == subs[i].id
    ensures forall i :: 0 <= i < |subs| ==> rows[i].name == subs[i].name && rows[i].address == subs[i].address
    ensures forall i :: 0 <= i < |subs| ==>
      (rows[i].photoUrl == "" <== subs[i].photo.None? || subs[i].photo.value == "")
    ensures forall i :: 0 <= i < |subs| ==>
      (rows[i].paymentScreenshotUrl == "" <== subs[i].paymentScreenshot.None? || subs[i].paymentScreenshot.value == "")
  {
    if subs == [] then []
    else [ExportRowOf(subs[0], formatDate, resolve)] + BuildExportRows(subs[1..], formatDate, resolve)
  }

  /** Export splits along the list: the rows of `a + b` are the rows of `a`, then those of `b`. */
  lemma {:induction false} BuildExportRowsAppend(a: seq<Submission>, b: seq<Submission>,
                                                 formatDate: Option<string> -> string, resolve: string -> string)
    ensures BuildExportRows(a + b, formatDate, resolve)
      == BuildExportRows(a, formatDate, resolve) + BuildExportRows(b, formatDate, resolve)
  {
    if a == [] {
      assert a + b == b;
    } else {
      var c := a + b;
      assert c[0] == a[0] && c[1..] == a[1..] + b;
      BuildExportRowsCons(c, formatDate, resolve);
      BuildExportRowsCons(a, formatDate, resolve);
      BuildExportRowsAppend(a[1..], b, formatDate, resolve);
      var row := [ExportRowOf(a[0], formatDate, resolve)];
      var rowsA, rowsB := BuildExportRows(a[1..], formatDate, resolve), BuildExportRows(b, formatDate, resolve);
      AppendAssoc(row, rowsA, rowsB);
    }
  }

  lemma AppendAssoc<T>(x: seq<T>, y: seq<T>, z: seq<T>)
    ensures x + (y + z) == (x + y) + z
  {
  }

  /** The rows of a non-empty list: the first submission's row, then the rows of the rest. */
  lemma BuildExportRowsCons(subs: seq<Submission>, formatDate: Option<string> -> string, resolve: string -> string)
    requires subs != []
    ensures BuildExportRows(subs, formatDate, resolve)
      == [ExportRowOf(subs[0], formatDate, resolve)] + BuildExportRows(subs[1..], formatDate, resolve)
  {
  }

  /** `handleDownload`: nothing is exported for a missing or empty list. */
  function DownloadRows(subs: Option<seq<Submission>>, formatDate: Option<string> -> string, resolve: string -> string)
    : (r: Option<seq<ExportRow>>)
    ensures r.None? <==> subs.None? || subs.value == []
    ensures r.Some? ==> r.value == BuildExportRows(subs.value, formatDate, resolve) && r.value != []
  {
    if subs.None? || |subs.value| == 0 then None else Some(BuildExportRows(subs.value, formatDate, resolve))
  }

  /** The caption above the table: "Showing n record." or "Showing n records.". */
  function RecordCountText(n: nat): (r: string)
    ensures StartsWith(r, "Showing " + NatToString(n) + " record")
  {
    var prefix := "Showing " + NatToString(n) + " record";
    var r := prefix + (if n != 1 then "s" else "") + ".";
    assert r[..|prefix|] == prefix;
    r
  }

  /** The caption says "records" exactly when the count is not one. */
  lemma RecordCountTextPlural(n: nat)
    ensures EndsWith(RecordCountText(n), "records.") <==> n != 1
  {
    var prefix := "Showing " + NatToString(n) + " record";
    var r := RecordCountText(n);
    if n == 1 {
      assert NatToString(1) == "1";
      assert r == "Showing 1 record.";
    } else {
      assert r == prefix + "s.";
      assert r[|r| - 8..] == prefix[|prefix| - 6..] + "s.";
      assert prefix[|prefix| - 6..] == "record";
    }
  }
}
