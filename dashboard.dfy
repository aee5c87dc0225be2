/**
 * The list state of the admin dashboard: the four pieces of state its handlers update
 * (approved and removed review entries, deleted ids, payment-validation overrides), the two
 * lists it derives from them and the server's lists, and the tab counts.
 *
 * Submissions are JSON objects, modelled as maps from field names to values; an absent field
 * reads as `Null`, which behaves like both `undefined` and `null` here.
 */
module Dashboard {
  import opened Wrappers

  /** JSON values as the dashboard sees them; `createdAt` dates are held as their time in ms. */
  datatype Value = Null | Bool(b: bool) | Num(n: int) | Text(s: string) | Texts(ts: seq<string>) | Time(ms: nat)

  type Record = map<string, Value>

  /** `record.field`, with an absent field read as `Null`. */
  function Field(r: Record, k: string): Value {
    if k in r then r[k] else Null
  }

  /** JavaScript truthiness. */
  predicate Truthy(v: Value) {
    match v
    case Null => false
    case Bool(b) => b
    case Num(n) => n != 0
    case Text(s) => s != ""
    case _ => true
  }

  function IdOf(r: Record): Value { Field(r, "id") }

  /** The sort key: the `createdAt` time, or 0 when it is missing. */
  function TimeOf(r: Record): nat {
    match Field(r, "createdAt")
    case Time(ms) => ms
    case _ => 0
  }

  // ---------------------------------------------------------------- list helpers

  /** The elements of `s` as a set (`new Set(s)`). */
  function AsSet(s: seq<Value>): set<Value> {
    set x | x in s
  }

  /** The ids of the records of `rs`. */
  function IdSet(rs: seq<Record>): set<Value> {
    set i | 0 <= i < |rs| :: IdOf(rs[i])
  }

  predicate Distinct(s: seq<Value>) {
    forall i, j :: 0 <= i < j < |s| ==> s[i] != s[j]
  }

  /** No id occurs twice in `rs`. */
  predicate DistinctIds(rs: seq<Record>) {
    forall i, j :: 0 <= i < j < |rs| ==> IdOf(rs[i]) != IdOf(rs[j])
  }

  /** `prev.includes(x) ? prev : [...prev, x]`. */
  function AddOnce(s: seq<Value>, x: Value): (r: seq<Value>)
    ensures x in r
    ensures forall y :: y in r <==> y in s || y == x
    ensures Distinct(s) ==> Distinct(r)
    ensures x !in s ==> r == s + [x]
    ensures x in s ==> r == s
  {
    if x in s then s else s + [x]
  }

  /** `rs.filter((r) => !ids.has(r.id))`, in order. */
  function DropIds(rs: seq<Record>, ids: set<Value>): (r: seq<Record>)
    ensures |r| <= |rs|
    ensures forall i :: 0 <= i < |r| ==> IdOf(r[i]) !in ids
    ensures forall x :: x in r <==> x in rs && IdOf(x) !in ids
  {
    if rs == [] then []
    else if IdOf(rs[0]) in ids then DropIds(rs[1..], ids)
    else [rs[0]] + DropIds(rs[1..], ids)
  }

  /** Filtering out ids that no record carries leaves the list as it is. */
  lemma {:induction false} DropIdsNone(rs: seq<Record>, ids: set<Value>)
    requires forall i :: 0 <= i < |rs| ==> IdOf(rs[i]) !in ids
    ensures DropIds(rs, ids) == rs
  {
    if rs != [] {
      DropIdsNone(rs[1..], ids);
    }
  }

  /** Filtering keeps the ids distinct. */
  lemma {:induction false} DropIdsDistinct(rs: seq<Record>, ids: set<Value>)
    requires DistinctIds(rs)
    ensures DistinctIds(DropIds(rs, ids))
  {
    if rs != [] {
      DropIdsDistinct(rs[1..], ids);
      var rest := DropIds(rs[1..], ids);
      forall j | 0 <= j < |rest|
        ensures IdOf(rest[j]) != IdOf(rs[0])
      {
        assert rest[j] in rs[1..];
        var k :| 0 <= k < |rs[1..]| && rs[1..][k] == rest[j];
        assert rs[k + 1] == rest[j];
      }
    }
  }

  // ---------------------------------------------------------------- the sort

  /** Newest first: `createdAt` never increases along the list. */
  predicate SortedDesc(rs: seq<Record>) {
    forall i, j :: 0 <= i < j < |rs| ==> TimeOf(rs[i]) >= TimeOf(rs[j])
  }

  /** `x` placed before the first entry that is not newer; `x` comes before entries of equal time. */
  function Insert(x: Record, ys: seq<Record>): (r: seq<Record>)
    ensures |r| == |ys| + 1
  {
    if ys == [] then [x]
    else if TimeOf(ys[0]) <= TimeOf(x) then [x] + ys
    else [ys[0]] + Insert(x, ys[1..])
  }

  lemma {:induction false} InsertMultiset(x: Record, ys: seq<Record>)
    ensures multiset(Insert(x, ys)) == multiset(ys) + multiset{x}
  {
    if ys != [] && TimeOf(ys[0]) > TimeOf(x) {
      InsertMultiset(x, ys[1..]);
      assert ys == [ys[0]] + ys[1..];
    }
  }

  /** No entry of `Insert(x, ys)` is newer than `t` when neither `x` nor any of `ys` is. */
  lemma {:induction false} InsertBounded(x: Record, ys: seq<Record>, t: nat)
    requires TimeOf(x) <= t
    requires forall j :: 0 <= j < |ys| ==> TimeOf(ys[j]) <= t
    ensures forall j :: 0 <= j < |Insert(x, ys)| ==> TimeOf(Insert(x, ys)[j]) <= t
  {
    if ys != [] && TimeOf(ys[0]) > TimeOf(x) {
      InsertBounded(x, ys[1..], t);
    }
  }

  lemma {:induction false} InsertSorted(x: Record, ys: seq<Record>)
    requires SortedDesc(ys)
    ensures SortedDesc(Insert(x, ys))
  {
    if ys != [] && TimeOf(ys[0]) > TimeOf(x) {
      InsertSorted(x, ys[1..]);
      InsertBounded(x, ys[1..], TimeOf(ys[0]));
    }
  }

  /**
   * `merged.sort((a, b) => time(b) - time(a))`: a stable sort, newest first, written as an
   * insertion sort in which earlier entries win ties.
   */
  function SortByTimeDesc(rs: seq<Record>): (r: seq<Record>)
    ensures multiset(r) == multiset(rs)
    ensures SortedDesc(r)
  {
    if rs == [] then []
    else
      var rest := SortByTimeDesc(rs[1..]);
      InsertMultiset(rs[0], rest);
      InsertSorted(rs[0], rest);
      assert rs == [rs[0]] + rs[1..];
      Insert(rs[0], rest)
  }

  /** A list that is already newest first is left in its order. */
  lemma {:induction false} SortSortedIsIdentity(rs: seq<Record>)
    requires SortedDesc(rs)
    ensures SortByTimeDesc(rs) == rs
  {
    if rs != [] {
      SortSortedIsIdentity(rs[1..]);
      if |rs| > 1 {
        assert TimeOf(rs[1]) <= TimeOf(rs[0]);
      }
    }
  }

  /** Sorting keeps the ids distinct. */
  lemma {:induction false} SortDistinctIds(rs: seq<Record>)
    requires DistinctIds(rs)
    ensures DistinctIds(SortByTimeDesc(rs))
  {
    if rs != [] {
      SortDistinctIds(rs[1..]);
      var sorted := SortByTimeDesc(rs[1..]);
      forall y | y in sorted
        ensures IdOf(y) != IdOf(rs[0])
      {
        assert y in multiset(rs[1..]);
        var k :| 0 <= k < |rs[1..]| && rs[1..][k] == y;
        assert rs[k + 1] == y;
      }
      InsertDistinctIds(rs[0], sorted);
    }
  }

  lemma {:induction false} InsertDistinctIds(x: Record, ys: seq<Record>)
    requires DistinctIds(ys)
    requires forall y :: y in ys ==> IdOf(y) != IdOf(x)
    ensures DistinctIds(Insert(x, ys))
  {
    if ys == [] {
    } else if TimeOf(ys[0]) <= TimeOf(x) {
      ConsDistinctIds(x, ys);
    } else {
      var tail := ys[1..];
      assert forall j :: 0 <= j < |tail| ==> tail[j] == ys[j + 1];
      InsertDistinctIds(x, tail);
      var rest := Insert(x, tail);
      InsertMembers(x, tail);
      forall j | 0 <= j < |rest|
        ensures IdOf(rest[j]) != IdOf(ys[0])
      {
        assert rest[j] in rest;
        if rest[j] != x {
          var k :| 0 <= k < |tail| && tail[k] == rest[j];
          assert ys[k + 1] == rest[j];
        }
      }
      ConsDistinctIds(ys[0], rest);
    }
  }

  /** The entries of `Insert(x, ys)` are `x` and those of `ys`. */
  lemma InsertMembers(x: Record, ys: seq<Record>)
    ensures forall z :: z in Insert(x, ys) <==> z == x || z in ys
  {
    InsertMultiset(x, ys);
    forall z
      ensures z in Insert(x, ys) <==> z == x || z in ys
    {
      assert z in Insert(x, ys) <==> z in multiset(Insert(x, ys));
      assert z in ys <==> z in multiset(ys);
    }
  }

  /** A record in front of a list with distinct ids, none of them its own, keeps the ids distinct. */
  lemma ConsDistinctIds(h: Record, rest: seq<Record>)
    requires DistinctIds(rest)
    requires forall j :: 0 <= j < |rest| ==> IdOf(rest[j]) != IdOf(h)
    ensures DistinctIds([h] + rest)
  {
    var s := [h] + rest;
    forall i, j | 0 <= i < j < |s|
      ensures IdOf(s[i]) != IdOf(s[j])
    {
      assert s[j] == rest[j - 1];
      if i > 0 {
        assert s[i] == rest[i - 1];
      }
    }
  }

  // ---------------------------------------------------------------- overrides

  /** The four fields a payment validation writes into an override. */
  const ValidationKeys: set<string> :=
    {"paymentValidated", "ocrPaymentDetected", "ocrValidationReasons", "ocrMatchedAmount"}

  /** `value ?? fallback`. */
  function OrElse(v: Value, fallback: Value): Value {
    if v == Null then fallback else v
  }

  /** The override fields taken from an updated submission, with their defaults. */
  function ValidationFields(u: Record): (r: Record)
    ensures r.Keys == ValidationKeys
    ensures r["paymentValidated"] == OrElse(Field(u, "paymentValidated"), Bool(false))
    ensures r["ocrPaymentDetected"] == Field(u, "ocrPaymentDetected")
    ensures r["ocrValidationReasons"] == OrElse(Field(u, "ocrValidationReasons"), Texts([]))
    ensures r["ocrMatchedAmount"] == Field(u, "ocrMatchedAmount")
  {
    map["paymentValidated" := OrElse(Field(u, "paymentValidated"), Bool(false)),
        "ocrPaymentDetected" := OrElse(Field(u, "ocrPaymentDetected"), Null),
        "ocrValidationReasons" := OrElse(Field(u, "ocrValidationReasons"), Texts([])),
        "ocrMatchedAmount" := OrElse(Field(u, "ocrMatchedAmount"), Null)]
  }

  /** Every override holds only the four validation fields. */
  predicate OverridesFieldsOnly(overrides: map<Value, Record>) {
    forall k :: k in overrides ==> overrides[k].Keys <= ValidationKeys
  }

  /** `{ ...submission, ...override }` for the entries that have an override. */
  function ApplyOverrides(rs: seq<Record>, overrides: map<Value, Record>): (r: seq<Record>)
    ensures |r| == |rs|
    ensures forall i :: 0 <= i < |rs| ==>
      r[i] == (if IdOf(rs[i]) in overrides then rs[i] + overrides[IdOf(rs[i])] else rs[i])
  {
    if rs == [] then []
    else
      [if IdOf(rs[0]) in overrides then rs[0] + overrides[IdOf(rs[0])] else rs[0]]
      + ApplyOverrides(rs[1..], overrides)
  }

  /** Overrides of validation fields keep every entry's id and time. */
  lemma ApplyOverridesKeepsKeys(rs: seq<Record>, overrides: map<Value, Record>)
    requires OverridesFieldsOnly(overrides)
    ensures forall i :: 0 <= i < |rs| ==> IdOf(ApplyOverrides(rs, overrides)[i]) == IdOf(rs[i])
    ensures forall i :: 0 <= i < |rs| ==> TimeOf(ApplyOverrides(rs, overrides)[i]) == TimeOf(rs[i])
  {
    var r := ApplyOverrides(rs, overrides);
    forall i | 0 <= i < |rs|
      ensures IdOf(r[i]) == IdOf(rs[i]) && TimeOf(r[i]) == TimeOf(rs[i])
    {
      if IdOf(rs[i]) in overrides {
        var o := overrides[IdOf(rs[i])];
        assert "id" !in o && "createdAt" !in o;
        assert Field(r[i], "id") == Field(rs[i], "id");
        assert Field(r[i], "createdAt") == Field(rs[i], "createdAt");
      }
    }
  }

  /** `{ ...submission, ...updated }` for the entries whose id is the updated one's. */
  function MergeMatching(rs: seq<Record>, u: Record): (r: seq<Record>)
    ensures |r| == |rs|
    ensures forall i :: 0 <= i < |rs| ==> r[i] == (if IdOf(rs[i]) == IdOf(u) then rs[i] + u else rs[i])
    ensures forall i :: 0 <= i < |rs| ==> IdOf(r[i]) == IdOf(rs[i])
  {
    if rs == [] then []
    else
      var head := if IdOf(rs[0]) == IdOf(u) then rs[0] + u else rs[0];
      assert IdOf(head) == IdOf(rs[0]) by {
        if IdOf(rs[0]) == IdOf(u) && "id" !in u {
          assert IdOf(u) == Null;
        }
      }
      [head] + MergeMatching(rs[1..], u)
  }

  // ---------------------------------------------------------------- the derived lists

  /**
   * `reviewSubmissions`: the failed list without the removed ids, in order (the list itself
   * when nothing has been removed).
   */
  function ReviewView(failed: Option<seq<Record>>, removedIds: seq<Value>): (r: seq<Record>)
    ensures r == DropIds(failed.GetOr([]), AsSet(removedIds))
    ensures removedIds == [] ==> r == failed.GetOr([])
  {
    var base := failed.GetOr([]);
    if |removedIds| == 0 then
      DropIdsNone(base, AsSet(removedIds));
      base
    else DropIds(base, AsSet(removedIds))
  }

  /** The approved entries and the base entries they do not replace, newest first. */
  function Merged(baseFiltered: seq<Record>, approvedFiltered: seq<Record>): (r: seq<Record>)
    ensures multiset(r) == multiset(approvedFiltered + DropIds(baseFiltered, IdSet(approvedFiltered)))
    ensures SortedDesc(r)
  {
    SortByTimeDesc(approvedFiltered + DropIds(baseFiltered, IdSet(approvedFiltered)))
  }

  /** `successfulSubmissions`. */
  function SuccessfulView(submissions: Option<seq<Record>>, approved: seq<Record>, deletedIds: seq<Value>,
                          overrides: map<Value, Record>): seq<Record>
  {
    var base := submissions.GetOr([]);
    var baseFiltered := if |deletedIds| > 0 then DropIds(base, AsSet(deletedIds)) else base;
    var approvedFiltered := if |deletedIds| > 0 then DropIds(approved, AsSet(deletedIds)) else approved;
    if |approvedFiltered| == 0 then baseFiltered
    else
      var merged := Merged(baseFiltered, approvedFiltered);
      if |overrides| == 0 then merged else ApplyOverrides(merged, overrides)
  }

  /**
   * The two cases of `successfulSubmissions`: with no approved entry left after the delete
   * filter it is the filtered base list as it is; otherwise it is the merged, sorted list with
   * the overrides applied.
   */
  lemma SuccessfulViewCases(submissions: Option<seq<Record>>, approved: seq<Record>, deletedIds: seq<Value>,
                            overrides: map<Value, Record>)
    ensures var baseFiltered := DropIds(submissions.GetOr([]), AsSet(deletedIds));
      var approvedFiltered := DropIds(approved, AsSet(deletedIds));
      SuccessfulView(submissions, approved, deletedIds, overrides) ==
        if approvedFiltered == [] then baseFiltered
        else ApplyOverrides(Merged(baseFiltered, approvedFiltered), overrides)
  {
    if |deletedIds| == 0 {
      DropIdsNone(submissions.GetOr([]), AsSet(deletedIds));
      DropIdsNone(approved, AsSet(deletedIds));
    }
    var approvedFiltered := DropIds(approved, AsSet(deletedIds));
    if approvedFiltered != [] && |overrides| == 0 {
      var merged := Merged(DropIds(submissions.GetOr([]), AsSet(deletedIds)), approvedFiltered);
      assert ApplyOverrides(merged, overrides) == merged;
    }
  }

  /** With overrides of validation fields only, a deleted id is never shown. */
  lemma SuccessfulNeverShowsDeleted(submissions: Option<seq<Record>>, approved: seq<Record>,
                                    deletedIds: seq<Value>, overrides: map<Value, Record>)
    requires OverridesFieldsOnly(overrides)
    ensures forall r :: r in SuccessfulView(submissions, approved, deletedIds, overrides) ==>
      IdOf(r) !in deletedIds
  {
    SuccessfulViewCases(submissions, approved, deletedIds, overrides);
    var baseFiltered := DropIds(submissions.GetOr([]), AsSet(deletedIds));
    var approvedFiltered := DropIds(approved, AsSet(deletedIds));
    if approvedFiltered != [] {
      var merged := Merged(baseFiltered, approvedFiltered);
      ApplyOverridesKeepsKeys(merged, overrides);
      var shown := ApplyOverrides(merged, overrides);
      forall r | r in shown
        ensures IdOf(r) !in deletedIds
      {
        var i :| 0 <= i < |shown| && shown[i] == r;
        assert merged[i] in multiset(approvedFiltered + DropIds(baseFiltered, IdSet(approvedFiltered)));
      }
    }
  }

  /**
   * With distinct ids in the server's list and in the approved list, the successful list has
   * distinct ids: an approved entry replaces the base entry with its id.
   */
  lemma SuccessfulDistinctIds(submissions: Option<seq<Record>>, approved: seq<Record>,
                              deletedIds: seq<Value>, overrides: map<Value, Record>)
    requires DistinctIds(submissions.GetOr([])) && DistinctIds(approved)
    requires OverridesFieldsOnly(overrides)
    ensures DistinctIds(SuccessfulView(submissions, approved, deletedIds, overrides))
  {
    SuccessfulViewCases(submissions, approved, deletedIds, overrides);
    var baseFiltered := DropIds(submissions.GetOr([]), AsSet(deletedIds));
    var approvedFiltered := DropIds(approved, AsSet(deletedIds));
    DropIdsDistinct(submissions.GetOr([]), AsSet(deletedIds));
    if approvedFiltered != [] {
      DropIdsDistinct(approved, AsSet(deletedIds));
      DropIdsDistinct(baseFiltered, IdSet(approvedFiltered));
      AppendDistinctIds(approvedFiltered, DropIds(baseFiltered, IdSet(approvedFiltered)));
      SortDistinctIds(approvedFiltered + DropIds(baseFiltered, IdSet(approvedFiltered)));
      ApplyOverridesDistinctIds(Merged(baseFiltered, approvedFiltered), overrides);
    }
  }

  lemma AppendDistinctIds(a: seq<Record>, b: seq<Record>)
    requires DistinctIds(a) && DistinctIds(b)
    requires forall j :: 0 <= j < |b| ==> IdOf(b[j]) !in IdSet(a)
    ensures DistinctIds(a + b)
  {
    forall i, j | 0 <= i < j < |a + b|
      ensures IdOf((a + b)[i]) != IdOf((a + b)[j])
    {
      if i < |a| && j >= |a| {
        assert IdOf(a[i]) in IdSet(a);
        assert (a + b)[j] == b[j - |a|];
      }
    }
  }

  lemma ApplyOverridesDistinctIds(rs: seq<Record>, overrides: map<Value, Record>)
    requires DistinctIds(rs) && OverridesFieldsOnly(overrides)
    ensures DistinctIds(ApplyOverrides(rs, overrides))
  {
    ApplyOverridesKeepsKeys(rs, overrides);
  }

  /** The tab counts. */
  datatype Counts = Counts(successful: nat, failed: nat)

  // ---------------------------------------------------------------- the component's state

  class DashboardState {
    var removedReviewIds: seq<Value>
    var approvedFromReview: seq<Record>
    var deletedSuccessfulIds: seq<Value>
    var successfulOverrides: map<Value, Record>

    /** What the handlers keep true: no id twice in any list, overrides of validation fields only. */
    predicate Valid()
      reads this
    {
      Distinct(removedReviewIds) && Distinct(deletedSuccessfulIds) && DistinctIds(approvedFromReview)
      && OverridesFieldsOnly(successfulOverrides)
    }

    /** The state as the component mounts. */
    constructor()
      ensures removedReviewIds == [] && approvedFromReview == [] && deletedSuccessfulIds == []
      ensures successfulOverrides == map[]
      ensures Valid()
    {
      removedReviewIds := [];
      approvedFromReview := [];
      deletedSuccessfulIds := [];
      successfulOverrides := map[];
    }

    function ReviewSubmissions(failed: Option<seq<Record>>): seq<Record>
      reads this
    {
      ReviewView(failed, removedReviewIds)
    }

    function SuccessfulSubmissions(submissions: Option<seq<Record>>): seq<Record>
      reads this
    {
      SuccessfulView(submissions, approvedFromReview, deletedSuccessfulIds, successfulOverrides)
    }

    /** The tab counts are the lengths of the two derived lists. */
    function TabCounts(submissions: Option<seq<Record>>, failed: Option<seq<Record>>): (c: Counts)
      reads this
      ensures c.successful == |SuccessfulSubmissions(submissions)|
      ensures c.failed == |ReviewSubmissions(failed)|
    {
      Counts(|SuccessfulSubmissions(submissions)|, |ReviewSubmissions(failed)|)
    }

    /** The list the table shows: the review list exactly on the "failed" tab. */
    function ActiveData(tab: string, submissions: Option<seq<Record>>, failed: Option<seq<Record>>): (r: seq<Record>)
      reads this
      ensures tab == "failed" ==> r == ReviewSubmissions(failed)
      ensures tab != "failed" ==> r == SuccessfulSubmissions(submissions)
    {
      if tab == "failed" then ReviewSubmissions(failed) else SuccessfulSubmissions(submissions)
    }

    /**
     * An approved review entry: without an id nothing changes; otherwise its id is removed
     * from review once, and it replaces any approved entry with its id, placed last.
     */
    method HandleSubmissionApproved(approved: Record)
      modifies this
      ensures !Truthy(IdOf(approved)) ==> (removedReviewIds == old(removedReviewIds)
        && approvedFromReview == old(approvedFromReview))
      ensures Truthy(IdOf(approved)) ==> (removedReviewIds == AddOnce(old(removedReviewIds), IdOf(approved))
        && approvedFromReview == DropIds(old(approvedFromReview), {IdOf(approved)}) + [approved])
      ensures deletedSuccessfulIds == old(deletedSuccessfulIds) && successfulOverrides == old(successfulOverrides)
      ensures old(Valid()) ==> Valid()
    {
      var id := IdOf(approved);
      if !Truthy(id) {
        return;
      }
      removedReviewIds := AddOnce(removedReviewIds, id);
      ApprovedKeepsDistinct(approvedFromReview, approved);
      approvedFromReview := DropIds(approvedFromReview, {id}) + [approved];
    }

    /**
     * A deleted successful entry: without an id nothing changes; otherwise its id is recorded
     * once as deleted, it leaves the approved list, and only its override is dropped.
     */
    method HandleSubmissionDeleted(deletedId: Value)
      modifies this
      ensures !Truthy(deletedId) ==> (deletedSuccessfulIds == old(deletedSuccessfulIds)
        && approvedFromReview == old(approvedFromReview) && successfulOverrides == old(successfulOverrides))
      ensures Truthy(deletedId) ==> (deletedSuccessfulIds == AddOnce(old(deletedSuccessfulIds), deletedId)
        && approvedFromReview == DropIds(old(approvedFromReview), {deletedId})
        && successfulOverrides == old(successfulOverrides) - {deletedId})
      ensures removedReviewIds == old(removedReviewIds)
      ensures old(Valid()) ==> Valid()
    {
      if !Truthy(deletedId) {
        return;
      }
      deletedSuccessfulIds := AddOnce(deletedSuccessfulIds, deletedId);
      if DistinctIds(approvedFromReview) {
        DropIdsDistinct(approvedFromReview, {deletedId});
      }
      approvedFromReview := DropIds(approvedFromReview, {deletedId});
      if deletedId in successfulOverrides {
        successfulOverrides := successfulOverrides - {deletedId};
      }
    }

    /**
     * A payment validation: without an id nothing changes; otherwise the update is merged into
     * the approved entries with its id, and its override gets the four validation fields.
     */
    method HandleSubmissionPaymentValidated(updated: Record)
      modifies this
      ensures !Truthy(IdOf(updated)) ==> (approvedFromReview == old(approvedFromReview)
        && successfulOverrides == old(successfulOverrides))
      ensures Truthy(IdOf(updated)) ==> (approvedFromReview == MergeMatching(old(approvedFromReview), updated)
        && successfulOverrides == old(successfulOverrides)[IdOf(updated) :=
             (if IdOf(updated) in old(successfulOverrides) then old(successfulOverrides)[IdOf(updated)] else map[])
             + ValidationFields(updated)])
      ensures removedReviewIds == old(removedReviewIds) && deletedSuccessfulIds == old(deletedSuccessfulIds)
      ensures old(Valid()) ==> Valid()
    {
      var id := IdOf(updated);
      if !Truthy(id) {
        return;
      }
      approvedFromReview := MergeMatching(approvedFromReview, updated);
      var previous: Record := if id in successfulOverrides then successfulOverrides[id] else map[];
      successfulOverrides := successfulOverrides[id := previous + ValidationFields(updated)];
    }
  }

  /** Dropping an id and appending the entry with that id keeps the ids distinct; it appears once, last. */
  lemma ApprovedKeepsDistinct(approved: seq<Record>, entry: Record)
    ensures DistinctIds(approved) ==> DistinctIds(DropIds(approved, {IdOf(entry)}) + [entry])
    ensures forall i :: 0 <= i < |DropIds(approved, {IdOf(entry)})| ==>
      IdOf(DropIds(approved, {IdOf(entry)})[i]) != IdOf(entry)
  {
    if DistinctIds(approved) {
      DropIdsDistinct(approved, {IdOf(entry)});
    }
  }

  /** After an approval the entry's id is no longer in the review list. */
  lemma ApprovedLeavesReview(failed: Option<seq<Record>>, removedIds: seq<Value>, id: Value)
    ensures forall r :: r in ReviewView(failed, AddOnce(removedIds, id)) ==> IdOf(r) != id
  {
    assert id in AsSet(AddOnce(removedIds, id));
  }

  /** After a deletion, with overrides of validation fields only, the id is no longer shown. */
  lemma DeletedLeavesSuccessful(submissions: Option<seq<Record>>, approved: seq<Record>,
                                deletedIds: seq<Value>, overrides: map<Value, Record>, id: Value)
    requires OverridesFieldsOnly(overrides)
    ensures forall r :: (r in SuccessfulView(submissions, DropIds(approved, {id}), AddOnce(deletedIds, id),
                                             overrides - {id})) ==> IdOf(r) != id
  {
    assert OverridesFieldsOnly(overrides - {id});
    SuccessfulNeverShowsDeleted(submissions, DropIds(approved, {id}), AddOnce(deletedIds, id), overrides - {id});
  }
}
