/** The analysis routes: a batch that assesses every photo of a report, and
    the re-assessment of a single snag. The vision service's reply to each
    photo and the parser are parameters; so is the set of snag ids whose row
    update the database rejects. */
module AnalyzeRoutes {
  import opened Common
  import opened Records
  import opened Store
  import opened Claude

  /** The six columns an assessment writes; nothing else of the row changes. */
  function WithAnalysis(s: Snag, a: Analysis): (r: Snag)
    ensures r.id == s.id && r.reportId == s.reportId && r.photoUrl == s.photoUrl
    ensures r.displayOrder == s.displayOrder && r.room == s.room && r.userEdited == s.userEdited
    ensures r.defectType == Some(a.defectType) && r.description == Some(a.description)
    ensures r.severity == Some(a.severity) && r.suggestedTrade == Some(a.suggestedTrade)
    ensures r.remedialAction == Some(a.remedialAction) && r.aiConfidence == Some(a.confidence)
  {
    s.(defectType := Some(a.defectType), description := Some(a.description),
       severity := Some(a.severity), suggestedTrade := Some(a.suggestedTrade),
       remedialAction := Some(a.remedialAction), aiConfidence := Some(a.confidence))
  }

  /** The batch writes a row of the report when the service answered and the
      database accepts the update. */
  predicate Updated(s: Snag, reportId: Id, replies: Id -> ApiReply, failing: set<Id>) {
    s.reportId == reportId && replies(s.id).Replied? && s.id !in failing
  }

  /** The update for this row is issued but rejected. It is returned, not
      awaited, inside the per-snag `try`, so the `catch` does not see the
      rejection and the whole batch fails. */
  predicate Rejected(s: Snag, reportId: Id, replies: Id -> ApiReply, failing: set<Id>) {
    s.reportId == reportId && replies(s.id).Replied? && s.id in failing
  }

  /** A row after the batch. */
  function BatchRow(s: Snag, reportId: Id, replies: Id -> ApiReply, parse: Parser, failing: set<Id>): Snag {
    if Updated(s, reportId, replies, failing) then WithAnalysis(s, ReadReply(replies(s.id).firstText, parse)) else s
  }

  /** The snag table after the batch: every update is on a row of its own, so
      the concurrent writes of `Promise.all` leave this table whatever their
      interleaving (see `BatchInAnyOrder`). */
  function BatchTable(t: seq<Snag>, reportId: Id, replies: Id -> ApiReply, parse: Parser, failing: set<Id>): (r: seq<Snag>)
    ensures |r| == |t|
    ensures forall k :: 0 <= k < |t| ==> r[k].id == t[k].id && r[k].reportId == t[k].reportId
    ensures forall k :: 0 <= k < |t| && !Updated(t[k], reportId, replies, failing) ==> r[k] == t[k]
    ensures forall k :: 0 <= k < |t| && Updated(t[k], reportId, replies, failing) ==>
              r[k] == WithAnalysis(t[k], AnalyzeSnagPhoto(replies(t[k].id), parse).value)
  {
    seq(|t|, k requires 0 <= k < |t| => BatchRow(t[k], reportId, replies, parse, failing))
  }

  /** The writes of the batch, in table order. */
  function BatchWrites(t: seq<Snag>, reportId: Id, replies: Id -> ApiReply, parse: Parser, failing: set<Id>): seq<Write>
    decreases |t|
  {
    if t == [] then []
    else
      var init := BatchWrites(t[..|t| - 1], reportId, replies, parse, failing);
      var last := t[|t| - 1];
      if Updated(last, reportId, replies, failing)
      then init + [UpdateSnagRow(BatchRow(last, reportId, replies, parse, failing))]
      else init
  }

  predicate SomeRejected(t: seq<Snag>, reportId: Id, replies: Id -> ApiReply, failing: set<Id>) {
    exists k :: 0 <= k < |t| && Rejected(t[k], reportId, replies, failing)
  }

  /** `prisma.snag.update({ where: { id } })` on a table. */
  function ApplyUpdate(t: seq<Snag>, s: Snag): (r: seq<Snag>)
    ensures |r| == |t|
    ensures forall k :: 0 <= k < |t| ==> r[k] == if t[k].id == s.id then s else t[k]
  {
    seq(|t|, k requires 0 <= k < |t| => if t[k].id == s.id then s else t[k])
  }

  /** Updates of two different rows can be issued in either order. */
  lemma UpdatesCommute(t: seq<Snag>, a: Snag, b: Snag)
    requires a.id != b.id
    ensures ApplyUpdate(ApplyUpdate(t, a), b) == ApplyUpdate(ApplyUpdate(t, b), a)
  {
  }

  /** The rows the batch writes, in table order: one per updated row, each
      the row as the batch leaves it. */
  function UpdatedRows(t: seq<Snag>, reportId: Id, replies: Id -> ApiReply, parse: Parser, failing: set<Id>): (r: seq<Snag>)
    ensures |r| <= |t|
    decreases |t|
  {
    if t == [] then []
    else
      var init := UpdatedRows(t[..|t| - 1], reportId, replies, parse, failing);
      var last := t[|t| - 1];
      if Updated(last, reportId, replies, failing)
      then init + [BatchRow(last, reportId, replies, parse, failing)]
      else init
  }

  /** `x` is some updated row of `t` as the batch leaves it. */
  ghost predicate WrittenFrom(t: seq<Snag>, reportId: Id, replies: Id -> ApiReply, parse: Parser, failing: set<Id>, x: Snag) {
    exists k :: 0 <= k < |t| && Updated(t[k], reportId, replies, failing) && x == BatchRow(t[k], reportId, replies, parse, failing)
  }

  /** Every row the batch writes is an updated row as the batch leaves it,
      and every updated row is written. */
  lemma {:induction false} UpdatedRowsExact(t: seq<Snag>, reportId: Id, replies: Id -> ApiReply, parse: Parser, failing: set<Id>)
    ensures forall x :: x in UpdatedRows(t, reportId, replies, parse, failing) ==> WrittenFrom(t, reportId, replies, parse, failing, x)
    ensures forall k :: 0 <= k < |t| && Updated(t[k], reportId, replies, failing) ==>
              BatchRow(t[k], reportId, replies, parse, failing) in UpdatedRows(t, reportId, replies, parse, failing)
    decreases |t|
  {
    if t != [] {
      var n := |t| - 1;
      var init := t[..n];
      UpdatedRowsExact(init, reportId, replies, parse, failing);
      var before := UpdatedRows(init, reportId, replies, parse, failing);
      var r := UpdatedRows(t, reportId, replies, parse, failing);
      assert r == before || r == before + [BatchRow(t[n], reportId, replies, parse, failing)];
      forall x | x in r ensures WrittenFrom(t, reportId, replies, parse, failing, x) {
        if x in before {
          assert WrittenFrom(init, reportId, replies, parse, failing, x);
          var k :| 0 <= k < |init| && Updated(init[k], reportId, replies, failing) && x == BatchRow(init[k], reportId, replies, parse, failing);
          assert t[k] == init[k];
        } else {
          assert x == BatchRow(t[n], reportId, replies, parse, failing) && Updated(t[n], reportId, replies, failing);
        }
      }
      forall k | 0 <= k < |t| && Updated(t[k], reportId, replies, failing)
        ensures BatchRow(t[k], reportId, replies, parse, failing) in r
      {
        if k < n {
          assert t[k] == init[k];
          assert BatchRow(init[k], reportId, replies, parse, failing) in before;
        }
      }
    }
  }

  /** The rows the batch writes have pairwise distinct ids, when the
      table's ids are unique. */
  lemma {:induction false} UpdatedRowsDistinct(t: seq<Snag>, reportId: Id, replies: Id -> ApiReply, parse: Parser, failing: set<Id>)
    requires UniqueSnagIds(t)
    ensures UniqueSnagIds(UpdatedRows(t, reportId, replies, parse, failing))
    decreases |t|
  {
    if t != [] {
      var n := |t| - 1;
      var init := t[..n];
      assert forall k :: 0 <= k < n ==> init[k] == t[k];
      UpdatedRowsDistinct(init, reportId, replies, parse, failing);
      UpdatedRowsExact(init, reportId, replies, parse, failing);
      var before := UpdatedRows(init, reportId, replies, parse, failing);
      if Updated(t[n], reportId, replies, failing) {
        var r := UpdatedRows(t, reportId, replies, parse, failing);
        forall j | 0 <= j < |before| ensures before[j].id != t[n].id {
          assert WrittenFrom(init, reportId, replies, parse, failing, before[j]);
          var k :| 0 <= k < |init| && Updated(init[k], reportId, replies, failing) && before[j] == BatchRow(init[k], reportId, replies, parse, failing);
          assert before[j].id == t[k].id;
        }
        forall a, b | 0 <= a < b < |r| ensures r[a].id != r[b].id {
          assert r[a] == before[a];
          if b < |before| {
            assert r[b] == before[b];
          }
        }
      }
    }
  }

  /** The row updates a list of rows issues. */
  function UpdateWrites(rows: seq<Snag>): (w: seq<Write>)
    ensures |w| == |rows|
    ensures forall j :: 0 <= j < |rows| ==> w[j] == UpdateSnagRow(rows[j])
  {
    seq(|rows|, j requires 0 <= j < |rows| => UpdateSnagRow(rows[j]))
  }

  /** The batch's writes are exactly the updates of `UpdatedRows`. */
  lemma {:induction false} BatchWritesAreUpdates(t: seq<Snag>, reportId: Id, replies: Id -> ApiReply, parse: Parser, failing: set<Id>)
    ensures BatchWrites(t, reportId, replies, parse, failing) == UpdateWrites(UpdatedRows(t, reportId, replies, parse, failing))
    decreases |t|
  {
    if t != [] {
      BatchWritesAreUpdates(t[..|t| - 1], reportId, replies, parse, failing);
    }
  }

  /** A sequence of row updates applied one after another. */
  function ApplyAll(t: seq<Snag>, rows: seq<Snag>): seq<Snag>
    decreases |rows|
  {
    if rows == [] then t else ApplyAll(ApplyUpdate(t, rows[0]), rows[1..])
  }

  /** No two updates in the list disagree about the same row. */
  predicate Consistent(rows: seq<Snag>) {
    forall i, j :: 0 <= i < |rows| && 0 <= j < |rows| && rows[i].id == rows[j].id ==> rows[i] == rows[j]
  }

  /** Applying consistent updates leaves each touched row as the update
      wrote it and every other row as it was, whatever their order. */
  lemma {:induction false} ApplyAllAt(t: seq<Snag>, rows: seq<Snag>)
    requires Consistent(rows)
    ensures |ApplyAll(t, rows)| == |t|
    ensures forall k, j :: 0 <= k < |t| && 0 <= j < |rows| && rows[j].id == t[k].id ==> ApplyAll(t, rows)[k] == rows[j]
    ensures forall k :: 0 <= k < |t| && t[k].id !in SnagIds(rows) ==> ApplyAll(t, rows)[k] == t[k]
    decreases |rows|
  {
    if rows != [] {
      var t' := ApplyUpdate(t, rows[0]);
      var rest := rows[1..];
      assert Consistent(rest) by {
        forall i, j | 0 <= i < |rest| && 0 <= j < |rest| && rest[i].id == rest[j].id
          ensures rest[i] == rest[j]
        {
          assert rest[i] == rows[i + 1] && rest[j] == rows[j + 1];
        }
      }
      ApplyAllAt(t', rest);
      assert SnagIds(rest) <= SnagIds(rows) by {
        forall x | x in SnagIds(rest) ensures x in SnagIds(rows) {
          var m :| 0 <= m < |rest| && rest[m].id == x;
          assert rows[m + 1].id == x;
        }
      }
      forall k, j | 0 <= k < |t| && 0 <= j < |rows| && rows[j].id == t[k].id
        ensures ApplyAll(t, rows)[k] == rows[j]
      {
        assert t'[k].id == t[k].id;
        if t[k].id in SnagIds(rest) {
          var m :| 0 <= m < |rest| && rest[m].id == t[k].id;
          assert rows[m + 1] == rest[m];
        }
      }
      forall k | 0 <= k < |t| && t[k].id !in SnagIds(rows)
        ensures ApplyAll(t, rows)[k] == t[k]
      {
        assert rows[0].id in SnagIds(rows);
      }
    }
  }

  /** A list holding the same updates as the batch never disagrees with
      itself, when the table's ids are unique. */
  lemma SameUpdatesConsistent(t: seq<Snag>, reportId: Id, replies: Id -> ApiReply, parse: Parser, failing: set<Id>, order: seq<Snag>)
    requires UniqueSnagIds(t)
    requires forall x :: x in order <==> x in UpdatedRows(t, reportId, replies, parse, failing)
    ensures Consistent(order)
  {
    var rows := UpdatedRows(t, reportId, replies, parse, failing);
    UpdatedRowsExact(t, reportId, replies, parse, failing);
    forall i, j | 0 <= i < |order| && 0 <= j < |order| && order[i].id == order[j].id
      ensures order[i] == order[j]
    {
      assert order[i] in rows && order[j] in rows;
      assert WrittenFrom(t, reportId, replies, parse, failing, order[i]);
      assert WrittenFrom(t, reportId, replies, parse, failing, order[j]);
      var a :| 0 <= a < |t| && Updated(t[a], reportId, replies, failing) && order[i] == BatchRow(t[a], reportId, replies, parse, failing);
      var b :| 0 <= b < |t| && Updated(t[b], reportId, replies, failing) && order[j] == BatchRow(t[b], reportId, replies, parse, failing);
      assert t[a].id == t[b].id;
    }
  }

  /** A row the batch does not update is touched by none of its updates. */
  lemma UntouchedRow(t: seq<Snag>, reportId: Id, replies: Id -> ApiReply, parse: Parser, failing: set<Id>, order: seq<Snag>, k: int)
    requires UniqueSnagIds(t)
    requires forall x :: x in order <==> x in UpdatedRows(t, reportId, replies, parse, failing)
    requires 0 <= k < |t| && !Updated(t[k], reportId, replies, failing)
    ensures t[k].id !in SnagIds(order)
  {
    var rows := UpdatedRows(t, reportId, replies, parse, failing);
    UpdatedRowsExact(t, reportId, replies, parse, failing);
    forall j | 0 <= j < |order| ensures order[j].id != t[k].id {
      assert order[j] in rows;
      assert WrittenFrom(t, reportId, replies, parse, failing, order[j]);
      var m :| 0 <= m < |t| && Updated(t[m], reportId, replies, failing) && order[j] == BatchRow(t[m], reportId, replies, parse, failing);
      assert order[j].id == t[m].id;
    }
  }

  /** Issuing the batch's updates in any order, even repeating one, leaves
      the table `BatchTable` describes: the concurrent writes of
      `Promise.all` cannot interfere. Table order is `UpdatedRows` itself. */
  lemma BatchInAnyOrder(t: seq<Snag>, reportId: Id, replies: Id -> ApiReply, parse: Parser, failing: set<Id>, order: seq<Snag>)
    requires UniqueSnagIds(t)
    requires forall x :: x in order <==> x in UpdatedRows(t, reportId, replies, parse, failing)
    ensures ApplyAll(t, order) == BatchTable(t, reportId, replies, parse, failing)
  {
    SameUpdatesConsistent(t, reportId, replies, parse, failing, order);
    UpdatedRowsExact(t, reportId, replies, parse, failing);
    ApplyAllAt(t, order);
    var r := ApplyAll(t, order);
    var b := BatchTable(t, reportId, replies, parse, failing);
    forall k | 0 <= k < |t| ensures r[k] == b[k] {
      if Updated(t[k], reportId, replies, failing) {
        var row := BatchRow(t[k], reportId, replies, parse, failing);
        assert row in order;
        var j :| 0 <= j < |order| && order[j] == row;
      } else {
        UntouchedRow(t, reportId, replies, parse, failing, order, k);
      }
    }
  }

  /** The per-snag callback for row `k`. */
  method AnalyzeRow(db: Database, reportId: Id, replies: Id -> ApiReply, parse: Parser, failing: set<Id>,
                    k: nat, ghost t0: seq<Snag>, ghost logBefore: seq<Write>)
    returns (rejected: bool)
    requires db.Valid()
    requires k < |t0| == |db.snags|
    requires forall j :: 0 <= j < |t0| ==> db.snags[j] == if j < k then BatchRow(t0[j], reportId, replies, parse, failing) else t0[j]
    requires db.log == logBefore + BatchWrites(t0[..k], reportId, replies, parse, failing)
    modifies db
    ensures db.Valid()
    ensures db.reports == old(db.reports) && |db.snags| == |t0|
    ensures forall j :: 0 <= j < |t0| ==> db.snags[j] == if j < k + 1 then BatchRow(t0[j], reportId, replies, parse, failing) else t0[j]
    ensures db.log == logBefore + BatchWrites(t0[..k + 1], reportId, replies, parse, failing)
    ensures rejected == Rejected(t0[k], reportId, replies, failing)
  {
    var s := db.snags[k];
    assert t0[..k + 1][..k] == t0[..k];
    rejected := false;
    if s.reportId == reportId {
      var analysis := AnalyzeSnagPhoto(replies(s.id), parse);
      if analysis.Some? {
        if s.id in failing {
          rejected := true;
        } else {
          db.UpdateSnagAt(k, WithAnalysis(s, analysis.value));
        }
      }
    }
  }

  /** The `Promise.all` over the report's rows, issued in table order. */
  method AnalyzeSnags(db: Database, reportId: Id, replies: Id -> ApiReply, parse: Parser, failing: set<Id>)
    returns (anyRejected: bool)
    requires db.Valid()
    modifies db
    ensures db.Valid()
    ensures db.reports == old(db.reports)
    ensures db.snags == BatchTable(old(db.snags), reportId, replies, parse, failing)
    ensures db.log == old(db.log) + BatchWrites(old(db.snags), reportId, replies, parse, failing)
    ensures anyRejected == SomeRejected(old(db.snags), reportId, replies, failing)
  {
    ghost var t0 := db.snags;
    anyRejected := false;
    var k := 0;
    while k < |db.snags|
      invariant db.Valid()
      invariant 0 <= k <= |t0| == |db.snags|
      invariant db.reports == old(db.reports)
      invariant forall j :: 0 <= j < |t0| ==> db.snags[j] == if j < k then BatchRow(t0[j], reportId, replies, parse, failing) else t0[j]
      invariant db.log == old(db.log) + BatchWrites(t0[..k], reportId, replies, parse, failing)
      invariant anyRejected == SomeRejected(t0[..k], reportId, replies, failing)
    {
      var rejected := AnalyzeRow(db, reportId, replies, parse, failing, k, t0, old(db.log));
      SomeRejectedSnoc(t0, k, reportId, replies, failing);
      anyRejected := anyRejected || rejected;
      k := k + 1;
    }
    assert t0[..k] == t0;
  }

  lemma SomeRejectedSnoc(t: seq<Snag>, k: nat, reportId: Id, replies: Id -> ApiReply, failing: set<Id>)
    requires k < |t|
    ensures SomeRejected(t[..k + 1], reportId, replies, failing)
            <==> SomeRejected(t[..k], reportId, replies, failing) || Rejected(t[k], reportId, replies, failing)
  {
    assert forall j :: 0 <= j < k ==> t[..k + 1][j] == t[..k][j];
    assert t[..k + 1][k] == t[k];
  }

  /** POST /api/analyze/:reportId. The report's status is set to ANALYZING
      whatever it was, every photo of the report is assessed, and the status
      becomes REVIEW unless some row update was rejected; a failed request
      leaves its row as it was. */
  method AnalyzeReport(db: Database, userId: Id, reportId: Id, replies: Id -> ApiReply, parse: Parser, failing: set<Id>)
    returns (res: Result<ReportWithSnags>)
    requires db.Valid()
    modifies db
    ensures db.Valid()
    ensures FindOwned(old(db.reports), reportId, userId).None? ==>
      res == Err(NotFound("Report not found")) && unchanged(db)
    ensures FindOwned(old(db.reports), reportId, userId).Some? && SnagsOf(old(db.snags), reportId) == [] ==>
      res == Err(BadRequest("No photos to analyze")) && unchanged(db)
    ensures FindOwned(old(db.reports), reportId, userId).Some? && SnagsOf(old(db.snags), reportId) != [] ==>
      var i := FindOwned(old(db.reports), reportId, userId).value;
      var analyzing := old(db.reports)[i].(status := ANALYZING);
      var review := old(db.reports)[i].(status := REVIEW);
      var snags := BatchTable(old(db.snags), reportId, replies, parse, failing);
      var writes := BatchWrites(old(db.snags), reportId, replies, parse, failing);
      && db.snags == snags
      && if SomeRejected(old(db.snags), reportId, replies, failing) then
           && db.reports == old(db.reports)[i := analyzing]
           && db.log == old(db.log) + [UpdateReportRow(analyzing)] + writes
           && res == Err(ServerError("Failed to analyze photos"))
         else
           && db.reports == old(db.reports)[i := review]
           && db.log == old(db.log) + [UpdateReportRow(analyzing)] + writes + [UpdateReportRow(review)]
           && res == Ok(ReportWithSnags(review, OrderedSnagsOf(snags, reportId)))
    // Nothing guards the batch: a delivered report goes back to REVIEW and
    // keeps its document URL and its payment.
    ensures FindOwned(old(db.reports), reportId, userId).Some? && res.Ok? &&
            old(db.reports)[FindOwned(old(db.reports), reportId, userId).value].status == COMPLETE ==>
      var i := FindOwned(old(db.reports), reportId, userId).value;
      && db.reports[i].status == REVIEW
      && db.reports[i].pdfUrl == old(db.reports)[i].pdfUrl
      && db.reports[i].paymentStatus == old(db.reports)[i].paymentStatus
  {
    var found := FindOwned(db.reports, reportId, userId);
    if found.None? {
      return Err(NotFound("Report not found"));
    }
    var i := found.value;
    if SnagsOf(db.snags, reportId) == [] {
      return Err(BadRequest("No photos to analyze"));
    }
    var report := db.reports[i];
    db.UpdateReportAt(i, report.(status := ANALYZING));
    var anyRejected := AnalyzeSnags(db, reportId, replies, parse, failing);
    if anyRejected {
      return Err(ServerError("Failed to analyze photos"));
    }
    var review := report.(status := REVIEW);
    db.UpdateReportAt(i, review);
    res := Ok(ReportWithSnags(review, OrderedSnagsOf(db.snags, reportId)));
  }

  /** The batch overwrites a snag the user has edited and leaves its
      `userEdited` flag set. */
  lemma BatchKeepsEditFlag(t: seq<Snag>, k: nat, reportId: Id, replies: Id -> ApiReply, parse: Parser, failing: set<Id>)
    requires k < |t| && Updated(t[k], reportId, replies, failing) && t[k].userEdited
    ensures var r := BatchTable(t, reportId, replies, parse, failing)[k];
            && r.userEdited
            && r.defectType == Some(ReadReply(replies(t[k].id).firstText, parse).defectType)
  {
  }

  /** The snag of the report with this id: ids are unique, so it is the row of
      that id when that row belongs to the report. */
  function FindSnagOf(ss: seq<Snag>, id: Id, reportId: Id): (r: Option<nat>)
    ensures r.Some? ==> r.value < |ss| && ss[r.value].id == id && ss[r.value].reportId == reportId
    ensures r.None? && UniqueSnagIds(ss) ==> forall k :: 0 <= k < |ss| ==> !(ss[k].id == id && ss[k].reportId == reportId)
  {
    match FindSnag(ss, id)
    case None => None
    case Some(k) => if ss[k].reportId == reportId then Some(k) else None
  }

  /** POST /api/analyze/:reportId/snag/:snagId. The assessment replaces the
      six columns and clears `userEdited`; the report's status is untouched.
      A failed request or a rejected update is a server error and writes
      nothing. */
  method ReanalyzeSnag(db: Database, userId: Id, reportId: Id, snagId: Id, reply: ApiReply, parse: Parser, failing: set<Id>)
    returns (res: Result<Snag>)
    requires db.Valid()
    modifies db
    ensures db.Valid()
    ensures db.reports == old(db.reports)
    ensures FindOwned(old(db.reports), reportId, userId).None? ==>
      res == Err(NotFound("Report not found")) && unchanged(db)
    ensures FindOwned(old(db.reports), reportId, userId).Some? && FindSnagOf(old(db.snags), snagId, reportId).None? ==>
      res == Err(NotFound("Snag not found")) && unchanged(db)
    ensures FindOwned(old(db.reports), reportId, userId).Some? && FindSnagOf(old(db.snags), snagId, reportId).Some? ==>
      var k := FindSnagOf(old(db.snags), snagId, reportId).value;
      if reply.RequestFailed? || snagId in failing then
        res == Err(ServerError("Failed to re-analyze snag")) && unchanged(db)
      else
        var s := WithAnalysis(old(db.snags)[k], ReadReply(reply.firstText, parse)).(userEdited := false);
        && db.snags == old(db.snags)[k := s]
        && db.log == old(db.log) + [UpdateSnagRow(s)]
        && res == Ok(s)
  {
    var found := FindOwned(db.reports, reportId, userId);
    if found.None? {
      return Err(NotFound("Report not found"));
    }
    var snagAt := FindSnagOf(db.snags, snagId, reportId);
    if snagAt.None? {
      return Err(NotFound("Snag not found"));
    }
    var k := snagAt.value;
    var analysis := AnalyzeSnagPhoto(reply, parse);
    if analysis.None? || snagId in failing {
      return Err(ServerError("Failed to re-analyze snag"));
    }
    var s := WithAnalysis(db.snags[k], analysis.value).(userEdited := false);
    db.UpdateSnagAt(k, s);
    res := Ok(s);
  }
}
