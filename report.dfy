/** The report routes: the listing, one report with its snags, the edits of a
    report and of a snag, and the two deletions. Every route first checks
    that the user owns the report named in the path. */
module ReportRoutes {
  import opened Common
  import opened Records
  import opened Store
  import opened Sorting

  /** One entry of the listing; `createdAt` is not modelled. */
  datatype Summary = Summary(
    id: Id,
    propertyAddress: string,
    propertyType: Option<string>,
    inspectionDate: string,
    status: Status,
    paymentStatus: PaymentStatus,
    pdfUrl: Option<string>,
    snagCount: nat,
    severityCounts: SeverityCounts)

  function Summarize(r: Report, ss: seq<Snag>): (s: Summary)
    ensures s.id == r.id && s.snagCount == |SnagsOf(ss, r.id)|
    ensures s.severityCounts == Counts(SnagsOf(ss, r.id))
  {
    var mine := SnagsOf(ss, r.id);
    Summary(r.id, r.propertyAddress, r.propertyType, r.inspectionDate, r.status,
            r.paymentStatus, r.pdfUrl, |mine|, Counts(mine))
  }

  /** GET /api/report: the user's reports, newest first. Rows are inserted
      with increasing `createdAt`, so newest first is the reverse of table
      order. */
  function ListReports(rs: seq<Report>, ss: seq<Snag>, userId: Id): (r: seq<Summary>)
    ensures |r| <= |rs|
    decreases |rs|
  {
    if rs == [] then []
    else
      var rest := ListReports(rs[1..], ss, userId);
      if rs[0].userId == userId then rest + [Summarize(rs[0], ss)] else rest
  }

  /** The listing summarises exactly the user's reports. */
  lemma {:induction false} ListedExactlyOwned(rs: seq<Report>, ss: seq<Snag>, userId: Id, e: Summary)
    ensures e in ListReports(rs, ss, userId) <==>
            exists k :: 0 <= k < |rs| && rs[k].userId == userId && e == Summarize(rs[k], ss)
    decreases |rs|
  {
    if rs != [] {
      ListedExactlyOwned(rs[1..], ss, userId, e);
      if e in ListReports(rs[1..], ss, userId) {
        var k :| 0 <= k < |rs[1..]| && rs[1..][k].userId == userId && e == Summarize(rs[1..][k], ss);
        assert rs[k + 1] == rs[1..][k];
      }
      if exists k :: 0 <= k < |rs| && rs[k].userId == userId && e == Summarize(rs[k], ss) {
        var k :| 0 <= k < |rs| && rs[k].userId == userId && e == Summarize(rs[k], ss);
        if k > 0 {
          assert rs[1..][k - 1] == rs[k];
        }
      }
    }
  }

  /** The most recently created report of the user comes first. */
  lemma {:induction false} NewestFirst(rs: seq<Report>, ss: seq<Snag>, userId: Id)
    requires rs != [] && rs[|rs| - 1].userId == userId
    ensures |ListReports(rs, ss, userId)| > 0
    ensures ListReports(rs, ss, userId)[0] == Summarize(rs[|rs| - 1], ss)
    decreases |rs|
  {
    if |rs| > 1 {
      assert rs[1..][|rs[1..]| - 1] == rs[|rs| - 1];
      NewestFirst(rs[1..], ss, userId);
    }
  }

  /** Positions one row further down the table. */
  ghost function Shifted(idx: seq<int>): (r: seq<int>)
    ensures |r| == |idx|
    ensures forall a :: 0 <= a < |idx| ==> r[a] == idx[a] + 1
  {
    seq(|idx|, a requires 0 <= a < |idx| => idx[a] + 1)
  }

  /** The table positions of the user's reports, latest first. */
  ghost function OwnedPositions(rs: seq<Report>, userId: Id): (idx: seq<int>)
    ensures forall a :: 0 <= a < |idx| ==> 0 <= idx[a] < |rs|
    decreases |rs|
  {
    if rs == [] then []
    else
      var shifted := Shifted(OwnedPositions(rs[1..], userId));
      if rs[0].userId == userId then shifted + [0] else shifted
  }

  /** `OwnedPositions` lists only positions of the user's reports, from the
      bottom of the table up. */
  lemma {:induction false} OwnedPositionsDescend(rs: seq<Report>, userId: Id)
    ensures forall a :: 0 <= a < |OwnedPositions(rs, userId)| ==> rs[OwnedPositions(rs, userId)[a]].userId == userId
    ensures forall a, b :: 0 <= a < b < |OwnedPositions(rs, userId)| ==>
              OwnedPositions(rs, userId)[a] > OwnedPositions(rs, userId)[b]
    decreases |rs|
  {
    if rs != [] {
      OwnedPositionsDescend(rs[1..], userId);
      var rest := OwnedPositions(rs[1..], userId);
      var idx := OwnedPositions(rs, userId);
      assert idx == if rs[0].userId == userId then Shifted(rest) + [0] else Shifted(rest);
      forall a | 0 <= a < |idx| ensures rs[idx[a]].userId == userId {
        if a < |rest| {
          assert idx[a] == rest[a] + 1 && rs[1..][rest[a]] == rs[idx[a]];
        }
      }
      forall a, b | 0 <= a < b < |idx| ensures idx[a] > idx[b] {
        assert idx[a] == rest[a] + 1;
      }
    }
  }

  /** `OwnedPositions` lists every position of the user's reports. */
  lemma {:induction false} OwnedPositionsComplete(rs: seq<Report>, userId: Id)
    ensures forall i :: 0 <= i < |rs| && rs[i].userId == userId ==> i in OwnedPositions(rs, userId)
    decreases |rs|
  {
    if rs != [] {
      OwnedPositionsComplete(rs[1..], userId);
      var rest := OwnedPositions(rs[1..], userId);
      var idx := OwnedPositions(rs, userId);
      assert idx == if rs[0].userId == userId then Shifted(rest) + [0] else Shifted(rest);
      forall i | 0 <= i < |rs| && rs[i].userId == userId ensures i in idx {
        if i == 0 {
          assert idx[|rest|] == 0;
        } else {
          assert rs[1..][i - 1] == rs[i];
          var a :| 0 <= a < |rest| && rest[a] == i - 1;
          assert idx[a] == i;
        }
      }
    }
  }

  /** The whole listing is newest first: its `a`-th entry summarises the
      `a`-th latest of the user's reports, so an earlier entry always comes
      from a later row. */
  lemma {:induction false} ListedInOrder(rs: seq<Report>, ss: seq<Snag>, userId: Id)
    ensures |ListReports(rs, ss, userId)| == |OwnedPositions(rs, userId)|
    ensures forall a :: 0 <= a < |OwnedPositions(rs, userId)| ==>
              ListReports(rs, ss, userId)[a] == Summarize(rs[OwnedPositions(rs, userId)[a]], ss)
    decreases |rs|
  {
    if rs != [] {
      ListedInOrder(rs[1..], ss, userId);
      var rest := OwnedPositions(rs[1..], userId);
      var shifted := Shifted(rest);
      var idx := OwnedPositions(rs, userId);
      var here := ListReports(rs, ss, userId);
      var later := ListReports(rs[1..], ss, userId);
      assert idx == if rs[0].userId == userId then shifted + [0] else shifted;
      assert here == if rs[0].userId == userId then later + [Summarize(rs[0], ss)] else later;
      forall a | 0 <= a < |rest| ensures here[a] == Summarize(rs[idx[a]], ss) {
        assert idx[a] == rest[a] + 1 && here[a] == later[a];
        assert rs[1..][rest[a]] == rs[rest[a] + 1];
      }
    }
  }

  /** No entry of the listing counts more severities than it has snags. */
  lemma ListedCountsBounded(rs: seq<Report>, ss: seq<Snag>, userId: Id)
    ensures forall e :: e in ListReports(rs, ss, userId) ==>
      e.severityCounts.minor + e.severityCounts.moderate + e.severityCounts.major <= e.snagCount
  {
    forall e | e in ListReports(rs, ss, userId)
      ensures e.severityCounts.minor + e.severityCounts.moderate + e.severityCounts.major <= e.snagCount
    {
      ListedExactlyOwned(rs, ss, userId, e);
      var k :| 0 <= k < |rs| && rs[k].userId == userId && e == Summarize(rs[k], ss);
      CountsBounded(SnagsOf(ss, rs[k].id));
    }
  }

  /** GET /api/report/:reportId: the report and its snags by ascending
      display order. */
  function GetReport(rs: seq<Report>, ss: seq<Snag>, userId: Id, reportId: Id): (r: Result<ReportWithSnags>)
    ensures r.Err? <==> FindOwned(rs, reportId, userId).None?
    ensures r.Err? ==> r.error == NotFound("Report not found")
    ensures r.Ok? ==> r.value.report in rs && r.value.report.id == reportId && r.value.report.userId == userId
    ensures r.Ok? ==> SortedBy(r.value.snags, DisplayOrder)
    ensures r.Ok? ==> multiset(r.value.snags) == multiset(SnagsOf(ss, reportId))
  {
    match FindOwned(rs, reportId, userId)
    case None => Err(NotFound("Report not found"))
    case Some(i) => Ok(ReportWithSnags(rs[i], OrderedSnagsOf(ss, reportId)))
  }

  /** The body of PATCH /api/report/:reportId. */
  datatype ReportPatch = ReportPatch(
    propertyAddress: Input,
    propertyType: Input,
    developerName: Input,
    inspectionDate: Input)

  /** The spread of the update: address, type and date are written when
      truthy, the developer whenever it is present, `null` clearing it. Date
      parsing is not modelled. */
  function PatchReport(r: Report, p: ReportPatch): (q: Report)
    ensures q.id == r.id && q.userId == r.userId && q.status == r.status
    ensures q.paymentStatus == r.paymentStatus && q.stripePaymentId == r.stripePaymentId && q.pdfUrl == r.pdfUrl
    ensures q.propertyAddress == if p.propertyAddress.Truthy() then p.propertyAddress.text else r.propertyAddress
    ensures q.propertyType == if p.propertyType.Truthy() then Some(p.propertyType.text) else r.propertyType
    ensures q.inspectionDate == if p.inspectionDate.Truthy() then p.inspectionDate.text else r.inspectionDate
    ensures p.developerName.Undefined? ==> q.developerName == r.developerName
    ensures p.developerName.Null? ==> q.developerName == None
    ensures p.developerName.Text? ==> q.developerName == Some(p.developerName.text)
  {
    r.(propertyAddress := if p.propertyAddress.Truthy() then p.propertyAddress.text else r.propertyAddress,
       propertyType := if p.propertyType.Truthy() then Some(p.propertyType.text) else r.propertyType,
       developerName := match p.developerName
                        case Undefined => r.developerName
                        case Null => None
                        case Text(t) => Some(t),
       inspectionDate := if p.inspectionDate.Truthy() then p.inspectionDate.text else r.inspectionDate)
  }

  /** Sending the same edit twice changes nothing the second time. */
  lemma PatchReportIdempotent(r: Report, p: ReportPatch)
    ensures PatchReport(PatchReport(r, p), p) == PatchReport(r, p)
  {
  }

  /** A falsy address, type or date cannot clear the column; only the
      developer can be cleared, by sending `null`. */
  lemma PatchReportClears(r: Report, p: ReportPatch)
    ensures !p.propertyAddress.Truthy() ==> PatchReport(r, p).propertyAddress == r.propertyAddress
    ensures !p.propertyType.Truthy() ==> PatchReport(r, p).propertyType == r.propertyType
    ensures !p.inspectionDate.Truthy() ==> PatchReport(r, p).inspectionDate == r.inspectionDate
    ensures r.propertyType.Some? ==> PatchReport(r, p).propertyType.Some?
    ensures PatchReport(r, p).developerName == None <==> p.developerName.Null? || (p.developerName.Undefined? && r.developerName.None?)
  {
  }

  /** PATCH /api/report/:reportId. */
  method UpdateReport(db: Database, userId: Id, reportId: Id, p: ReportPatch) returns (res: Result<Report>)
    requires db.Valid()
    modifies db
    ensures db.Valid()
    ensures db.snags == old(db.snags)
    ensures FindOwned(old(db.reports), reportId, userId).None? ==>
      res == Err(NotFound("Report not found")) && unchanged(db)
    ensures FindOwned(old(db.reports), reportId, userId).Some? ==>
      var i := FindOwned(old(db.reports), reportId, userId).value;
      var q := PatchReport(old(db.reports)[i], p);
      && db.reports == old(db.reports)[i := q]
      && db.log == old(db.log) + [UpdateReportRow(q)]
      && res == Ok(q)
  {
    var found := FindOwned(db.reports, reportId, userId);
    if found.None? {
      return Err(NotFound("Report not found"));
    }
    var i := found.value;
    var q := PatchReport(db.reports[i], p);
    db.UpdateReportAt(i, q);
    res := Ok(q);
  }

  /** The body of PATCH /api/report/:reportId/snag/:snagId. */
  datatype SnagPatch = SnagPatch(
    room: Input,
    defectType: Input,
    description: Input,
    severity: Input,
    suggestedTrade: Input,
    remedialAction: Input)

  function WhenTruthy(field: Input, current: Option<string>): (r: Option<string>)
    ensures field.Truthy() ==> r == Some(field.text)
    ensures !field.Truthy() ==> r == current
  {
    if field.Truthy() then Some(field.text) else current
  }

  /** The spread of the snag update: the room whenever present (`null`
      clearing it), the other five fields when truthy, and the row marked as
      edited by a person. */
  function PatchSnag(s: Snag, p: SnagPatch): (q: Snag)
    ensures q.id == s.id && q.reportId == s.reportId && q.photoUrl == s.photoUrl
    ensures q.displayOrder == s.displayOrder && q.aiConfidence == s.aiConfidence
    ensures q.userEdited
    ensures p.room.Undefined? ==> q.room == s.room
    ensures p.room.Null? ==> q.room == None
    ensures p.room.Text? ==> q.room == Some(p.room.text)
    ensures q.defectType == WhenTruthy(p.defectType, s.defectType)
    ensures q.description == WhenTruthy(p.description, s.description)
    ensures q.severity == WhenTruthy(p.severity, s.severity)
    ensures q.suggestedTrade == WhenTruthy(p.suggestedTrade, s.suggestedTrade)
    ensures q.remedialAction == WhenTruthy(p.remedialAction, s.remedialAction)
  {
    s.(room := match p.room
               case Undefined => s.room
               case Null => None
               case Text(t) => Some(t),
       defectType := WhenTruthy(p.defectType, s.defectType),
       description := WhenTruthy(p.description, s.description),
       severity := WhenTruthy(p.severity, s.severity),
       suggestedTrade := WhenTruthy(p.suggestedTrade, s.suggestedTrade),
       remedialAction := WhenTruthy(p.remedialAction, s.remedialAction),
       userEdited := true)
  }

  /** Re-sending an edit is harmless. */
  lemma PatchSnagIdempotent(s: Snag, p: SnagPatch)
    ensures PatchSnag(PatchSnag(s, p), p) == PatchSnag(s, p)
  {
  }

  /** PATCH /api/report/:reportId/snag/:snagId. The snag is looked up by
      its id alone, so it need not belong to the report whose ownership was
      checked. A missing snag, or a value the database refuses, is a server
      error. */
  method UpdateSnag(db: Database, userId: Id, reportId: Id, snagId: Id, p: SnagPatch, failing: set<Id>)
    returns (res: Result<Snag>)
    requires db.Valid()
    modifies db
    ensures db.Valid()
    ensures db.reports == old(db.reports)
    ensures FindOwned(old(db.reports), reportId, userId).None? ==>
      res == Err(NotFound("Report not found")) && unchanged(db)
    ensures FindOwned(old(db.reports), reportId, userId).Some? ==>
      match FindSnag(old(db.snags), snagId)
      case None => res == Err(ServerError("Failed to update snag")) && unchanged(db)
      case Some(k) =>
        if snagId in failing then res == Err(ServerError("Failed to update snag")) && unchanged(db)
        else
          var q := PatchSnag(old(db.snags)[k], p);
          && db.snags == old(db.snags)[k := q]
          && db.log == old(db.log) + [UpdateSnagRow(q)]
          && res == Ok(q)
  {
    var found := FindOwned(db.reports, reportId, userId);
    if found.None? {
      return Err(NotFound("Report not found"));
    }
    var snagAt := FindSnag(db.snags, snagId);
    if snagAt.None? || snagId in failing {
      return Err(ServerError("Failed to update snag"));
    }
    var k := snagAt.value;
    var q := PatchSnag(db.snags[k], p);
    db.UpdateSnagAt(k, q);
    res := Ok(q);
  }

  /** PATCH and DELETE on a snag check only the report in the path: with that
      report owned by one user and the snag belonging to another user's
      report, both lookups succeed. */
  lemma SnagRoutesNotScoped()
    ensures var rs := [Report("a", "alice", "1 Elm St", None, None, "2025-01-01", DRAFT, UNPAID, None, None),
                       Report("b", "bob", "2 Oak Rd", None, None, "2025-01-01", DRAFT, UNPAID, None, None)];
            var ss := [UnanalysedSnag("s", "b", "https://cdn/reports/b/x.jpg", 0)];
            && FindOwned(rs, "a", "alice").Some?
            && FindSnag(ss, "s").Some?
            && rs[1].userId != "alice" && ss[FindSnag(ss, "s").value].reportId == rs[1].id
  {
    var rs := [Report("a", "alice", "1 Elm St", None, None, "2025-01-01", DRAFT, UNPAID, None, None),
               Report("b", "bob", "2 Oak Rd", None, None, "2025-01-01", DRAFT, UNPAID, None, None)];
    var ss := [UnanalysedSnag("s", "b", "https://cdn/reports/b/x.jpg", 0)];
    assert FindOwned(rs, "a", "alice") == Some(0);
    assert FindSnag(ss, "s") == Some(0);
  }

  /** DELETE /api/report/:reportId/snag/:snagId, by snag id alone like the
      edit. The other rows keep their display orders: nothing is renumbered. */
  method DeleteSnag(db: Database, userId: Id, reportId: Id, snagId: Id) returns (res: Result<()>)
    requires db.Valid()
    modifies db
    ensures db.Valid()
    ensures db.reports == old(db.reports)
    ensures FindOwned(old(db.reports), reportId, userId).None? ==>
      res == Err(NotFound("Report not found")) && unchanged(db)
    ensures FindOwned(old(db.reports), reportId, userId).Some? ==>
      match FindSnag(old(db.snags), snagId)
      case None => res == Err(ServerError("Failed to delete snag")) && unchanged(db)
      case Some(k) =>
        && db.snags == RemoveAt(old(db.snags), k)
        && db.log == old(db.log) + [DeleteSnagRow(snagId)]
        && res == Ok(())
  {
    var found := FindOwned(db.reports, reportId, userId);
    if found.None? {
      return Err(NotFound("Report not found"));
    }
    var snagAt := FindSnag(db.snags, snagId);
    if snagAt.None? {
      return Err(ServerError("Failed to delete snag"));
    }
    db.DeleteSnagAt(snagAt.value);
    res := Ok(());
  }

  /** Deleting one snag removes exactly that row from its report and leaves
      every other row of the report, display order included, as it was. */
  lemma {:induction false} DeleteSnagKeepsOthers(t: seq<Snag>, k: nat)
    requires k < |t|
    ensures var rid := t[k].reportId;
            SnagsOf(t, rid) == SnagsOf(t[..k], rid) + [t[k]] + SnagsOf(t[k + 1..], rid)
            && SnagsOf(RemoveAt(t, k), rid) == SnagsOf(t[..k], rid) + SnagsOf(t[k + 1..], rid)
            && |SnagsOf(RemoveAt(t, k), rid)| == |SnagsOf(t, rid)| - 1
  {
    var rid := t[k].reportId;
    assert t == t[..k] + [t[k]] + t[k + 1..];
    SnagsOfAppend(t[..k] + [t[k]], t[k + 1..], rid);
    SnagsOfAppend(t[..k], [t[k]], rid);
    assert [t[k]][..0] == [];
    SnagsOfAppend(t[..k], t[k + 1..], rid);
  }

  /** DELETE /api/report/:reportId: the report row and, by the cascade,
      its snags. */
  method DeleteReport(db: Database, userId: Id, reportId: Id) returns (res: Result<()>)
    requires db.Valid()
    modifies db
    ensures db.Valid()
    ensures FindOwned(old(db.reports), reportId, userId).None? ==>
      res == Err(NotFound("Report not found")) && unchanged(db)
    ensures FindOwned(old(db.reports), reportId, userId).Some? ==>
      var i := FindOwned(old(db.reports), reportId, userId).value;
      && db.reports == RemoveAt(old(db.reports), i)
      && db.snags == WithoutReport(old(db.snags), reportId)
      && db.log == old(db.log) + [DeleteReportRow(reportId)]
      && res == Ok(())
  {
    var found := FindOwned(db.reports, reportId, userId);
    if found.None? {
      return Err(NotFound("Report not found"));
    }
    db.DeleteReportAt(found.value);
    res := Ok(());
  }

  /** The cascade removes every snag of the report and no snag of any other
      report. */
  lemma {:induction false} CascadeExact(t: seq<Snag>, reportId: Id, other: Id)
    ensures SnagsOf(WithoutReport(t, reportId), reportId) == []
    ensures other != reportId ==> SnagsOf(WithoutReport(t, reportId), other) == SnagsOf(t, other)
    decreases |t|
  {
    if t != [] {
      var init := t[..|t| - 1];
      CascadeExact(init, reportId, other);
      var w := WithoutReport(init, reportId);
      if t[|t| - 1].reportId != reportId {
        SnagsOfAppend(w, [t[|t| - 1]], reportId);
        SnagsOfAppend(w, [t[|t| - 1]], other);
        assert [t[|t| - 1]][..0] == [];
      }
    }
  }
}
