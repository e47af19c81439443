/** The Prisma client as the handlers use it: a report table and a snag table
    updated in place, one row-level write at a time. The ghost `log` records
    every write in the order it is issued, so that a handler's contract can
    say which writes it makes and in what order. */
module Store {
  import opened Common
  import opened Records

  datatype Write =
    | CreateReportRow(report: Report)
    | UpdateReportRow(report: Report)
    | DeleteReportRow(id: Id)
    | CreateSnagRow(snag: Snag)
    | UpdateSnagRow(snag: Snag)
    | DeleteSnagRow(id: Id)

  /** A stored document URL implies the report was paid for. */
  predicate PaidIfRendered(r: Report) {
    r.pdfUrl.Some? ==> r.paymentStatus == PAID
  }

  /** The rows of a table with the row at `i` removed. */
  function RemoveAt<T>(s: seq<T>, i: nat): (r: seq<T>)
    requires i < |s|
    ensures |r| == |s| - 1
    ensures forall k :: 0 <= k < i ==> r[k] == s[k]
    ensures forall k :: i <= k < |r| ==> r[k] == s[k + 1]
  {
    s[..i] + s[i + 1..]
  }

  class Database {
    var reports: seq<Report>
    var snags: seq<Snag>
    ghost var log: seq<Write>

    /** Ids are unique per table, every snag belongs to a stored report (the
        foreign key), and a report with a document URL is paid. */
    ghost predicate Valid()
      reads this
    {
      && UniqueReportIds(reports)
      && UniqueSnagIds(snags)
      && (forall k :: 0 <= k < |snags| ==> snags[k].reportId in ReportIds(reports))
      && (forall k :: 0 <= k < |reports| ==> PaidIfRendered(reports[k]))
    }

    constructor ()
      ensures Valid()
      ensures reports == [] && snags == [] && log == []
    {
      reports, snags, log := [], [], [];
    }

    /** `prisma.report.create`. */
    method CreateReport(r: Report)
      requires Valid()
      requires r.id !in ReportIds(reports)
      requires PaidIfRendered(r)
      modifies this
      ensures Valid()
      ensures reports == old(reports) + [r] && snags == old(snags)
      ensures log == old(log) + [CreateReportRow(r)]
    {
      assert ReportIds(reports + [r]) == ReportIds(reports) + {r.id} by {
        assert forall k :: 0 <= k < |reports| ==> (reports + [r])[k] == reports[k];
        assert (reports + [r])[|reports|] == r;
      }
      reports := reports + [r];
      log := log + [CreateReportRow(r)];
    }

    /** `prisma.report.update` of the row at `i`; the id stays. */
    method UpdateReportAt(i: nat, r: Report)
      requires Valid()
      requires i < |reports| && r.id == reports[i].id
      requires PaidIfRendered(r)
      modifies this
      ensures Valid()
      ensures reports == old(reports)[i := r] && snags == old(snags)
      ensures log == old(log) + [UpdateReportRow(r)]
    {
      assert ReportIds(reports[i := r]) == ReportIds(reports) by {
        assert forall k :: 0 <= k < |reports| ==> reports[i := r][k].id == reports[k].id;
      }
      reports := reports[i := r];
      log := log + [UpdateReportRow(r)];
    }

    /** `prisma.report.delete` of the row at `i`; the foreign key cascades to
        the report's snags. */
    method DeleteReportAt(i: nat)
      requires Valid()
      requires i < |reports|
      modifies this
      ensures Valid()
      ensures reports == RemoveAt(old(reports), i)
      ensures snags == WithoutReport(old(snags), old(reports)[i].id)
      ensures log == old(log) + [DeleteReportRow(old(reports)[i].id)]
    {
      var id := reports[i].id;
      var rs := RemoveAt(reports, i);
      var ss := WithoutReport(snags, id);
      forall k | 0 <= k < |ss| ensures ss[k].reportId in ReportIds(rs) {
        var j :| 0 <= j < |reports| && reports[j].id == ss[k].reportId;
        assert j != i;
        if j < i { assert rs[j] == reports[j]; } else { assert rs[j - 1] == reports[j]; }
      }
      reports, snags := rs, ss;
      log := log + [DeleteReportRow(id)];
    }

    /** `prisma.snag.create`. */
    method CreateSnag(s: Snag)
      requires Valid()
      requires s.id !in SnagIds(snags)
      requires s.reportId in ReportIds(reports)
      modifies this
      ensures Valid()
      ensures snags == old(snags) + [s] && reports == old(reports)
      ensures log == old(log) + [CreateSnagRow(s)]
    {
      assert SnagIds(snags + [s]) == SnagIds(snags) + {s.id} by {
        assert forall k :: 0 <= k < |snags| ==> (snags + [s])[k] == snags[k];
        assert (snags + [s])[|snags|] == s;
      }
      snags := snags + [s];
      log := log + [CreateSnagRow(s)];
    }

    /** `prisma.snag.update` of the row at `i`; id and report stay. */
    method UpdateSnagAt(i: nat, s: Snag)
      requires Valid()
      requires i < |snags| && s.id == snags[i].id && s.reportId == snags[i].reportId
      modifies this
      ensures Valid()
      ensures snags == old(snags)[i := s] && reports == old(reports)
      ensures log == old(log) + [UpdateSnagRow(s)]
    {
      snags := snags[i := s];
      log := log + [UpdateSnagRow(s)];
    }

    /** `prisma.snag.delete` of the row at `i`. */
    method DeleteSnagAt(i: nat)
      requires Valid()
      requires i < |snags|
      modifies this
      ensures Valid()
      ensures snags == RemoveAt(old(snags), i) && reports == old(reports)
      ensures log == old(log) + [DeleteSnagRow(old(snags)[i].id)]
    {
      var id := snags[i].id;
      snags := RemoveAt(snags, i);
      log := log + [DeleteSnagRow(id)];
    }
  }
}
