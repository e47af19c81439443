/** The two persisted entities and the queries the handlers run on their
    tables. A table is the sequence of its rows in insertion order; ids are
    unique within a table. */
module Records {
  import opened Common
  import opened Sorting

  datatype Report = Report(
    id: Id,
    userId: Id,
    propertyAddress: string,
    propertyType: Option<string>,
    developerName: Option<string>,
    inspectionDate: string,
    status: Status,
    paymentStatus: PaymentStatus,
    stripePaymentId: Option<string>,
    pdfUrl: Option<string>)

  datatype Snag = Snag(
    id: Id,
    reportId: Id,
    photoUrl: string,
    displayOrder: int,
    room: Option<string>,
    defectType: Option<string>,
    description: Option<string>,
    severity: Option<string>,
    suggestedTrade: Option<string>,
    remedialAction: Option<string>,
    aiConfidence: Option<real>,
    userEdited: bool)

  /** A snag as `prisma.snag.create` stores it: only the report, the photo and
      the order are given, every descriptive column is null. */
  function UnanalysedSnag(id: Id, reportId: Id, photoUrl: string, displayOrder: int): Snag {
    Snag(id, reportId, photoUrl, displayOrder, None, None, None, None, None, None, None, false)
  }

  ghost predicate UniqueReportIds(rs: seq<Report>) {
    forall i, j :: 0 <= i < j < |rs| ==> rs[i].id != rs[j].id
  }

  ghost predicate UniqueSnagIds(ss: seq<Snag>) {
    forall i, j :: 0 <= i < j < |ss| ==> ss[i].id != ss[j].id
  }

  function ReportIds(rs: seq<Report>): set<Id> {
    set k | 0 <= k < |rs| :: rs[k].id
  }

  function SnagIds(ss: seq<Snag>): set<Id> {
    set k | 0 <= k < |ss| :: ss[k].id
  }

  lemma SnagIdsAppend(a: seq<Snag>, b: seq<Snag>)
    ensures SnagIds(a + b) == SnagIds(a) + SnagIds(b)
  {
    assert forall k :: 0 <= k < |a| ==> (a + b)[k] == a[k];
    assert forall k :: 0 <= k < |b| ==> (a + b)[|a| + k] == b[k];
  }

  /** `findFirst({ where: { id, userId } })`: the row of that id if the user
      owns it. */
  function FindOwned(rs: seq<Report>, id: Id, userId: Id): (r: Option<nat>)
    ensures r.Some? ==> r.value < |rs| && rs[r.value].id == id && rs[r.value].userId == userId
    ensures r.None? ==> forall k :: 0 <= k < |rs| ==> !(rs[k].id == id && rs[k].userId == userId)
    decreases |rs|
  {
    if rs == [] then None
    else if rs[0].id == id && rs[0].userId == userId then Some(0)
    else match FindOwned(rs[1..], id, userId)
      case None => None
      case Some(k) => Some(k + 1)
  }

  /** The snag row with this id, wherever it belongs. */
  function FindSnag(ss: seq<Snag>, id: Id): (r: Option<nat>)
    ensures r.Some? ==> r.value < |ss| && ss[r.value].id == id
    ensures r.None? ==> id !in SnagIds(ss)
    decreases |ss|
  {
    if ss == [] then None
    else if ss[0].id == id then Some(0)
    else match FindSnag(ss[1..], id)
      case None =>
        assert forall k :: 1 <= k < |ss| ==> ss[k] == ss[1..][k - 1];
        None
      case Some(k) => Some(k + 1)
  }

  /** The rows of one report, in table order. */
  function SnagsOf(ss: seq<Snag>, reportId: Id): (r: seq<Snag>)
    ensures |r| <= |ss|
    ensures forall k :: 0 <= k < |r| ==> r[k].reportId == reportId && r[k] in ss
    decreases |ss|
  {
    if ss == [] then []
    else
      var init := SnagsOf(ss[..|ss| - 1], reportId);
      if ss[|ss| - 1].reportId == reportId then init + [ss[|ss| - 1]] else init
  }

  lemma {:induction false} SnagsOfAppend(a: seq<Snag>, b: seq<Snag>, reportId: Id)
    ensures SnagsOf(a + b, reportId) == SnagsOf(a, reportId) + SnagsOf(b, reportId)
    decreases |b|
  {
    if b == [] {
      assert a + b == a;
    } else {
      assert (a + b)[..|a + b| - 1] == a + b[..|b| - 1];
      SnagsOfAppend(a, b[..|b| - 1], reportId);
    }
  }

  /** The rows left by the cascade of deleting a report. */
  function WithoutReport(ss: seq<Snag>, reportId: Id): (r: seq<Snag>)
    ensures |r| <= |ss|
    ensures forall k :: 0 <= k < |r| ==> r[k].reportId != reportId && r[k] in ss
    ensures SnagIds(r) <= SnagIds(ss)
    ensures UniqueSnagIds(ss) ==> UniqueSnagIds(r)
    decreases |ss|
  {
    if ss == [] then []
    else
      var init := WithoutReport(ss[..|ss| - 1], reportId);
      var last := ss[|ss| - 1];
      assert SnagIds(ss[..|ss| - 1]) <= SnagIds(ss) by {
        forall x | x in SnagIds(ss[..|ss| - 1]) ensures x in SnagIds(ss) {
          var k :| 0 <= k < |ss| - 1 && ss[..|ss| - 1][k].id == x;
          assert ss[k].id == x;
        }
      }
      assert UniqueSnagIds(ss) ==> last.id !in SnagIds(ss[..|ss| - 1]);
      if last.reportId != reportId then
        assert SnagIds(init + [last]) == SnagIds(init) + {last.id} by {
          assert forall k :: 0 <= k < |init| ==> (init + [last])[k] == init[k];
          assert (init + [last])[|init|] == last;
        }
        init + [last]
      else init
  }

  function DisplayOrder(s: Snag): int { s.displayOrder }

  /** `include: { snags: { orderBy: { displayOrder: 'asc' } } }`. */
  function OrderedSnagsOf(ss: seq<Snag>, reportId: Id): (r: seq<Snag>)
    ensures SortedBy(r, DisplayOrder)
    ensures multiset(r) == multiset(SnagsOf(ss, reportId))
  {
    SortBy(SnagsOf(ss, reportId), DisplayOrder)
  }

  /** A report with its snags, as the handlers return it. */
  datatype ReportWithSnags = ReportWithSnags(report: Report, snags: seq<Snag>)

  /** The number of rows holding a given severity. */
  function CountSeverity(ss: seq<Snag>, severity: string): (n: nat)
    ensures n <= |ss|
    decreases |ss|
  {
    if ss == [] then 0
    else CountSeverity(ss[..|ss| - 1], severity) + (if ss[|ss| - 1].severity == Some(severity) then 1 else 0)
  }

  datatype SeverityCounts = SeverityCounts(minor: nat, moderate: nat, major: nat)

  /** The per-severity filters of the listing and of the document cover. */
  function Counts(ss: seq<Snag>): SeverityCounts {
    SeverityCounts(CountSeverity(ss, "MINOR"), CountSeverity(ss, "MODERATE"), CountSeverity(ss, "MAJOR"))
  }

  predicate KnownSeverity(s: Snag) {
    s.severity in {Some("MINOR"), Some("MODERATE"), Some("MAJOR")}
  }

  /** The three counts never exceed the number of rows; they add up to it
      exactly when every row carries one of the three severities. */
  lemma {:induction false} CountsBounded(ss: seq<Snag>)
    ensures var c := Counts(ss);
            && c.minor + c.moderate + c.major <= |ss|
            && (c.minor + c.moderate + c.major == |ss| <==> forall k :: 0 <= k < |ss| ==> KnownSeverity(ss[k]))
    decreases |ss|
  {
    if ss != [] {
      var init := ss[..|ss| - 1];
      CountsBounded(init);
      assert forall k :: 0 <= k < |init| ==> init[k] == ss[k];
    }
  }

  lemma {:induction false} CountSeverityAppend(a: seq<Snag>, b: seq<Snag>, severity: string)
    ensures CountSeverity(a + b, severity) == CountSeverity(a, severity) + CountSeverity(b, severity)
    decreases |b|
  {
    if b == [] {
      assert a + b == a;
    } else {
      assert (a + b)[..|a + b| - 1] == a + b[..|b| - 1];
      CountSeverityAppend(a, b[..|b| - 1], severity);
    }
  }

  /** Counting depends only on which rows there are, not on their order. */
  lemma {:induction false} CountSeverityPermutation(a: seq<Snag>, b: seq<Snag>, severity: string)
    requires multiset(a) == multiset(b)
    ensures CountSeverity(a, severity) == CountSeverity(b, severity)
    decreases |a|
  {
    if a != [] {
      var x := a[|a| - 1];
      assert x in multiset(b);
      var k :| 0 <= k < |b| && b[k] == x;
      var rest := b[..k] + b[k + 1..];
      assert b == b[..k] + [x] + b[k + 1..];
      assert a == a[..|a| - 1] + [x];
      assert multiset(b) == multiset(b[..k]) + multiset{x} + multiset(b[k + 1..]);
      assert multiset(a) == multiset(a[..|a| - 1]) + multiset{x};
      assert multiset(rest) == multiset(b[..k]) + multiset(b[k + 1..]);
      var ma, mr := multiset(a[..|a| - 1]), multiset(rest);
      assert ma + multiset{x} == mr + multiset{x};
      assert ma == (ma + multiset{x}) - multiset{x};
      assert mr == (mr + multiset{x}) - multiset{x};
      CountSeverityPermutation(a[..|a| - 1], rest, severity);
      CountSeverityAppend(b[..k] + [x], b[k + 1..], severity);
      CountSeverityAppend(b[..k], [x], severity);
      CountSeverityAppend(b[..k], b[k + 1..], severity);
      assert CountSeverity([x], severity) == (if x.severity == Some(severity) then 1 else 0) by {
        assert [x][..0] == [];
      }
    }
  }
}
