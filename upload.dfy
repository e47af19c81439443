/** The upload routes: creating a report from a first batch of photos, and
    adding photos to an existing report. Each photo is put in the blob store
    and recorded as an unanalysed snag whose `displayOrder` is its index in
    the batch, offset by the report's snag count for a later batch. */
module UploadRoutes {
  import opened Common
  import opened Records
  import opened Store
  import R2

  const MAX_FILES: nat := 100
  const MAX_FILE_SIZE: nat := 10 * 1024 * 1024

  /** An uploaded file as multer describes it; its bytes are not modelled. */
  datatype File = File(mimetype: string, size: nat)

  predicate IsImage(f: File) {
    |f.mimetype| >= 6 && f.mimetype[..6] == "image/"
  }

  /** multer's `fileFilter` and `limits`: at most 100 files, each an image of
      at most 10 MB. A rejected upload goes to the application's error
      handler before the route runs. */
  predicate MulterAccepts(files: seq<File>) {
    && |files| <= MAX_FILES
    && forall k :: 0 <= k < |files| ==> IsImage(files[k]) && files[k].size <= MAX_FILE_SIZE
  }

  /** What became of one file of a batch: put in the blob store under the
      drawn uuid and recorded with the fresh snag id, or rejected by the
      store. */
  datatype PhotoOutcome = Stored(snagId: Id, uuid: string) | Failed

  predicate AllStored(outcomes: seq<PhotoOutcome>) {
    forall k :: 0 <= k < |outcomes| ==> outcomes[k].Stored?
  }

  /** The database hands out snag ids that are new and pairwise distinct. */
  ghost predicate FreshSnagIds(outcomes: seq<PhotoOutcome>, table: seq<Snag>) {
    && (forall k :: 0 <= k < |outcomes| && outcomes[k].Stored? ==> outcomes[k].snagId !in SnagIds(table))
    && (forall a, b :: 0 <= a < b < |outcomes| && outcomes[a].Stored? && outcomes[b].Stored? ==>
          outcomes[a].snagId != outcomes[b].snagId)
  }

  function PhotoFolder(reportId: Id): string { "reports/" + reportId }

  /** The row created for file `k` of a batch that starts at `start`. */
  function PhotoSnag(reportId: Id, files: seq<File>, outcomes: seq<PhotoOutcome>,
                     publicBase: string, start: int, k: nat): Snag
    requires k < |files| == |outcomes| && outcomes[k].Stored?
  {
    var url := R2.UploadToR2(publicBase, files[k].mimetype, outcomes[k].uuid, PhotoFolder(reportId)).publicUrl;
    UnanalysedSnag(outcomes[k].snagId, reportId, url, start + k)
  }

  /** The rows a batch leaves behind: one for each stored file, in submission
      order. */
  function PhotoSnags(reportId: Id, files: seq<File>, outcomes: seq<PhotoOutcome>,
                      publicBase: string, start: int): (r: seq<Snag>)
    requires |files| == |outcomes|
    ensures |r| <= |files|
    ensures forall k :: 0 <= k < |r| ==> r[k].reportId == reportId
    ensures forall k :: 0 <= k < |r| ==> start <= r[k].displayOrder < start + |files|
    ensures forall x :: x in SnagIds(r) ==> exists k :: 0 <= k < |outcomes| && outcomes[k].Stored? && outcomes[k].snagId == x
    ensures AllStored(outcomes) ==> |r| == |files|
    ensures AllStored(outcomes) ==> forall k :: 0 <= k < |r| ==> r[k] == PhotoSnag(reportId, files, outcomes, publicBase, start, k)
    decreases |files|
  {
    if files == [] then []
    else
      var n := |files| - 1;
      var init := PhotoSnags(reportId, files[..n], outcomes[..n], publicBase, start);
      assert AllStored(outcomes) ==> AllStored(outcomes[..n]);
      assert forall k :: 0 <= k < |init| && AllStored(outcomes) ==>
        init[k] == PhotoSnag(reportId, files, outcomes, publicBase, start, k);
      if outcomes[n].Stored? then
        var last := PhotoSnag(reportId, files, outcomes, publicBase, start, n);
        SnagIdsAppend(init, [last]);
        assert [last][0] == last;
        assert SnagIds([last]) == {last.id};
        init + [last]
      else init
  }

  function CreateWrites(ss: seq<Snag>): seq<Write> {
    seq(|ss|, k requires 0 <= k < |ss| => CreateSnagRow(ss[k]))
  }

  /** The callback for file `i`: the put, then the row, which is created only
      when the put succeeded. */
  method UploadPhoto(db: Database, reportId: Id, files: seq<File>, outcomes: seq<PhotoOutcome>,
                     publicBase: string, start: int, i: nat, ghost before: seq<Snag>, ghost logBefore: seq<Write>)
    returns (stored: bool)
    requires db.Valid()
    requires reportId in ReportIds(db.reports)
    requires i < |files| == |outcomes|
    requires FreshSnagIds(outcomes, before)
    requires db.snags == before + PhotoSnags(reportId, files[..i], outcomes[..i], publicBase, start)
    requires db.log == logBefore + CreateWrites(PhotoSnags(reportId, files[..i], outcomes[..i], publicBase, start))
    modifies db
    ensures db.Valid()
    ensures db.reports == old(db.reports)
    ensures db.snags == before + PhotoSnags(reportId, files[..i + 1], outcomes[..i + 1], publicBase, start)
    ensures db.log == logBefore + CreateWrites(PhotoSnags(reportId, files[..i + 1], outcomes[..i + 1], publicBase, start))
    ensures stored == outcomes[i].Stored?
  {
    ghost var made := PhotoSnags(reportId, files[..i], outcomes[..i], publicBase, start);
    ghost var next := PhotoSnags(reportId, files[..i + 1], outcomes[..i + 1], publicBase, start);
    PhotoSnagsSnoc(reportId, files, outcomes, publicBase, start, i);
    if outcomes[i].Stored? {
      var s := PhotoSnag(reportId, files, outcomes, publicBase, start, i);
      NextSnagFresh(db.snags, before, reportId, files, outcomes, publicBase, start, i);
      db.CreateSnag(s);
      assert next == made + [s];
      assert db.snags == before + next;
      CreateWritesAppend(made, [s]);
      assert CreateWrites([s]) == [CreateSnagRow(s)];
      assert CreateWrites(next) == CreateWrites(made) + [CreateSnagRow(s)];
      assert db.log == logBefore + CreateWrites(made) + [CreateSnagRow(s)];
      stored := true;
    } else {
      assert next == made;
      stored := false;
    }
  }

  /** The `Promise.all(req.files.map(...))` block shared by both routes, run
      in submission order: every file whose put succeeds gets its row;
      `allStored` is false when some put failed (the promise then rejects,
      but the rows of the other files are still created). */
  method UploadPhotos(db: Database, reportId: Id, files: seq<File>, outcomes: seq<PhotoOutcome>,
                      publicBase: string, start: int) returns (allStored: bool)
    requires db.Valid()
    requires reportId in ReportIds(db.reports)
    requires |outcomes| == |files|
    requires FreshSnagIds(outcomes, db.snags)
    modifies db
    ensures db.Valid()
    ensures db.reports == old(db.reports)
    ensures db.snags == old(db.snags) + PhotoSnags(reportId, files, outcomes, publicBase, start)
    ensures db.log == old(db.log) + CreateWrites(PhotoSnags(reportId, files, outcomes, publicBase, start))
    ensures allStored == AllStored(outcomes)
  {
    allStored := true;
    var i := 0;
    while i < |files|
      invariant 0 <= i <= |files|
      invariant db.Valid()
      invariant db.reports == old(db.reports)
      invariant db.snags == old(db.snags) + PhotoSnags(reportId, files[..i], outcomes[..i], publicBase, start)
      invariant db.log == old(db.log) + CreateWrites(PhotoSnags(reportId, files[..i], outcomes[..i], publicBase, start))
      invariant allStored == AllStored(outcomes[..i])
    {
      var stored := UploadPhoto(db, reportId, files, outcomes, publicBase, start, i, old(db.snags), old(db.log));
      allStored := allStored && stored;
      AllStoredSnoc(outcomes, i);
      i := i + 1;
    }
    assert files[..i] == files && outcomes[..i] == outcomes;
  }

  lemma AllStoredSnoc(outcomes: seq<PhotoOutcome>, i: nat)
    requires i < |outcomes|
    ensures AllStored(outcomes[..i + 1]) <==> AllStored(outcomes[..i]) && outcomes[i].Stored?
  {
    assert forall k :: 0 <= k < i ==> outcomes[..i + 1][k] == outcomes[..i][k];
  }

  /** One more file of the batch adds its row when it was stored. */
  lemma PhotoSnagsSnoc(reportId: Id, files: seq<File>, outcomes: seq<PhotoOutcome>,
                       publicBase: string, start: int, i: nat)
    requires i < |files| == |outcomes|
    ensures PhotoSnags(reportId, files[..i + 1], outcomes[..i + 1], publicBase, start)
         == PhotoSnags(reportId, files[..i], outcomes[..i], publicBase, start)
          + (if outcomes[i].Stored? then [PhotoSnag(reportId, files, outcomes, publicBase, start, i)] else [])
  {
    assert files[..i + 1][..i] == files[..i] && outcomes[..i + 1][..i] == outcomes[..i];
  }

  lemma NextSnagFresh(table: seq<Snag>, before: seq<Snag>, reportId: Id, files: seq<File>,
                      outcomes: seq<PhotoOutcome>, publicBase: string, start: int, i: nat)
    requires i < |files| == |outcomes| && outcomes[i].Stored?
    requires FreshSnagIds(outcomes, before)
    requires table == before + PhotoSnags(reportId, files[..i], outcomes[..i], publicBase, start)
    ensures PhotoSnag(reportId, files, outcomes, publicBase, start, i).id !in SnagIds(table)
  {
    var made := PhotoSnags(reportId, files[..i], outcomes[..i], publicBase, start);
    var id := outcomes[i].snagId;
    SnagIdsAppend(before, made);
  }

  lemma CreateWritesAppend(a: seq<Snag>, b: seq<Snag>)
    ensures CreateWrites(a + b) == CreateWrites(a) + CreateWrites(b)
  {
  }

  datatype CreateBody = CreateBody(
    propertyAddress: Input,
    propertyType: Input,
    developerName: Input,
    inspectionDate: Input)

  /** The row `prisma.report.create` stores: DRAFT, unpaid, no document, empty
      optional fields as null and the inspection date defaulting to `now`.
      Date parsing is not modelled: the date is kept as text. */
  function NewReport(id: Id, userId: Id, body: CreateBody, now: string): Report
    requires body.propertyAddress.Truthy()
  {
    Report(
      id, userId, body.propertyAddress.text,
      if body.propertyType.Truthy() then Some(body.propertyType.text) else None,
      if body.developerName.Truthy() then Some(body.developerName.text) else None,
      if body.inspectionDate.Truthy() then body.inspectionDate.text else now,
      DRAFT, UNPAID, None, None)
  }

  datatype Created = Created(id: Id, propertyAddress: string, photoCount: nat)

  /** POST /api/upload. */
  method CreateReport(db: Database, userId: Id, body: CreateBody, files: seq<File>,
                      newReportId: Id, outcomes: seq<PhotoOutcome>, publicBase: string, now: string)
    returns (res: Result<Created>)
    requires db.Valid()
    requires newReportId !in ReportIds(db.reports)
    requires |outcomes| == |files|
    requires FreshSnagIds(outcomes, db.snags)
    modifies db
    ensures db.Valid()
    ensures !MulterAccepts(files) ==>
      res == Err(ServerError("Internal server error")) && unchanged(db)
    ensures MulterAccepts(files) && |files| == 0 ==>
      res == Err(BadRequest("No photos uploaded")) && unchanged(db)
    ensures MulterAccepts(files) && |files| > 0 && !body.propertyAddress.Truthy() ==>
      res == Err(BadRequest("Property address is required")) && unchanged(db)
    ensures MulterAccepts(files) && |files| > 0 && body.propertyAddress.Truthy() ==>
      var report := NewReport(newReportId, userId, body, now);
      var made := PhotoSnags(newReportId, files, outcomes, publicBase, 0);
      && db.reports == old(db.reports) + [report]
      && db.snags == old(db.snags) + made
      && db.log == old(db.log) + [CreateReportRow(report)] + CreateWrites(made)
      && res == if AllStored(outcomes) then Ok(Created(newReportId, report.propertyAddress, |files|))
                else Err(ServerError("Failed to upload photos"))
  {
    if !MulterAccepts(files) {
      return Err(ServerError("Internal server error"));
    }
    if |files| == 0 {
      return Err(BadRequest("No photos uploaded"));
    }
    if !body.propertyAddress.Truthy() {
      return Err(BadRequest("Property address is required"));
    }
    var report := NewReport(newReportId, userId, body, now);
    db.CreateReport(report);
    assert newReportId in ReportIds(db.reports) by {
      assert db.reports[|db.reports| - 1] == report;
    }
    var allStored := UploadPhotos(db, newReportId, files, outcomes, publicBase, 0);
    if allStored {
      res := Ok(Created(newReportId, report.propertyAddress, |files|));
    } else {
      res := Err(ServerError("Failed to upload photos"));
    }
  }

  datatype Added = Added(addedPhotos: nat, totalPhotos: nat)

  /** POST /api/upload/:reportId/photos. The batch continues from the current
      snag count; an empty batch is accepted. */
  method AddPhotos(db: Database, userId: Id, reportId: Id, files: seq<File>,
                   outcomes: seq<PhotoOutcome>, publicBase: string)
    returns (res: Result<Added>)
    requires db.Valid()
    requires |outcomes| == |files|
    requires FreshSnagIds(outcomes, db.snags)
    modifies db
    ensures db.Valid()
    ensures !MulterAccepts(files) ==>
      res == Err(ServerError("Internal server error")) && unchanged(db)
    ensures MulterAccepts(files) && FindOwned(old(db.reports), reportId, userId).None? ==>
      res == Err(NotFound("Report not found")) && unchanged(db)
    ensures MulterAccepts(files) && FindOwned(old(db.reports), reportId, userId).Some? ==>
      var report := old(db.reports)[FindOwned(old(db.reports), reportId, userId).value];
      var start := |SnagsOf(old(db.snags), reportId)|;
      var made := PhotoSnags(reportId, files, outcomes, publicBase, start);
      if report.status == COMPLETE then
        res == Err(BadRequest("Cannot add photos to completed report")) && unchanged(db)
      else
        && db.reports == old(db.reports)
        && db.snags == old(db.snags) + made
        && db.log == old(db.log) + CreateWrites(made)
        && res == if AllStored(outcomes) then Ok(Added(|files|, start + |files|))
                  else Err(ServerError("Failed to add photos"))
  {
    if !MulterAccepts(files) {
      return Err(ServerError("Internal server error"));
    }
    var found := FindOwned(db.reports, reportId, userId);
    if found.None? {
      return Err(NotFound("Report not found"));
    }
    var report := db.reports[found.value];
    if report.status == COMPLETE {
      return Err(BadRequest("Cannot add photos to completed report"));
    }
    var start := |SnagsOf(db.snags, reportId)|;
    var allStored := UploadPhotos(db, reportId, files, outcomes, publicBase, start);
    if allStored {
      res := Ok(Added(|files|, start + |files|));
    } else {
      res := Err(ServerError("Failed to add photos"));
    }
  }

  /** While a report's orders stay below its snag count (which can fail once
      one of its snags has been deleted or an upload in an earlier batch has
      failed), a fully stored batch of `m` photos
      takes exactly the orders `n .. n + m - 1` in submission order, none of
      them already in use. */
  lemma {:induction false} BatchOrdersFresh(table: seq<Snag>, reportId: Id, files: seq<File>,
                                            outcomes: seq<PhotoOutcome>, publicBase: string)
    requires |outcomes| == |files| && AllStored(outcomes)
    requires var mine := SnagsOf(table, reportId);
             forall k :: 0 <= k < |mine| ==> 0 <= mine[k].displayOrder < |mine|
    ensures var mine := SnagsOf(table, reportId);
            var made := PhotoSnags(reportId, files, outcomes, publicBase, |mine|);
            && |made| == |files|
            && (forall k :: 0 <= k < |made| ==> made[k].displayOrder == |mine| + k)
            && (forall a, b :: 0 <= a < |mine| && 0 <= b < |made| ==> mine[a].displayOrder != made[b].displayOrder)
            && SnagsOf(table + made, reportId) == mine + made
  {
    var mine := SnagsOf(table, reportId);
    var made := PhotoSnags(reportId, files, outcomes, publicBase, |mine|);
    SnagsOfAppend(table, made, reportId);
    SnagsOfAll(made, reportId);
  }

  lemma {:induction false} SnagsOfAll(ss: seq<Snag>, reportId: Id)
    requires forall k :: 0 <= k < |ss| ==> ss[k].reportId == reportId
    ensures SnagsOf(ss, reportId) == ss
    decreases |ss|
  {
    if ss != [] {
      SnagsOfAll(ss[..|ss| - 1], reportId);
      assert ss == ss[..|ss| - 1] + [ss[|ss| - 1]];
    }
  }

  /** After a delete the count no longer bounds the orders, and the next batch
      reuses an order still held: orders 0 and 1, delete 0, add one photo, and
      it gets order 1 again. */
  lemma OrderCollisionAfterDelete()
    ensures
      var first := UnanalysedSnag("s0", "r", "https://cdn/reports/r/a.jpeg", 0);
      var second := UnanalysedSnag("s1", "r", "https://cdn/reports/r/b.jpeg", 1);
      var afterDelete := RemoveAt([first, second], 0);
      var start := |SnagsOf(afterDelete, "r")|;
      var made := PhotoSnags("r", [File("image/jpeg", 1024)], [Stored("s2", "c")], "https://cdn", start);
      && |made| == 1
      && SnagsOf(afterDelete + made, "r") == [second, made[0]]
      && made[0].displayOrder == second.displayOrder
  {
    var first := UnanalysedSnag("s0", "r", "https://cdn/reports/r/a.jpeg", 0);
    var second := UnanalysedSnag("s1", "r", "https://cdn/reports/r/b.jpeg", 1);
    var afterDelete := RemoveAt([first, second], 0);
    assert afterDelete == [second];
    SnagsOfAll(afterDelete, "r");
    var made := PhotoSnags("r", [File("image/jpeg", 1024)], [Stored("s2", "c")], "https://cdn", 1);
    assert AllStored([Stored("s2", "c")]);
    SnagsOfAll(afterDelete + made, "r");
  }

  /** A batch of three whose middle put fails leaves two rows, with the
      orders 0 and 2 of their files. */
  lemma {:induction false} PartlyFailedBatch(reportId: Id, files: seq<File>, outcomes: seq<PhotoOutcome>,
                                             publicBase: string)
    requires |files| == |outcomes| == 3
    requires outcomes[0].Stored? && outcomes[1].Failed? && outcomes[2].Stored?
    ensures var made := PhotoSnags(reportId, files, outcomes, publicBase, 0);
            |made| == 2 && made[0].displayOrder == 0 && made[1].displayOrder == 2
  {
    PhotoSnagsSnoc(reportId, files, outcomes, publicBase, 0, 0);
    PhotoSnagsSnoc(reportId, files, outcomes, publicBase, 0, 1);
    PhotoSnagsSnoc(reportId, files, outcomes, publicBase, 0, 2);
    assert files[..0] == [] && outcomes[..0] == [];
    assert files[..3] == files && outcomes[..3] == outcomes;
  }

  /** After that partly failed batch the report's snag count is 2, so the
      next added photo takes order 2 again, with no delete at all. */
  lemma {:induction false} OrderCollisionAfterFailedPut(reportId: Id, files: seq<File>, outcomes: seq<PhotoOutcome>,
                                                        more: seq<File>, moreOutcomes: seq<PhotoOutcome>,
                                                        publicBase: string)
    requires |files| == |outcomes| == 3
    requires outcomes[0].Stored? && outcomes[1].Failed? && outcomes[2].Stored?
    requires |more| == |moreOutcomes| == 1 && moreOutcomes[0].Stored?
    ensures
      var first := PhotoSnags(reportId, files, outcomes, publicBase, 0);
      var start := |SnagsOf(first, reportId)|;
      var added := PhotoSnags(reportId, more, moreOutcomes, publicBase, start);
      && start == 2 && |added| == 1
      && added[0].displayOrder == first[1].displayOrder
      && SnagsOf(first + added, reportId) == first + added
  {
    PartlyFailedBatch(reportId, files, outcomes, publicBase);
    var first := PhotoSnags(reportId, files, outcomes, publicBase, 0);
    SnagsOfAll(first, reportId);
    var added := PhotoSnags(reportId, more, moreOutcomes, publicBase, 2);
    assert AllStored(moreOutcomes);
    SnagsOfAll(first + added, reportId);
  }
}
