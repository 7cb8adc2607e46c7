/**
 * The admin report table of components/AdminTable.js: reports (`laporan`)
 * move between `menunggu` (pending), `diverifikasi` (verified) and `ditolak`
 * (rejected), and every handler that changes a report's status keeps the
 * `bencana` ledger in step through the reconciler.
 *
 * The intended relation between the two tables is that the ledger is the
 * materialized view of the verified reports: for every (kecamatan, tahun) it
 * holds, per disaster type, the number of verified reports, and it has no row
 * where that number is 0 for all three types. `View` defines that view, and
 * the lemmas below say how each handler changes it.
 */
module ReportLifecycle {
  import opened Ledger
  import opened Reconciler

  datatype Status = Menunggu | Diverifikasi | Ditolak

  type ReportId = int

  /** A `laporan` row (its `id` is the key of the table; `created_at` is left out). */
  datatype Report = Report(
    kecamatan: string, jenis: DisasterType, deskripsi: string, tahun: int, status: Status, userId: string)

  /** The edit form, `editForm`: the five fields an admin may change. */
  datatype EditForm = EditForm(kecamatan: string, jenis: DisasterType, deskripsi: string, tahun: int, status: Status)

  type Reports = map<ReportId, Report>

  function ReportKey(r: Report): Key
  {
    Key(r.kecamatan, r.tahun)
  }

  /** `update(editForm)`: the form's five fields replace the report's, the reporter stays. */
  function Applied(r: Report, f: EditForm): Report
  {
    r.(kecamatan := f.kecamatan, jenis := f.jenis, deskripsi := f.deskripsi, tahun := f.tahun, status := f.status)
  }

  /** What a report row offers outside edit mode: Verify and Reject only while the report is pending. */
  datatype RowAction = EditAction | VerifyAction | RejectAction | DeleteAction

  function OfferedActions(s: Status): (acts: set<RowAction>)
    ensures VerifyAction in acts <==> s == Menunggu
    ensures RejectAction in acts <==> s == Menunggu
    ensures EditAction in acts && DeleteAction in acts
  {
    if s == Menunggu then {EditAction, VerifyAction, RejectAction, DeleteAction}
    else {EditAction, DeleteAction}
  }

  // ---------------------------------------------------------------------------
  // The ledger as the materialized view of the verified reports

  predicate Counted(r: Report)
  {
    r.status == Diverifikasi
  }

  /** The verified reports of disaster type `t` filed for key `k`. */
  ghost function IdsAt(reps: Reports, k: Key, t: DisasterType): set<ReportId>
  {
    set id | id in reps && Counted(reps[id]) && ReportKey(reps[id]) == k && reps[id].jenis == t
  }

  ghost function CountsAt(reps: Reports, k: Key): (c: Counts)
    ensures forall t :: Get(c, t) == |IdsAt(reps, k, t)|
    ensures NonNegative(c)
  {
    Counts(|IdsAt(reps, k, Banjir)|, |IdsAt(reps, k, GempaBumi)|, |IdsAt(reps, k, TanahLongsor)|)
  }

  ghost function VerifiedKeys(reps: Reports): set<Key>
  {
    set id | id in reps && Counted(reps[id]) :: ReportKey(reps[id])
  }

  /** The ledger the verified reports call for. */
  ghost function View(reps: Reports): Table
  {
    map k | k in VerifiedKeys(reps) :: CountsAt(reps, k)
  }

  /** A key has a row in the view exactly when some verified report is filed under it. */
  lemma KeyInView(reps: Reports, k: Key)
    ensures k in VerifiedKeys(reps) <==> !AllZero(CountsAt(reps, k))
  {
    var c := CountsAt(reps, k);
    if k in VerifiedKeys(reps) {
      var id :| id in reps && Counted(reps[id]) && ReportKey(reps[id]) == k;
      var t := reps[id].jenis;
      assert id in IdsAt(reps, k, t);
      assert Get(c, t) > 0;
    }
    if !AllZero(c) {
      var t: DisasterType :| Get(c, t) != 0 by {
        if c.banjir != 0 { assert Get(c, Banjir) != 0; }
        else if c.gempaBumi != 0 { assert Get(c, GempaBumi) != 0; }
        else { assert Get(c, TanahLongsor) != 0; }
      }
      var ids := IdsAt(reps, k, t);
      assert |ids| != 0;
      assert exists x :: x in ids by {
        if forall x :: x !in ids { assert false; }
      }
      var id :| id in ids;
      assert ReportKey(reps[id]) in VerifiedKeys(reps);
    }
  }

  /** The view is well-formed: counters are counts, and a key without verified reports has no row. */
  lemma ViewWellFormed(reps: Reports)
    ensures WellFormed(View(reps))
  {
    forall k | k in View(reps) ensures NonNegative(View(reps)[k]) && !AllZero(View(reps)[k]) {
      KeyInView(reps, k);
    }
  }

  /** Two report tables that count the same ids everywhere have the same view. */
  lemma SameIdsSameView(reps: Reports, reps': Reports)
    requires forall k, t :: IdsAt(reps', k, t) == IdsAt(reps, k, t)
    ensures View(reps') == View(reps)
  {
    forall k ensures CountsAt(reps', k) == CountsAt(reps, k) {
      CountsExtensional(CountsAt(reps', k), CountsAt(reps, k));
    }
    forall k ensures k in VerifiedKeys(reps') <==> k in VerifiedKeys(reps) {
      KeyInView(reps, k);
      KeyInView(reps', k);
    }
    assert View(reps').Keys == View(reps).Keys;
  }

  /** The view is the one table whose rows are the non-zero per-key counts. */
  lemma ViewCharacterized(reps: Reports, ledger: Table)
    requires forall k :: k in ledger <==> !AllZero(CountsAt(reps, k))
    requires forall k :: k in ledger ==> ledger[k] == CountsAt(reps, k)
    ensures View(reps) == ledger
  {
    forall k ensures k in View(reps) <==> k in ledger {
      KeyInView(reps, k);
    }
    assert View(reps).Keys == ledger.Keys;
  }

  /** Keys whose counted ids did not change keep their counts. */
  lemma CountsAtUnchanged(reps: Reports, reps': Reports, k: Key)
    requires forall t :: IdsAt(reps', k, t) == IdsAt(reps, k, t)
    ensures CountsAt(reps', k) == CountsAt(reps, k)
  {
    CountsExtensional(CountsAt(reps', k), CountsAt(reps, k));
  }

  /** One more verified report for (k0, t0), nothing else changed: the view changes as `add` changes the ledger. */
  lemma GainOne(reps: Reports, reps': Reports, k0: Key, t0: DisasterType, id: ReportId)
    requires id !in IdsAt(reps, k0, t0)
    requires IdsAt(reps', k0, t0) == IdsAt(reps, k0, t0) + {id}
    requires forall k, t :: (k != k0 || t != t0) ==> IdsAt(reps', k, t) == IdsAt(reps, k, t)
    ensures View(reps') == Reconciled(View(reps), k0, t0, Add)
  {
    var v := View(reps);
    var r := Reconciled(v, k0, t0, Add);
    forall k | k != k0
      ensures (k in r <==> !AllZero(CountsAt(reps', k))) && (k in r ==> r[k] == CountsAt(reps', k))
    {
      KeyInView(reps, k);
      CountsAtUnchanged(reps, reps', k);
    }
    var c, c' := CountsAt(reps, k0), CountsAt(reps', k0);
    assert Get(c', t0) == Get(c, t0) + 1;
    assert !AllZero(c') by { assert Get(c', t0) != 0; }
    KeyInView(reps, k0);
    if k0 in v {
      AddToExistingRow(v, k0, t0);
      CountsExtensional(r[k0], c');
    } else {
      MissingRow(v, k0, t0);
      assert c.banjir == 0 && c.gempaBumi == 0 && c.tanahLongsor == 0;
      forall t ensures Get(Unit(t0), t) == Get(c', t) {
        if t != t0 { assert Get(c, t) == 0; }
      }
      CountsExtensional(Unit(t0), c');
    }
    ViewCharacterized(reps', r);
  }

  /** One verified report fewer for (k0, t0), nothing else changed: the view changes as `remove` changes the ledger. */
  lemma LoseOne(reps: Reports, reps': Reports, k0: Key, t0: DisasterType, id: ReportId)
    requires id !in IdsAt(reps', k0, t0)
    requires IdsAt(reps, k0, t0) == IdsAt(reps', k0, t0) + {id}
    requires forall k, t :: (k != k0 || t != t0) ==> IdsAt(reps', k, t) == IdsAt(reps, k, t)
    ensures View(reps') == Reconciled(View(reps), k0, t0, Remove)
  {
    var v := View(reps);
    var r := Reconciled(v, k0, t0, Remove);
    forall k | k != k0
      ensures (k in r <==> !AllZero(CountsAt(reps', k))) && (k in r ==> r[k] == CountsAt(reps', k))
    {
      KeyInView(reps, k);
      CountsAtUnchanged(reps, reps', k);
    }
    var c, c' := CountsAt(reps, k0), CountsAt(reps', k0);
    assert Get(c, t0) == Get(c', t0) + 1;
    assert k0 in v by { KeyInView(reps, k0); assert Get(c, t0) != 0; }
    var updated := Adjusted(c, t0, Remove);
    forall t ensures Get(updated, t) == Get(c', t) { }
    CountsExtensional(updated, c');
    ViewCharacterized(reps', r);
  }

  lemma IdsAtAfterDelete(reps: Reports, id: ReportId, k: Key, t: DisasterType)
    ensures IdsAt(reps - {id}, k, t) == IdsAt(reps, k, t) - {id}
  {
  }

  lemma IdsAtAfterInsert(reps: Reports, id: ReportId, r: Report, k: Key, t: DisasterType)
    requires id !in reps
    ensures IdsAt(reps[id := r], k, t)
         == IdsAt(reps, k, t) + (if Counted(r) && ReportKey(r) == k && r.jenis == t then {id} else {})
  {
  }

  /** Deleting a report uncounts it when it was verified, and leaves the view alone otherwise. */
  lemma ViewAfterDelete(reps: Reports, id: ReportId)
    requires id in reps
    ensures View(reps - {id})
         == if Counted(reps[id]) then Reconciled(View(reps), ReportKey(reps[id]), reps[id].jenis, Remove)
            else View(reps)
  {
    var reps' := reps - {id};
    forall k, t ensures IdsAt(reps', k, t) == IdsAt(reps, k, t) - {id} {
      IdsAtAfterDelete(reps, id, k, t);
    }
    var r := reps[id];
    if Counted(r) {
      assert id in IdsAt(reps, ReportKey(r), r.jenis);
      LoseOne(reps, reps', ReportKey(r), r.jenis, id);
    } else {
      SameIdsSameView(reps, reps');
    }
  }

  /** Adding a report under a fresh id counts it when it is verified, and leaves the view alone otherwise. */
  lemma ViewAfterInsert(reps: Reports, id: ReportId, r: Report)
    requires id !in reps
    ensures View(reps[id := r])
         == if Counted(r) then Reconciled(View(reps), ReportKey(r), r.jenis, Add) else View(reps)
  {
    var reps' := reps[id := r];
    forall k, t ensures IdsAt(reps', k, t)
                     == IdsAt(reps, k, t) + (if Counted(r) && ReportKey(r) == k && r.jenis == t then {id} else {}) {
      IdsAtAfterInsert(reps, id, r, k, t);
    }
    if Counted(r) {
      assert id !in IdsAt(reps, ReportKey(r), r.jenis);
      GainOne(reps, reps', ReportKey(r), r.jenis, id);
    } else {
      SameIdsSameView(reps, reps');
    }
  }

  /** The reconciliation an edit calls for: uncount the report as it was, then count it as it is now. */
  function ReconcileEdit(ledger: Table, original: Report, edited: Report): Table
  {
    var removed := if Counted(original) then Reconciled(ledger, ReportKey(original), original.jenis, Remove) else ledger;
    if Counted(edited) then Reconciled(removed, ReportKey(edited), edited.jenis, Add) else removed
  }

  /** Replacing a report keeps the ledger a view of the reports exactly when it is reconciled as in `ReconcileEdit`. */
  lemma ViewAfterReplace(reps: Reports, id: ReportId, edited: Report)
    requires id in reps
    ensures View(reps[id := edited]) == ReconcileEdit(View(reps), reps[id], edited)
  {
    var rest := reps - {id};
    assert reps[id := edited] == rest[id := edited];
    ViewAfterDelete(reps, id);
    ViewAfterInsert(rest, id, edited);
  }

  /** Verifying a report that is not yet verified counts it once: the view changes as `add` changes the ledger. */
  lemma ViewAfterVerify(reps: Reports, id: ReportId)
    requires id in reps && reps[id].status != Diverifikasi
    ensures View(reps[id := reps[id].(status := Diverifikasi)])
         == Reconciled(View(reps), ReportKey(reps[id]), reps[id].jenis, Add)
  {
    ViewAfterReplace(reps, id, reps[id].(status := Diverifikasi));
  }

  /**
   * Verifying a report that is already verified adds a second count the view
   * does not have: this is what the "Verify only while pending" rule prevents.
   */
  lemma VerifyTwiceOvercounts(reps: Reports, id: ReportId)
    requires id in reps && reps[id].status == Diverifikasi
    ensures Reconciled(View(reps), ReportKey(reps[id]), reps[id].jenis, Add)
         != View(reps[id := reps[id].(status := Diverifikasi)])
  {
    var r := reps[id];
    var k := ReportKey(r);
    assert reps[id := r.(status := Diverifikasi)] == reps;
    assert id in IdsAt(reps, k, r.jenis);
    KeyInView(reps, k);
    var v := View(reps);
    assert k in v;
    AddToExistingRow(v, k, r.jenis);
  }

  /** Rejecting uncounts a verified report and changes nothing for a pending or rejected one. */
  lemma ViewAfterReject(reps: Reports, id: ReportId)
    requires id in reps
    ensures View(reps[id := reps[id].(status := Ditolak)])
         == if Counted(reps[id]) then Reconciled(View(reps), ReportKey(reps[id]), reps[id].jenis, Remove)
            else View(reps)
  {
    ViewAfterReplace(reps, id, reps[id].(status := Ditolak));
  }

  /**
   * The ledger effect of `handleEditSubmit` as written: only verified to
   * rejected (uncount the report as it was) and rejected to verified (count
   * the report as edited) touch the ledger.
   */
  function EditLedgerAsWritten(ledger: Table, original: Report, form: EditForm): Table
  {
    if original.status == Diverifikasi && form.status == Ditolak then
      Reconciled(ledger, ReportKey(original), original.jenis, Remove)
    else if original.status == Ditolak && form.status == Diverifikasi then
      Reconciled(ledger, Key(form.kecamatan, form.tahun), form.jenis, Add)
    else ledger
  }

  /** The two status changes the edit handler does reconcile agree with the view. */
  lemma EditAsWrittenHandledPairs(reps: Reports, id: ReportId, form: EditForm)
    requires id in reps
    requires (reps[id].status == Diverifikasi && form.status == Ditolak)
          || (reps[id].status == Ditolak && form.status == Diverifikasi)
    ensures View(reps[id := Applied(reps[id], form)]) == EditLedgerAsWritten(View(reps), reps[id], form)
  {
    ViewAfterReplace(reps, id, Applied(reps[id], form));
  }

  /**
   * A pending report marked verified through the edit form is never counted:
   * from a ledger that is the view of one pending report, the edit leaves the
   * ledger empty although the edited table has a verified report.
   */
  lemma EditAsWrittenMissesVerification()
    ensures var r := Report("Kecamatan Kapas", Banjir, "", 2024, Menunggu, "");
            var reps := map[1 := r];
            var form := EditForm(r.kecamatan, r.jenis, r.deskripsi, r.tahun, Diverifikasi);
            && View(reps) == map[]
            && EditLedgerAsWritten(View(reps), r, form) == map[]
            && View(reps[1 := Applied(r, form)]) != map[]
  {
    var r := Report("Kecamatan Kapas", Banjir, "", 2024, Menunggu, "");
    var reps := map[1 := r];
    var form := EditForm(r.kecamatan, r.jenis, r.deskripsi, r.tahun, Diverifikasi);
    assert VerifiedKeys(reps) == {};
    var edited := reps[1 := Applied(r, form)];
    assert 1 in edited && Counted(edited[1]);
    assert ReportKey(edited[1]) in VerifiedKeys(edited);
    assert ReportKey(r) in View(edited);
  }

  // ---------------------------------------------------------------------------
  // The two tables and the handlers

  datatype Outcome = Done | Cancelled | Failed

  class AdminTable {
    /** The `laporan` table; the page's `reports` list is its refreshed copy. */
    var laporan: Reports
    /** The `bencana` table. */
    var bencana: Table

    /** The ledger holds exactly the verified reports' counts. */
    ghost predicate Mirrors()
      reads this
    {
      bencana == View(laporan)
    }

    constructor (reports: Reports, ledger: Table)
      ensures laporan == reports && bencana == ledger
    {
      laporan := reports;
      bencana := ledger;
    }

    /** `adjustBencanaData(report, action)` for the report's kecamatan, tahun and disaster type. */
    method AdjustBencanaData(kecamatan: string, tahun: int, jenis: DisasterType, action: Action)
      modifies this
      ensures bencana == Reconciled(old(bencana), Key(kecamatan, tahun), jenis, action)
      ensures laporan == old(laporan)
    {
      var key := Key(kecamatan, tahun);
      if key in bencana {
        var existing := bencana[key];
        var updateData := Adjusted(existing, jenis, action);
        bencana := bencana[key := updateData];
        if AllZero(updateData) {
          bencana := bencana - {key};
        }
      } else if action == Add {
        bencana := bencana[key := Unit(jenis)];
      }
    }

    /** `verifyReport`: mark the report verified, then always count it. */
    method VerifyReport(id: ReportId) returns (outcome: Outcome)
      modifies this
      ensures outcome == (if id in old(laporan) then Done else Failed)
      ensures id !in old(laporan) ==> laporan == old(laporan) && bencana == old(bencana)
      ensures id in old(laporan) ==>
        var r := old(laporan)[id];
        && laporan == old(laporan)[id := r.(status := Diverifikasi)]
        && bencana == Reconciled(old(bencana), ReportKey(r), r.jenis, Add)
      ensures old(Mirrors()) && id in old(laporan) && old(laporan)[id].status == Menunggu ==> Mirrors()
    {
      if id !in laporan {
        return Failed;
      }
      ghost var before := laporan;
      var report := laporan[id];
      laporan := laporan[id := report.(status := Diverifikasi)];
      AdjustBencanaData(report.kecamatan, report.tahun, report.jenis, Add);
      if report.status == Menunggu {
        ViewAfterVerify(before, id);
      }
      outcome := Done;
    }

    /** `rejectReport`: mark the report rejected, and uncount it if it was verified. */
    method RejectReport(id: ReportId) returns (outcome: Outcome)
      modifies this
      ensures outcome == (if id in old(laporan) then Done else Failed)
      ensures id !in old(laporan) ==> laporan == old(laporan) && bencana == old(bencana)
      ensures id in old(laporan) ==>
        var r := old(laporan)[id];
        && laporan == old(laporan)[id := r.(status := Ditolak)]
        && bencana == (if r.status == Diverifikasi then Reconciled(old(bencana), ReportKey(r), r.jenis, Remove)
                       else old(bencana))
      ensures old(Mirrors()) ==> Mirrors()
    {
      if id !in laporan {
        return Failed;
      }
      ghost var before := laporan;
      var report := laporan[id];
      laporan := laporan[id := report.(status := Ditolak)];
      if report.status == Diverifikasi {
        AdjustBencanaData(report.kecamatan, report.tahun, report.jenis, Remove);
      }
      ViewAfterReject(before, id);
      outcome := Done;
    }

    /** `deleteReport`: after confirmation, drop the report and uncount it if it was verified. */
    method DeleteReport(id: ReportId, confirmed: bool) returns (outcome: Outcome)
      modifies this
      ensures outcome == (if !confirmed then Cancelled else if id in old(laporan) then Done else Failed)
      ensures outcome != Done ==> laporan == old(laporan) && bencana == old(bencana)
      ensures outcome == Done ==>
        var r := old(laporan)[id];
        && laporan == old(laporan) - {id}
        && bencana == (if r.status == Diverifikasi then Reconciled(old(bencana), ReportKey(r), r.jenis, Remove)
                       else old(bencana))
      ensures old(Mirrors()) ==> Mirrors()
    {
      if !confirmed {
        return Cancelled;
      }
      if id !in laporan {
        return Failed;
      }
      ghost var before := laporan;
      var report := laporan[id];
      laporan := laporan - {id};
      if report.status == Diverifikasi {
        AdjustBencanaData(report.kecamatan, report.tahun, report.jenis, Remove);
      }
      ViewAfterDelete(before, id);
      outcome := Done;
    }

    /** `handleEditSubmit` as written: store the form, then reconcile only verified-to-rejected and rejected-to-verified. */
    method EditSubmit(id: ReportId, form: EditForm) returns (outcome: Outcome)
      modifies this
      ensures outcome == (if id in old(laporan) then Done else Failed)
      ensures id !in old(laporan) ==> laporan == old(laporan) && bencana == old(bencana)
      ensures id in old(laporan) ==>
        var r := old(laporan)[id];
        && laporan == old(laporan)[id := Applied(r, form)]
        && bencana == EditLedgerAsWritten(old(bencana), r, form)
    {
      if id !in laporan {
        return Failed;
      }
      var originalReport := laporan[id];
      laporan := laporan[id := Applied(originalReport, form)];
      if originalReport.status == Diverifikasi && form.status == Ditolak {
        AdjustBencanaData(originalReport.kecamatan, originalReport.tahun, originalReport.jenis, Remove);
      } else if originalReport.status == Ditolak && form.status == Diverifikasi {
        AdjustBencanaData(form.kecamatan, form.tahun, form.jenis, Add);
      }
      outcome := Done;
    }

    /** The edit handler as evidently intended: uncount the report as it was, count it as edited. */
    method EditSubmitReconciled(id: ReportId, form: EditForm) returns (outcome: Outcome)
      modifies this
      ensures outcome == (if id in old(laporan) then Done else Failed)
      ensures id !in old(laporan) ==> laporan == old(laporan) && bencana == old(bencana)
      ensures id in old(laporan) ==>
        var r := old(laporan)[id];
        && laporan == old(laporan)[id := Applied(r, form)]
        && bencana == ReconcileEdit(old(bencana), r, Applied(r, form))
      ensures old(Mirrors()) ==> Mirrors()
    {
      if id !in laporan {
        return Failed;
      }
      ghost var before := laporan;
      var originalReport := laporan[id];
      var edited := Applied(originalReport, form);
      laporan := laporan[id := edited];
      if originalReport.status == Diverifikasi {
        AdjustBencanaData(originalReport.kecamatan, originalReport.tahun, originalReport.jenis, Remove);
      }
      if edited.status == Diverifikasi {
        AdjustBencanaData(edited.kecamatan, edited.tahun, edited.jenis, Add);
      }
      ViewAfterReplace(before, id, edited);
      outcome := Done;
    }
  }
}
