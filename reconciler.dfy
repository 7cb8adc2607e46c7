/**
 * What `adjustBencanaData` in components/AdminTable.js does to the `bencana`
 * table when a report is counted (`add`) or uncounted (`remove`): look up the
 * row for the report's (kecamatan, tahun); if there is one, move the counter of
 * the report's disaster type by one, floored at 0, and delete the row when all
 * three counters are then 0; if there is none, insert a row holding 1 for the
 * report's type when adding, and do nothing when removing.
 */
module Reconciler {
  import opened Ledger

  datatype Action = Add | Remove

  /** `action === 'remove' ? -1 : 1` */
  function Delta(a: Action): int
  {
    if a == Remove then -1 else 1
  }

  /** `Math.max(0, x)` */
  function Max0(x: int): (r: int)
    ensures r >= 0 && r >= x && (r == x || r == 0)
  {
    if x < 0 then 0 else x
  }

  /** The `updateData` record: only the counter of type `t` moves, and it never goes below 0. */
  function Adjusted(c: Counts, t: DisasterType, a: Action): (r: Counts)
    ensures Get(r, t) == Max0(Get(c, t) + Delta(a))
    ensures Get(r, t) >= 0
    ensures forall u :: u != t ==> Get(r, u) == Get(c, u)
  {
    Counts(
      if t == Banjir then Max0(c.banjir + Delta(a)) else c.banjir,
      if t == GempaBumi then Max0(c.gempaBumi + Delta(a)) else c.gempaBumi,
      if t == TanahLongsor then Max0(c.tanahLongsor + Delta(a)) else c.tanahLongsor)
  }

  /**
   * The `bencana` table after `adjustBencanaData` for key `k`, type `t` and
   * action `a`. No other key is touched, and the key itself never holds an
   * all-zero row afterwards.
   */
  function Reconciled(ledger: Table, k: Key, t: DisasterType, a: Action): (r: Table)
    ensures forall k' :: k' != k ==> (k' in r <==> k' in ledger)
    ensures forall k' :: k' != k && k' in r ==> r[k'] == ledger[k']
    ensures k in r ==> !AllZero(r[k]) && Get(r[k], t) >= 0
  {
    if k in ledger then
      var updated := Adjusted(ledger[k], t, a);
      if AllZero(updated) then ledger - {k} else ledger[k := updated]
    else if a == Add then ledger[k := Unit(t)]
    else ledger
  }

  /** `remove` on an existing row: the chosen counter becomes max(0, old - 1), the others stay. */
  lemma RemoveFromExistingRow(ledger: Table, k: Key, t: DisasterType)
    requires k in ledger
    ensures var r := Reconciled(ledger, k, t, Remove);
      && (k in r ==> Get(r[k], t) == Max0(Get(ledger[k], t) - 1)
                     && forall u :: u != t ==> Get(r[k], u) == Get(ledger[k], u))
      && (k !in r <==> Max0(Get(ledger[k], t) - 1) == 0 && forall u :: u != t ==> Get(ledger[k], u) == 0)
  {
    var c := ledger[k];
    var updated := Adjusted(c, t, Remove);
    if AllZero(updated) {
      assert forall u :: Get(updated, u) == 0;
    } else {
      var w: DisasterType :| Get(updated, w) != 0 by {
        if updated.banjir != 0 { assert Get(updated, Banjir) != 0; }
        else if updated.gempaBumi != 0 { assert Get(updated, GempaBumi) != 0; }
        else { assert Get(updated, TanahLongsor) != 0; }
      }
    }
  }

  /** `add` on an existing row with non-negative counters: exactly the chosen counter grows by one. */
  lemma AddToExistingRow(ledger: Table, k: Key, t: DisasterType)
    requires k in ledger && NonNegative(ledger[k])
    ensures var r := Reconciled(ledger, k, t, Add);
      && k in r
      && Get(r[k], t) == Get(ledger[k], t) + 1
      && forall u :: u != t ==> Get(r[k], u) == Get(ledger[k], u)
  {
    var c := ledger[k];
    assert Get(c, t) >= 0 by { assert c.banjir >= 0 && c.gempaBumi >= 0 && c.tanahLongsor >= 0; }
    var updated := Adjusted(c, t, Add);
    assert Get(updated, t) == 1 + Get(c, t);
    assert !AllZero(updated) by {
      match t { case Banjir => case GempaBumi => case TanahLongsor => }
    }
  }

  /** Without a row for the key, `add` inserts 1 for the report's type and 0 elsewhere, and `remove` is a no-op. */
  lemma MissingRow(ledger: Table, k: Key, t: DisasterType)
    requires k !in ledger
    ensures Reconciled(ledger, k, t, Add) == ledger[k := Unit(t)]
    ensures Get(Unit(t), t) == 1 && forall u :: u != t ==> Get(Unit(t), u) == 0
    ensures Reconciled(ledger, k, t, Remove) == ledger
  {
  }

  /** The reconciler keeps a well-formed ledger well-formed: no negative counter, no all-zero row. */
  lemma ReconcilePreservesWellFormed(ledger: Table, k: Key, t: DisasterType, a: Action)
    requires WellFormed(ledger)
    ensures WellFormed(Reconciled(ledger, k, t, a))
  {
    var r := Reconciled(ledger, k, t, a);
    if k in r {
      var c := r[k];
      if k in ledger {
        var prior := ledger[k];
        assert NonNegative(prior);
        assert forall u :: Get(prior, u) >= 0 by {
          forall u ensures Get(prior, u) >= 0 { match u { case Banjir => case GempaBumi => case TanahLongsor => } }
        }
        assert forall u :: Get(c, u) >= 0;
        assert Get(c, Banjir) >= 0 && Get(c, GempaBumi) >= 0 && Get(c, TanahLongsor) >= 0;
      } else {
        assert c == Unit(t);
      }
    }
  }

  /** Round trip: adding then removing the same (key, type) gives back the ledger, a freshly inserted row included. */
  lemma AddThenRemove(ledger: Table, k: Key, t: DisasterType)
    requires k in ledger ==> NonNegative(ledger[k]) && !AllZero(ledger[k])
    ensures Reconciled(Reconciled(ledger, k, t, Add), k, t, Remove) == ledger
  {
    var added := Reconciled(ledger, k, t, Add);
    var back := Reconciled(added, k, t, Remove);
    if k in ledger {
      AddToExistingRow(ledger, k, t);
      var c := ledger[k];
      var d := Adjusted(added[k], t, Remove);
      assert Get(d, t) == Get(c, t);
      forall u ensures Get(d, u) == Get(c, u) { }
      CountsExtensional(d, c);
      assert back == added[k := c];
    } else {
      assert added[k] == Unit(t);
      var d := Adjusted(Unit(t), t, Remove);
      assert AllZero(d) by {
        assert Get(d, t) == 0;
        assert forall u :: Get(d, u) == 0;
        assert Get(d, Banjir) == 0 && Get(d, GempaBumi) == 0 && Get(d, TanahLongsor) == 0;
      }
      assert back == added - {k};
    }
  }
}
