/**
 * The `bencana` table: one row per (kecamatan, tahun) holding three disaster
 * counters, `banjir` (flood), `gempa_bumi` (earthquake) and `tanah_longsor`
 * (landslide). The table is keyed by (kecamatan, tahun), so it is a map.
 */
module Ledger {

  datatype DisasterType = Banjir | GempaBumi | TanahLongsor

  /** The three counters of one ledger row (plain integers: imports and manual edits may store any integer). */
  datatype Counts = Counts(banjir: int, gempaBumi: int, tanahLongsor: int)

  datatype Key = Key(kecamatan: string, tahun: int)

  type Table = map<Key, Counts>

  /** A ledger row as the pages read it back: its key fields and its counters. */
  datatype Row = Row(kecamatan: string, tahun: int, counts: Counts)

  function RowKey(r: Row): Key
  {
    Key(r.kecamatan, r.tahun)
  }

  const Zero := Counts(0, 0, 0)

  /** The counter a disaster type selects. */
  function Get(c: Counts, t: DisasterType): int
  {
    match t
    case Banjir => c.banjir
    case GempaBumi => c.gempaBumi
    case TanahLongsor => c.tanahLongsor
  }

  /** `c` with the counter of type `t` replaced by `v`. */
  function Set(c: Counts, t: DisasterType, v: int): (r: Counts)
    ensures Get(r, t) == v
    ensures forall u :: u != t ==> Get(r, u) == Get(c, u)
  {
    match t
    case Banjir => c.(banjir := v)
    case GempaBumi => c.(gempaBumi := v)
    case TanahLongsor => c.(tanahLongsor := v)
  }

  /** The counters of a fresh row created for one report of type `t`. */
  function Unit(t: DisasterType): (r: Counts)
    ensures Get(r, t) == 1
    ensures forall u :: u != t ==> Get(r, u) == 0
  {
    Set(Zero, t, 1)
  }

  predicate AllZero(c: Counts)
  {
    c.banjir == 0 && c.gempaBumi == 0 && c.tanahLongsor == 0
  }

  predicate NonNegative(c: Counts)
  {
    c.banjir >= 0 && c.gempaBumi >= 0 && c.tanahLongsor >= 0
  }

  function Total(c: Counts): int
  {
    c.banjir + c.gempaBumi + c.tanahLongsor
  }

  function Plus(a: Counts, b: Counts): Counts
  {
    Counts(a.banjir + b.banjir, a.gempaBumi + b.gempaBumi, a.tanahLongsor + b.tanahLongsor)
  }

  /** Two counter triples agree exactly when every disaster type reads the same. */
  lemma CountsExtensional(a: Counts, b: Counts)
    requires forall t :: Get(a, t) == Get(b, t)
    ensures a == b
  {
    assert Get(a, Banjir) == Get(b, Banjir);
    assert Get(a, GempaBumi) == Get(b, GempaBumi);
    assert Get(a, TanahLongsor) == Get(b, TanahLongsor);
  }

  /** The state the reconciler is meant to keep: no negative counter and no all-zero row. */
  ghost predicate WellFormed(ledger: Table)
  {
    forall k :: k in ledger ==> NonNegative(ledger[k]) && !AllZero(ledger[k])
  }
}
