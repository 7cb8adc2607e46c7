/**
 * The dashboard figures of components/AdminStats.js: how many reports there
 * are (as the store counts them) and how many of the fetched `status` values
 * are `menunggu`, `diverifikasi` and `ditolak`.
 */
module AdminStats {
  import opened JsSemantics

  const Menunggu := "menunggu"
  const Diverifikasi := "diverifikasi"
  const Ditolak := "ditolak"

  datatype StatusCounts = StatusCounts(menunggu: nat, diverifikasi: nat, ditolak: nat)

  datatype Stats = Stats(totalReports: nat, statusCounts: StatusCounts)

  /** `statusData.filter(r => r.status === s).length` */
  function CountStatus(statuses: seq<string>, s: string): (n: nat)
    ensures n <= |statuses|
  {
    if statuses == [] then 0
    else CountStatus(statuses[..|statuses| - 1], s) + (if statuses[|statuses| - 1] == s then 1 else 0)
  }

  /** The positions holding exactly the status `s`. */
  function Matching(statuses: seq<string>, s: string): set<nat>
  {
    set i: nat | i < |statuses| && statuses[i] == s
  }

  /** Each count is the number of rows whose status is exactly that string. */
  lemma {:induction false} CountIsMatching(statuses: seq<string>, s: string)
    ensures CountStatus(statuses, s) == |Matching(statuses, s)|
  {
    if statuses != [] {
      var n := |statuses| - 1;
      var pre := statuses[..n];
      CountIsMatching(pre, s);
      if statuses[n] == s {
        assert Matching(statuses, s) == Matching(pre, s) + {n};
      } else {
        assert Matching(statuses, s) == Matching(pre, s);
      }
    }
  }

  predicate Known(status: string)
  {
    status == Menunggu || status == Diverifikasi || status == Ditolak
  }

  /** The three counts add up to the number of rows when every status is one of the three known values. */
  lemma {:induction false} CountsPartition(statuses: seq<string>)
    requires forall i :: 0 <= i < |statuses| ==> Known(statuses[i])
    ensures CountStatus(statuses, Menunggu) + CountStatus(statuses, Diverifikasi) + CountStatus(statuses, Ditolak)
            == |statuses|
  {
    if statuses != [] {
      var pre := statuses[..|statuses| - 1];
      assert forall i :: 0 <= i < |pre| ==> pre[i] == statuses[i];
      CountsPartition(pre);
    }
  }

  /** `fetchStats`: the store's row count (`null` read as 0) and the three status counts. */
  function ComputeStats(totalReports: Option<nat>, statuses: seq<string>): (stats: Stats)
    ensures totalReports.None? ==> stats.totalReports == 0
    ensures totalReports.Some? ==> stats.totalReports == totalReports.value
    ensures stats.statusCounts.menunggu == CountStatus(statuses, Menunggu)
    ensures stats.statusCounts.diverifikasi == CountStatus(statuses, Diverifikasi)
    ensures stats.statusCounts.ditolak == CountStatus(statuses, Ditolak)
  {
    var counts := StatusCounts(CountStatus(statuses, Menunggu), CountStatus(statuses, Diverifikasi), CountStatus(statuses, Ditolak));
    match totalReports
    case None => Stats(0, counts)
    case Some(n) => Stats(n, counts)
  }

  /**
   * When the count and the status list come from the same snapshot and every
   * status is known, the total shown is the sum of the three cards.
   */
  lemma StatsConsistent(statuses: seq<string>)
    requires forall i :: 0 <= i < |statuses| ==> Known(statuses[i])
    ensures var stats := ComputeStats(Some(|statuses|), statuses);
      stats.totalReports == stats.statusCounts.menunggu + stats.statusCounts.diverifikasi + stats.statusCounts.ditolak
  {
    CountsPartition(statuses);
  }
}
