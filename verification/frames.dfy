/** Telemetry tables as the backend's polars code sees them: a set of column names and a
    sequence of rows whose cells may be null. A row's field for a column the frame does not
    have carries no meaning. String-to-float casts (`cast(pl.Float64, strict=False)`) are
    foreign code; sector and gap cells enter already cast, an unparsable cell as null. */
module Frames {
  import opened Wrappers

  datatype Column =
    | Number          // car number, NUMBER
    | LapNumber       // LAP_NUMBER
    | LapTime         // LAP_TIME as read
    | LapTimeSeconds  // lap_time_seconds, LAP_TIME cast to seconds
    | BestLap         // BEST_LAP
    | Sector1 | Sector2 | Sector3  // sector_1 .. sector_3, cast from SECTOR_1 .. SECTOR_3
    | TopSpeed        // TOP_SPEED
    | Gap             // GAP, cast to float
    | AirTemp         // air_temp
    | WindSpeed       // wind_speed
    | TrackId         // track_id

  /** A LAP_TIME cell as read: null, text that does not cast to a float, or seconds. */
  datatype Cell = NullCell | TextCell | SecondsCell(seconds: real)

  datatype Row = Row(
    number: Option<int>,
    lapNumber: Option<int>,
    lapTime: Cell,
    lapTimeSeconds: Option<real>,
    bestLap: Option<real>,
    sector1: Option<real>,
    sector2: Option<real>,
    sector3: Option<real>,
    topSpeed: Option<real>,
    gap: Option<real>,
    airTemp: Option<real>,
    windSpeed: Option<real>,
    trackId: Option<string>)

  /** A table: the columns the model reads, the names of every other column it has (such
      as POSITION from the official results), and its rows. */
  datatype Frame = Frame(columns: set<Column>, otherColumns: set<string>, rows: seq<Row>)

  function SectorColumn(s: int): Column
    requires 1 <= s <= 3
  {
    if s == 1 then Sector1 else if s == 2 then Sector2 else Sector3
  }

  function SectorCell(row: Row, s: int): Option<real>
    requires 1 <= s <= 3
  {
    if s == 1 then row.sector1 else if s == 2 then row.sector2 else row.sector3
  }

  function Numbers(rows: seq<Row>): (keys: seq<Option<int>>)
    ensures |keys| == |rows| && forall i :: 0 <= i < |rows| ==> keys[i] == rows[i].number
  {
    seq(|rows|, i requires 0 <= i < |rows| => rows[i].number)
  }

  function LapTimes(rows: seq<Row>): (v: seq<Option<real>>)
    ensures |v| == |rows| && forall i :: 0 <= i < |rows| ==> v[i] == rows[i].lapTimeSeconds
  {
    seq(|rows|, i requires 0 <= i < |rows| => rows[i].lapTimeSeconds)
  }

  function TrackIds(rows: seq<Row>): (keys: seq<Option<string>>)
    ensures |keys| == |rows| && forall i :: 0 <= i < |rows| ==> keys[i] == rows[i].trackId
  {
    seq(|rows|, i requires 0 <= i < |rows| => rows[i].trackId)
  }

  // ---------------------------------------------------------------------------------------
  // Aggregations. polars skips null values; a group whose values are all null aggregates
  // to null. `over(key)` groups rows by equal key, null keys forming one group.

  /** The smaller of two optional values, ignoring a null. */
  function MinOpt(a: Option<real>, b: Option<real>): Option<real> {
    match (a, b)
    case (None, _) => b
    case (_, None) => a
    case (Some(x), Some(y)) => if x <= y then a else b
  }

  /** The minimum of the non-null values among the first `n` rows whose key is `k`. */
  function GroupMin<K(==)>(keys: seq<K>, values: seq<Option<real>>, k: K, n: nat): (m: Option<real>)
    requires n <= |keys| == |values|
    ensures m.None? <==> forall j :: 0 <= j < n && keys[j] == k ==> values[j].None?
    ensures m.Some? ==> exists j :: 0 <= j < n && keys[j] == k && values[j] == m
    ensures m.Some? ==> forall j :: 0 <= j < n && keys[j] == k && values[j].Some? ==> m.value <= values[j].value
  {
    if n == 0 then None
    else
      var prev := GroupMin(keys, values, k, n - 1);
      if keys[n - 1] == k then MinOpt(prev, values[n - 1]) else prev
  }

  /** `pl.col(values).min().over(key)` evaluated at row `i`. */
  function MinOver<K(==)>(keys: seq<K>, values: seq<Option<real>>, i: nat): Option<real>
    requires i < |keys| == |values|
  {
    GroupMin(keys, values, keys[i], |keys|)
  }

  /** Sum and count of the non-null values among the first `n` rows whose key is `k`. */
  function GroupSum<K(==)>(keys: seq<K>, values: seq<Option<real>>, k: K, n: nat): real
    requires n <= |keys| == |values|
  {
    if n == 0 then 0.0
    else GroupSum(keys, values, k, n - 1) + (if keys[n - 1] == k && values[n - 1].Some? then values[n - 1].value else 0.0)
  }

  function GroupCount<K(==)>(keys: seq<K>, values: seq<Option<real>>, k: K, n: nat): (c: nat)
    requires n <= |keys| == |values|
    ensures c == 0 <==> forall j :: 0 <= j < n && keys[j] == k ==> values[j].None?
  {
    if n == 0 then 0
    else GroupCount(keys, values, k, n - 1) + (if keys[n - 1] == k && values[n - 1].Some? then 1 else 0)
  }

  /** The sum of `v - c` over the non-null values `v` among the first `n` rows whose key
      is `k`. */
  function Deviation<K(==)>(keys: seq<K>, values: seq<Option<real>>, k: K, c: real, n: nat): real
    requires n <= |keys| == |values|
  {
    if n == 0 then 0.0
    else Deviation(keys, values, k, c, n - 1) + (if keys[n - 1] == k && values[n - 1].Some? then values[n - 1].value - c else 0.0)
  }

  /** The values of group `k` are balanced around `c`: their deviations from it cancel. */
  predicate GroupCentered<K(==)>(keys: seq<K>, values: seq<Option<real>>, k: K, c: real)
    requires |keys| == |values|
  {
    Deviation(keys, values, k, c, |keys|) == 0.0
  }

  lemma {:induction false} DeviationIsSumLessCount<K>(keys: seq<K>, values: seq<Option<real>>, k: K, c: real, n: nat)
    requires n <= |keys| == |values|
    ensures Deviation(keys, values, k, c, n) == GroupSum(keys, values, k, n) - Times(c, GroupCount(keys, values, k, n))
  {
    if n > 0 {
      DeviationIsSumLessCount(keys, values, k, c, n - 1);
    }
  }

  /** With at least one value, exactly one point balances the group: its sum over its count. */
  lemma CenteredExactlyAtQuotient<K>(keys: seq<K>, values: seq<Option<real>>, k: K, c: real)
    requires |keys| == |values|
    requires GroupCount(keys, values, k, |keys|) > 0
    ensures GroupCentered(keys, values, k, c) <==>
      c == GroupSum(keys, values, k, |keys|) / GroupCount(keys, values, k, |keys|) as real
  {
    var total, count := GroupSum(keys, values, k, |keys|), GroupCount(keys, values, k, |keys|);
    DeviationIsSumLessCount(keys, values, k, c, |keys|);
    TimesIsProduct(c, count);
    assert total / count as real * count as real == total;
  }

  /** `pl.col(values).mean().over(key)` evaluated at row `i`: null exactly when the row's
      group has no value, and otherwise the one point the group's values balance around. */
  function MeanOver<K(==)>(keys: seq<K>, values: seq<Option<real>>, i: nat): (m: Option<real>)
    requires i < |keys| == |values|
    ensures m.None? <==> forall j :: 0 <= j < |keys| && keys[j] == keys[i] ==> values[j].None?
    ensures forall c :: m.Some? ==> (GroupCentered(keys, values, keys[i], c) <==> c == m.value)
  {
    var count := GroupCount(keys, values, keys[i], |keys|);
    if count == 0 then None
    else
      var mean := GroupSum(keys, values, keys[i], |keys|) / count as real;
      assert forall c :: GroupCentered(keys, values, keys[i], c) <==> c == mean by {
        forall c {
          CenteredExactlyAtQuotient(keys, values, keys[i], c);
        }
      }
      Some(mean)
  }

  /** The single group of a whole-column aggregate. */
  function OneGroup(n: nat): (keys: seq<int>)
    ensures |keys| == n && forall j :: 0 <= j < n ==> keys[j] == 0
  {
    seq(n, _ => 0)
  }

  /** The column's non-null values are balanced around `c`. */
  predicate Centered(values: seq<Option<real>>, c: real) {
    GroupCentered(OneGroup(|values|), values, 0, c)
  }

  /** `pl.col(values).mean()` over the whole column: null exactly when every cell is, and
      otherwise the one point the column's values balance around. */
  function Mean(values: seq<Option<real>>): (m: Option<real>)
    ensures m.None? <==> forall j :: 0 <= j < |values| ==> values[j].None?
    ensures forall c :: m.Some? ==> (Centered(values, c) <==> c == m.value)
  {
    var keys := OneGroup(|values|);
    var count := GroupCount(keys, values, 0, |values|);
    if count == 0 then None
    else
      var mean := GroupSum(keys, values, 0, |values|) / count as real;
      assert forall c :: Centered(values, c) <==> c == mean by {
        forall c {
          CenteredExactlyAtQuotient(keys, values, 0, c);
        }
      }
      Some(mean)
  }

  /** `x` added `c` times. */
  function Times(x: real, c: nat): real {
    if c == 0 then 0.0 else Times(x, c - 1) + x
  }

  lemma {:induction false} TimesIsProduct(x: real, c: nat)
    ensures Times(x, c) == x * c as real
  {
    if c > 0 {
      TimesIsProduct(x, c - 1);
    }
  }

  /** Values between `lo` and `hi` sum to between `lo` and `hi` times their count. */
  lemma {:induction false} GroupSumBounds<K>(keys: seq<K>, values: seq<Option<real>>, k: K, n: nat, lo: real, hi: real)
    requires n <= |keys| == |values|
    requires forall j :: 0 <= j < n && keys[j] == k && values[j].Some? ==> lo <= values[j].value <= hi
    ensures var c := GroupCount(keys, values, k, n);
      Times(lo, c) <= GroupSum(keys, values, k, n) <= Times(hi, c)
  {
    if n > 0 {
      GroupSumBounds(keys, values, k, n - 1, lo, hi);
      if keys[n - 1] == k && values[n - 1].Some? {
        assert lo <= values[n - 1].value <= hi;
      }
    }
  }

  /** The quotient of a sum bounded by `c` times `lo` and `c` times `hi` by a positive
      count `c`. */
  lemma QuotientBounds(total: real, c: nat, lo: real, hi: real)
    requires c > 0 && Times(lo, c) <= total <= Times(hi, c)
    ensures lo <= total / c as real <= hi
  {
    TimesIsProduct(lo, c);
    TimesIsProduct(hi, c);
    assert total / c as real * c as real == total;
  }

  /** A group mean lies within any bounds of the group's values. */
  lemma MeanOverWithinBounds<K>(keys: seq<K>, values: seq<Option<real>>, i: nat, lo: real, hi: real)
    requires i < |keys| == |values|
    requires forall j :: 0 <= j < |keys| && keys[j] == keys[i] && values[j].Some? ==> lo <= values[j].value <= hi
    ensures MeanOver(keys, values, i).Some? ==> lo <= MeanOver(keys, values, i).value <= hi
  {
    var c := GroupCount(keys, values, keys[i], |keys|);
    if c > 0 {
      GroupSumBounds(keys, values, keys[i], |keys|, lo, hi);
      QuotientBounds(GroupSum(keys, values, keys[i], |keys|), c, lo, hi);
    }
  }

  /** A column mean lies within any bounds of the column's values. */
  lemma MeanWithinBounds(values: seq<Option<real>>, lo: real, hi: real)
    requires forall j :: 0 <= j < |values| && values[j].Some? ==> lo <= values[j].value <= hi
    ensures Mean(values).Some? ==> lo <= Mean(values).value <= hi
  {
    var keys := OneGroup(|values|);
    var c := GroupCount(keys, values, 0, |values|);
    if c > 0 {
      GroupSumBounds(keys, values, 0, |values|, lo, hi);
      QuotientBounds(GroupSum(keys, values, 0, |values|), c, lo, hi);
    }
  }
}
