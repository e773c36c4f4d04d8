/** Rounding amounts to a bucket (gryphon/lib/money.py:34-53) and how the exchanges' own truncation is
    imitated before an audit. */
module Rounding {
  import opened Wrappers
  import opened LedgerRows

  datatype Mode = Floor | HalfEven | Up | Down

  /** Decimal.to_integral_value. */
  function ToIntegral(x: real, mode: Mode): int {
    var low := x.Floor;
    var whole := low as real == x;
    match mode
    case Floor => low
    case HalfEven =>
      if x - low as real < 0.5 then low
      else if x - low as real > 0.5 then low + 1
      else if low % 2 == 0 then low else low + 1
    case Up => if whole || x < 0.0 then low else low + 1
    case Down => if whole || x >= 0.0 then low else low + 1
  }

  function Bucket(places: nat): (b: real)
    ensures b > 0.0
  {
    if places == 0 then 1.0 else Bucket(places - 1) / 10.0
  }

  function Times(x: real, bucket: real): real { x * bucket }

  function Buckets(x: real, bucket: real): real
    requires bucket > 0.0
  {
    x / bucket
  }

  function RoundToBucket(x: real, bucket: real, mode: Mode): real
    requires bucket > 0.0
  {
    Times(ToIntegral(Buckets(x, bucket), mode) as real, bucket)
  }

  function RoundToDecimalPlaces(x: real, places: nat, mode: Mode): real {
    RoundToBucket(x, Bucket(places), mode)
  }

  /** How far each mode moves an amount: the floor never up and by less than a bucket, half-even by at most
      half of one, up and down away from and towards zero by less than one. */
  lemma RoundingMoves(x: real, bucket: real, mode: Mode)
    requires bucket > 0.0
    ensures var r := RoundToBucket(x, bucket, mode);
            match mode
            case Floor => 0.0 <= x - r < bucket
            case HalfEven => -bucket / 2.0 <= x - r <= bucket / 2.0
            case Up => if x < 0.0 then 0.0 <= x - r < bucket else 0.0 <= r - x < bucket
            case Down => if x < 0.0 then 0.0 <= r - x < bucket else 0.0 <= x - r < bucket
  {
    hide ToIntegral;
    hide Times;
    hide Buckets;
    var q := Buckets(x, bucket);
    IntegralMoves(q, mode);
    Distance(x, bucket, ToIntegral(q, mode) as real);
    Scaled(q - ToIntegral(q, mode) as real, bucket);
  }

  lemma IntegralMoves(q: real, mode: Mode)
    ensures var d := q - ToIntegral(q, mode) as real;
            match mode
            case Floor => 0.0 <= d < 1.0
            case HalfEven => -0.5 <= d <= 0.5
            case Up => if q < 0.0 then 0.0 <= d < 1.0 else -1.0 < d <= 0.0
            case Down => if q < 0.0 then -1.0 < d <= 0.0 else 0.0 <= d < 1.0
  {
  }

  lemma Distance(x: real, bucket: real, n: real)
    requires bucket > 0.0
    ensures x - Times(n, bucket) == Times(Buckets(x, bucket) - n, bucket)
    ensures x < 0.0 <==> Buckets(x, bucket) < 0.0
  {
    assert Buckets(x, bucket) * bucket == x;
  }

  lemma InOrder(c: real, d: real, bucket: real)
    requires bucket > 0.0
    ensures c <= d <==> Times(c, bucket) <= Times(d, bucket)
  {
    assert Times(d, bucket) - Times(c, bucket) == (d - c) * bucket;
  }

  lemma Scaled(d: real, bucket: real)
    requires bucket > 0.0
    ensures d >= 0.0 <==> Times(d, bucket) >= 0.0
    ensures d <= 0.0 <==> Times(d, bucket) <= 0.0
    ensures d < 1.0 <==> Times(d, bucket) < bucket
    ensures d > -1.0 <==> Times(d, bucket) > -bucket
    ensures d <= 0.5 <==> Times(d, bucket) <= bucket / 2.0
    ensures d >= -0.5 <==> Times(d, bucket) >= -bucket / 2.0
  {
    assert Times(0.0, bucket) == 0.0 && Times(1.0, bucket) == bucket && Times(-1.0, bucket) == -bucket;
    assert Times(0.5, bucket) == bucket / 2.0 && Times(-0.5, bucket) == -bucket / 2.0;
    hide Times;
    InOrder(0.0, d, bucket);
    InOrder(d, 0.0, bucket);
    InOrder(1.0, d, bucket);
    InOrder(d, -1.0, bucket);
    InOrder(d, 0.5, bucket);
    InOrder(-0.5, d, bucket);
  }

  /** Rounding a whole number of buckets, in particular a rounded amount, changes nothing. */
  lemma WholeStays(n: int, bucket: real, mode: Mode)
    requires bucket > 0.0
    ensures RoundToBucket(Times(n as real, bucket), bucket, mode) == Times(n as real, bucket)
  {
    assert Buckets(Times(n as real, bucket), bucket) == n as real;
  }

  function Many(n: int, bucket: real): real { Times(n as real, bucket) }

  /** An amount that is a whole number of buckets. */
  ghost predicate Whole(x: real, bucket: real) { exists n: int :: x == Many(n, bucket) }

  /** Rounding leaves an amount alone if and only if it is a whole number of buckets. */
  lemma UnroundedIff(x: real, bucket: real, mode: Mode)
    requires bucket > 0.0
    ensures RoundToBucket(x, bucket, mode) == x <==> Whole(x, bucket)
  {
    if Whole(x, bucket) {
      var n: int :| x == Many(n, bucket);
      WholeStays(n, bucket, mode);
    } else {
      var n := ToIntegral(Buckets(x, bucket), mode);
      assert RoundToBucket(x, bucket, mode) == Many(n, bucket);
    }
  }

  /** The floor absorbs anything short of a bucket. */
  lemma FloorAbsorbs(n: int, rest: real, bucket: real)
    requires 0.0 <= rest < bucket
    ensures RoundToBucket(Times(n as real, bucket) + rest, bucket, Floor) == Times(n as real, bucket)
  {
    var x := Times(n as real, bucket) + rest;
    var q := Buckets(x, bucket);
    Distance(x, bucket, n as real);
    Scaled(q - n as real, bucket);
    assert q.Floor == n;
  }

  /** Half-even absorbs up to half a bucket, except that from an odd number of buckets half a bucket goes to the
      even neighbour. */
  lemma HalfEvenAbsorbs(n: int, rest: real, bucket: real)
    requires bucket > 0.0 && Abs(rest) <= bucket / 2.0
    ensures RoundToBucket(Times(n as real, bucket) + rest, bucket, HalfEven)
         == Times(n as real, bucket) + if n % 2 == 1 && Abs(rest) == bucket / 2.0 then 2.0 * rest else 0.0
  {
    var x := Times(n as real, bucket) + rest;
    var q := Buckets(x, bucket);
    var d := q - n as real;
    Distance(x, bucket, n as real);
    Scaled(d, bucket);
    NextBucket(n, bucket);
    assert Times(0.5, bucket) == bucket / 2.0 && Times(-0.5, bucket) == -bucket / 2.0;
    InOrder(d, -0.5, bucket);
    InOrder(0.5, d, bucket);
    hide Times;
    hide Buckets;
    assert d == 0.5 <==> rest == bucket / 2.0;
    assert d == -0.5 <==> rest == -bucket / 2.0;
    HalfEvenIs(n, q);
    hide ToIntegral;
  }

  lemma NextBucket(n: int, bucket: real)
    ensures Times((n + 1) as real, bucket) == Times(n as real, bucket) + bucket
    ensures Times((n - 1) as real, bucket) == Times(n as real, bucket) - bucket
  {
  }

  lemma HalfEvenIs(n: int, q: real)
    requires -0.5 <= q - n as real <= 0.5
    ensures ToIntegral(q, HalfEven) == if n % 2 == 0 then n
                                       else if q - n as real == 0.5 then n + 1
                                       else if q - n as real == -0.5 then n - 1 else n
  {
    assert q.Floor == if q >= n as real then n else n - 1;
  }

  /** From halfway, half-even ends at an even number of buckets. */
  lemma HalfwayEndsEven(x: real, bucket: real)
    requires bucket > 0.0 && Abs(x - RoundToBucket(x, bucket, HalfEven)) == bucket / 2.0
    ensures ToIntegral(Buckets(x, bucket), HalfEven) % 2 == 0
  {
    var q := Buckets(x, bucket);
    var n := ToIntegral(q, HalfEven);
    var d := q - n as real;
    Distance(x, bucket, n as real);
    assert Times(0.5, bucket) == bucket / 2.0 && Times(-0.5, bucket) == -bucket / 2.0;
    InOrder(d, 0.5, bucket);
    InOrder(0.5, d, bucket);
    InOrder(d, -0.5, bucket);
    InOrder(-0.5, d, bucket);
    hide Times;
    hide Buckets;
    assert d == 0.5 || d == -0.5;
  }

  /** Different numbers of buckets are at least one apart. */
  lemma BucketsApart(k: int, n: int, bucket: real)
    requires bucket > 0.0 && k != n
    ensures Abs(Times(k as real, bucket) - Times(n as real, bucket)) >= bucket
  {
    assert Times(k as real, bucket) - Times(n as real, bucket) == Times((k - n) as real, bucket);
    assert Times(1.0, bucket) == bucket && Times(-1.0, bucket) == -bucket;
    InOrder(1.0, (k - n) as real, bucket);
    InOrder((k - n) as real, -1.0, bucket);
    hide Times;
  }

  // ---- exchanges ----

  datatype Venue = Plain | Gemini(volumeCurrency: string, currency: string) | OkCoin

  /** process_db_balance_for_audit: Gemini floors, OkCoin rounds bitcoin half-even, the others do nothing. */
  function ProcessDbBalance(v: Venue, m: Money): Money {
    match v
    case Plain => m
    case Gemini(volumeCurrency, currency) =>
      if m.currency == volumeCurrency then m.(amount := RoundToDecimalPlaces(m.amount, 8, Floor))
      else if m.currency == currency then m.(amount := RoundToDecimalPlaces(m.amount, 2, Floor))
      else m
    case OkCoin => if m.currency == "BTC" then m.(amount := RoundToDecimalPlaces(m.amount, 6, HalfEven)) else m
  }

  /** The most that processing can take off, and add on. */
  function Slack(v: Venue, currency: string): (s: (real, real)) {
    match v
    case Plain => (0.0, 0.0)
    case Gemini(volumeCurrency, main) =>
      (if currency == volumeCurrency then Bucket(8) else if currency == main then Bucket(2) else 0.0, 0.0)
    case OkCoin => if currency == "BTC" then (Bucket(6) / 2.0, Bucket(6) / 2.0) else (0.0, 0.0)
  }

  lemma ProcessingMoves(v: Venue, m: Money)
    ensures ProcessDbBalance(v, m).currency == m.currency
    ensures var s := Slack(v, m.currency);
            -s.1 <= m.amount - ProcessDbBalance(v, m).amount <= s.0
    ensures v.Gemini? && (m.currency == v.volumeCurrency || m.currency == v.currency) ==>
              m.amount - ProcessDbBalance(v, m).amount < Slack(v, m.currency).0
    ensures v.Plain? ==> ProcessDbBalance(v, m) == m
  {
    hide Bucket;
    hide RoundToBucket;
    match v
    case Plain =>
    case Gemini(_, _) =>
      RoundingMoves(m.amount, Bucket(8), Floor);
      RoundingMoves(m.amount, Bucket(2), Floor);
    case OkCoin => RoundingMoves(m.amount, Bucket(6), HalfEven);
  }

  /** The bucket the venue rounds a currency to, if it does. */
  function BucketOf(v: Venue, currency: string): (b: Option<real>)
    ensures b.Some? ==> b.value > 0.0
  {
    match v
    case Plain => None
    case Gemini(volumeCurrency, main) =>
      if currency == volumeCurrency then Some(Bucket(8)) else if currency == main then Some(Bucket(2)) else None
    case OkCoin => if currency == "BTC" then Some(Bucket(6)) else None
  }

  /** Gemini reports hundredths of its currency and hundred-millionths of its volume currency, OkCoin millionths of a
      bitcoin, the others everything. */
  lemma BucketsAre(v: Venue, currency: string)
    ensures v.Plain? ==> BucketOf(v, currency) == None
    ensures v.Gemini? && currency == v.volumeCurrency ==> BucketOf(v, currency) == Some(0.00000001)
    ensures v.Gemini? && currency != v.volumeCurrency && currency == v.currency ==> BucketOf(v, currency) == Some(0.01)
    ensures v.OkCoin? ==> BucketOf(v, currency) == if currency == "BTC" then Some(0.000001) else None
  {
    assert Bucket(2) == 0.01;
    assert Bucket(4) == Bucket(3) / 10.0 == 0.0001;
    assert Bucket(6) == Bucket(5) / 10.0 == 0.000001;
    assert Bucket(8) == Bucket(7) / 10.0 == 0.00000001;
  }

  /** An amount the venue can report: a whole number of its buckets. */
  ghost predicate Reportable(v: Venue, m: Money) {
    BucketOf(v, m.currency).Some? ==> Whole(m.amount, BucketOf(v, m.currency).value)
  }

  /** Processing leaves exactly the reportable amounts alone. */
  lemma ShownInFullIff(v: Venue, m: Money)
    ensures ProcessDbBalance(v, m).amount == m.amount <==> Reportable(v, m)
  {
    hide Bucket;
    hide RoundToBucket;
    if BucketOf(v, m.currency).Some? {
      var mode := if v.OkCoin? then HalfEven else Floor;
      UnroundedIff(m.amount, BucketOf(v, m.currency).value, mode);
    }
  }

  /** OkCoin bitcoin halfway between two whole numbers of buckets. */
  predicate Halfway(v: Venue, m: Money) {
    v.OkCoin? && m.currency == "BTC" && Abs(m.amount - ProcessDbBalance(v, m).amount) == Bucket(6) / 2.0
  }

  /** The venue reports an odd number of its buckets. */
  predicate OddReport(v: Venue, m: Money) {
    BucketOf(v, m.currency).Some? && Buckets(m.amount, BucketOf(v, m.currency).value).Floor % 2 == 1
  }

  /** A balance shifted so that what is shown should become the amount `actual`: what is not shown stays. */
  function Shifted(v: Venue, m: Money, actual: real): Money {
    m.(amount := actual + m.amount - ProcessDbBalance(v, m).amount)
  }

  /** The shifted balance is shown as that amount, unless it is halfway above or below an odd one: then what is shown
      is a whole bucket off. */
  lemma ShownAfterShiftIff(v: Venue, m: Money, actual: real)
    requires Reportable(v, m.(amount := actual))
    ensures var shown := ProcessDbBalance(v, Shifted(v, m, actual)).amount;
            var stuck := Halfway(v, m) && OddReport(v, m.(amount := actual));
      && (shown == actual <==> !stuck)
      && (stuck ==> Abs(shown - actual) == Bucket(6))
  {
    hide Bucket;
    hide Times;
    hide ToIntegral;
    hide RoundToBucket;
    ProcessingMoves(v, m);
    var unshown := m.amount - ProcessDbBalance(v, m).amount;
    if BucketOf(v, m.currency).Some? {
      var bucket := BucketOf(v, m.currency).value;
      var n: int :| actual == Many(n, bucket);
      WholeBuckets(n, bucket);
      hide Buckets;
      assert Shifted(v, m, actual).amount == Times(n as real, bucket) + unshown;
      if v.OkCoin? {
        HalfEvenAbsorbs(n, unshown, bucket);
      } else {
        FloorAbsorbs(n, unshown, bucket);
      }
    }
  }

  /** An odd report is at least a bucket away from what is shown of a halfway balance. */
  lemma OddIsFar(v: Venue, m: Money, actual: real)
    requires Reportable(v, m.(amount := actual)) && Halfway(v, m) && OddReport(v, m.(amount := actual))
    ensures Abs(ProcessDbBalance(v, m).amount - actual) >= Bucket(6)
  {
    hide Bucket;
    hide ToIntegral;
    hide Times;
    var n: int :| actual == Many(n, Bucket(6));
    WholeBuckets(n, Bucket(6));
    HalfwayEndsEven(m.amount, Bucket(6));
    BucketsApart(ToIntegral(Buckets(m.amount, Bucket(6)), HalfEven), n, Bucket(6));
  }

  lemma WholeBuckets(n: int, bucket: real)
    requires bucket > 0.0
    ensures Buckets(Times(n as real, bucket), bucket).Floor == n
  {
    assert Buckets(Times(n as real, bucket), bucket) == n as real;
  }
}
