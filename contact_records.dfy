/**
 * The contact rows that the campaign page and the dashboard count, the
 * filters they apply to them (`filter(c => c.status === ...)` and "called on
 * a given day"), and `Math.round` of a percentage, computed exactly over the
 * integers.
 */
module ContactRecords {
  import opened Wrappers
  import opened Strings

  // ---------------------------------------------------------------------------
  // Contact rows
  // ---------------------------------------------------------------------------

  const StatusNew: string := "NEW"
  const StatusCalling: string := "CALLING"
  const StatusDone: string := "DONE"
  const StatusFailed: string := "FAILED"

  /**
   * The fields of a `contacts` row that the statistics read: the call status
   * and `last_called_at`, which the database may leave null (`None`).
   */
  datatype ContactRow = ContactRow(status: string, lastCalledAt: Option<string>)

  /** The statuses of the rows, in order. */
  function Statuses(cs: seq<ContactRow>): (r: seq<string>)
    ensures |r| == |cs|
    ensures forall i :: 0 <= i < |cs| ==> r[i] == cs[i].status
  {
    if cs == [] then [] else Statuses(cs[..|cs| - 1]) + [cs[|cs| - 1].status]
  }

  /** `cs.filter(c => c.status === status).length`. */
  function CountStatus(cs: seq<ContactRow>, status: string): (n: nat)
    ensures n <= |cs|
  {
    if cs == [] then 0
    else CountStatus(cs[..|cs| - 1], status) + (if cs[|cs| - 1].status == status then 1 else 0)
  }

  /** The count is the number of times `status` occurs among the rows' statuses. */
  lemma {:induction false} CountStatusIsMultiplicity(cs: seq<ContactRow>, status: string)
    ensures CountStatus(cs, status) == multiset(Statuses(cs))[status]
  {
    if cs != [] {
      var front := cs[..|cs| - 1];
      CountStatusIsMultiplicity(front, status);
      assert Statuses(cs) == Statuses(front) + [cs[|cs| - 1].status];
    }
  }

  /** Counts of three different statuses add up to at most the number of rows. */
  lemma {:induction false} DistinctCountsBounded(cs: seq<ContactRow>, a: string, b: string, c: string)
    requires a != b && a != c && b != c
    ensures CountStatus(cs, a) + CountStatus(cs, b) + CountStatus(cs, c) <= |cs|
  {
    if cs != [] {
      DistinctCountsBounded(cs[..|cs| - 1], a, b, c);
    }
  }

  /** Counting over two blocks of rows adds the counts. */
  lemma {:induction false} CountStatusAppend(a: seq<ContactRow>, b: seq<ContactRow>, status: string)
    ensures CountStatus(a + b, status) == CountStatus(a, status) + CountStatus(b, status)
    decreases |b|
  {
    if b == [] {
      assert a + b == a;
    } else {
      var b' := b[..|b| - 1];
      assert (a + b)[..|a + b| - 1] == a + b';
      CountStatusAppend(a, b', status);
    }
  }

  // ---------------------------------------------------------------------------
  // Calls made on a given day
  // ---------------------------------------------------------------------------

  /**
   * `c.last_called_at && c.last_called_at.startsWith(day)`: the row has a
   * non-null, non-empty call time (JavaScript treats the empty string as
   * false) that starts with the day string.
   */
  predicate CalledOn(c: ContactRow, day: string) {
    c.lastCalledAt.Some? && c.lastCalledAt.value != "" && StartsWith(c.lastCalledAt.value, day)
  }

  /** `cs.filter(c => c.last_called_at && c.last_called_at.startsWith(day))`. */
  function CalledOnDay(cs: seq<ContactRow>, day: string): (r: seq<ContactRow>)
    ensures |r| <= |cs|
  {
    if cs == [] then []
    else
      var last := cs[|cs| - 1];
      CalledOnDay(cs[..|cs| - 1], day) + (if CalledOn(last, day) then [last] else [])
  }

  /** The filter keeps exactly the rows called on that day. */
  lemma {:induction false} CalledOnDayMembers(cs: seq<ContactRow>, day: string)
    ensures forall c :: c in CalledOnDay(cs, day) <==> c in cs && CalledOn(c, day)
  {
    if cs != [] {
      var front := cs[..|cs| - 1];
      CalledOnDayMembers(front, day);
      assert cs == front + [cs[|cs| - 1]];
    }
  }

  /**
   * The filter keeps every occurrence of a row called on that day and drops
   * every other row, so its length is the number of such rows, repeats
   * included.
   */
  lemma {:induction false} CalledOnDayMultiplicity(cs: seq<ContactRow>, day: string)
    ensures forall c :: multiset(CalledOnDay(cs, day))[c] == if CalledOn(c, day) then multiset(cs)[c] else 0
  {
    if cs != [] {
      var front, last := cs[..|cs| - 1], cs[|cs| - 1];
      CalledOnDayMultiplicity(front, day);
      assert cs == front + [last];
    }
  }

  // ---------------------------------------------------------------------------
  // Percentages
  // ---------------------------------------------------------------------------

  /**
   * `Math.round((part / whole) * 100)` for a positive `whole`, computed
   * exactly: the integer nearest to 100·part/whole, halves rounded up.
   */
  function RoundPercent(part: nat, whole: nat): (r: nat)
    requires whole > 0
    ensures 2 * whole * r <= 200 * part + whole < 2 * whole * (r + 1)
  {
    (200 * part + whole) / (2 * whole)
  }

  /** The rounding is determined by its two bounds: any `k` within them is the result. */
  lemma RoundPercentUnique(part: nat, whole: nat, k: nat)
    requires whole > 0
    requires 2 * whole * k <= 200 * part + whole < 2 * whole * (k + 1)
    ensures RoundPercent(part, whole) == k
  {
    var r := RoundPercent(part, whole);
    if r < k {
      MulMonotone(2 * whole, r + 1, k);
    } else if r > k {
      MulMonotone(2 * whole, k + 1, r);
    }
  }

  lemma MulMonotone(a: nat, b: nat, c: nat)
    requires b <= c
    ensures a * b <= a * c
  {
  }

  /** The rounded share of a part of a whole lies between 0 and 100, with 0 and 100 at the ends. */
  lemma RoundPercentBounds(part: nat, whole: nat)
    requires whole > 0 && part <= whole
    ensures RoundPercent(part, whole) <= 100
    ensures RoundPercent(part, whole) == 0 <==> 200 * part < whole
    ensures part == 0 ==> RoundPercent(part, whole) == 0
    ensures part == whole ==> RoundPercent(part, whole) == 100
  {
    var r := RoundPercent(part, whole);
    if r > 100 {
      MulMonotone(2 * whole, 101, r);
    }
    if r > 0 {
      MulMonotone(2 * whole, 1, r);
    }
    if part == whole {
      RoundPercentUnique(part, whole, 100);
    }
  }
}
