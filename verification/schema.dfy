/** The two tables of the database (setup_database.js, import-to-cloud.js)
    as immutable records, the store that holds them, and the rating
    aggregates (`COUNT`, `SUM`, `AVG`) computed over feedback rows. */
module Schema {
  import opened Wrappers
  import opened Strings
  import opened Collections

  /** A row of `officers`: `id SERIAL PRIMARY KEY`, three `TEXT NOT NULL` columns. */
  datatype Officer = Officer(id: int, firstName: string, lastName: string, jobTitle: string)

  /** The range of PostgreSQL's `INTEGER` (four bytes, signed), the type of
      `officers.id`, `feedback.officer_id` and `feedback.rating`. A parameter
      outside it is refused when the query binds it, before anything runs. */
  const Int4Min: int := -0x8000_0000
  const Int4Max: int := 0x7fff_ffff

  predicate IsInt4(n: int) {
    Int4Min <= n <= Int4Max
  }

  /** A row of `feedback`. `isAnonymous` is `None` when the column holds NULL;
      `createdAt` is the insertion timestamp as an abstract clock reading. */
  datatype Feedback = Feedback(
    id: int,
    officerId: int,
    rating: int,
    feedbackText: string,
    isAnonymous: Option<bool>,
    createdAt: nat)

  /** Both tables together with the next value of each `SERIAL` sequence. */
  datatype Store = Store(
    officers: seq<Officer>,
    feedback: seq<Feedback>,
    nextOfficerId: nat,
    nextFeedbackId: nat)

  /** An empty database: both sequences start at 1. */
  const EmptyStore: Store := Store([], [], 1, 1)

  /** The ids present in `officers`. */
  function OfficerIds(os: seq<Officer>): set<int> {
    set o | o in os :: o.id
  }

  /** The primary key of `officers`: no two rows share an id. */
  predicate DistinctIds(os: seq<Officer>) {
    forall i, j :: 0 <= i < j < |os| ==> os[i].id != os[j].id
  }

  /** The foreign key `feedback.officer_id REFERENCES officers(id)`. */
  predicate ReferencesResolve(os: seq<Officer>, fs: seq<Feedback>) {
    forall k :: 0 <= k < |fs| ==> fs[k].officerId in OfficerIds(os)
  }

  /** What the database and the server's validation keep true of a store:
      keys are unique and were issued by their sequences, every feedback row
      references an officer, and every rating lies in 1..5. */
  predicate Valid(s: Store) {
    && 1 <= s.nextOfficerId && 1 <= s.nextFeedbackId
    && DistinctIds(s.officers)
    && (forall i :: 0 <= i < |s.officers| ==> 1 <= s.officers[i].id < s.nextOfficerId)
    && (forall i, j :: 0 <= i < j < |s.feedback| ==> s.feedback[i].id != s.feedback[j].id)
    && (forall k :: 0 <= k < |s.feedback| ==> 1 <= s.feedback[k].id < s.nextFeedbackId)
    && ReferencesResolve(s.officers, s.feedback)
    && (forall k :: 0 <= k < |s.feedback| ==> 1 <= s.feedback[k].rating <= 5)
  }

  lemma EmptyStoreValid()
    ensures Valid(EmptyStore)
  {
  }

  // ---------------------------------------------------------------------------
  // Orderings used by ORDER BY

  /** `ORDER BY last_name, first_name`. */
  predicate NameLe(a: Officer, b: Officer) {
    StrLt(a.lastName, b.lastName) || (a.lastName == b.lastName && StrLe(a.firstName, b.firstName))
  }

  /** `ORDER BY created_at DESC`: `a` may come before `b`. */
  predicate NewerOrSame(a: Feedback, b: Feedback) {
    a.createdAt >= b.createdAt
  }

  lemma NameLeTotalPreorder()
    ensures TotalPreorder(NameLe)
  {
    forall a: Officer, b: Officer
      ensures NameLe(a, b) || NameLe(b, a)
    {
      StrLeTotal(a.lastName, b.lastName);
      StrLeTotal(a.firstName, b.firstName);
    }
    forall a: Officer, b: Officer, c: Officer | NameLe(a, b) && NameLe(b, c)
      ensures NameLe(a, c)
    {
      if StrLt(a.lastName, b.lastName) && StrLt(b.lastName, c.lastName) {
        StrLeTransitive(a.lastName, b.lastName, c.lastName);
        if a.lastName == c.lastName {
          StrLeAntisymmetric(a.lastName, b.lastName);
        }
      } else if a.lastName == b.lastName && b.lastName == c.lastName {
        StrLeTransitive(a.firstName, b.firstName, c.firstName);
      }
    }
  }

  lemma NewerOrSameTotalPreorder()
    ensures TotalPreorder(NewerOrSame)
  {
  }

  // ---------------------------------------------------------------------------
  // Aggregates

  /** A running `COUNT(*)` and `SUM(rating)`; `AVG(rating)` is derived. */
  datatype Agg = Agg(count: nat, sum: int) {

    function Plus(other: Agg): Agg {
      Agg(count + other.count, sum + other.sum)
    }

    /** `COALESCE(AVG(rating), 0)`: the exact mean, or 0 for an empty group. */
    function Mean(): (m: real)
      ensures count == 0 ==> m == 0.0
      ensures count > 0 ==> m * count as real == sum as real
    {
      if count == 0 then 0.0 else sum as real / count as real
    }
  }

  const NoRows: Agg := Agg(0, 0)

  /** Count and rating sum of a sequence of feedback rows. */
  function AggOf(fs: seq<Feedback>): (a: Agg)
    ensures a.count == |fs|
  {
    if |fs| == 0 then NoRows else Agg(1, fs[0].rating).Plus(AggOf(fs[1..]))
  }

  /** `WHERE officer_id = id`. */
  function ByOfficer(id: int): Feedback -> bool {
    (f: Feedback) => f.officerId == id
  }

  /** The feedback rows of one officer, in table order. */
  function FeedbackOf(fs: seq<Feedback>, id: int): seq<Feedback> {
    Filter(fs, ByOfficer(id))
  }

  /** The contribution of one row to the aggregate of officer `id`. */
  function RowAgg(f: Feedback, id: int): Agg {
    if f.officerId == id then Agg(1, f.rating) else NoRows
  }

  /** Count and rating sum of one officer's feedback rows. */
  function AggFor(fs: seq<Feedback>, id: int): Agg {
    if |fs| == 0 then NoRows else RowAgg(fs[0], id).Plus(AggFor(fs[1..], id))
  }

  lemma PlusNoRows(a: Agg)
    ensures NoRows.Plus(a) == a && a.Plus(NoRows) == a
  {
  }

  /** An officer's aggregate is the aggregate of the rows that reference it. */
  lemma {:induction false} AggForFeedbackOf(fs: seq<Feedback>, id: int)
    ensures AggFor(fs, id) == AggOf(FeedbackOf(fs, id))
    ensures AggFor(fs, id).count == |FeedbackOf(fs, id)|
    decreases |fs|
  {
    if |fs| == 0 {
      assert FeedbackOf(fs, id) == [];
    } else {
      AggForFeedbackOf(fs[1..], id);
      var rest := FeedbackOf(fs[1..], id);
      var tail := AggFor(fs[1..], id);
      assert AggFor(fs, id) == RowAgg(fs[0], id).Plus(tail);
      if fs[0].officerId == id {
        var g := [fs[0]] + rest;
        assert FeedbackOf(fs, id) == g;
        assert g[0] == fs[0] && g[1..] == rest;
        assert AggOf(g) == Agg(1, fs[0].rating).Plus(AggOf(rest));
      } else {
        assert FeedbackOf(fs, id) == rest;
        PlusNoRows(tail);
      }
    }
  }

  lemma {:induction false} AggOfAppend(a: seq<Feedback>, b: seq<Feedback>)
    ensures AggOf(a + b) == AggOf(a).Plus(AggOf(b))
    decreases |a|
  {
    if |a| == 0 {
      assert a + b == b;
      PlusNoRows(AggOf(b));
    } else {
      assert (a + b)[0] == a[0];
      assert (a + b)[1..] == a[1..] + b;
      AggOfAppend(a[1..], b);
    }
  }

  lemma {:induction false} AggForAppend(a: seq<Feedback>, b: seq<Feedback>, id: int)
    ensures AggFor(a + b, id) == AggFor(a, id).Plus(AggFor(b, id))
    decreases |a|
  {
    if |a| == 0 {
      assert a + b == b;
      PlusNoRows(AggFor(b, id));
    } else {
      assert (a + b)[0] == a[0];
      assert (a + b)[1..] == a[1..] + b;
      AggForAppend(a[1..], b, id);
    }
  }

  /** When every rating lies in 1..5, a group's rating sum lies between its
      count and five times its count. */
  lemma {:induction false} AggForBounds(fs: seq<Feedback>, id: int)
    requires forall k :: 0 <= k < |fs| ==> 1 <= fs[k].rating <= 5
    ensures AggFor(fs, id).count <= AggFor(fs, id).sum <= 5 * AggFor(fs, id).count
    decreases |fs|
  {
    if |fs| > 0 {
      AggForBounds(fs[1..], id);
    }
  }

  lemma {:induction false} AggOfBounds(fs: seq<Feedback>)
    requires forall k :: 0 <= k < |fs| ==> 1 <= fs[k].rating <= 5
    ensures |fs| <= AggOf(fs).sum <= 5 * |fs|
    decreases |fs|
  {
    if |fs| > 0 {
      AggOfBounds(fs[1..]);
    }
  }

  lemma MeanBounds(a: Agg)
    requires a.count > 0 && a.count <= a.sum <= 5 * a.count
    ensures 1.0 <= a.Mean() <= 5.0
  {
    QuotientBounds(a.Mean(), a.count as real, a.sum as real);
  }

  /** If `m * c == t` with `c <= t <= 5c`, then `m` lies in 1..5. */
  lemma QuotientBounds(m: real, c: real, t: real)
    requires c > 0.0 && m * c == t && c <= t <= 5.0 * c
    ensures 1.0 <= m <= 5.0
  {
    if m < 1.0 {
      ProductSign(1.0 - m, c);
      Distributes(1.0, m, c);
    }
    if m > 5.0 {
      ProductSign(m - 5.0, c);
      Distributes(m, 5.0, c);
    }
  }

  lemma ProductSign(x: real, y: real)
    requires x > 0.0 && y > 0.0
    ensures x * y > 0.0
  {
  }

  lemma Distributes(x: real, y: real, z: real)
    ensures (x - y) * z == x * z - y * z
  {
  }

  /** In a valid store every officer's average is 0 with no feedback and
      lies in 1..5 otherwise; in particular it is positive iff the officer
      has feedback. */
  lemma AverageBounds(s: Store, id: int)
    requires Valid(s)
    ensures AggFor(s.feedback, id).count == 0 ==> AggFor(s.feedback, id).Mean() == 0.0
    ensures AggFor(s.feedback, id).count > 0 ==> 1.0 <= AggFor(s.feedback, id).Mean() <= 5.0
    ensures AggFor(s.feedback, id).Mean() > 0.0 <==> AggFor(s.feedback, id).count > 0
  {
    var a := AggFor(s.feedback, id);
    AggForBounds(s.feedback, id);
    if a.count > 0 {
      MeanBounds(a);
    }
  }
}
