/** The read endpoints of server.js, each written as the meaning of its SQL
    over the two tables:
    - GET /api/officers-with-ratings: `officers LEFT JOIN feedback`, then
      `GROUP BY` officer with `COUNT(f.id)` and `COALESCE(AVG(f.rating), 0)`;
    - GET /api/officers: `feedback GROUP BY officer_id` first, then
      `officers LEFT JOIN` that, with `COALESCE(..., 0)`;
    - GET /api/officers/:id/feedback: `WHERE officer_id = $1 ORDER BY created_at DESC`;
    - GET /api/admin/all-feedback: global stats, the rated officer list,
      and the newest-first feedback list split per officer in JavaScript.
    `ExpectedRatings` is the declarative reference the two officer-list
    queries are proved equal to. */
module Queries {
  import opened Wrappers
  import opened Http
  import opened Collections
  import opened Schema

  /** An officer row extended with its rating aggregates. */
  datatype RatedOfficer = RatedOfficer(officer: Officer, avgRating: real, feedbackCount: nat)

  function RatedRow(o: Officer, a: Agg): RatedOfficer {
    RatedOfficer(o, a.Mean(), a.count)
  }

  function OfficerOf(r: RatedOfficer): Officer {
    r.officer
  }

  /** Rates an officer from its own feedback rows. */
  function RateFn(fs: seq<Feedback>): Officer -> RatedOfficer {
    (o: Officer) => RatedRow(o, AggFor(fs, o.id))
  }

  /** Every officer once, in name order, with the number of feedback rows
      that reference it and their mean rating (0 when there are none). */
  function ExpectedRatings(os: seq<Officer>, fs: seq<Feedback>): (r: seq<RatedOfficer>)
    ensures |r| == |os|
    ensures multiset(Map(r, OfficerOf)) == multiset(os)
    ensures forall i, j :: 0 <= i < j < |r| ==> NameLe(r[i].officer, r[j].officer)
    ensures forall i :: 0 <= i < |r| ==>
              && r[i].feedbackCount == |FeedbackOf(fs, r[i].officer.id)|
              && r[i].avgRating == AggFor(fs, r[i].officer.id).Mean()
  {
    var sorted := Sort(os, NameLe);
    NameLeTotalPreorder();
    SortSorted(os, NameLe);
    var r := Map(sorted, RateFn(fs));
    assert Map(r, OfficerOf) == sorted;
    assert forall o: Officer :: AggFor(fs, o.id).count == |FeedbackOf(fs, o.id)| by {
      forall o: Officer { AggForFeedbackOf(fs, o.id); }
    }
    r
  }

  // ---------------------------------------------------------------------------
  // GET /api/officers-with-ratings: LEFT JOIN, then GROUP BY

  /** A row of `officers o LEFT JOIN feedback f ON o.id = f.officer_id`;
      `feedback` is `None` for the NULL-extended row of an officer with no match. */
  datatype JoinRow = JoinRow(officer: Officer, feedback: Option<Feedback>)

  /** The joined rows of one officer that found a matching feedback row. */
  function Matches(o: Officer, fs: seq<Feedback>): seq<JoinRow> {
    if |fs| == 0 then []
    else if fs[0].officerId == o.id then [JoinRow(o, Some(fs[0]))] + Matches(o, fs[1..])
    else Matches(o, fs[1..])
  }

  /** The LEFT JOIN keeps every officer: one row per match, or one
      NULL-extended row when there is none. */
  function LeftJoin(os: seq<Officer>, fs: seq<Feedback>): seq<JoinRow> {
    if |os| == 0 then []
    else
      var m := Matches(os[0], fs);
      (if |m| == 0 then [JoinRow(os[0], None)] else m) + LeftJoin(os[1..], fs)
  }

  /** `COUNT(f.id)` and `SUM(f.rating)` over the group `o.id = id`: rows
      whose feedback side is NULL do not count. */
  function GroupAgg(rows: seq<JoinRow>, id: int): Agg {
    if |rows| == 0 then NoRows
    else JoinRowAgg(rows[0], id).Plus(GroupAgg(rows[1..], id))
  }

  /** The contribution of one joined row to the group `o.id = id`. */
  function JoinRowAgg(row: JoinRow, id: int): Agg {
    if row.officer.id == id && row.feedback.Some? then Agg(1, row.feedback.value.rating) else NoRows
  }

  function GroupRowFn(joined: seq<JoinRow>): Officer -> RatedOfficer {
    (o: Officer) => RatedRow(o, GroupAgg(joined, o.id))
  }

  /** The officer-with-ratings query: one output row per officer group,
      `ORDER BY o.last_name, o.first_name`. */
  function OfficersWithRatings(os: seq<Officer>, fs: seq<Feedback>): (r: seq<RatedOfficer>)
    ensures |r| == |os|
    ensures multiset(Map(r, OfficerOf)) == multiset(os)
    ensures forall i, j :: 0 <= i < j < |r| ==> NameLe(r[i].officer, r[j].officer)
  {
    var sorted := Sort(os, NameLe);
    NameLeTotalPreorder();
    SortSorted(os, NameLe);
    var r := Map(sorted, GroupRowFn(LeftJoin(os, fs)));
    assert Map(r, OfficerOf) == sorted;
    r
  }

  lemma {:induction false} GroupAggAppend(a: seq<JoinRow>, b: seq<JoinRow>, id: int)
    ensures GroupAgg(a + b, id) == GroupAgg(a, id).Plus(GroupAgg(b, id))
    decreases |a|
  {
    if |a| == 0 {
      assert a + b == b;
    } else {
      assert (a + b)[0] == a[0];
      assert (a + b)[1..] == a[1..] + b;
      GroupAggAppend(a[1..], b, id);
    }
  }

  /** Peels the first feedback row off an officer's matched rows. */
  lemma MatchesStep(o: Officer, fs: seq<Feedback>, id: int)
    requires |fs| > 0
    ensures GroupAgg(Matches(o, fs), id)
         == (if o.id == id then RowAgg(fs[0], id) else NoRows).Plus(GroupAgg(Matches(o, fs[1..]), id))
  {
    var r := GroupAgg(Matches(o, fs[1..]), id);
    if fs[0].officerId == o.id {
      var m := [JoinRow(o, Some(fs[0]))] + Matches(o, fs[1..]);
      assert m[0] == JoinRow(o, Some(fs[0])) && m[1..] == Matches(o, fs[1..]);
      assert Matches(o, fs) == m;
      assert GroupAgg(m, id) == JoinRowAgg(m[0], id).Plus(r);
      assert JoinRowAgg(m[0], id) == if o.id == id then RowAgg(fs[0], id) else NoRows;
    } else {
      assert Matches(o, fs) == Matches(o, fs[1..]);
      assert GroupAgg(Matches(o, fs), id) == r;
      assert (if o.id == id then RowAgg(fs[0], id) else NoRows) == NoRows;
      PlusNoRows(r);
    }
  }

  /** An officer's matched rows contribute exactly its feedback aggregate to
      its own group and nothing to any other group. */
  lemma {:induction false} GroupAggMatches(o: Officer, fs: seq<Feedback>, id: int)
    ensures GroupAgg(Matches(o, fs), id) == if o.id == id then AggFor(fs, id) else NoRows
    decreases |fs|
  {
    if |fs| > 0 {
      GroupAggMatches(o, fs[1..], id);
      MatchesStep(o, fs, id);
      var r := GroupAgg(Matches(o, fs[1..]), id);
      if o.id == id {
        assert r == AggFor(fs[1..], id);
      } else {
        assert r == NoRows;
        PlusNoRows(NoRows);
      }
    }
  }

  /** The rows the LEFT JOIN produces for one officer. */
  function JoinBlock(o: Officer, fs: seq<Feedback>): seq<JoinRow> {
    if |Matches(o, fs)| == 0 then [JoinRow(o, None)] else Matches(o, fs)
  }

  /** An officer's block contributes its feedback aggregate to its own
      group, the NULL-extended row included, and nothing elsewhere. */
  lemma GroupAggBlock(o: Officer, fs: seq<Feedback>, id: int)
    ensures GroupAgg(JoinBlock(o, fs), id) == if o.id == id then AggFor(fs, id) else NoRows
  {
    GroupAggMatches(o, fs, id);
    if |Matches(o, fs)| == 0 {
      var b := [JoinRow(o, None)];
      assert b[1..] == [];
    }
  }

  /** Peels the first officer's block off the joined rows. */
  lemma GroupAggJoinStep(os: seq<Officer>, fs: seq<Feedback>, id: int)
    requires |os| > 0
    ensures GroupAgg(LeftJoin(os, fs), id)
         == (if os[0].id == id then AggFor(fs, id) else NoRows).Plus(GroupAgg(LeftJoin(os[1..], fs), id))
  {
    assert LeftJoin(os, fs) == JoinBlock(os[0], fs) + LeftJoin(os[1..], fs);
    GroupAggAppend(JoinBlock(os[0], fs), LeftJoin(os[1..], fs), id);
    GroupAggBlock(os[0], fs, id);
  }

  /** A group for an id that no officer has is empty. */
  lemma {:induction false} GroupAggAbsent(os: seq<Officer>, fs: seq<Feedback>, id: int)
    requires forall i :: 0 <= i < |os| ==> os[i].id != id
    ensures GroupAgg(LeftJoin(os, fs), id) == NoRows
    decreases |os|
  {
    if |os| > 0 {
      GroupAggAbsent(os[1..], fs, id);
      GroupAggJoinStep(os, fs, id);
      PlusNoRows(NoRows);
    }
  }

  /** With unique officer ids, the group of an officer aggregates exactly
      the feedback rows that reference it. */
  lemma {:induction false} GroupAggPresent(os: seq<Officer>, fs: seq<Feedback>, o: Officer)
    requires DistinctIds(os)
    requires o in os
    ensures GroupAgg(LeftJoin(os, fs), o.id) == AggFor(fs, o.id)
    decreases |os|
  {
    GroupAggJoinStep(os, fs, o.id);
    if os[0].id == o.id {
      GroupAggAbsent(os[1..], fs, o.id);
      PlusNoRows(AggFor(fs, o.id));
    } else {
      assert DistinctIds(os[1..]);
      assert o in os[1..];
      GroupAggPresent(os[1..], fs, o);
      PlusNoRows(AggFor(fs, o.id));
    }
  }

  /** The LEFT JOIN / GROUP BY query computes the reference ratings:
      every officer once, with its own count and mean, in name order. */
  lemma OfficersWithRatingsMeaning(os: seq<Officer>, fs: seq<Feedback>)
    requires DistinctIds(os)
    ensures OfficersWithRatings(os, fs) == ExpectedRatings(os, fs)
  {
    var sorted := Sort(os, NameLe);
    var joined := LeftJoin(os, fs);
    forall i | 0 <= i < |sorted|
      ensures GroupRowFn(joined)(sorted[i]) == RateFn(fs)(sorted[i])
    {
      assert sorted[i] in multiset(os);
      GroupAggPresent(os, fs, sorted[i]);
    }
  }

  // ---------------------------------------------------------------------------
  // GET /api/officers: GROUP BY officer_id first, then LEFT JOIN

  /** `SELECT officer_id, COUNT(*), AVG(rating) FROM feedback GROUP BY officer_id`:
      one aggregate per officer id that occurs in `fs`. */
  function GroupByOfficer(fs: seq<Feedback>): map<int, Agg> {
    if |fs| == 0 then map[]
    else
      var m := GroupByOfficer(fs[1..]);
      var k := fs[0].officerId;
      m[k := Agg(1, fs[0].rating).Plus(if k in m then m[k] else NoRows)]
  }

  /** `LEFT JOIN ... ON o.id = f.officer_id` with `COALESCE(..., 0)`. */
  function Coalesce(grouped: map<int, Agg>, id: int): Agg {
    if id in grouped then grouped[id] else NoRows
  }

  function CoalescedRowFn(grouped: map<int, Agg>): Officer -> RatedOfficer {
    (o: Officer) => RatedRow(o, Coalesce(grouped, o.id))
  }

  /** The officer-list query; its rows carry the mean under the column name
      `average_rating` and every column of `officers`. */
  function OfficersList(os: seq<Officer>, fs: seq<Feedback>): (r: seq<RatedOfficer>)
    ensures |r| == |os|
    ensures multiset(Map(r, OfficerOf)) == multiset(os)
    ensures forall i, j :: 0 <= i < j < |r| ==> NameLe(r[i].officer, r[j].officer)
  {
    var sorted := Sort(os, NameLe);
    NameLeTotalPreorder();
    SortSorted(os, NameLe);
    var r := Map(sorted, CoalescedRowFn(GroupByOfficer(fs)));
    assert Map(r, OfficerOf) == sorted;
    r
  }

  /** Peels the first feedback row off the grouped subquery. */
  lemma GroupByOfficerStep(fs: seq<Feedback>, id: int)
    requires |fs| > 0
    ensures id in GroupByOfficer(fs) <==> fs[0].officerId == id || id in GroupByOfficer(fs[1..])
    ensures Coalesce(GroupByOfficer(fs), id) == RowAgg(fs[0], id).Plus(Coalesce(GroupByOfficer(fs[1..]), id))
  {
    var m := GroupByOfficer(fs[1..]);
    var k := fs[0].officerId;
    var g := GroupByOfficer(fs);
    assert g == m[k := Agg(1, fs[0].rating).Plus(Coalesce(m, k))];
    if k != id {
      assert RowAgg(fs[0], id) == NoRows;
      PlusNoRows(Coalesce(m, id));
    }
  }

  /** The grouped subquery has a row for exactly the ids that have feedback,
      and that row is the id's aggregate. */
  lemma {:induction false} GroupByOfficerMeaning(fs: seq<Feedback>, id: int)
    ensures id in GroupByOfficer(fs) <==> AggFor(fs, id).count > 0
    ensures Coalesce(GroupByOfficer(fs), id) == AggFor(fs, id)
    decreases |fs|
  {
    if |fs| > 0 {
      GroupByOfficerMeaning(fs[1..], id);
      GroupByOfficerStep(fs, id);
      assert AggFor(fs, id) == RowAgg(fs[0], id).Plus(AggFor(fs[1..], id));
    }
  }

  /** The group-then-join query computes the reference ratings. Unlike the
      join-then-group form it needs no key uniqueness. */
  lemma OfficersListMeaning(os: seq<Officer>, fs: seq<Feedback>)
    ensures OfficersList(os, fs) == ExpectedRatings(os, fs)
  {
    var sorted := Sort(os, NameLe);
    forall i | 0 <= i < |sorted|
      ensures CoalescedRowFn(GroupByOfficer(fs))(sorted[i]) == RateFn(fs)(sorted[i])
    {
      GroupByOfficerMeaning(fs, sorted[i].id);
    }
  }

  /** Both officer-list endpoints send the same values per officer, in the
      same order. The mean travels under different column names
      (`average_rating` and `avg_rating`), which the model does not carry. */
  lemma OfficerEndpointsAgree(os: seq<Officer>, fs: seq<Feedback>)
    requires DistinctIds(os)
    ensures OfficersList(os, fs) == OfficersWithRatings(os, fs)
  {
    OfficersListMeaning(os, fs);
    OfficersWithRatingsMeaning(os, fs);
  }

  // ---------------------------------------------------------------------------
  // GET /api/officers/:id/feedback

  /** `SELECT * FROM feedback WHERE officer_id = $1 ORDER BY created_at DESC`. */
  function FeedbackForOfficer(fs: seq<Feedback>, id: int): (r: seq<Feedback>)
    ensures multiset(r) == multiset(FeedbackOf(fs, id))
    ensures |r| == AggFor(fs, id).count
    ensures forall k :: 0 <= k < |r| ==> r[k].officerId == id
    ensures forall i, j :: 0 <= i < j < |r| ==> r[i].createdAt >= r[j].createdAt
  {
    var r := Sort(FeedbackOf(fs, id), NewerOrSame);
    AggForFeedbackOf(fs, id);
    NewerOrSameTotalPreorder();
    SortSorted(FeedbackOf(fs, id), NewerOrSame);
    assert forall k :: 0 <= k < |r| ==> r[k] in multiset(FeedbackOf(fs, id));
    r
  }

  /** The route handler. The path segment reaches PostgreSQL as text and
      is compared with the `INTEGER` column: `None` stands for a segment it
      cannot read as an integer, and an integer outside the column's range
      is refused as well; either makes the query fail. An id no officer has
      is not an error. */
  function GetOfficerFeedback(fs: seq<Feedback>, idParam: Option<int>): (r: Response<seq<Feedback>>)
    ensures r.Status() == 200 <==> idParam.Some? && IsInt4(idParam.value)
    ensures r.Status() != 200 ==> r == ServerError(InternalServerError)
    ensures r.Status() == 200 ==> r.body == FeedbackForOfficer(fs, idParam.value)
  {
    match idParam
    case None => ServerError(InternalServerError)
    case Some(id) => if IsInt4(id) then Ok(FeedbackForOfficer(fs, id)) else ServerError(InternalServerError)
  }

  /** The per-officer list holds exactly the rows that reference the
      officer; it is empty, not an error, when there are none. */
  lemma FeedbackForOfficerMembers(fs: seq<Feedback>, id: int)
    ensures forall f :: f in FeedbackForOfficer(fs, id) <==> f in fs && f.officerId == id
    ensures |FeedbackForOfficer(fs, id)| == 0 <==> forall k :: 0 <= k < |fs| ==> fs[k].officerId != id
  {
    var r := FeedbackForOfficer(fs, id);
    FilterMembers(fs, ByOfficer(id));
    forall f
      ensures f in r <==> f in FeedbackOf(fs, id)
    {
      assert f in r <==> f in multiset(r);
    }
    if |r| == 0 {
      forall k | 0 <= k < |fs|
        ensures fs[k].officerId != id
      {
        assert fs[k] in fs;
      }
    }
  }

  // ---------------------------------------------------------------------------
  // GET /api/admin/all-feedback

  /** The five columns the admin query selects from `feedback`. */
  datatype FeedbackEntry = FeedbackEntry(id: int, officerId: int, rating: int, feedbackText: string, createdAt: nat)

  function Entry(f: Feedback): FeedbackEntry {
    FeedbackEntry(f.id, f.officerId, f.rating, f.feedbackText, f.createdAt)
  }

  /** `f.officer_id === officer.id`. */
  function EntryOf(id: int): FeedbackEntry -> bool {
    (e: FeedbackEntry) => e.officerId == id
  }

  /** An officer row of the snapshot with its own feedback nested. */
  datatype AdminOfficer = AdminOfficer(rated: RatedOfficer, feedback: seq<FeedbackEntry>)

  datatype AdminSnapshot = AdminSnapshot(
    totalFeedback: nat,
    overallAverageRating: real,
    officers: seq<AdminOfficer>)

  function AttachFn(newestFirst: seq<FeedbackEntry>): RatedOfficer -> AdminOfficer {
    (r: RatedOfficer) => AdminOfficer(r, Filter(newestFirst, EntryOf(r.officer.id)))
  }

  /** Every entry nested under an officer is one of the feedback rows,
      and it references that officer. */
  predicate NestsOwnFeedback(a: AdminOfficer, fs: seq<Feedback>) {
    forall e :: e in a.feedback ==> e.officerId == a.rated.officer.id && e in Map(fs, Entry)
  }

  lemma AttachNestsOwn(r: RatedOfficer, fs: seq<Feedback>)
    ensures NestsOwnFeedback(AttachFn(Map(Sort(fs, NewerOrSame), Entry))(r), fs)
  {
    var sortedAll := Sort(fs, NewerOrSame);
    var newestFirst := Map(sortedAll, Entry);
    var a := AttachFn(newestFirst)(r);
    FilterMembers(newestFirst, EntryOf(r.officer.id));
    forall e | e in a.feedback
      ensures e.officerId == r.officer.id && e in Map(fs, Entry)
    {
      var k :| 0 <= k < |newestFirst| && newestFirst[k] == e;
      assert sortedAll[k] in multiset(fs);
      var m :| 0 <= m < |fs| && fs[m] == sortedAll[k];
      assert Map(fs, Entry)[m] == e;
    }
  }

  /** The admin handler: `COUNT(*)` and `COALESCE(AVG(rating), 0)` over all
      feedback, the rated officer list, and the newest-first feedback list
      filtered to each officer. */
  function AdminAllFeedback(os: seq<Officer>, fs: seq<Feedback>): (snap: AdminSnapshot)
    ensures snap.totalFeedback == |fs|
    ensures |snap.officers| == |os|
    ensures forall i :: 0 <= i < |snap.officers| ==> NestsOwnFeedback(snap.officers[i], fs)
  {
    var stats := AggOf(fs);
    var rated := OfficersWithRatings(os, fs);
    var newestFirst := Map(Sort(fs, NewerOrSame), Entry);
    var officers := Map(rated, AttachFn(newestFirst));
    assert forall i :: 0 <= i < |officers| ==> NestsOwnFeedback(officers[i], fs) by {
      forall i | 0 <= i < |officers| {
        AttachNestsOwn(rated[i], fs);
      }
    }
    AdminSnapshot(stats.count, stats.Mean(), officers)
  }

  /** Each officer's nested list equals that officer's per-officer endpoint
      result, projected to the admin columns: newest first, and as long as
      the officer's feedback count. */
  lemma AdminNestedFeedback(os: seq<Officer>, fs: seq<Feedback>, i: int)
    requires DistinctIds(os)
    requires 0 <= i < |AdminAllFeedback(os, fs).officers|
    ensures var a := AdminAllFeedback(os, fs).officers[i];
            && a.feedback == Map(FeedbackForOfficer(fs, a.rated.officer.id), Entry)
            && |a.feedback| == a.rated.feedbackCount
            && (forall j, k :: 0 <= j < k < |a.feedback| ==> a.feedback[j].createdAt >= a.feedback[k].createdAt)
  {
    var snap := AdminAllFeedback(os, fs);
    var a := snap.officers[i];
    var id := a.rated.officer.id;
    var sortedAll := Sort(fs, NewerOrSame);
    OfficersWithRatingsMeaning(os, fs);
    NewerOrSameTotalPreorder();
    FilterMap(sortedAll, Entry, ByOfficer(id), EntryOf(id));
    FilterSort(fs, NewerOrSame, ByOfficer(id));
  }

  /** `CountFn(fs)(o)` is the number of feedback rows that reference `o`. */
  function CountFn(fs: seq<Feedback>): Officer -> int {
    (o: Officer) => AggFor(fs, o.id).count
  }

  /** `WHERE officer_id IN ids`. */
  function InIds(ids: set<int>): Feedback -> bool {
    (f: Feedback) => f.officerId in ids
  }

  /** Counting rows per id and adding, over ids that are pairwise distinct,
      counts the rows whose id is among them. */
  lemma {:induction false} CountSplit(fs: seq<Feedback>, x: int, ids: set<int>)
    requires x !in ids
    ensures |Filter(fs, InIds({x} + ids))| == AggFor(fs, x).count + |Filter(fs, InIds(ids))|
    decreases |fs|
  {
    if |fs| > 0 {
      CountSplit(fs[1..], x, ids);
    }
  }

  lemma {:induction false} CountsPartition(os: seq<Officer>, fs: seq<Feedback>)
    requires DistinctIds(os)
    ensures SumOf(os, CountFn(fs)) == |Filter(fs, InIds(OfficerIds(os)))|
    decreases |os|
  {
    if |os| == 0 {
      FilterKeepsNone(fs, InIds(OfficerIds(os)));
    } else {
      var rest := os[1..];
      assert DistinctIds(rest);
      CountsPartition(rest, fs);
      assert OfficerIds(os) == {os[0].id} + OfficerIds(rest) by {
        assert os == [os[0]] + rest;
      }
      forall j | 0 <= j < |rest|
        ensures rest[j].id != os[0].id
      {
        assert rest[j] == os[j + 1];
      }
      assert os[0].id !in OfficerIds(rest);
      CountSplit(fs, os[0].id, OfficerIds(rest));
    }
  }

  function AdminCount(a: AdminOfficer): int {
    a.rated.feedbackCount
  }

  function RatedCount(r: RatedOfficer): int {
    r.feedbackCount
  }

  /** With the primary key and the foreign key holding, the snapshot's
      total is the number of feedback rows and also the sum of the
      officers' counts; the overall average is the mean of all ratings. */
  lemma AdminTotals(os: seq<Officer>, fs: seq<Feedback>)
    requires DistinctIds(os)
    requires ReferencesResolve(os, fs)
    ensures var snap := AdminAllFeedback(os, fs);
            && snap.totalFeedback == |fs|
            && snap.totalFeedback == SumOf(snap.officers, AdminCount)
            && snap.overallAverageRating == AggOf(fs).Mean()
  {
    var snap := AdminAllFeedback(os, fs);
    var rated := OfficersWithRatings(os, fs);
    var newestFirst := Map(Sort(fs, NewerOrSame), Entry);
    assert snap.officers == Map(rated, AttachFn(newestFirst));
    SumOfMap(rated, AttachFn(newestFirst), AdminCount, RatedCount);
    RatedCountsSum(os, fs);
  }

  /** The officer list's counts add up to the number of feedback rows. */
  lemma RatedCountsSum(os: seq<Officer>, fs: seq<Feedback>)
    requires DistinctIds(os)
    requires ReferencesResolve(os, fs)
    ensures SumOf(OfficersWithRatings(os, fs), RatedCount) == |fs|
  {
    var sorted := Sort(os, NameLe);
    OfficersWithRatingsMeaning(os, fs);
    assert OfficersWithRatings(os, fs) == Map(sorted, RateFn(fs));
    SumOfMap(sorted, RateFn(fs), RatedCount, CountFn(fs));
    SumOfSort(os, NameLe, CountFn(fs));
    CountsPartition(os, fs);
    FilterKeepsAll(fs, InIds(OfficerIds(os)));
  }
}
