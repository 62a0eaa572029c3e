/** POST /api/feedback (server.js): the body check, then an INSERT that
    stores the comment as `feedback_text || ''` and returns the new row.
    The database rejects a row whose officer does not exist (the foreign
    key of `feedback.officer_id`), which the handler reports as a 500. */
module Ingest {
  import opened Wrappers
  import opened Http
  import opened Collections
  import opened Schema
  import opened Queries

  /** The JSON body. A field the client leaves out is `None`. */
  datatype FeedbackRequest = FeedbackRequest(
    officerId: Option<int>,
    rating: Option<int>,
    feedbackText: Option<string>,
    isAnonymous: Option<bool>)

  const InvalidRequest: string := "Officer ID and a valid rating (1-5) are required."

  /** JavaScript truthiness of a numeric field: present and not 0. */
  predicate Truthy(n: Option<int>) {
    n.Some? && n.value != 0
  }

  /** `!officer_id || !rating || rating < 1 || rating > 5`. The check
      accepts exactly a present, non-zero officer id together with a present
      rating in 1..5; it does not ask whether the officer exists. */
  predicate Rejects(req: FeedbackRequest): (b: bool)
    ensures !b <==>
              && req.officerId.Some? && req.officerId.value != 0
              && req.rating.Some? && 1 <= req.rating.value <= 5
  {
    !Truthy(req.officerId) || !Truthy(req.rating) || req.rating.value < 1 || req.rating.value > 5
  }

  /** `feedback_text || ''`: a missing or empty comment is stored as ''. */
  function NormaliseText(t: Option<string>): (r: string)
    ensures t.None? ==> r == ""
    ensures t.Some? ==> r == t.value
  {
    match t
    case None => ""
    case Some(text) => if |text| == 0 then "" else text
  }

  /** The response together with the database after the request. */
  datatype Posted = Posted(response: Response<Feedback>, store: Store)

  /** The handler. `now` is the database clock that fills `created_at`.
      An officer id outside the `INTEGER` range is refused when the INSERT
      binds its parameters, before the row's id is drawn. Otherwise a
      rejected INSERT (no such officer, by the foreign key) still draws its
      value from the `SERIAL` sequence of `feedback.id`, so the next id
      moves on although no row is added. */
  function Submit(s: Store, req: FeedbackRequest, now: nat): (p: Posted)
    ensures Rejects(req) ==> p.response == BadRequest(InvalidRequest) && p.store == s
    ensures p.response.Status() == 201 <==>
              !Rejects(req) && IsInt4(req.officerId.value) && req.officerId.value in OfficerIds(s.officers)
    ensures p.response.Status() == 500 <==>
              !Rejects(req) && !(IsInt4(req.officerId.value) && req.officerId.value in OfficerIds(s.officers))
    ensures p.response.Status() == 500 ==> p.response == ServerError(InternalServerError)
    ensures !Rejects(req) && !IsInt4(req.officerId.value) ==> p.store == s
    ensures p.response.Status() != 201 ==> p.store.officers == s.officers && p.store.feedback == s.feedback
    ensures p.response.Status() == 201 ==>
              && p.response.body == Feedback(s.nextFeedbackId, req.officerId.value, req.rating.value,
                                             NormaliseText(req.feedbackText), req.isAnonymous, now)
              && p.store.officers == s.officers
              && p.store.feedback == s.feedback + [p.response.body]
  {
    if Rejects(req) then
      Posted(BadRequest(InvalidRequest), s)
    else if !IsInt4(req.officerId.value) then
      Posted(ServerError(InternalServerError), s)
    else
      var id := s.nextFeedbackId;
      var s' := s.(nextFeedbackId := id + 1);
      if req.officerId.value !in OfficerIds(s.officers) then
        Posted(ServerError(InternalServerError), s')
      else
        var row := Feedback(id, req.officerId.value, req.rating.value, NormaliseText(req.feedbackText), req.isAnonymous, now);
        Posted(Created(row), s'.(feedback := s.feedback + [row]))
  }

  /** Whatever the request, the store stays valid: the check keeps the
      ratings in range, the foreign key keeps references resolved, and the
      sequence keeps ids unique. */
  lemma SubmitPreservesValid(s: Store, req: FeedbackRequest, now: nat)
    requires Valid(s)
    ensures Valid(Submit(s, req, now).store)
  {
    var p := Submit(s, req, now);
    var t := p.store;
    assert t.officers == s.officers && t.nextOfficerId == s.nextOfficerId;
    assert t.nextFeedbackId >= s.nextFeedbackId;
    if p.response.Status() == 201 {
      var fs := t.feedback;
      var row := p.response.body;
      assert fs == s.feedback + [row];
      assert row.id == s.nextFeedbackId && t.nextFeedbackId == s.nextFeedbackId + 1;
      assert row.officerId in OfficerIds(s.officers);
      assert 1 <= row.rating <= 5;
      forall k | 0 <= k < |fs|
        ensures fs[k] == if k < |s.feedback| then s.feedback[k] else row
      {
      }
    } else {
      assert t.feedback == s.feedback;
    }
  }

  /** Every row of `fs` is strictly older than `now`. */
  predicate OlderThan(fs: seq<Feedback>, now: nat) {
    forall k :: 0 <= k < |fs| ==> fs[k].createdAt < now
  }

  /** After a created response, with a clock that has moved past every
      stored row, the officer's feedback list starts with the new row and
      continues with the list as it was; every other officer's list is
      unchanged. */
  lemma SubmitThenList(s: Store, req: FeedbackRequest, now: nat, id: int)
    requires OlderThan(s.feedback, now)
    requires Submit(s, req, now).response.Status() == 201
    ensures var p := Submit(s, req, now);
            FeedbackForOfficer(p.store.feedback, id)
            == if id == req.officerId.value then [p.response.body] + FeedbackForOfficer(s.feedback, id)
               else FeedbackForOfficer(s.feedback, id)
  {
    var p := Submit(s, req, now);
    var row := p.response.body;
    FilterAppend(s.feedback, [row], ByOfficer(id));
    FilterCons(row, [], ByOfficer(id));
    assert [row] == [row] + [];
    var before := FeedbackOf(s.feedback, id);
    if id == req.officerId.value {
      assert FeedbackOf(p.store.feedback, id) == before + [row];
      FilterMembers(s.feedback, ByOfficer(id));
      forall i | 0 <= i < |before|
        ensures !NewerOrSame(before[i], row)
      {
        assert before[i] in s.feedback;
      }
      SortAppendGreatest(before, row, NewerOrSame);
    } else {
      assert FeedbackOf(p.store.feedback, id) == before + [];
      assert before + [] == before;
    }
  }

  /** A created row adds one to its officer's count and its rating to the
      officer's sum; every other officer's aggregate is unchanged. */
  lemma SubmitAggregates(s: Store, req: FeedbackRequest, now: nat, id: int)
    requires Submit(s, req, now).response.Status() == 201
    ensures var p := Submit(s, req, now);
            AggFor(p.store.feedback, id)
            == if id == req.officerId.value then AggFor(s.feedback, id).Plus(Agg(1, req.rating.value))
               else AggFor(s.feedback, id)
  {
    var p := Submit(s, req, now);
    var row := p.response.body;
    AggForAppend(s.feedback, [row], id);
    assert [row][1..] == [];
    assert AggFor([row], id) == RowAgg(row, id).Plus(NoRows);
    PlusNoRows(RowAgg(row, id));
    PlusNoRows(AggFor(s.feedback, id));
  }

  /** The request the form sends for Jane Doe (officer 1) with four stars
      and no comment is stored with an empty comment, and a second request
      without a rating is refused. */
  lemma JaneDoeScenario()
    ensures var s := Store([Officer(1, "Jane", "Doe", "Patrol")], [], 2, 1);
            var first := Submit(s, FeedbackRequest(Some(1), Some(4), None, Some(true)), 10);
            && first.response == Created(Feedback(1, 1, 4, "", Some(true), 10))
            && FeedbackForOfficer(first.store.feedback, 1) == [Feedback(1, 1, 4, "", Some(true), 10)]
            && Submit(first.store, FeedbackRequest(Some(1), None, Some("late"), None), 11).response.Status() == 400
  {
    var row := Feedback(1, 1, 4, "", Some(true), 10);
    JaneDoeFirstSubmit();
    OnlyRowListed(row);
  }

  lemma JaneDoeFirstSubmit()
    ensures Submit(Store([Officer(1, "Jane", "Doe", "Patrol")], [], 2, 1), FeedbackRequest(Some(1), Some(4), None, Some(true)), 10)
         == Posted(Created(Feedback(1, 1, 4, "", Some(true), 10)),
                   Store([Officer(1, "Jane", "Doe", "Patrol")], [Feedback(1, 1, 4, "", Some(true), 10)], 2, 2))
  {
    var s := Store([Officer(1, "Jane", "Doe", "Patrol")], [], 2, 1);
    assert OfficerIds(s.officers) == {1} by {
      assert s.officers[0] in s.officers;
    }
  }

  /** A table with one row lists that row for its officer. */
  lemma OnlyRowListed(f: Feedback)
    ensures FeedbackForOfficer([f], f.officerId) == [f]
  {
    var r := FeedbackForOfficer([f], f.officerId);
    assert FeedbackOf([f], f.officerId) == [f];
    assert |r| == 1 && r[0] in multiset([f]);
  }
}
