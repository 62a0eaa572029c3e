/** The pure logic of the mobile client (App.tsx): the name search over
    the officer list it loads from GET /api/officers-with-ratings, the
    feedback form with its star row, submit guard, reset and request body,
    and the choice between a rating and 'N/A'. Rendering is left out; each
    piece is the value the component computes. */
module Client {
  import opened Wrappers
  import opened Http
  import opened Strings
  import opened Collections
  import opened Schema
  import opened Queries
  import opened Ingest

  // ---------------------------------------------------------------------------
  // Search

  /** `${officer.first_name} ${officer.last_name}`. */
  function DisplayName(o: Officer): string {
    o.firstName + " " + o.lastName
  }

  /** `` `${...}`.toLowerCase().includes(searchTerm.toLowerCase()) ``. */
  function MatchesTerm(term: string): RatedOfficer -> bool {
    (r: RatedOfficer) => Contains(Lower(DisplayName(r.officer)), Lower(term))
  }

  /** `filteredOfficers`: the whole list for an empty term, otherwise the
      officers whose name matches, in list order. */
  function FilteredOfficers(officers: seq<RatedOfficer>, searchTerm: string): (r: seq<RatedOfficer>)
    ensures IsSubsequence(r, officers)
    ensures forall i :: 0 <= i < |r| ==> Contains(Lower(DisplayName(r[i].officer)), Lower(searchTerm))
  {
    if |searchTerm| == 0 then
      SubsequenceReflexive(officers);
      assert Lower(searchTerm) == "";
      assert forall o: Officer :: Contains(Lower(DisplayName(o)), Lower(searchTerm)) by {
        forall o: Officer { ContainsEmpty(Lower(DisplayName(o))); }
      }
      officers
    else
      var r := Filter(officers, MatchesTerm(searchTerm));
      FilterIsSubsequence(officers, MatchesTerm(searchTerm));
      FilterMembers(officers, MatchesTerm(searchTerm));
      assert forall i :: 0 <= i < |r| ==> r[i] in r;
      r
  }

  /** The result keeps the list's order and holds exactly the officers
      whose lower-cased "first last" includes the lower-cased term. */
  lemma FilteredOfficersMeaning(officers: seq<RatedOfficer>, searchTerm: string)
    ensures IsSubsequence(FilteredOfficers(officers, searchTerm), officers)
    ensures forall r :: r in FilteredOfficers(officers, searchTerm) <==>
              r in officers && Contains(Lower(DisplayName(r.officer)), Lower(searchTerm))
  {
    FilterIsSubsequence(officers, MatchesTerm(searchTerm));
    FilterMembers(officers, MatchesTerm(searchTerm));
    if |searchTerm| == 0 {
      SubsequenceReflexive(officers);
      forall r: RatedOfficer
        ensures Contains(Lower(DisplayName(r.officer)), Lower(searchTerm))
      {
        assert Lower(searchTerm) == "";
        ContainsEmpty(Lower(DisplayName(r.officer)));
      }
    }
  }

  /** The early return for an empty term is only a shortcut: filtering
      with the empty term would keep every officer anyway. */
  lemma EmptyTermShortcut(officers: seq<RatedOfficer>)
    ensures FilteredOfficers(officers, "") == officers
    ensures Filter(officers, MatchesTerm("")) == officers
  {
    forall i | 0 <= i < |officers|
      ensures MatchesTerm("")(officers[i])
    {
      assert Lower("") == "";
      ContainsEmpty(Lower(DisplayName(officers[i].officer)));
    }
    FilterKeepsAll(officers, MatchesTerm(""));
  }

  /** The search ignores the case of ASCII letters in the term. */
  lemma SearchIgnoresCase(officers: seq<RatedOfficer>, searchTerm: string)
    ensures FilteredOfficers(officers, Lower(searchTerm)) == FilteredOfficers(officers, searchTerm)
  {
    LowerIdempotent(searchTerm);
    FilterCongruent(officers, MatchesTerm(Lower(searchTerm)), MatchesTerm(searchTerm));
  }

  // ---------------------------------------------------------------------------
  // The feedback form

  /** The `feedback` state: the chosen star count (0 for none) and the comment. */
  datatype FormState = FormState(rating: int, comment: string)

  /** `{ rating: 0, comment: '' }`. */
  const EmptyForm: FormState := FormState(0, "")

  /** Tapping star `star` of the row. */
  function TapStar(form: FormState, star: int): FormState {
    form.(rating := star)
  }

  /** The effect on `selectedOfficer`: a form whose officer was deselected
      starts over; while one is selected the form is kept. */
  function OnSelectionChange(selected: Option<Officer>, form: FormState): (f: FormState)
    ensures selected.None? ==> f.rating == 0 && f.comment == ""
    ensures selected.Some? ==> f == form
  {
    if selected.None? then EmptyForm else form
  }

  /** `disabled={submitting || feedback.rating === 0}`, negated. */
  predicate SubmitEnabled(submitting: bool, form: FormState): (b: bool)
    ensures b <==> !submitting && form.rating != EmptyForm.rating
  {
    !(submitting || form.rating == 0)
  }

  /** The JSON body the handler sends. */
  datatype Payload = Payload(officerId: int, rating: int, feedbackText: string, isAnonymous: int)

  /** The client always asks for an anonymous submission. */
  const AnonymousFlag: int := 1

  /** `submitFeedbackHandler`: nothing is sent while no star is chosen. */
  function SubmitHandler(selected: Officer, form: FormState): (p: Option<Payload>)
    ensures p.None? <==> form.rating == 0
    ensures p.Some? ==> p.value.officerId == selected.id && p.value.rating == form.rating
                        && p.value.feedbackText == form.comment && p.value.isAnonymous == 1
  {
    if form.rating == 0 then None
    else Some(Payload(selected.id, form.rating, form.comment, AnonymousFlag))
  }

  /** How the server reads the body: every field is present, and the
      integer 1 reaches the `BOOLEAN` column as true. */
  function ToRequest(p: Payload): (r: FeedbackRequest)
    ensures !Rejects(r) <==> p.officerId != 0 && 1 <= p.rating <= 5
    ensures r.officerId == Some(p.officerId) && r.rating == Some(p.rating)
    ensures NormaliseText(r.feedbackText) == p.feedbackText
    ensures r.isAnonymous == Some(true) <==> p.isAnonymous == AnonymousFlag
  {
    FeedbackRequest(Some(p.officerId), Some(p.rating), Some(p.feedbackText), Some(p.isAnonymous == AnonymousFlag))
  }

  /** The form can only ever hold a rating in 0..5: it starts at 0, a tap
      sets a star of the row, and a reset goes back to 0. */
  predicate FormInRange(form: FormState) {
    0 <= form.rating <= 5
  }

  lemma FormStaysInRange(form: FormState, star: int, selected: Option<Officer>)
    requires FormInRange(form)
    requires 1 <= star <= 5
    ensures FormInRange(EmptyForm)
    ensures FormInRange(TapStar(form, star))
    ensures FormInRange(OnSelectionChange(selected, form))
  {
  }

  /** Deselecting an officer leaves a form that can neither be submitted
      nor send anything, whatever was entered before. */
  lemma ResetBlocksSubmit(officer: Officer, form: FormState, submitting: bool)
    ensures !SubmitEnabled(submitting, OnSelectionChange(None, form))
    ensures SubmitHandler(officer, OnSelectionChange(None, form)).None?
  {
  }

  /** The button and the handler guard agree: when no request is in flight,
      the button is enabled exactly when the handler would send a body. */
  lemma GuardsAgree(officer: Officer, form: FormState)
    ensures SubmitEnabled(false, form) <==> SubmitHandler(officer, form).Some?
  {
  }

  /** From the form to the table: in a valid store, a body sent for a
      listed officer with a chosen star passes the server's check and is
      stored as the officer's anonymous feedback with the comment as typed,
      as long as the officer's id fits the `INTEGER` column (the model's
      sequences are unbounded, PostgreSQL's are not). */
  lemma SubmitFromForm(s: Store, officer: Officer, form: FormState, now: nat)
    requires Valid(s)
    requires officer in s.officers
    requires FormInRange(form)
    requires SubmitHandler(officer, form).Some?
    ensures var post := Submit(s, ToRequest(SubmitHandler(officer, form).value), now);
            && (post.response.Status() == 201 <==> IsInt4(officer.id))
            && Valid(post.store)
    ensures var post := Submit(s, ToRequest(SubmitHandler(officer, form).value), now);
            IsInt4(officer.id) ==>
            && post.response.body.officerId == officer.id
            && post.response.body.rating == form.rating
            && post.response.body.feedbackText == form.comment
            && post.response.body.isAnonymous == Some(true)
  {
    var p := SubmitHandler(officer, form).value;
    var i :| 0 <= i < |s.officers| && s.officers[i] == officer;
    assert officer.id >= 1;
    assert officer.id in OfficerIds(s.officers);
    SubmitPreservesValid(s, ToRequest(p), now);
  }

  // ---------------------------------------------------------------------------
  // Stars

  /** `feedback.rating >= star`: star `star` (1..5) of the form is drawn filled. */
  predicate StarFilled(rating: int, star: int) {
    rating >= star
  }

  /** The form's row of five stars, left to right. */
  function StarRow(rating: int): (row: seq<bool>)
    ensures |row| == 5
    ensures forall i :: 0 <= i < 5 ==> (row[i] <==> i < rating)
  {
    seq(5, i requires 0 <= i < 5 => StarFilled(rating, i + 1))
  }

  /** `i < fb.rating`: star `i` (0..4) of an admin feedback entry is drawn filled. */
  predicate AdminStarFilled(rating: int, i: int) {
    i < rating
  }

  /** For a rating in 0..5 the filled stars are exactly the first `rating`
      of the row, and the admin view's rule fills the same stars. */
  lemma StarRowMeaning(rating: int)
    requires 0 <= rating <= 5
    ensures forall i :: 0 <= i < 5 ==> (StarRow(rating)[i] <==> i < rating)
    ensures forall i :: 0 <= i < 5 ==> StarRow(rating)[i] == AdminStarFilled(rating, i)
    ensures |Filter(StarRow(rating), IsFilled)| == rating
  {
    FilledPrefix(StarRow(rating), rating);
  }

  function IsFilled(b: bool): bool {
    b
  }

  /** A row whose first `k` entries are true and the rest false has `k`
      true entries. */
  lemma {:induction false} FilledPrefix(row: seq<bool>, k: nat)
    requires k <= |row|
    requires forall i :: 0 <= i < |row| ==> (row[i] <==> i < k)
    ensures |Filter(row, IsFilled)| == k
    decreases |row|
  {
    if |row| > 0 {
      if k == 0 {
        FilterKeepsNone(row, IsFilled);
      } else {
        FilledPrefix(row[1..], k - 1);
      }
    }
  }

  // ---------------------------------------------------------------------------
  // 'N/A'

  /** The text of the rating: `avg_rating > 0 ? ... : 'N/A'`. */
  datatype RatingText = NotAvailable | Average(value: real)

  function RatingLabel(avgRating: real): (t: RatingText)
    ensures t.NotAvailable? <==> avgRating <= 0.0
  {
    if avgRating > 0.0 then Average(avgRating) else NotAvailable
  }

  /** For the rows the server sends from a valid store, 'N/A' appears
      exactly for officers without feedback, and a shown average lies in
      1..5. */
  lemma RatingLabelMeaning(s: Store, i: int)
    requires Valid(s)
    requires 0 <= i < |OfficersWithRatings(s.officers, s.feedback)|
    ensures var row := OfficersWithRatings(s.officers, s.feedback)[i];
            && (RatingLabel(row.avgRating).NotAvailable? <==> row.feedbackCount == 0)
            && (RatingLabel(row.avgRating).Average? ==> 1.0 <= row.avgRating <= 5.0)
  {
    OfficersWithRatingsMeaning(s.officers, s.feedback);
    var row := OfficersWithRatings(s.officers, s.feedback)[i];
    AverageBounds(s, row.officer.id);
  }
}
