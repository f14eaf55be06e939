/** The testimonials strip: `feedbackCache` (fifteen minutes), the
    "popular" selection (rating at least 4, highest first) that is both
    shown and cached, and the choice of what to render. */
module Feedback {
  import opened Wrappers
  import opened Seqs
  import Ttl

  /** `feedbackCache.maxAge`: fifteen minutes in milliseconds. */
  const FeedbackMaxAge: int := 15 * 60 * 1000

  const LoadError: string := "Failed to load testimonials"

  /** One review as `/api/review/view` lists it; ratings are integers. */
  datatype Review = Review(name: string, rating: int, comment: string)

  function Rating(r: Review): int {
    r.rating
  }

  function IsPopular(r: Review): bool {
    r.rating >= 4
  }

  /** `data.filter(f => f.rating >= 4).sort((a, b) => b.rating - a.rating)`. */
  function Popular(reviews: seq<Review>): (shown: seq<Review>)
    ensures forall i :: 0 <= i < |shown| ==> shown[i].rating >= 4
    ensures SortedDesc(shown, Rating)
  {
    var kept := Filter(reviews, IsPopular);
    var shown := SortDesc(kept, Rating);
    assert forall i :: 0 <= i < |shown| ==> shown[i].rating >= 4 by {
      forall i | 0 <= i < |shown| ensures shown[i].rating >= 4 {
        assert shown[i] in multiset(kept);
        var j :| 0 <= j < |kept| && kept[j] == shown[i];
        assert IsPopular(kept[j]);
      }
    }
    shown
  }

  /** The popular list holds exactly the reviews rated 4 or more, each as
      often as in the response. */
  lemma {:induction false} PopularIsExactlyHighRated(reviews: seq<Review>)
    ensures forall r :: multiset(Popular(reviews))[r] == if r.rating >= 4 then multiset(reviews)[r] else 0
  {
    FilterCount(reviews, IsPopular);
  }

  /** Nothing is shown after a fetch exactly when no review is rated 4 or more. */
  lemma {:induction false} EmptyIffNoHighRating(reviews: seq<Review>)
    ensures Popular(reviews) == [] <==> forall i :: 0 <= i < |reviews| ==> reviews[i].rating < 4
  {
    PopularIsExactlyHighRated(reviews);
    if Popular(reviews) == [] {
      forall i | 0 <= i < |reviews| ensures reviews[i].rating < 4 {
        assert reviews[i] in multiset(reviews);
        assert multiset(Popular(reviews))[reviews[i]] == 0;
      }
    } else {
      var r := Popular(reviews)[0];
      assert r in multiset(Popular(reviews));
      assert r in multiset(reviews);
      var i :| 0 <= i < |reviews| && reviews[i] == r;
      assert reviews[i].rating >= 4;
    }
  }

  /** Stored reviews are reused without a request for fifteen minutes
      after they were fetched, and only for fifteen minutes. */
  lemma {:induction false} FeedbackReusedForFifteenMinutes(
    popular: seq<Review>, t: int, now: int, response: Ttl.Response<seq<Review>>, storedAt: int)
    requires t != 0 && t <= now
    ensures !Ttl.ReadThrough(Ttl.Entry(Some(popular), Some(t)), now, FeedbackMaxAge, false, response, storedAt).requested
      <==> now < t + 900000
  {
    var e := Ttl.Entry(Some(popular), Some(t));
    if now < t + 900000 {
      assert Ttl.Servable(e, now, FeedbackMaxAge, false);
    } else {
      Ttl.ExpiredIsRefetched(popular, t, now, FeedbackMaxAge, response, storedAt);
    }
  }

  /** What the component renders. */
  datatype View = Spinner | ErrorText(message: string) | NoReviews | Slider(reviews: seq<Review>)

  /** The render order: loading first, then the error, then the empty
      message, then the slider of reviews. */
  function SelectView(isLoading: bool, error: Option<string>, feedback: seq<Review>): (v: View)
    ensures v.Slider? ==> v.reviews == feedback && feedback != []
    ensures isLoading <==> v == Spinner
    ensures v.ErrorText? <==> !isLoading && error.Some? && error.value != ""
    ensures v == NoReviews <==> !isLoading && (error.None? || error.value == "") && feedback == []
  {
    if isLoading then Spinner
    else if error.Some? && error.value != "" then ErrorText(error.value)
    else if |feedback| == 0 then NoReviews
    else Slider(feedback)
  }

  /** The component's state with its module-level cache. */
  class FeedbackView {
    var cacheData: Option<seq<Review>>
    var cacheTimestamp: Option<int>
    const maxAge: int
    var customerFeedback: seq<Review>
    var isLoading: bool
    var error: Option<string>

    function Entry(): Ttl.Entry<seq<Review>>
      reads this
    {
      Ttl.Entry(cacheData, cacheTimestamp)
    }

    /** The first render: empty cache, loading, no error, no reviews. */
    constructor ()
      ensures Entry() == Ttl.EmptyEntry() && maxAge == FeedbackMaxAge
      ensures customerFeedback == [] && isLoading && error.None?
    {
      cacheData, cacheTimestamp := None, None;
      maxAge := FeedbackMaxAge;
      customerFeedback, isLoading, error := [], true, None;
    }

    /** `fetchCustomerFeedback(forceRefresh)` at time `now`; `response` is the
        list the request delivers, or `None` when it fails, and `storedAt`
        the time it arrives. A fresh entry is shown without a request. A
        successful request caches and shows the popular part of the list
        with the arrival time; a failure sets `error` and leaves the cache
        and the list as they were. */
    method FetchCustomerFeedback(now: int, forceRefresh: bool, response: Option<seq<Review>>, storedAt: int)
      returns (requested: bool)
      modifies this
      ensures var fetched := match response
                case Some(list) => Ttl.Fetched(Popular(list))
                case None => Ttl.Failed(LoadError);
        var l := Ttl.ReadThrough(old(Entry()), now, maxAge, forceRefresh, fetched, storedAt);
        && requested == l.requested
        && Entry() == l.entry
        && customerFeedback == (if l.answer.Value? then l.answer.value else old(customerFeedback))
        && error == (if !requested then old(error) else if response.None? then Some(LoadError) else None)
      ensures !isLoading
    {
      if !forceRefresh && cacheData.Some? && cacheTimestamp.Some? && cacheTimestamp.value != 0
         && now - cacheTimestamp.value < maxAge {
        customerFeedback := cacheData.value;
        isLoading := false;
        return false;
      }
      requested := true;
      isLoading := true;
      error := None;
      match response {
        case Some(list) =>
          var popular := Popular(list);
          cacheData := Some(popular);
          cacheTimestamp := Some(storedAt);
          customerFeedback := popular;
        case None =>
          error := Some(LoadError);
      }
      isLoading := false;
    }
  }

  /** Right after a successful fetch the slider shows the popular reviews,
      unless there are none, and a failed fetch shows the error text. */
  lemma ViewAfterFetch(reviews: seq<Review>)
    ensures SelectView(false, None, Popular(reviews)) == if Popular(reviews) == [] then NoReviews else Slider(Popular(reviews))
    ensures SelectView(false, Some(LoadError), reviews) == ErrorText(LoadError)
  {
  }
}
