/**
 * `reviewController.ts`. Path ids arrive through `Number(id)`: `None` stands for `NaN`, which the
 * database rejects inside `... WHERE review_id = NaN`, so those requests end in the handler's 500.
 */
module ReviewController {
  import opened Wrappers
  import opened Seqs
  import opened Records
  import opened Http
  import opened ReviewModel
  import opened Ownership

  /** The fields `createReview` reads from the body. */
  datatype ReviewBody = ReviewBody(gameId: Option<int>, rating: Option<int>, reviewText: Option<string>)

  /** JavaScript truthiness of the body fields: absent, `0` and `''` are all false. */
  predicate Complete(b: ReviewBody) {
    && b.gameId.Some? && b.gameId.value != 0
    && b.rating.Some? && b.rating.value != 0
    && b.reviewText.Some? && b.reviewText.value != ""
  }

  /**
   * The guards of `createReview`: no signed-in user id gives 401 before the body is looked at, an
   * incomplete body gives 400; `None` means the review is stored.
   */
  function CreateRefusal(user: Option<UserRow>, body: ReviewBody): (r: Option<Response>)
    ensures r.None? <==> user.Some? && user.value.id != 0 && Complete(body)
    ensures user.None? ==> r == Some(Response(401, Message("Unauthorized: Please sign in to create a review")))
    ensures r.Some? ==> r.value.status == 401 || r.value.status == 400
  {
    if user.None? || user.value.id == 0 then
      Some(Response(401, Message("Unauthorized: Please sign in to create a review")))
    else if !Complete(body) then
      Some(Response(400, Message("Missing required fields: game_id, rating, or review_text")))
    else None
  }

  /** A rating of 0 is refused like a missing one, even from a signed-in user. */
  lemma ZeroRatingRefused(user: UserRow, gameId: int, text: string)
    requires user.id != 0
    ensures CreateRefusal(Some(user), ReviewBody(Some(gameId), Some(0), Some(text)))
            == Some(Response(400, Message("Missing required fields: game_id, rating, or review_text")))
  {
  }

  /**
   * `createReview`: after the guards, the row stores the signed-in user's id (never one from the
   * body) and the answer is 201 with the new id.
   */
  method CreateReview(table: ReviewTable, req: Request, body: ReviewBody, res: Reply)
    requires table.Valid()
    modifies table, res
    ensures table.Valid()
    ensures CreateRefusal(req.user, body).Some? ==>
              res.sent == old(res.sent) + [CreateRefusal(req.user, body).value]
              && table.rows == old(table.rows) && table.nextId == old(table.nextId)
    ensures CreateRefusal(req.user, body).None? ==>
              && table.rows == old(table.rows) + [ReviewRow(old(table.nextId), req.user.value.id, body.gameId.value,
                                                           body.rating.value, body.reviewText.value)]
              && res.sent == old(res.sent) + [Response(201, MessageWithId("Review created successfully", old(table.nextId)))]
    ensures res.cookies == old(res.cookies)
  {
    var user := req.user;
    var refusal := CreateRefusal(user, body);
    if user.None? || user.value.id == 0 {
      res.Send(401, Message("Unauthorized: Please sign in to create a review"));
      return;
    }
    var userId := user.value.id;
    if body.gameId.None? || body.gameId.value == 0 || body.rating.None? || body.rating.value == 0
       || body.reviewText.None? || body.reviewText.value == "" {
      assert !Complete(body);
      res.Send(400, Message("Missing required fields: game_id, rating, or review_text"));
      return;
    }
    assert refusal.None?;
    var reviewId := table.CreateReview(userId, body.gameId.value, body.rating.value, body.reviewText.value);
    res.Send(201, MessageWithId("Review created successfully", reviewId));
  }

  /** `getReviewById`: 404 when absent, 200 with the row otherwise. */
  method GetReviewById(table: ReviewTable, pathId: Option<int>, res: Reply)
    modifies res
    ensures res.sent == old(res.sent) + [
              if pathId.None? then Response(500, Message("Error fetching review"))
              else match table.GetReviewById(pathId.value)
                   case None => Response(404, Message("Review not found"))
                   case Some(r) => Response(200, ReviewItem(r))]
    ensures res.cookies == old(res.cookies)
  {
    if pathId.None? {
      res.Send(500, Message("Error fetching review"));
      return;
    }
    var review := table.GetReviewById(pathId.value);
    if review.None? {
      res.Send(404, Message("Review not found"));
    } else {
      res.Send(200, ReviewItem(review.value));
    }
  }

  /** `getReviewByGameId`: 404 when the game has no reviews, 200 with all of them otherwise. */
  method GetReviewByGameId(table: ReviewTable, gameId: Option<int>, res: Reply)
    modifies res
    ensures gameId.None? ==> res.sent == old(res.sent) + [Response(500, Message("Error fetching reviews"))]
    ensures gameId.Some? ==> res.sent == old(res.sent) + [
              if table.GetReviewByGameId(gameId.value) == [] then Response(404, Message("No reviews found for this game"))
              else Response(200, ReviewList(table.GetReviewByGameId(gameId.value)))]
    ensures res.cookies == old(res.cookies)
  {
    if gameId.None? {
      res.Send(500, Message("Error fetching reviews"));
      return;
    }
    var reviews := table.GetReviewByGameId(gameId.value);
    if |reviews| == 0 {
      res.Send(404, Message("No reviews found for this game"));
    } else {
      res.Send(200, ReviewList(reviews));
    }
  }

  /**
   * The guards `updateReview` and `deleteReview` share: a missing review is 404 before any
   * ownership question, then a caller who did not write it gets 403; `None` lets the change through.
   */
  function OwnerRefusal(review: Option<ReviewRow>, caller: UserRow): (r: Option<Response>)
    ensures r.None? <==> review.Some? && review.value.userId == caller.id
    ensures review.None? ==> r == Some(Response(404, Message("Review not found")))
    ensures review.Some? && r.Some? ==> r == Some(Response(403, Message("Forbidden: Access denied")))
  {
    if review.None? then Some(Response(404, Message("Review not found")))
    else if review.value.userId != caller.id then Some(Response(403, Message("Forbidden: Access denied")))
    else None
  }

  /** Only the author of an existing review gets past the guards. */
  lemma OwnerRefusalOnTable(table: ReviewTable, reviewId: int, caller: UserRow)
    requires table.Valid()
    ensures OwnerRefusal(table.GetReviewById(reviewId), caller).None? <==>
              exists i :: 0 <= i < |table.rows| && table.rows[i].reviewId == reviewId && table.rows[i].userId == caller.id
  {
    var found := table.GetReviewById(reviewId);
    if found.Some? {
      var i :| 0 <= i < |table.rows| && table.rows[i] == found.value && HasReviewId(reviewId)(table.rows[i]);
      forall j | 0 <= j < |table.rows| && table.rows[j].reviewId == reviewId
        ensures table.rows[j] == found.value
      {
        table.GetReviewByIdFindsRow(j);
        table.GetReviewByIdFindsRow(i);
      }
    }
  }

  /**
   * `updateReview`: 404, then 403, and the table unchanged on both; the owner's body goes to the
   * model unfiltered and the answer is 200, or 500 when the body is empty or names a key that is
   * no column.
   */
  method UpdateReview(table: ReviewTable, req: Request, pathId: Option<int>, body: seq<ReviewField>, res: Reply)
    requires req.user.Some? && table.Valid()
    modifies table, res
    ensures table.Valid() && table.nextId == old(table.nextId)
    ensures pathId.None? ==>
              res.sent == old(res.sent) + [Response(500, Message("Error updating review"))] && table.rows == old(table.rows)
    ensures pathId.Some? && OwnerRefusal(old(table.GetReviewById(pathId.value)), req.user.value).Some? ==>
              && res.sent == old(res.sent) + [OwnerRefusal(old(table.GetReviewById(pathId.value)), req.user.value).value]
              && table.rows == old(table.rows)
    ensures pathId.Some? && OwnerRefusal(old(table.GetReviewById(pathId.value)), req.user.value).None? ==>
              if body == [] || !KnownKeys(body) then
                res.sent == old(res.sent) + [Response(500, Message("Error updating review"))] && table.rows == old(table.rows)
              else
                && res.sent == old(res.sent) + [Response(200, Message("Review updated successfully"))]
                && table.rows == UpdateWhere(old(table.rows), HasReviewId(pathId.value), Updater(body))
    ensures res.cookies == old(res.cookies)
  {
    if pathId.None? {
      res.Send(500, Message("Error updating review"));
      return;
    }
    var reviewId := pathId.value;
    var review := table.GetReviewById(reviewId);
    if review.None? {
      res.Send(404, Message("Review not found"));
      return;
    }
    var owns := VerifyOwnership(req, res, Some(review.value.userId));
    if !owns {
      return;
    }
    var accepted := table.UpdateReview(reviewId, body);
    if !accepted {
      res.Send(500, Message("Error updating review"));
      return;
    }
    res.Send(200, Message("Review updated successfully"));
  }

  /** `deleteReview`: 404, then 403, and the table unchanged on both; the owner's delete answers 200. */
  method DeleteReview(table: ReviewTable, req: Request, pathId: Option<int>, res: Reply)
    requires req.user.Some? && table.Valid()
    modifies table, res
    ensures table.Valid() && table.nextId == old(table.nextId)
    ensures pathId.None? ==>
              res.sent == old(res.sent) + [Response(500, Message("Error deleting review"))] && table.rows == old(table.rows)
    ensures pathId.Some? && OwnerRefusal(old(table.GetReviewById(pathId.value)), req.user.value).Some? ==>
              && res.sent == old(res.sent) + [OwnerRefusal(old(table.GetReviewById(pathId.value)), req.user.value).value]
              && table.rows == old(table.rows)
    ensures pathId.Some? && OwnerRefusal(old(table.GetReviewById(pathId.value)), req.user.value).None? ==>
              && res.sent == old(res.sent) + [Response(200, Message("Review deleted successfully"))]
              && table.rows == Filter(old(table.rows), NotReviewId(pathId.value))
    ensures res.cookies == old(res.cookies)
  {
    if pathId.None? {
      res.Send(500, Message("Error deleting review"));
      return;
    }
    var reviewId := pathId.value;
    var review := table.GetReviewById(reviewId);
    if review.None? {
      res.Send(404, Message("Review not found"));
      return;
    }
    var owns := VerifyOwnership(req, res, Some(review.value.userId));
    if !owns {
      return;
    }
    table.DeleteReview(reviewId);
    res.Send(200, Message("Review deleted successfully"));
  }
}
