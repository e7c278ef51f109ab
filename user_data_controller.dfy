/**
 * `userDataController.ts`. Path ids arrive through `Number(id)`: `None` stands for `NaN`. The path
 * id is used both as the owner's user id and as the `user_data` row id.
 */
module UserDataController {
  import opened Wrappers
  import opened Seqs
  import opened Records
  import opened Http
  import opened UserDataModel
  import opened Ownership

  /**
   * `getUserDataById`: a caller whose id is not the path id gets 403 and nothing is read; the
   * owner gets 404 for a missing row and otherwise 200 with the decoded row.
   */
  method GetUserDataById(table: UserDataTable, req: Request, pathId: Option<int>, res: Reply)
    requires req.user.Some?
    modifies res
    ensures pathId != Some(req.user.value.id) ==> res.sent == old(res.sent) + [Response(403, Message("Forbidden: Access denied"))]
    ensures pathId == Some(req.user.value.id) ==> res.sent == old(res.sent) + [
              match table.GetUserDataById(pathId.value)
              case None => Response(404, Message("User data not found"))
              case Some(d) => Response(200, UserDataItem(d))]
    ensures res.cookies == old(res.cookies)
  {
    var owns := VerifyOwnership(req, res, pathId);
    if !owns {
      return;
    }
    var userData := table.GetUserDataById(pathId.value);
    if userData.None? {
      res.Send(404, Message("User data not found"));
    } else {
      res.Send(200, UserDataItem(userData.value));
    }
  }

  /** `updateUserData`: a non-owner gets 403 and the table is untouched; the owner's write is followed by 200. */
  method UpdateUserData(table: UserDataTable, req: Request, pathId: Option<int>, updates: UserDataInput, res: Reply)
    requires req.user.Some? && table.Valid()
    modifies table, res
    ensures table.Valid()
    ensures pathId != Some(req.user.value.id) ==>
              && res.sent == old(res.sent) + [Response(403, Message("Forbidden: Access denied"))]
              && table.rows == old(table.rows)
    ensures pathId == Some(req.user.value.id) ==>
              && res.sent == old(res.sent) + [Response(200, Message("User data updated successfully"))]
              && table.rows == UpdateWhere(old(table.rows), RowHasId(pathId.value), Rewrite(updates))
    ensures table.nextId == old(table.nextId) && res.cookies == old(res.cookies)
  {
    var owns := VerifyOwnership(req, res, pathId);
    if !owns {
      return;
    }
    table.UpdateUserData(pathId.value, updates);
    res.Send(200, Message("User data updated successfully"));
  }

  /**
   * `getRecommendations` up to the call into the recommendation service, which enters as
   * `recommend`: 403 for a non-owner; for the owner a missing row is thrown and ends as 500, not
   * 404; otherwise 200 with what the service returns.
   */
  method GetRecommendations(table: UserDataTable, req: Request, pathId: Option<int>, recommend: int -> string, res: Reply)
    requires req.user.Some?
    modifies res
    ensures pathId != Some(req.user.value.id) ==> res.sent == old(res.sent) + [Response(403, Message("Forbidden: Access denied"))]
    ensures pathId == Some(req.user.value.id) ==> res.sent == old(res.sent) + [
              if table.GetUserDataById(pathId.value).None?
              then Response(500, Message("Error fetching recommendations"))
              else Response(200, Recommendations(recommend(pathId.value)))]
    ensures res.cookies == old(res.cookies)
  {
    var owns := VerifyOwnership(req, res, pathId);
    if !owns {
      return;
    }
    var userId := pathId.value;
    var found := exists i | 0 <= i < |table.rows| :: table.rows[i].id == userId;
    if !found {
      res.Send(500, Message("Error fetching recommendations"));
      return;
    }
    res.Send(200, Recommendations(recommend(userId)));
  }

  /** `createUserData`: insert and answer 201 with the new row's id; no ownership check. */
  method CreateUserData(table: UserDataTable, body: UserDataInput, res: Reply)
    requires table.Valid()
    modifies table, res
    ensures table.Valid()
    ensures table.rows == old(table.rows) + [StoredRow(old(table.nextId), body)] && table.nextId == old(table.nextId) + 1
    ensures res.sent == old(res.sent) + [Response(201, MessageWithId("User data created successfully", old(table.nextId)))]
    ensures res.cookies == old(res.cookies)
  {
    var userDataId := table.CreateUserData(body);
    res.Send(201, MessageWithId("User data created successfully", userDataId));
  }

  /**
   * `deleteUserData`: no ownership check, so any caller deletes any id and gets 200. A `NaN` id
   * makes the statement `... WHERE id = NaN`, which the database rejects: 500 and nothing deleted.
   */
  method DeleteUserData(table: UserDataTable, pathId: Option<int>, res: Reply)
    requires table.Valid()
    modifies table, res
    ensures table.Valid()
    ensures pathId.None? ==>
              res.sent == old(res.sent) + [Response(500, Message("Error deleting user data"))] && table.rows == old(table.rows)
    ensures pathId.Some? ==>
              && res.sent == old(res.sent) + [Response(200, Message("User data deleted successfully"))]
              && table.rows == Filter(old(table.rows), RowNotId(pathId.value))
    ensures table.nextId == old(table.nextId) && res.cookies == old(res.cookies)
  {
    if pathId.None? {
      res.Send(500, Message("Error deleting user data"));
      return;
    }
    table.DeleteUserData(pathId.value);
    res.Send(200, Message("User data deleted successfully"));
  }

  /**
   * `fetchUserData`: no ownership check; 404 for a missing row, 200 with the decoded row otherwise.
   * For a `NaN` id the model's query fails, which `getUserDataById` turns into null: 404.
   */
  method FetchUserData(table: UserDataTable, pathId: Option<int>, res: Reply)
    modifies res
    ensures res.sent == old(res.sent) + [
              if pathId.None? then Response(404, Message("User data not found"))
              else match table.GetUserDataById(pathId.value)
                   case None => Response(404, Message("User data not found"))
                   case Some(d) => Response(200, UserDataItem(d))]
    ensures res.cookies == old(res.cookies)
  {
    var userData := if pathId.None? then None else table.GetUserDataById(pathId.value);
    if userData.None? {
      res.Send(404, Message("User data not found"));
    } else {
      res.Send(200, UserDataItem(userData.value));
    }
  }
}
