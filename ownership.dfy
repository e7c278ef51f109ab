/** `controllers/helper/auth.ts`: the owner check the user-data and review handlers share. */
module Ownership {
  import opened Wrappers
  import opened Records
  import opened Http

  /**
   * `verifyOwnership`: true iff the signed-in user's id equals the target id (`NaN`, here `None`,
   * equals nothing); on false it sends 403 and on true it sends nothing. `req.user` must be set,
   * as the source reads `user.id` without a check.
   */
  method VerifyOwnership(req: Request, res: Reply, targetUserId: Option<int>) returns (owns: bool)
    requires req.user.Some?
    modifies res
    ensures owns <==> targetUserId == Some(req.user.value.id)
    ensures owns ==> res.sent == old(res.sent)
    ensures !owns ==> res.sent == old(res.sent) + [Response(403, Message("Forbidden: Access denied"))]
    ensures res.cookies == old(res.cookies)
  {
    var user := req.user.value;
    if targetUserId.None? || user.id != targetUserId.value {
      res.Send(403, Message("Forbidden: Access denied"));
      return false;
    }
    return true;
  }
}
