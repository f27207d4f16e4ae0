/** A client of the backend's handler contracts: what two signups with the
    same invite token do. */
module AuthScenario {
  import opened Wrappers
  import opened Strings
  import opened Auth

  /** An invite token is not consumed: two signups presenting it are both
      admitted, and it is still the dataset's invite token afterwards. */
  method InviteTokenIsReusable(server: AuthServer, first: string, second: string, password: string,
                               invite: string, token1: string, token2: string)
    returns (r1: Response, r2: Response)
    requires server.Valid() && server.main.rows != [] && server.mainInvite == Some(invite) && invite != ""
    requires first != "" && Trim(first) == first && second != "" && Trim(second) == second
    requires password != "" && Trim(password) == password
    modifies server
    ensures r1.Reply? && r1.status == 200 && r2.Reply? && r2.status == 200
    ensures server.mainInvite == Some(invite)
    ensures |server.main.rows| == |old(server.main.rows)| + 2
  {
    r1 := server.Signup(Some(first), Some(first), Some(password), Some(invite), Some("mainPool"), token1);
    r2 := server.Signup(Some(second), Some(second), Some(password), Some(invite), Some("mainPool"), token2);
  }
}
