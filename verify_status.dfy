/** The stand-alone verifyStatus middleware: a user passes only with a complete profile
    (full name, address and last education all truthy), with the token verified under SECRET. */
module VerifyStatusMiddleware {
  import opened Common
  import opened Tables
  import TraineeController

  /** The three profile columns the gate requires. */
  predicate ProfileComplete(u: User) {
    Truthy(u.Field("fullName")) && Truthy(u.Field("address")) && Truthy(u.Field("lastEdu"))
  }

  function VerifyStatus(header: Option<string>, verify: Verifier, users: map<Id, User>): (g: Gate<User>)
    ensures g.Halt? ==> g.status in {401, 403, 404}
    ensures g == Halt(401) <==> VerifiedId(header, verify, EnvSecret).None?
    ensures g == Halt(404) <==> VerifiedId(header, verify, EnvSecret).Some? && VerifiedId(header, verify, EnvSecret).value !in users
    ensures g == Halt(403) <==>
              && VerifiedId(header, verify, EnvSecret).Some?
              && VerifiedId(header, verify, EnvSecret).value in users
              && !ProfileComplete(users[VerifiedId(header, verify, EnvSecret).value])
    ensures g.Next? ==>
              var id := VerifiedId(header, verify, EnvSecret);
              id.Some? && id.value in users && g.attached == users[id.value] && ProfileComplete(g.attached)
  {
    match VerifiedId(header, verify, EnvSecret)
    case None => Halt(401)
    case Some(id) =>
      if id !in users then Halt(404)
      else if !ProfileComplete(users[id]) then Halt(403)
      else Next(users[id])
  }

  /** The gate does not read the status column: what it requires is what the verification
      form writes. A user whose form carried non-empty fullName, address and lastEdu has a
      complete profile afterwards, whatever was stored before. */
  lemma VerificationFormCompletesProfile(u: User, form: map<string, string>)
    requires "fullName" in form && "address" in form && "lastEdu" in form
    requires form["fullName"] != "" && form["address"] != "" && form["lastEdu"] != ""
    ensures ProfileComplete(u.(profile := TraineeController.ApplyForm(u.profile, form), userstatus := VERIFIED))
  {
    assert "fullName" in TraineeController.ProfileFields();
    assert "address" in TraineeController.ProfileFields();
    assert "lastEdu" in TraineeController.ProfileFields();
  }

  /** A VERIFIED status is no pass: a user whose profile lacks one of the three columns is
      refused whatever its status. */
  lemma StatusIsNotConsulted(header: Option<string>, verify: Verifier, users: map<Id, User>, id: Id)
    requires VerifiedId(header, verify, EnvSecret) == Some(id) && id in users
    requires users[id].userstatus == VERIFIED && users[id].Field("lastEdu").None?
    ensures VerifyStatus(header, verify, users) == Halt(403)
  {
  }
}
