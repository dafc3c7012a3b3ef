/** The recruiter's applicant table: the list fetched from the applicants
    endpoint, the local status update after an Accept or Reject, and which
    rows still offer those two actions. */
module ViewApplications {
  import opened Collections
  import opened ClientData

  const Pending := "Pending"
  const Accepted := "Accepted"
  const Rejected := "Rejected"

  /** `prev.map(app => app._id === id ? { ...app, status } : app)`. */
  function WithStatus(apps: seq<Applicant>, id: string, status: string): (r: seq<Applicant>)
    ensures |r| == |apps|
    ensures forall i :: 0 <= i < |apps| && apps[i].id == id ==> r[i] == apps[i].(status := status)
    ensures forall i :: 0 <= i < |apps| && apps[i].id != id ==> r[i] == apps[i]
  {
    if apps == [] then []
    else [if apps[0].id == id then apps[0].(status := status) else apps[0]] + WithStatus(apps[1..], id, status)
  }

  /** A second update of the same id overrides the first. */
  lemma {:induction false} LastStatusWins(apps: seq<Applicant>, id: string, first: string, second: string)
    ensures WithStatus(WithStatus(apps, id, first), id, second) == WithStatus(apps, id, second)
  {
    var l, r := WithStatus(WithStatus(apps, id, first), id, second), WithStatus(apps, id, second);
    assert |l| == |r|;
    forall i | 0 <= i < |l| ensures l[i] == r[i] {
      assert WithStatus(apps, id, first)[i].id == apps[i].id;
    }
  }

  /** Accept and Reject buttons are rendered only on pending rows; every
      other row shows its status as a badge. */
  predicate OffersActions(app: Applicant)
  {
    app.status == Pending
  }

  /** Decisions made through the buttons never send a row back to
      "Pending": after an Accept or Reject, a row that was decided is still
      decided. */
  lemma {:induction false} DecisionsAreFinal(apps: seq<Applicant>, id: string, status: string)
    requires status == Accepted || status == Rejected
    ensures forall i :: 0 <= i < |apps| && !OffersActions(apps[i]) ==> !OffersActions(WithStatus(apps, id, status)[i])
  {
    var r := WithStatus(apps, id, status);
    forall i | 0 <= i < |apps| && !OffersActions(apps[i]) ensures !OffersActions(r[i]) {
      if apps[i].id == id {
        assert r[i].status == status;
      }
    }
  }

  /** The applicants endpoint's answer: `Fetched(success, jobApplicants)`,
      or a request that threw. */
  datatype FetchResult = Fetched(success: bool, applicants: Option<seq<Applicant>>) | FetchFailed

  /** The change-status endpoint's answer, or a request that threw. */
  datatype StatusResult = Answered(success: bool, message: string) | StatusFailed

  /** The table's state. */
  class ApplicantsView {
    var applicationData: seq<Applicant>
    var loading: bool

    constructor ()
      ensures applicationData == [] && loading
    {
      applicationData := [];
      loading := true;
    }

    /** `viewApplicationsFetchData`: a successful answer replaces the list
        (with the empty list when it carries none); an unsuccessful answer
        or a failed request keeps the previous list. Loading is over in
        every case. */
    method FetchData(result: FetchResult)
      modifies this
      ensures !loading
      ensures result.Fetched? && result.success && result.applicants.Some? ==> applicationData == result.applicants.value
      ensures result.Fetched? && result.success && result.applicants.None? ==> applicationData == []
      ensures !(result.Fetched? && result.success) ==> applicationData == old(applicationData)
    {
      loading := true;
      if result.Fetched? && result.success {
        applicationData := match result.applicants
          case Some(list) => list
          case None => [];
      }
      loading := false;
    }

    /** `changeApplicationStatus(id, status)`: only a successful answer
        updates the rows carrying `id`, in place and in order; otherwise
        nothing changes. */
    method ChangeStatus(id: string, status: string, result: StatusResult)
      modifies this`applicationData
      ensures result.Answered? && result.success ==> applicationData == WithStatus(old(applicationData), id, status)
      ensures !(result.Answered? && result.success) ==> applicationData == old(applicationData)
    {
      if result.Answered? && result.success {
        applicationData := WithStatus(applicationData, id, status);
      }
    }
  }
}
