/** The job-seeker controllers. The caller's user id is the identity
    provider's id the authentication middleware attached to the request;
    `now` is the clock and `resumeUrl` the URL the media host returns for an
    uploaded file (`None` when the request carried no file). */
module UserController {
  import opened Collections
  import opened Store

  datatype UserDataResult = UserDataResult(reply: Reply, user: Option<User>)

  /** `getUserData`: the caller's profile, or 404 when the identity
      provider has not created it (yet). */
  function GetUserData(users: map<string, User>, userId: string): (r: UserDataResult)
    ensures r.reply.success <==> userId in users
    ensures userId !in users ==> r.reply == Reply(404, false, "User not found") && r.user.None?
    ensures userId in users ==> r.reply == Reply(200, true, "User data") && r.user == Some(users[userId])
  {
    if userId in users then UserDataResult(Reply(200, true, "User data"), Some(users[userId]))
    else UserDataResult(Reply(404, false, "User not found"), None)
  }

  function ByPair(userId: string, jobId: Id): Application -> bool
  {
    (a: Application) => a.userId == userId && a.jobId == jobId
  }

  /** `JobApplication.find({ userId, jobId }).length`. */
  function ApplicationCount(applications: seq<Application>, userId: string, jobId: Id): (n: nat)
    ensures n == 0 <==> forall a :: a in applications ==> !(a.userId == userId && a.jobId == jobId)
  {
    var found := Filter(applications, ByPair(userId, jobId));
    assert found != [] ==> found[0] in found;
    |found|
  }

  predicate IsJob(jobs: seq<Job>, jobId: Id)
  {
    exists k :: 0 <= k < |jobs| && jobs[k].id == jobId
  }

  /** `applyForJob`: an earlier application by the same user to the same
      posting is refused first (400), then the posting must exist (404);
      then one pending application is added, carrying the posting's
      company. */
  method ApplyForJob(st: Store, userId: string, jobId: Id, now: int) returns (reply: Reply)
    requires st.Valid()
    modifies st`applications, st`nextId
    ensures st.Valid()
    ensures ApplicationCount(old(st.applications), userId, jobId) > 0 ==>
      reply == Reply(400, false, "You have already applied for this job")
    ensures ApplicationCount(old(st.applications), userId, jobId) == 0 && !IsJob(st.jobs, jobId) ==>
      reply == Reply(404, false, "Job not found")
    ensures reply.success <==> ApplicationCount(old(st.applications), userId, jobId) == 0 && IsJob(st.jobs, jobId)
    ensures reply.success ==>
      reply == Reply(200, true, "Job applied successfully")
      && exists k :: (0 <= k < |st.jobs| && st.jobs[k].id == jobId
                      && st.applications == old(st.applications)
                         + [Application(old(st.nextId), userId, jobId, st.jobs[k].companyId, PendingStatus, now)])
    ensures !reply.success ==> st.applications == old(st.applications) && st.nextId == old(st.nextId)
  {
    if ApplicationCount(st.applications, userId, jobId) > 0 {
      return Reply(400, false, "You have already applied for this job");
    }
    match IndexOf(st.jobs, (j: Job) => j.id == jobId) {
      case None =>
        reply := Reply(404, false, "Job not found");
      case Some(k) =>
        var application := Application(st.nextId, userId, jobId, st.jobs[k].companyId, PendingStatus, now);
        assert IsJobOf(st.jobs, jobId, st.jobs[k].companyId);
        ApplicationAppended(st.applications, st.jobs, st.nextId, application);
        st.applications := st.applications + [application];
        st.nextId := st.nextId + 1;
        reply := Reply(200, true, "Job applied successfully");
    }
  }

  /** No two applications share a user and a posting. */
  predicate PairsDistinct(applications: seq<Application>)
  {
    forall i, j :: 0 <= i < j < |applications| ==>
      applications[i].userId != applications[j].userId || applications[i].jobId != applications[j].jobId
  }

  /** Appending a pending application for a listed posting, under the next
      id and for a pair not seen yet, keeps the applications valid. */
  lemma ApplicationAppended(applications: seq<Application>, jobs: seq<Job>, nextId: Id, application: Application)
    requires ApplicationsValid(applications, jobs, nextId)
    requires application.id == nextId && IsJobOf(jobs, application.jobId, application.companyId)
    requires ApplicationCount(applications, application.userId, application.jobId) == 0
    ensures ApplicationsValid(applications + [application], jobs, nextId + 1)
  {
    var s := applications + [application];
    forall i, j | 0 <= i < j < |s|
      ensures s[i].id != s[j].id && (s[i].userId != s[j].userId || s[i].jobId != s[j].jobId)
    {
      if j == |applications| {
        assert s[i] in applications;
      }
    }
  }

  lemma {:induction false} PairAtMostOnce(applications: seq<Application>, userId: string, jobId: Id)
    requires PairsDistinct(applications)
    ensures ApplicationCount(applications, userId, jobId) <= 1
  {
    if applications != [] {
      var rest := applications[1..];
      assert PairsDistinct(rest) by {
        forall i, j | 0 <= i < j < |rest|
          ensures rest[i].userId != rest[j].userId || rest[i].jobId != rest[j].jobId
        {
          assert rest[i] == applications[i + 1] && rest[j] == applications[j + 1];
        }
      }
      PairAtMostOnce(rest, userId, jobId);
      assert applications == [applications[0]] + rest;
      FilterAppend([applications[0]], rest, ByPair(userId, jobId));
      if ByPair(userId, jobId)(applications[0]) {
        forall a | a in rest ensures !(a.userId == userId && a.jobId == jobId) {
          var m :| 0 <= m < |rest| && rest[m] == a;
          assert applications[m + 1] == a;
        }
        assert ApplicationCount(rest, userId, jobId) == 0;
      }
    }
  }

  /** In every valid store a user holds at most one application per
      posting, however many requests were made. */
  lemma AtMostOneApplication(applications: seq<Application>, jobs: seq<Job>, nextId: Id, userId: string, jobId: Id)
    requires ApplicationsValid(applications, jobs, nextId)
    ensures ApplicationCount(applications, userId, jobId) <= 1
  {
    PairAtMostOnce(applications, userId, jobId);
  }

  function ByUser(userId: string): Application -> bool
  {
    (a: Application) => a.userId == userId
  }

  /** `getUserApplication`: the caller's applications, in store order
      (applications are distinct, their ids being unique, so membership
      together with the subsequence clause fixes the list). The
      query always yields a list, so the answer is always a success. */
  function UserApplications(applications: seq<Application>, userId: string): (r: seq<Application>)
    ensures forall a :: a in r <==> a in applications && a.userId == userId
    ensures IsSubsequence(r, applications)
  {
    Filter(applications, ByUser(userId))
  }

  /** `updateUserResume`: a file is required (400); for a caller without a
      profile the update throws and the answer is the generic failure (500);
      otherwise only the resume of the caller's profile changes. */
  method UpdateUserResume(st: Store, userId: string, resumeUrl: Option<string>) returns (reply: Reply)
    modifies st`users
    ensures resumeUrl.None? ==> reply == Reply(400, false, "Resume file is required")
    ensures resumeUrl.Some? && userId !in old(st.users) ==> reply == Reply(500, false, "Resume update failed")
    ensures reply.success <==> resumeUrl.Some? && userId in old(st.users)
    ensures reply.success ==>
      reply == Reply(200, true, "Resume updated successfully")
      && st.users == old(st.users)[userId := old(st.users)[userId].(resume := resumeUrl.value)]
    ensures !reply.success ==> st.users == old(st.users)
  {
    if resumeUrl.None? {
      return Reply(400, false, "Resume file is required");
    }
    if userId !in st.users {
      return Reply(500, false, "Resume update failed");
    }
    st.users := st.users[userId := st.users[userId].(resume := resumeUrl.value)];
    reply := Reply(200, true, "Resume updated successfully");
  }
}
