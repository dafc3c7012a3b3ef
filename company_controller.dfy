/** The recruiter-facing controllers. Each one checks its inputs in a fixed
    order, answers the first failed check with its own status and message,
    and otherwise makes at most one change to the store.

    Foreign calls are inputs: `hashed` is the password hash bcrypt would
    produce, `logo` the URL the media host returns for the uploaded logo,
    `matches` the hash comparison, `now` the clock. The caller's company id
    is the one the authentication middleware resolved from the token. */
module CompanyController {
  import opened Collections
  import opened Store

  lemma CompanyStaysRegistered(companies: seq<Company>, c: Company, id: Id)
    requires IsCompany(companies, id)
    ensures IsCompany(companies + [c], id)
  {
    var k :| 0 <= k < |companies| && companies[k].id == id;
    assert (companies + [c])[k] == companies[k];
  }

  lemma JobStaysListed(jobs: seq<Job>, j: Job, jobId: Id, companyId: Id)
    requires IsJobOf(jobs, jobId, companyId)
    ensures IsJobOf(jobs + [j], jobId, companyId)
  {
    var k :| 0 <= k < |jobs| && jobs[k].id == jobId && jobs[k].companyId == companyId;
    assert (jobs + [j])[k] == jobs[k];
  }

  /** `registerCompany`: name, email, password and logo are required in
      that order; a registered email is a conflict; otherwise exactly one
      company is added, storing the hash and not the password, and a token
      is issued for it. */
  method RegisterCompany(st: Store, name: string, email: string, password: string, logo: Option<string>, hashed: string)
    returns (reply: Reply, token: Option<Id>)
    requires st.Valid()
    modifies st
    ensures st.Valid()
    ensures st.jobs == old(st.jobs) && st.applications == old(st.applications) && st.users == old(st.users)
    ensures name == [] ==> reply == Reply(400, false, "Name is required")
    ensures name != [] && email == [] ==> reply == Reply(400, false, "Email is required")
    ensures name != [] && email != [] && password == [] ==> reply == Reply(400, false, "Password is required")
    ensures name != [] && email != [] && password != [] && logo.None? ==>
      reply == Reply(400, false, "Company logo is required")
    ensures name != [] && email != [] && password != [] && logo.Some? && EmailTaken(old(st.companies), email) ==>
      reply == Reply(409, false, "Company already exists")
    ensures reply.success <==>
      name != [] && email != [] && password != [] && logo.Some? && !EmailTaken(old(st.companies), email)
    ensures reply.success ==>
      reply == Reply(201, true, "Company registered successfully")
      && token == Some(old(st.nextId))
      && st.companies == old(st.companies) + [Company(old(st.nextId), name, email, hashed, logo.value)]
    ensures !reply.success ==> token == None && st.companies == old(st.companies) && st.nextId == old(st.nextId)
  {
    if name == [] {
      return Reply(400, false, "Name is required"), None;
    }
    if email == [] {
      return Reply(400, false, "Email is required"), None;
    }
    if password == [] {
      return Reply(400, false, "Password is required"), None;
    }
    if logo.None? {
      return Reply(400, false, "Company logo is required"), None;
    }
    if EmailTaken(st.companies, email) {
      return Reply(409, false, "Company already exists"), None;
    }
    var company := Company(st.nextId, name, email, hashed, logo.value);
    forall i | 0 <= i < |st.jobs| ensures IsCompany(st.companies + [company], st.jobs[i].companyId) {
      CompanyStaysRegistered(st.companies, company, st.jobs[i].companyId);
    }
    st.companies := st.companies + [company];
    st.nextId := st.nextId + 1;
    reply, token := Reply(201, true, "Company registered successfully"), Some(company.id);
  }

  datatype LoginResult = LoginResult(reply: Reply, token: Option<Id>)

  function HasEmail(email: string): Company -> bool
  {
    (c: Company) => c.email == email
  }

  /** `loginCompany`, which only reads the store: email then password are
      required, the email must belong to a company (404), the password
      must match its hash (401); then a token is issued for that company.
      With unique emails (a store invariant) login succeeds exactly when
      some company has the email and a matching hash. */
  function LoginCompany(companies: seq<Company>, email: string, password: string, matches: (string, string) -> bool): (r: LoginResult)
    ensures r.reply.success <==> r.reply.code == 200
    ensures r.token.Some? <==> r.reply.success
    ensures email == [] ==> r.reply == Reply(400, false, "Email is required")
    ensures email != [] && password == [] ==> r.reply == Reply(400, false, "Password is required")
    ensures email != [] && password != [] && !EmailTaken(companies, email) ==> r.reply == Reply(404, false, "Company not found")
    ensures email != [] && password != [] && EmailTaken(companies, email) && !r.reply.success ==>
      r.reply == Reply(401, false, "Wrong password")
    ensures r.reply.code == 401 ==>
      (r.reply.message == "Wrong password"
       && exists k :: 0 <= k < |companies| && companies[k].email == email && !matches(password, companies[k].password))
    ensures r.reply.success ==>
      (r.reply.message == "Company logged in successfully"
       && exists k :: (0 <= k < |companies| && companies[k].id == r.token.value
                       && companies[k].email == email && matches(password, companies[k].password)))
    ensures (forall i, j :: 0 <= i < j < |companies| ==> companies[i].email != companies[j].email) ==>
      (r.reply.success <==>
        (email != [] && password != []
         && exists k :: 0 <= k < |companies| && companies[k].email == email && matches(password, companies[k].password)))
  {
    if email == [] then LoginResult(Reply(400, false, "Email is required"), None)
    else if password == [] then LoginResult(Reply(400, false, "Password is required"), None)
    else match IndexOf(companies, HasEmail(email))
      case None => LoginResult(Reply(404, false, "Company not found"), None)
      case Some(k) =>
        if matches(password, companies[k].password) then
          LoginResult(Reply(200, true, "Company logged in successfully"), Some(companies[k].id))
        else
          LoginResult(Reply(401, false, "Wrong password"), None)
  }

  /** `postJob`: title, description, category, location, level and salary
      are required in that order (a salary of 0 counts as missing); then
      exactly one visible posting owned by the caller is added. */
  method PostJob(st: Store, companyId: Id, title: string, description: string, category: string,
                 location: string, level: string, salary: int, now: int)
    returns (reply: Reply, jobData: Option<Job>)
    requires st.Valid()
    requires IsCompany(st.companies, companyId)
    modifies st
    ensures st.Valid()
    ensures st.companies == old(st.companies) && st.applications == old(st.applications) && st.users == old(st.users)
    ensures title == [] ==> reply == Reply(400, false, "Job Title is required")
    ensures title != [] && description == [] ==> reply == Reply(400, false, "Job description is required")
    ensures title != [] && description != [] && category == [] ==> reply == Reply(400, false, "Job category is required")
    ensures title != [] && description != [] && category != [] && location == [] ==>
      reply == Reply(400, false, "Job location is required")
    ensures title != [] && description != [] && category != [] && location != [] && level == [] ==>
      reply == Reply(400, false, "Job level is required")
    ensures title != [] && description != [] && category != [] && location != [] && level != [] && salary == 0 ==>
      reply == Reply(400, false, "Job salary is required")
    ensures reply.success <==>
      title != [] && description != [] && category != [] && location != [] && level != [] && salary != 0
    ensures reply.success ==>
      reply == Reply(201, true, "Job posted successfully")
      && jobData == Some(Job(old(st.nextId), title, description, category, location, level, salary, now, true, companyId))
      && st.jobs == old(st.jobs) + [jobData.value]
    ensures !reply.success ==> jobData == None && st.jobs == old(st.jobs) && st.nextId == old(st.nextId)
  {
    if title == [] {
      return Reply(400, false, "Job Title is required"), None;
    }
    if description == [] {
      return Reply(400, false, "Job description is required"), None;
    }
    if category == [] {
      return Reply(400, false, "Job category is required"), None;
    }
    if location == [] {
      return Reply(400, false, "Job location is required"), None;
    }
    if level == [] {
      return Reply(400, false, "Job level is required"), None;
    }
    if salary == 0 {
      return Reply(400, false, "Job salary is required"), None;
    }
    var job := Job(st.nextId, title, description, category, location, level, salary, now, true, companyId);
    forall i | 0 <= i < |st.applications|
      ensures IsJobOf(st.jobs + [job], st.applications[i].jobId, st.applications[i].companyId)
    {
      JobStaysListed(st.jobs, job, st.applications[i].jobId, st.applications[i].companyId);
    }
    st.jobs := st.jobs + [job];
    st.nextId := st.nextId + 1;
    reply, jobData := Reply(201, true, "Job posted successfully"), Some(job);
  }

  function ForJob(jobId: Id): Application -> bool
  {
    (a: Application) => a.jobId == jobId
  }

  /** The job ids the applications name, in order. */
  function JobIds(applications: seq<Application>): (ids: seq<Id>)
    ensures |ids| == |applications|
    ensures forall i :: 0 <= i < |applications| ==> ids[i] == applications[i].jobId
  {
    if applications == [] then [] else [applications[0].jobId] + JobIds(applications[1..])
  }

  /** Filtering by job id keeps as many applications as the job id occurs
      among the applications' job ids. */
  lemma {:induction false} FilterCountsJob(applications: seq<Application>, jobId: Id)
    ensures |Filter(applications, ForJob(jobId))| == multiset(JobIds(applications))[jobId]
  {
    if applications != [] {
      var rest := applications[1..];
      assert applications == [applications[0]] + rest;
      FilterAppend([applications[0]], rest, ForJob(jobId));
      FilterCountsJob(rest, jobId);
      assert JobIds(applications) == [applications[0].jobId] + JobIds(rest);
    }
  }

  /** `jobApplication.find({ jobId }).length`: how many applications name
      the posting. */
  function ApplicantCount(applications: seq<Application>, jobId: Id): (n: nat)
    ensures n <= |applications|
    ensures n == multiset(JobIds(applications))[jobId]
    ensures n == 0 <==> forall a :: a in applications ==> a.jobId != jobId
  {
    var matching := Filter(applications, ForJob(jobId));
    assert matching != [] ==> matching[0] in matching;
    FilterCountsJob(applications, jobId);
    |matching|
  }

  /** One entry of the posted-jobs answer: the posting and its number of
      applicants. */
  datatype PostedJob = PostedJob(job: Job, applicants: nat)

  function OwnedBy(companyId: Id): Job -> bool
  {
    (j: Job) => j.companyId == companyId
  }

  /** `getCompanyPostedJobs`: exactly the caller's postings, in store
      order, each with the number of applications naming it. */
  function PostedJobs(jobs: seq<Job>, applications: seq<Application>, companyId: Id): (r: seq<PostedJob>)
    ensures forall p :: p in r ==> p.job.companyId == companyId && p.applicants == ApplicantCount(applications, p.job.id)
    ensures forall job :: job in jobs && job.companyId == companyId <==> exists p :: p in r && p.job == job
    ensures |r| == |Filter(jobs, OwnedBy(companyId))| <= |jobs|
    ensures forall i :: 0 <= i < |r| ==> r[i].job == Filter(jobs, OwnedBy(companyId))[i]
  {
    WithApplicantCounts(Filter(jobs, OwnedBy(companyId)), applications)
  }

  /** Pairs each posting with its applicant count, in order. */
  function WithApplicantCounts(jobs: seq<Job>, applications: seq<Application>): (r: seq<PostedJob>)
    ensures |r| == |jobs|
    ensures forall p :: p in r ==> p.job in jobs && p.applicants == ApplicantCount(applications, p.job.id)
    ensures forall job :: job in jobs ==> PostedJob(job, ApplicantCount(applications, job.id)) in r
    ensures forall i :: 0 <= i < |jobs| ==> r[i] == PostedJob(jobs[i], ApplicantCount(applications, jobs[i].id))
  {
    if jobs == [] then []
    else [PostedJob(jobs[0], ApplicantCount(applications, jobs[0].id))] + WithApplicantCounts(jobs[1..], applications)
  }

  function OfCompany(companyId: Id): Application -> bool
  {
    (a: Application) => a.companyId == companyId
  }

  /** `getCompanyJobApplicants`: the applications to the caller's
      postings, in store order. Applications are distinct, their ids being
      unique, so membership together with the subsequence clause fixes the
      list. */
  function CompanyApplicants(applications: seq<Application>, companyId: Id): (r: seq<Application>)
    ensures forall a :: a in r <==> a in applications && a.companyId == companyId
    ensures IsSubsequence(r, applications)
  {
    Filter(applications, OfCompany(companyId))
  }

  /** `changeJobApplicationStatus`: the application with this id takes the
      given status, which is not validated, and no ownership check is made;
      an unknown id changes nothing. The answer is always a success. */
  method ChangeJobApplicationStatus(st: Store, id: Id, status: string) returns (reply: Reply)
    requires st.Valid()
    modifies st`applications
    ensures st.Valid()
    ensures reply == Reply(200, true, "Status changed successfully")
    ensures |st.applications| == |old(st.applications)|
    ensures forall i :: 0 <= i < |st.applications| ==>
      st.applications[i] == if old(st.applications)[i].id == id then old(st.applications)[i].(status := status)
                            else old(st.applications)[i]
  {
    match IndexOf(st.applications, (a: Application) => a.id == id) {
      case None =>
      case Some(k) =>
        st.applications := st.applications[k := st.applications[k].(status := status)];
    }
    reply := Reply(200, true, "Status changed successfully");
  }

  /** The visibility flip: only the owning company's request flips it. */
  function ToggledBy(job: Job, companyId: Id): (r: Job)
    ensures r.visible <==> (if job.companyId == companyId then !job.visible else job.visible)
    ensures r.(visible := job.visible) == job
  {
    if job.companyId == companyId then job.(visible := !job.visible) else job
  }

  /** Two requests by the same company restore the posting. */
  lemma ToggleTwiceRestores(job: Job, companyId: Id)
    ensures ToggledBy(ToggledBy(job, companyId), companyId) == job
  {
  }

  /** Rewriting postings without touching their ids or companies keeps the
      postings and the applications valid. */
  lemma SameIdsKeepValid(jobs: seq<Job>, updated: seq<Job>, companies: seq<Company>, applications: seq<Application>, nextId: Id)
    requires JobsValid(jobs, companies, nextId) && ApplicationsValid(applications, jobs, nextId)
    requires |updated| == |jobs|
    requires forall i :: 0 <= i < |jobs| ==> updated[i].id == jobs[i].id && updated[i].companyId == jobs[i].companyId
    ensures JobsValid(updated, companies, nextId) && ApplicationsValid(applications, updated, nextId)
  {
    forall i | 0 <= i < |applications|
      ensures IsJobOf(updated, applications[i].jobId, applications[i].companyId)
    {
      var m :| 0 <= m < |jobs| && jobs[m].id == applications[i].jobId && jobs[m].companyId == applications[i].companyId;
      assert updated[m].id == jobs[m].id && updated[m].companyId == jobs[m].companyId;
    }
  }

  /** `changeJobVisibility`: an id is required (400) and must name a
      posting (404); then the posting is flipped when the caller owns it and
      left as it is otherwise, with the same success answer in both cases.
      No other posting changes. */
  method ChangeJobVisibility(st: Store, companyId: Id, id: Option<Id>) returns (reply: Reply)
    requires st.Valid()
    modifies st`jobs
    ensures st.Valid()
    ensures id.None? ==> reply == Reply(400, false, "Job ID is required") && st.jobs == old(st.jobs)
    ensures id.Some? && (forall j :: j in old(st.jobs) ==> j.id != id.value) ==>
      reply == Reply(404, false, "Job not found") && st.jobs == old(st.jobs)
    ensures id.Some? && (exists j :: j in old(st.jobs) && j.id == id.value) ==>
      reply == Reply(200, true, "Job visibility changed successfully")
    ensures |st.jobs| == |old(st.jobs)|
    ensures id.Some? ==> forall i :: 0 <= i < |st.jobs| ==>
      st.jobs[i] == if old(st.jobs)[i].id == id.value then ToggledBy(old(st.jobs)[i], companyId) else old(st.jobs)[i]
  {
    if id.None? {
      return Reply(400, false, "Job ID is required");
    }
    match IndexOf(st.jobs, (j: Job) => j.id == id.value)
    case None =>
      reply := Reply(404, false, "Job not found");
    case Some(k) =>
      var updated := ToggledBy(st.jobs[k], companyId);
      SameIdsKeepValid(st.jobs, st.jobs[k := updated], st.companies, st.applications, st.nextId);
      st.jobs := st.jobs[k := updated];
      reply := Reply(200, true, "Job visibility changed successfully");
  }
}
