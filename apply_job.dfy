/** The job detail page: which posting the route names, whether the signed-in
    seeker has already applied to it, which other postings of the same
    company are suggested, and the checks made before an application is
    sent. */
module ApplyJob {
  import opened Collections
  import opened ClientData

  /** At most this many similar postings are displayed. */
  const SimilarShown: nat := 3

  function HasId(id: string): Job -> bool
  {
    (job: Job) => job.id == id
  }

  /** `jobs.find(job => job?._id === id)`: the first posting with this id. */
  function FindJob(jobs: seq<Job>, id: string): (r: Option<Job>)
    ensures r.Some? ==> r.value.id == id
    ensures r.Some? ==> exists k :: 0 <= k < |jobs| && jobs[k] == r.value && forall m :: 0 <= m < k ==> jobs[m].id != id
    ensures r.None? <==> forall job :: job in jobs ==> job.id != id
  {
    match IndexOf(jobs, HasId(id))
    case None => None
    case Some(k) => Some(jobs[k])
  }

  /** `userApplication.some(item => item?.jobId?._id === jobData?._id)`. */
  function HasApplied(apps: seq<UserApplication>, jobId: string): (b: bool)
    ensures b <==> exists app :: app in apps && app.jobId == Some(jobId)
  {
    if apps == [] then false
    else apps[0].jobId == Some(jobId) || HasApplied(apps[1..], jobId)
  }

  /** `new Set(userApplication.map(app => app?.jobId?._id).filter(Boolean))`:
      the non-empty populated job ids. Membership agrees with `HasApplied`
      on every non-empty id. */
  function AppliedJobIds(apps: seq<UserApplication>): (ids: set<string>)
    ensures forall id :: id in ids <==> id != [] && HasApplied(apps, id)
  {
    set app | app in apps && app.jobId.Some? && app.jobId.value != [] :: app.jobId.value
  }

  function IsSimilar(id: string, company: Option<string>, applied: set<string>): Job -> bool
  {
    (job: Job) => job.id != id && job.companyName == company && job.id !in applied
  }

  /** The suggestions beside posting `current` (reached by route id `id`):
      the other postings of the same company the seeker has not applied to,
      in list order. An absent company name on both sides counts as equal,
      as `undefined === undefined` does. */
  function SimilarJobs(jobs: seq<Job>, id: string, current: Job, apps: seq<UserApplication>): (r: seq<Job>)
    ensures forall job :: job in r <==>
      job in jobs && job.id != id && job.companyName == current.companyName
      && (job.id == [] || !HasApplied(apps, job.id))
    ensures IsSubsequence(r, jobs)
  {
    Filter(jobs, IsSimilar(id, current.companyName, AppliedJobIds(apps)))
  }

  /** `similarJobs.slice(0, 3)`: what the side panel displays. */
  function ShownSimilarJobs(jobs: seq<Job>, id: string, current: Job, apps: seq<UserApplication>): (r: seq<Job>)
    ensures |r| == Min(SimilarShown, |SimilarJobs(jobs, id, current, apps)|)
    ensures r <= SimilarJobs(jobs, id, current, apps)
    ensures forall job :: job in r ==>
      job.id != id && job.companyName == current.companyName && (job.id == [] || !HasApplied(apps, job.id))
  {
    Take(SimilarJobs(jobs, id, current, apps), SimilarShown)
  }

  /** What pressing "Apply Now" leads to. */
  datatype ApplyStep = LoginRequired | ResumeRequired | AlreadyAppliedNotice | SendRequest

  /** The apply handler's guards, in order: no user, then no resume, then
      already applied; the request goes out only when all three pass. */
  function ApplyGuard(user: Option<UserData>, alreadyApplied: bool): (step: ApplyStep)
    ensures step == LoginRequired <==> user.None?
    ensures step == ResumeRequired <==> user.Some? && user.value.resume == []
    ensures step == AlreadyAppliedNotice <==> user.Some? && user.value.resume != [] && alreadyApplied
    ensures step == SendRequest <==> user.Some? && user.value.resume != [] && !alreadyApplied
  {
    if user.None? then LoginRequired
    else if user.value.resume == [] then ResumeRequired
    else if alreadyApplied then AlreadyAppliedNotice
    else SendRequest
  }

  /** The apply endpoint's answer, or a request that threw. */
  datatype ApplyResponse = Answered(success: bool, message: string) | RequestFailed

  /** `Number(jobData?.salary) || 0`. */
  function EffectiveSalary(salary: Salary): int
  {
    match salary
    case Amount(v) => v
    case _ => 0
  }

  /** The salary line: `Some(v)` shows the amount `v` formatted, `None`
      shows "Not specified". A missing, non-numeric, zero or negative
      salary is not shown. */
  function DisplayedSalary(salary: Salary): (r: Option<int>)
    ensures r.Some? <==> salary.Amount? && salary.value > 0
    ensures r.Some? ==> r.value == salary.value
  {
    var amount := EffectiveSalary(salary);
    if amount > 0 then Some(amount) else None
  }

  datatype Screen = Spinner | NotFound | Details(job: Job)

  /** The detail page's state: the posting shown, whether it is still being
      looked up, and whether the seeker has already applied to it. */
  class ApplyPage {
    var jobData: Option<Job>
    var loading: bool
    var alreadyApplied: bool

    function View(): Screen
      reads this
    {
      if loading then Spinner
      else if jobData.None? then NotFound
      else Details(jobData.value)
    }

    constructor ()
      ensures jobData == None && loading && !alreadyApplied
      ensures View() == Spinner
    {
      jobData := None;
      loading := true;
      alreadyApplied := false;
    }

    /** The effect on the job list and route id: once a job list is
        present, look the id up and stop loading; an id matching no posting
        shows the not-found view. */
    method JobsChanged(jobs: Option<seq<Job>>, id: string)
      modifies this`jobData, this`loading
      ensures jobs.None? ==> jobData == old(jobData) && loading == old(loading)
      ensures jobs.Some? ==> jobData == FindJob(jobs.value, id) && !loading
      ensures jobs.Some? && (forall job :: job in jobs.value ==> job.id != id) ==> View() == NotFound
    {
      if jobs.Some? {
        jobData := FindJob(jobs.value, id);
        loading := false;
      }
    }

    /** The effect on the application list and posting: recompute
        `alreadyApplied` only when there is at least one application and a
        posting was found; otherwise keep it. */
    method ApplicationsChanged(apps: Option<seq<UserApplication>>)
      modifies this`alreadyApplied
      ensures apps.Some? && |apps.value| > 0 && jobData.Some? ==>
        (alreadyApplied <==> exists app :: app in apps.value && app.jobId == Some(jobData.value.id))
      ensures !(apps.Some? && |apps.value| > 0 && jobData.Some?) ==> alreadyApplied == old(alreadyApplied)
    {
      if apps.Some? && |apps.value| > 0 && jobData.Some? {
        alreadyApplied := HasApplied(apps.value, jobData.value.id);
      }
    }

    /** "Apply Now": run the guards; when the request is sent, a successful
        answer marks the posting as applied, and an unsuccessful answer or a
        failed request leaves the flag as it was. */
    method Apply(user: Option<UserData>, response: ApplyResponse) returns (step: ApplyStep)
      modifies this`alreadyApplied
      ensures step == ApplyGuard(user, old(alreadyApplied))
      ensures alreadyApplied <==>
        old(alreadyApplied) || (step == SendRequest && response.Answered? && response.success)
    {
      step := ApplyGuard(user, alreadyApplied);
      if step == SendRequest && response.Answered? && response.success {
        alreadyApplied := true;
      }
    }
  }
}
