/** The server's document store, reduced to what the controllers read and
    write: companies, job postings, job applications (each a collection in
    insertion order, as `find` returns it) and users keyed by the identity
    provider's user id. Fresh document ids come from a counter. */
module Store {
  import opened Collections

  /** A document id generated by the database. */
  type Id = nat

  /** A recruiter account; `password` holds the password hash. */
  datatype Company = Company(id: Id, name: string, email: string, password: string, image: string)

  /** A posting, with the fields of the Job schema; `visible` is true when
      the posting is created. */
  datatype Job = Job(
    id: Id,
    title: string,
    description: string,
    category: string,
    location: string,
    level: string,
    salary: int,
    date: int,
    visible: bool,
    companyId: Id)

  /** A seeker's application to a posting; `companyId` is the posting's
      owner at the time of applying. */
  datatype Application = Application(id: Id, userId: string, jobId: Id, companyId: Id, status: string, date: int)

  /** A job seeker, created and kept up to date by the identity provider. */
  datatype User = User(name: string, email: string, resume: string, image: string)

  /** The JSON envelope every controller answers with, and its HTTP status. */
  datatype Reply = Reply(code: int, success: bool, message: string)

  const PendingStatus := "Pending"

  predicate IsCompany(companies: seq<Company>, id: Id)
  {
    exists k :: 0 <= k < |companies| && companies[k].id == id
  }

  predicate IsJobOf(jobs: seq<Job>, jobId: Id, companyId: Id)
  {
    exists k :: 0 <= k < |jobs| && jobs[k].id == jobId && jobs[k].companyId == companyId
  }

  predicate EmailTaken(companies: seq<Company>, email: string)
  {
    exists k :: 0 <= k < |companies| && companies[k].email == email
  }

  /** Company ids and emails are unique and every id was handed out. */
  ghost predicate CompaniesValid(companies: seq<Company>, nextId: Id)
  {
    (forall i :: 0 <= i < |companies| ==> companies[i].id < nextId)
    && (forall i, j :: 0 <= i < j < |companies| ==>
          companies[i].id != companies[j].id && companies[i].email != companies[j].email)
  }

  /** Job ids are unique and every posting belongs to a registered company. */
  ghost predicate JobsValid(jobs: seq<Job>, companies: seq<Company>, nextId: Id)
  {
    (forall i :: 0 <= i < |jobs| ==> jobs[i].id < nextId && IsCompany(companies, jobs[i].companyId))
    && (forall i, j :: 0 <= i < j < |jobs| ==> jobs[i].id != jobs[j].id)
  }

  /** Application ids are unique, every application names an existing
      posting together with that posting's company, and no user has two
      applications to the same posting. */
  ghost predicate ApplicationsValid(applications: seq<Application>, jobs: seq<Job>, nextId: Id)
  {
    (forall i :: 0 <= i < |applications| ==>
       applications[i].id < nextId && IsJobOf(jobs, applications[i].jobId, applications[i].companyId))
    && (forall i, j :: 0 <= i < j < |applications| ==>
          applications[i].id != applications[j].id
          && (applications[i].userId != applications[j].userId || applications[i].jobId != applications[j].jobId))
  }

  class Store {
    var companies: seq<Company>
    var jobs: seq<Job>
    var applications: seq<Application>
    var users: map<string, User>
    var nextId: Id

    ghost predicate Valid()
      reads this
    {
      CompaniesValid(companies, nextId)
      && JobsValid(jobs, companies, nextId)
      && ApplicationsValid(applications, jobs, nextId)
    }

    constructor ()
      ensures Valid()
      ensures companies == [] && jobs == [] && applications == [] && users == map[]
    {
      companies, jobs, applications, users, nextId := [], [], [], map[], 0;
    }
  }

  function IsVisible(): Job -> bool
  {
    (job: Job) => job.visible
  }

  /** The job-list endpoint's query `Job.find({ visible: true })`: the
      visible postings, in store order. Postings are distinct, their ids
      being unique, so membership together with the subsequence clause
      fixes the list. */
  function VisibleJobs(jobs: seq<Job>): (r: seq<Job>)
    ensures forall job :: job in r <==> job in jobs && job.visible
    ensures IsSubsequence(r, jobs)
  {
    Filter(jobs, IsVisible())
  }
}
