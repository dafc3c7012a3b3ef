/** The records the browser client receives from the REST API, reduced to
    the fields the client-side logic reads. Absent JSON values are `None`;
    an absent or empty string is the empty string (both are falsy). */
module ClientData {
  import opened Collections

  /** `Number(jobData?.salary)`: absent, not a number, or a number. */
  datatype Salary = Missing | NotANumber | Amount(value: int)

  /** A posting as listed by the job-list endpoint, with the owning
      company's name populated (`job.companyId.name`, possibly absent). */
  datatype Job = Job(
    id: string,
    title: string,
    description: string,
    category: string,
    location: string,
    level: string,
    salary: Salary,
    companyName: Option<string>)

  /** The signed-in job seeker (`userData`); an empty `resume` means no
      resume has been uploaded. */
  datatype UserData = UserData(name: string, resume: string)

  /** One of the seeker's applications with its job populated; `jobId` is
      the populated job's `_id`, `None` when the job could not be populated. */
  datatype UserApplication = UserApplication(id: string, jobId: Option<string>, status: string)

  /** One row of the recruiter's applicant table. */
  datatype Applicant = Applicant(
    id: string,
    userName: string,
    resume: string,
    jobTitle: string,
    location: string,
    status: string)
}
