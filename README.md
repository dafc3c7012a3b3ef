# Job Portal: a verified model of its bookkeeping

Job Portal is a job board. Recruiters register a company, post jobs, show or
hide their postings, and accept or reject applicants. Job seekers sign in
through an external identity provider, search and filter the postings, upload
a resume and apply. This project models, in Dafny, the deterministic part of
that system and proves what it promises:

- the browser side:
  - the listing's search, filter and pagination state;
  - the job detail page's derivations and apply guards;
  - the card's HTML stripper;
  - the recruiter's applicant table;
- the server side:
  - the company, user and identity-webhook handlers, as transitions over an
    abstract document store.

The project is organised as follows:

- `collections.dfy` (Collections): sequence helpers and their lemmas. Filter,
  first index, reverse, take, duplicate-free lists, removal and subsequences.
- `text.dfy` (Text): the two string builtins the filter uses, ASCII
  lower-casing and substring search.
- `client_data.dfy` (ClientData): the JSON records the browser receives.
- `job_listing.dfy` (JobListing): the filter predicate, the reversal, the
  pagination arithmetic, checkbox toggling, and the `ListingView` class. That
  class holds the filter fields and the current page.
- `apply_job.dfy` (ApplyJob): the posting lookup, the already-applied check,
  the similar-jobs panel and the apply guards. The `ApplyPage` class holds the
  page's state.
- `job_card.dfy` (JobCard): the regular-expression replace `<[^>]*>?` → `""`,
  applied to the first 156 characters of a description.
- `view_applications.dfy` (ViewApplications): the per-id status update and the
  `ApplicantsView` class.
- `store.dfy` (Store): companies, jobs and applications as sequences in
  insertion order, and users as a map keyed by the identity provider's id.
  Database ids come from a counter. The class `Store` carries the invariant
  `Valid()`:
  - company ids and emails are unique;
  - job ids are unique;
  - every job belongs to a company;
  - every application names an existing job and that job's company;
  - a user has at most one application per job.
- `company_controller.dfy`, `user_controller.dfy`, `webhook_controller.dfy`:
  the handlers.
  - Handlers that write are methods on a `Store`. Their contracts give the
    answer for every guard and the new store, and they keep `Valid()`.
  - Handlers that only read are functions over the collections.
  - The registration, login, job posting, visibility, status, profile, apply
    and resume handlers answer with a `Reply(code, success, message)` carrying
    the source's own status codes and messages.
  - The webhook answers with a `WebhookReply`: an empty acknowledgement, or
    an error with its code and message.
  - The three list queries (posted jobs, applicants, the seeker's
    applications) return their lists; their fixed success envelope is
    listed under "## Left out".

Calls the model cannot see become inputs:

- bcrypt's hash and compare;
- the media host's upload URL;
- the clock;
- the signature check of the webhook;
- the company or user id the authentication middleware resolves from a token.

## Model

| member | source | states |
|---|---|---|
| Text.ContainsAt | client/src/components/JobListing.jsx:25 | `includes` holds exactly when the query occurs at some index of the text |
| Text.Lower | client/src/components/JobListing.jsx:25 | lower-casing keeps the length and lower-cases each character (ASCII) |
| JobListing.TextMatch | client/src/components/JobListing.jsx:24-33 | a text query accepts a posting exactly when it is empty or occurs, case-insensitively, in the field |
| JobListing.FilteredJobs | client/src/components/JobListing.jsx:18-52 | no job list gives no postings; otherwise a posting is listed exactly when all four dimensions accept it, and the listing is a subsequence of the reversed job list (postings are distinct by id, so this fixes the listing) |
| JobListing.InactiveFiltersKeepAll | client/src/components/JobListing.jsx:22-51 | with every dimension empty the listing is the whole job list reversed (newest first) |
| JobListing.CategoryExcludes | client/src/components/JobListing.jsx:36-39 | with categories selected, a posting of another category is never listed |
| JobListing.TotalPages | client/src/components/JobListing.jsx:92-93 | the page count is at least 1 and is the least count of six-item pages that holds all postings |
| JobListing.PageItems | client/src/components/JobListing.jsx:94-97 | a page holds at most six postings: the ones at positions (page-1)*6 onwards, in order, and none past the end |
| JobListing.PaginationPartitions | client/src/components/JobListing.jsx:92-97 | every page but the last is full, the last is non-empty when there are postings, and the pages concatenated give back the listing |
| JobListing.PagesFromSuffix | client/src/components/JobListing.jsx:94-97 | the pages from a given one to the last concatenate to the listing's suffix from that page's first position |
| JobListing.FourteenPostings | client/src/components/JobListing.jsx:92-97 | fourteen postings make three pages, the last holding two |
| JobListing.Toggle | client/src/components/JobListing.jsx:73-87 | a checkbox flips the membership of its own value only and keeps the selection duplicate-free |
| JobListing.ToggleTwice | client/src/components/JobListing.jsx:73-87 | toggling a value twice restores the selected set, and the very list when the value was not selected |
| JobListing.ListingView.constructor | client/src/components/JobListing.jsx:9-15 | the listing starts on page 1 with no filters |
| JobListing.ListingView.ReceiveJobs | client/src/components/JobListing.jsx:54-57 | a new job list goes back to page 1, keeping the page invariant |
| JobListing.ListingView.Search | client/src/components/Hero.jsx:12-19 | a search sets both text queries, marks the listing as searched and goes back to page 1 |
| JobListing.ListingView.ToggleCategory | client/src/components/JobListing.jsx:73-79 | the category selection becomes its toggle and the page resets to 1 |
| JobListing.ListingView.ToggleLocation | client/src/components/JobListing.jsx:81-87 | the location selection becomes its toggle and the page resets to 1 |
| JobListing.ListingView.ClearTitle | client/src/components/JobListing.jsx:59-61 | only the title query is emptied; the page resets to 1 |
| JobListing.ListingView.ClearLocation | client/src/components/JobListing.jsx:63-65 | only the location query is emptied; the page resets to 1 |
| JobListing.ListingView.ClearAllFilters | client/src/components/JobListing.jsx:67-71 | all four dimensions are emptied (so a second clear changes nothing), the Current Filters panel is hidden (lines 146-150) and the whole job list is listed, newest first |
| JobListing.ListingView.PreviousPage | client/src/components/JobListing.jsx:264-266 | one page back, never below page 1 |
| JobListing.ListingView.NextPage | client/src/components/JobListing.jsx:289-291 | one page on, never past the last page |
| JobListing.ListingView.GoToPage | client/src/components/JobListing.jsx:269-273 | the button of index i opens page i+1, which is one of the pages |
| ApplyJob.FindJob | client/src/pages/ApplyJob.jsx:32-38 | the first posting with the route id, and none exactly when no posting has it |
| ApplyJob.HasApplied | client/src/pages/ApplyJob.jsx:88-93 | true exactly when some application names the posting |
| ApplyJob.AppliedJobIds | client/src/pages/ApplyJob.jsx:128-130 | the set holds exactly the non-empty job ids the seeker has applied to |
| ApplyJob.SimilarJobs | client/src/pages/ApplyJob.jsx:133-138 | a posting is suggested exactly when it is another posting of the same company not applied to, in list order |
| ApplyJob.ShownSimilarJobs | client/src/pages/ApplyJob.jsx:251 | the first min(3, n) of the n suggestions, in order |
| ApplyJob.ApplyGuard | client/src/pages/ApplyJob.jsx:44-58 | each outcome (login, resume, already applied, send) happens exactly when the earlier guards pass and its own fails |
| ApplyJob.DisplayedSalary | client/src/pages/ApplyJob.jsx:40 | the salary is shown exactly when it is a positive number, and then as that number (line 185) |
| ApplyJob.ApplyPage.constructor | client/src/pages/ApplyJob.jsx:20-22 | the page starts on the spinner, with no posting and not applied |
| ApplyJob.ApplyPage.JobsChanged | client/src/pages/ApplyJob.jsx:32-38 | once jobs are present the posting is looked up and loading ends; an unknown id shows Job Not Found (lines 109-126) |
| ApplyJob.ApplyPage.ApplicationsChanged | client/src/pages/ApplyJob.jsx:95-99 | with applications and a posting the flag becomes HasApplied, otherwise it is kept |
| ApplyJob.ApplyPage.Apply | client/src/pages/ApplyJob.jsx:42-86 | the guards decide the step; only a sent request answered with success sets the flag, anything else keeps it |
| JobCard.SkipTag | client/src/components/JobList.jsx:14 | what `[^>]*>?` leaves after a `<`: a suffix of the input, empty when no `>` follows |
| JobCard.Sanitize | client/src/components/JobList.jsx:13-15 | the stripped text is never longer than the input |
| JobCard.SanitizeRemovesOpeners | client/src/components/JobList.jsx:14 | no `<` survives |
| JobCard.SanitizeWithoutOpeners | client/src/components/JobList.jsx:14 | a text without `<` is returned unchanged |
| JobCard.SanitizeIdempotent | client/src/components/JobList.jsx:14 | stripping twice equals stripping once |
| JobCard.SanitizeKeepsOrder | client/src/components/JobList.jsx:14 | the output is a subsequence of the input |
| JobCard.SkipClosedTag | client/src/components/JobList.jsx:14 | a tag body up to its `>` is consumed whole |
| JobCard.ClosedTagFirst | client/src/components/JobList.jsx:14 | a leading closed tag is removed entirely |
| JobCard.SanitizePlainPrefix | client/src/components/JobList.jsx:14 | text without `<` in front of the input passes through unchanged, and the rest is stripped as on its own |
| JobCard.TagRemoved | client/src/components/JobList.jsx:14 | a closed tag is removed entirely and the text before it is kept |
| JobCard.UnclosedTagTruncates | client/src/components/JobList.jsx:14 | an unterminated `<` removes everything from it to the end |
| JobCard.CardText | client/src/components/JobList.jsx:36 | the card text is at most 156 characters, has no `<`, is the preview itself when the preview has no `<`, and is a subsequence of it |
| ViewApplications.WithStatus | client/src/pages/ViewApplications.jsx:48-50 | the list keeps its length; rows with the id get the status, all other rows and fields are unchanged |
| ViewApplications.LastStatusWins | client/src/pages/ViewApplications.jsx:46-50 | a second update of the same id overrides the first |
| ViewApplications.DecisionsAreFinal | client/src/pages/ViewApplications.jsx:169-197 | buttons are offered only on pending rows, and an Accept or Reject never makes a decided row pending again |
| ViewApplications.ApplicantsView.constructor | client/src/pages/ViewApplications.jsx:10-11 | the table starts empty and loading |
| ViewApplications.ApplicantsView.FetchData | client/src/pages/ViewApplications.jsx:13-31 | a successful fetch replaces the rows (with none when absent), anything else keeps them; loading ends in every case |
| ViewApplications.ApplicantsView.ChangeStatus | client/src/pages/ViewApplications.jsx:34-57 | only a successful answer applies WithStatus; otherwise nothing changes |
| Store.VisibleJobs | server/src/controllers/JobController.js:5 | a posting is listed exactly when it is visible, and the list is a subsequence of the store (postings are distinct by id, so this fixes the list) |
| CompanyController.RegisterCompany | server/src/controllers/companyController.js:14-60 | name, email, password and logo are required in that order (400), an email already registered is a conflict (409); otherwise exactly one company with the hashed password and the logo URL is added (201) and gets the token; the invariant holds |
| CompanyController.LoginCompany | server/src/controllers/companyController.js:80-119 | email then password required (400), unknown email 404, a known email with a wrong password 401, otherwise 200 with the token of the company matching email and password; with unique emails, success exactly when such a company exists |
| CompanyController.PostJob | server/src/controllers/companyController.js:153-212 | the six fields are required in order, a salary of 0 counting as missing (400); otherwise exactly one visible posting of the caller with the given fields is added (201); the invariant holds |
| CompanyController.ApplicantCount | server/src/controllers/companyController.js:256-258 | the count is the number of applications naming the posting (its multiplicity among their job ids), zero exactly when none does |
| CompanyController.FilterCountsJob | server/src/controllers/companyController.js:256-258 | the applications a job-id query finds are as many as the job id's occurrences among the applications |
| CompanyController.PostedJobs | server/src/controllers/companyController.js:250-266 | exactly the caller's postings, in store order and each once per stored copy, each paired with its applicant count |
| CompanyController.WithApplicantCounts | server/src/controllers/companyController.js:254-259 | entry i is posting i with its applicant count, for every i |
| CompanyController.CompanyApplicants | server/src/controllers/companyController.js:225-231 | an application is listed exactly when it is to one of the caller's postings, and the list is a subsequence of the store (applications are distinct by id, so this fixes the list) |
| CompanyController.ChangeJobApplicationStatus | server/src/controllers/companyController.js:278-285 | always 200; the application with the id takes the unvalidated status, every other one is unchanged; the invariant holds |
| CompanyController.ToggledBy | server/src/controllers/companyController.js:317-319 | the owner's request flips `visible`, anyone else's leaves it; no other field changes |
| CompanyController.ToggleTwiceRestores | server/src/controllers/companyController.js:317-319 | two requests by the same company restore the posting |
| CompanyController.ChangeJobVisibility | server/src/controllers/companyController.js:298-326 | missing id 400, unknown posting 404, otherwise 200 whether or not the caller owns it; only the named posting is toggled; the invariant holds |
| UserController.GetUserData | server/src/controllers/userController.js:9-21 | unknown user 404, otherwise 200 with that user's profile |
| UserController.ApplicationCount | server/src/controllers/userController.js:35-37 | zero exactly when the user has no application to the posting |
| UserController.ApplyForJob | server/src/controllers/userController.js:32-61 | a repeated application is refused first (400), then an unknown posting (404); otherwise exactly one pending application with the posting's company is added (200); the invariant holds |
| UserController.AtMostOneApplication | server/src/controllers/userController.js:35-57 | in every store reachable through the handlers a user holds at most one application per posting |
| UserController.UserApplications | server/src/controllers/userController.js:72-90 | an application is listed exactly when it is the caller's, and the list is a subsequence of the store (applications are distinct by id, so this fixes the list) |
| UserController.UpdateUserResume | server/src/controllers/userController.js:101-122 | no file 400; a caller without a profile 500; otherwise only that profile's resume becomes the upload URL (200) |
| WebhookController.DisplayName | server/src/controllers/webhookController.js:19 | the first name, one space, then the last name, an unset name rendered as "null" |
| WebhookController.MissingLastName | server/src/controllers/webhookController.js:40 | an account without a last name gets the name "<first> null" |
| WebhookController.NewProfile | server/src/controllers/webhookController.js:17-23 | the created profile has the display name, the first email address, the event's resume and the avatar |
| WebhookController.UpdatedProfile | server/src/controllers/webhookController.js:38-46 | an update takes name, email and avatar from the event and keeps the resume |
| WebhookController.UpdateKeepsResume | server/src/controllers/webhookController.js:38-46 | an updated profile keeps the uploaded resume whatever the profile held before |
| WebhookController.HandleWebhook | server/src/controllers/webhookController.js:4-62 | an unverified request is refused with 400; user.created inserts the profile under the provider's id, user.deleted removes that id, user.updated rewrites an existing profile, and the others are unchanged; other event types give 400 "Unhandled event type"; an event that throws (no email address, id already present) gives the verification-failed answer and changes nothing |
| WebhookController.CreateThenDelete | server/src/controllers/webhookController.js:16-36 | creating a profile and then deleting it restores the profiles |

## Left out

- HTTP, Express routing, CORS and the database connection are left out. The database queries are modelled as sequence and map queries in store order.
- The `500` answers of handlers whose database call throws are left out, as are malformed ids that make a lookup throw. The one exception kept is the resume update for a missing profile, which is a path in the code itself.
- bcrypt, the media host, JWT creation and verification, the webhook signature check and the identity provider's client are inputs, not models. So are `Date.now()` and the authentication middleware.
- `getCompanyData` is left out: it answers with the company the middleware already resolved and holds no logic of its own.
- `populate` is left out: answers carry ids rather than embedded company, job or user documents. The browser-side records are separate datatypes.
- The schemas of the company, user and application documents are not part of this model. A new application's status is taken to be "Pending", the value the recruiter table treats as undecided.
- JavaScript truthiness is modelled for strings (empty means missing) and numbers (0 means missing). A salary that arrives as a non-empty string such as "0" is truthy in JavaScript; it is taken as the number it denotes.
- Text.Lower: lower-casing covers ASCII letters only; other Unicode case mappings of `toLowerCase` are not modelled.
- `Number()` coercion is reduced to three cases: missing, not a number, or a number. `KConvert` and `moment` formatting are left out.
- React renders and effects are treated as atomic transitions. In the listing, a filter change and the reset to page 1 happen in one step; the render in between, with a possibly stale page, is not modelled. The listing's invariant that the current page is one of the pages holds at every step. The arrows clamp only when they are pressed.
- The listing keeps the order of the filtered list reversed, as the code does. It does not sort by posting date.
- Toasts, navigation, scrolling and all rendering are left out. An outcome such as "redirect to the applications page" is represented by the step it leads to.
- Concurrency is left out. Concurrent requests (for instance two applications racing past the duplicate check) are not modelled; each handler runs atomically.
- ApplyJob.ApplyPage.JobsChanged: `jobs.find` over entries that may be null is modelled over a list of postings without null entries.
- The list queries `getCompanyPostedJobs`, `getCompanyJobApplicants` and `getUserApplication` always answer 200. Their messages are "Company job data fetched successfully", "Company job applicants fetched successfully" and "User applications". CompanyController.PostedJobs, CompanyController.CompanyApplicants and UserController.UserApplications model the list in that answer, not the envelope.
- JobCard.CardText: `slice(0, 156)` counts UTF-16 code units, while the model counts characters. A description with characters outside the Basic Multilingual Plane (emoji, for instance) keeps fewer characters in the source than in the model, and the source's slice may split a surrogate pair. This is not modelled.
- CompanyController.PostJob: `salary` is an integer. The stored Number may also hold a fraction, which the model cannot represent.
