/** The request layer: the route handlers for contractor signup and login,
    job listing and detail, bid placement and per-contractor bid listing, as
    pure transitions over one state (the registry, the static job list and
    the bids). Every handler returns a response and the next state; HTTP
    status codes appear only as response constructors. */
module Api {
  import opened Wrappers
  import opened Truthiness
  import Seqs
  import Users

  datatype Job = Job(
    id: int,
    title: string,
    description: string,
    category: string,
    budgetMin: int,
    budgetMax: int,
    location: string,
    deadline: string)

  datatype Bid = Bid(
    id: int,
    jobId: int,
    contractorId: string,
    amount: int,
    message: string,
    status: string,
    createdAt: string)

  datatype State = State(registry: Users.Store, jobs: seq<Job>, bids: seq<Bid>)

  /** The jobs the server starts with; no route adds, changes or removes one. */
  const SeedJobs: seq<Job> := [
    Job(1, "Exterior repaint \U{2013} 2 story home",
        "Full exterior repaint including fascia, soffits, trim, and doors.",
        "Painting", 5000, 8000, "Lahaina, HI", "2026-02-15"),
    Job(2, "Interior repaint \U{2013} 3 bed condo",
        "Walls and trim only, no ceilings. Tenant occupied.",
        "Painting", 2500, 4000, "Kihei, HI", "2026-02-10")
  ]

  /** The state at process start: no contractors, the seed jobs, no bids. */
  const Initial: State := State([], SeedJobs, [])

  /** What login reveals about a contractor: everything but the password and
      the creation time. */
  datatype ContractorView = ContractorView(id: string, email: string, businessName: string)

  /** The bodies of successful (2xx) responses. */
  datatype Body =
    | SignedUp(record: Users.Contractor)
    | LoggedIn(contractor: ContractorView, token: string)
    | JobList(jobs: seq<Job>)
    | JobDetail(job: Job)
    | BidPlaced(bid: Bid)
    | BidList(bids: seq<Bid>)

  /** 200/201, 400, 409, 401 and 404 in that order. */
  datatype Response = Ok(body: Body) | MissingFields | Conflict | Unauthorized | NotFound

  /** The nondeterministic inputs of one request: the id `randomUUID` would
      return, and the clock as `Date.now()` and as an ISO timestamp. */
  datatype Env = Env(uuid: string, nowMillis: int, nowIso: string)

  const TokenPrefix: string := "token-"
  const PendingStatus: string := "pending"

  function View(c: Users.Contractor): ContractorView {
    ContractorView(c.id, c.email, c.businessName)
  }

  /** A job with this id exists; `None` stands for a path id that is not a
      number (NaN), which equals no job id. */
  ghost predicate JobExists(jobs: seq<Job>, jobId: Option<int>) {
    jobId.Some? && exists i :: 0 <= i < |jobs| && jobs[i].id == jobId.value
  }

  /** `jobs.find(j => j.id === jobId)`. */
  function FindJob(jobs: seq<Job>, jobId: Option<int>): (r: Option<Job>)
    ensures r.None? <==> !JobExists(jobs, jobId)
    ensures r.Some? ==> r.value in jobs && r.value.id == jobId.value
  {
    if jobId.None? then None
    else Seqs.Find(jobs, (j: Job) => j.id == jobId.value)
  }

  /** `bids.filter(b => b.contractorId === contractorId)`. */
  function BidsOf(bids: seq<Bid>, contractorId: string): (r: seq<Bid>)
    ensures forall b :: b in r ==> b in bids && b.contractorId == contractorId
    ensures forall i :: 0 <= i < |bids| && bids[i].contractorId == contractorId ==> bids[i] in r
  {
    Seqs.Filter(bids, (b: Bid) => b.contractorId == contractorId)
  }

  /** POST /auth/signup-contractor. Missing (falsy) fields are rejected
      first, a registered email second; otherwise the registry gains a record
      holding exactly the three inputs. */
  function Signup(st: State, email: Option<string>, password: Option<string>,
                  businessName: Option<string>, env: Env): (res: (Response, State))
    ensures res.0 == MissingFields
            <==> !(Truthy(email) && Truthy(password) && Truthy(businessName))
    ensures res.0 == Conflict
            <==> && Truthy(email) && Truthy(password) && Truthy(businessName)
                 && Users.HasEmail(st.registry, email.value)
    ensures res.0.Ok? || res.0 == MissingFields || res.0 == Conflict
    ensures !res.0.Ok? ==> res.1 == st
    ensures res.0.Ok? ==>
              && res.0.body.SignedUp?
              && res.1 == st.(registry := st.registry + [res.0.body.record])
    ensures res.0.Ok? ==>
              res.0.body.record
              == Users.Contractor(env.uuid, businessName.value, email.value, password, env.nowIso)
  {
    if !(Truthy(email) && Truthy(password) && Truthy(businessName)) then
      (MissingFields, st)
    else if Users.FindByEmail(st.registry, email.value).Some? then
      (Conflict, st)
    else
      var input := Users.ContractorInput(
        id := None, businessName := businessName, email := email,
        password := password, createdAt := None);
      var (r, registry') := Users.Add(st.registry, Some(input), env.uuid, env.nowIso);
      (Ok(SignedUp(r.value)), st.(registry := registry'))
  }

  /** POST /auth/login-contractor. An unknown email and a wrong password give
      the same `Unauthorized`; the state never changes. */
  function Login(st: State, email: Option<string>, password: Option<string>)
    : (res: (Response, State))
    ensures res.1 == st
    ensures res.0 == MissingFields <==> !(Truthy(email) && Truthy(password))
    ensures res.0.Ok? || res.0 == MissingFields || res.0 == Unauthorized
    ensures res.0.Ok? <==>
              && Truthy(email) && Truthy(password)
              && Users.FindByEmail(st.registry, email.value).Some?
              && Users.FindByEmail(st.registry, email.value).value.password == password
    ensures res.0.Ok? ==>
              && res.0.body.LoggedIn?
              && res.0.body.token == TokenPrefix + res.0.body.contractor.id
              && exists i :: 0 <= i < |st.registry|
                             && st.registry[i].email == email.value
                             && st.registry[i].password == password
                             && res.0.body.contractor == View(st.registry[i])
  {
    if !(Truthy(email) && Truthy(password)) then
      (MissingFields, st)
    else
      match Users.FindByEmail(st.registry, email.value)
      case None => (Unauthorized, st)
      case Some(user) =>
        if user.password != password then (Unauthorized, st)
        else (Ok(LoggedIn(View(user), TokenPrefix + user.id)), st)
  }

  /** GET /jobs: the whole job list, unfiltered. */
  function ListJobs(st: State): (res: (Response, State))
    ensures res.1 == st
    ensures res.0.Ok? && res.0.body.JobList?
    ensures res.0.body.jobs == st.jobs
  {
    (Ok(JobList(st.jobs)), st)
  }

  /** GET /jobs/:id: the stored job with that id, or `NotFound`. */
  function GetJob(st: State, jobId: Option<int>): (res: (Response, State))
    ensures res.1 == st
    ensures res.0 == NotFound <==> !JobExists(st.jobs, jobId)
    ensures res.0.Ok? || res.0 == NotFound
    ensures res.0.Ok? ==>
              && res.0.body.JobDetail?
              && res.0.body.job in st.jobs
              && res.0.body.job.id == jobId.value
  {
    match FindJob(st.jobs, jobId)
    case None => (NotFound, st)
    case Some(job) => (Ok(JobDetail(job)), st)
  }

  /** POST /jobs/:id/bids. The job is looked up before the body is
      validated; a falsy `contractorId` or `amount` (absent, empty, or 0) is
      missing; `message` defaults to the empty string. The contractor id is
      not checked against the registry. */
  function PlaceBid(st: State, jobId: Option<int>, contractorId: Option<string>,
                    amount: Option<int>, message: Option<string>, env: Env)
    : (res: (Response, State))
    ensures res.0 == NotFound <==> !JobExists(st.jobs, jobId)
    ensures res.0 == MissingFields
            <==> JobExists(st.jobs, jobId) && !(Truthy(contractorId) && TruthyNumber(amount))
    ensures res.0.Ok? || res.0 == NotFound || res.0 == MissingFields
    ensures !res.0.Ok? ==> res.1 == st
    ensures res.0.Ok? ==>
              && res.0.body.BidPlaced?
              && res.1 == st.(bids := st.bids + [res.0.body.bid])
    ensures res.0.Ok? ==>
              var b := res.0.body.bid;
              && b.id == env.nowMillis
              && b.jobId == jobId.value
              && b.contractorId == contractorId.value
              && b.amount == amount.value
              && b.message == message.GetOr("")
              && b.status == "pending"
              && b.createdAt == env.nowIso
  {
    if FindJob(st.jobs, jobId).None? then
      (NotFound, st)
    else if !(Truthy(contractorId) && TruthyNumber(amount)) then
      (MissingFields, st)
    else
      var bid := Bid(
        id := env.nowMillis,
        jobId := jobId.value,
        contractorId := contractorId.value,
        amount := amount.value,
        message := OrElse(message, ""),
        status := PendingStatus,
        createdAt := env.nowIso);
      (Ok(BidPlaced(bid)), st.(bids := st.bids + [bid]))
  }

  /** GET /contractors/:id/bids: every bid with exactly this contractor id,
      in the order they were placed. */
  function ListBidsForContractor(st: State, contractorId: string): (res: (Response, State))
    ensures res.1 == st
    ensures res.0.Ok? && res.0.body.BidList?
    ensures forall b :: b in res.0.body.bids ==> b in st.bids && b.contractorId == contractorId
    ensures forall i :: 0 <= i < |st.bids| && st.bids[i].contractorId == contractorId
                        ==> st.bids[i] in res.0.body.bids
  {
    (Ok(BidList(BidsOf(st.bids, contractorId))), st)
  }

  /** One request to one of the modelled routes, with its decoded inputs. */
  datatype Request =
    | SignupRequest(email: Option<string>, password: Option<string>, businessName: Option<string>)
    | LoginRequest(email: Option<string>, password: Option<string>)
    | ListJobsRequest
    | GetJobRequest(jobId: Option<int>)
    | PlaceBidRequest(jobId: Option<int>, contractorId: Option<string>,
                      amount: Option<int>, message: Option<string>)
    | ListBidsRequest(pathId: string)

  /** The registry invariant: no two contractors share an email. */
  ghost predicate Valid(st: State) {
    Users.EmailsUnique(st.registry)
  }

  /** Dispatch one request to its handler. Whatever the request: the job list
      is untouched, the registry and the bids only grow at the end, a failed
      request changes nothing, and the registry invariant is kept. */
  function Step(st: State, req: Request, env: Env): (res: (Response, State))
    ensures res.1.jobs == st.jobs
    ensures |st.registry| <= |res.1.registry| && res.1.registry[..|st.registry|] == st.registry
    ensures |st.bids| <= |res.1.bids| && res.1.bids[..|st.bids|] == st.bids
    ensures !res.0.Ok? ==> res.1 == st
    ensures Valid(st) ==> Valid(res.1)
  {
    var res := match req
      case SignupRequest(email, password, businessName) =>
        Signup(st, email, password, businessName, env)
      case LoginRequest(email, password) => Login(st, email, password)
      case ListJobsRequest => ListJobs(st)
      case GetJobRequest(jobId) => GetJob(st, jobId)
      case PlaceBidRequest(jobId, contractorId, amount, message) =>
        PlaceBid(st, jobId, contractorId, amount, message, env)
      case ListBidsRequest(pathId) => ListBidsForContractor(st, pathId)
    ;
    if req.SignupRequest? then
      SignupKeepsValid(st, req.email, req.password, req.businessName, env);
      res
    else
      res
  }

  /** A successful signup keeps the registry invariant. */
  lemma SignupKeepsValid(st: State, email: Option<string>, password: Option<string>,
                         businessName: Option<string>, env: Env)
    ensures Valid(st) ==> Valid(Signup(st, email, password, businessName, env).1)
  {
    var (r, st') := Signup(st, email, password, businessName, env);
    if Valid(st) && r.Ok? {
      var input := Users.ContractorInput(
        id := None, businessName := businessName, email := email,
        password := password, createdAt := None);
      Users.AddPreservesEmailsUnique(st.registry, Some(input), env.uuid, env.nowIso);
    }
  }

  /** Serve a sequence of requests in order, each with its own environment. */
  function Run(st: State, calls: seq<(Request, Env)>): (res: (seq<Response>, State))
    ensures |res.0| == |calls|
    ensures res.1.jobs == st.jobs
    ensures |st.registry| <= |res.1.registry| && res.1.registry[..|st.registry|] == st.registry
    ensures |st.bids| <= |res.1.bids| && res.1.bids[..|st.bids|] == st.bids
    ensures Valid(st) ==> Valid(res.1)
    decreases |calls|
  {
    if |calls| == 0 then ([], st)
    else
      var (r, st') := Step(st, calls[0].0, calls[0].1);
      var (rs, st'') := Run(st', calls[1..]);
      assert st''.registry[..|st.registry|] == st'.registry[..|st'.registry|][..|st.registry|];
      assert st''.bids[..|st.bids|] == st'.bids[..|st'.bids|][..|st.bids|];
      ([r] + rs, st'')
  }
}
