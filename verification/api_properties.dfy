/** Properties of the request layer that relate several requests: signup
    followed by login, bid placement followed by bid listing, the job list
    over any run, and the walkthrough of placing a bid on job 1. */
module ApiProperties {
  import opened Wrappers
  import opened Truthiness
  import Seqs
  import Users
  import opened Api

  /** After a successful signup, logging in with the same email and password
      succeeds, with the token built from the generated id and a view that
      omits the password. */
  lemma SignupThenLogin(st: State, email: Option<string>, password: Option<string>,
                        businessName: Option<string>, env: Env)
    requires Signup(st, email, password, businessName, env).0.Ok?
    ensures var st' := Signup(st, email, password, businessName, env).1;
            Login(st', email, password)
            == (Ok(LoggedIn(ContractorView(env.uuid, email.value, businessName.value),
                            "token-" + env.uuid)),
                st')
  {
    var (r, st') := Signup(st, email, password, businessName, env);
    var c := r.body.record;
    assert st'.registry == st.registry + [c];
    Seqs.FindIndexSnoc(st.registry, c, (x: Users.Contractor) => x.email == email.value);
  }

  /** After a successful signup, any other truthy password is refused with
      the same `Unauthorized` as an unknown email. */
  lemma SignupThenWrongPassword(st: State, email: Option<string>, password: Option<string>,
                                businessName: Option<string>, env: Env, other: Option<string>)
    requires Signup(st, email, password, businessName, env).0.Ok?
    requires Truthy(other) && other != password
    ensures var st' := Signup(st, email, password, businessName, env).1;
            Login(st', email, other) == (Unauthorized, st')
  {
    var (r, st') := Signup(st, email, password, businessName, env);
    var c := r.body.record;
    assert st'.registry == st.registry + [c];
    Seqs.FindIndexSnoc(st.registry, c, (x: Users.Contractor) => x.email == email.value);
  }

  /** Signing up twice with one email: the second attempt is a `Conflict`
      and the registry keeps its size. */
  lemma SignupTwiceConflicts(st: State, email: Option<string>, password: Option<string>,
                             businessName: Option<string>, env: Env,
                             password2: Option<string>, businessName2: Option<string>, env2: Env)
    requires Signup(st, email, password, businessName, env).0.Ok?
    requires Truthy(password2) && Truthy(businessName2)
    ensures var st' := Signup(st, email, password, businessName, env).1;
            Signup(st', email, password2, businessName2, env2) == (Conflict, st')
  {
    var (r, st') := Signup(st, email, password, businessName, env);
    assert st'.registry[|st.registry|].email == email.value;
  }

  /** With unique emails, login succeeds exactly when some contractor has
      this email and this password. */
  lemma LoginSucceedsIff(st: State, email: Option<string>, password: Option<string>)
    requires Valid(st)
    ensures Login(st, email, password).0.Ok?
            <==> && Truthy(email) && Truthy(password)
                 && exists i :: 0 <= i < |st.registry|
                                && st.registry[i].email == email.value
                                && st.registry[i].password == password
  {
    if Truthy(email) && Truthy(password) {
      if i :| 0 <= i < |st.registry| && st.registry[i].email == email.value
                                     && st.registry[i].password == password {
        Users.FindByEmailUnique(st.registry, i);
      }
    }
  }

  /** Login does not reveal whether an email is registered: an unknown email
      and a known email with the wrong password give the same answer. */
  lemma LoginDoesNotRevealEmail(st: State, email: Option<string>, password: Option<string>)
    requires Valid(st)
    requires Truthy(email) && Truthy(password)
    ensures !Users.HasEmail(st.registry, email.value) ==> Login(st, email, password).0 == Unauthorized
    ensures forall i :: 0 <= i < |st.registry| && st.registry[i].email == email.value
                        && st.registry[i].password != password
                        ==> Login(st, email, password).0 == Unauthorized
  {
    forall i | 0 <= i < |st.registry| && st.registry[i].email == email.value
                                      && st.registry[i].password != password
      ensures Login(st, email, password).0 == Unauthorized
    {
      Users.FindByEmailUnique(st.registry, i);
    }
  }

  /** Bid listing respects placement order: the bids of a contractor over two
      stretches of history are those of the first stretch, then those of the
      second. */
  lemma BidsOfConcat(bids: seq<Bid>, more: seq<Bid>, contractorId: string)
    ensures BidsOf(bids + more, contractorId) == BidsOf(bids, contractorId) + BidsOf(more, contractorId)
  {
    Seqs.FilterConcat(bids, more, (b: Bid) => b.contractorId == contractorId);
  }

  /** After a successful bid, the bidder's list gains exactly that bid at the
      end and every other contractor's list is unchanged. */
  lemma PlaceBidThenList(st: State, jobId: Option<int>, contractorId: Option<string>,
                         amount: Option<int>, message: Option<string>, env: Env, who: string)
    requires PlaceBid(st, jobId, contractorId, amount, message, env).0.Ok?
    ensures var (r, st') := PlaceBid(st, jobId, contractorId, amount, message, env);
            ListBidsForContractor(st', who).0.body.bids
            == BidsOf(st.bids, who) + (if who == contractorId.value then [r.body.bid] else [])
  {
    var (r, st') := PlaceBid(st, jobId, contractorId, amount, message, env);
    Seqs.FilterSnoc(st.bids, r.body.bid, (b: Bid) => b.contractorId == who);
  }

  /** Whatever requests are served from process start, the job list is the
      seed list and every seed job is still found by its id. */
  lemma JobsNeverChange(calls: seq<(Request, Env)>, i: nat)
    requires i < |SeedJobs|
    ensures var st := Run(Initial, calls).1;
            && ListJobs(st).0 == Ok(JobList(SeedJobs))
            && GetJob(st, Some(SeedJobs[i].id)).0 == Ok(JobDetail(SeedJobs[i]))
  {
    var st := Run(Initial, calls).1;
    assert st.jobs == SeedJobs;
    assert SeedJobs[0].id == 1 && SeedJobs[1].id == 2;
  }

  /** With a fresh generated id, any request keeps contractor ids unique. */
  lemma StepKeepsIdsUnique(st: State, req: Request, env: Env)
    requires Users.IdsUnique(st.registry)
    requires !Users.HasId(st.registry, env.uuid)
    ensures Users.IdsUnique(Step(st, req, env).1.registry)
  {
    if req.SignupRequest? {
      var input := Users.ContractorInput(
        id := None, businessName := req.businessName, email := req.email,
        password := req.password, createdAt := None);
      Users.AddPreservesIdsUnique(st.registry, Some(input), env.uuid, env.nowIso);
    }
  }

  /** From process start: job 1 is the exterior repaint; a bid of 6000 by
      "c1" on it with no message is accepted as pending with an empty
      message; afterwards "c1" has exactly that one bid. */
  lemma BidOnJobOne(env: Env)
    ensures GetJob(Initial, Some(1)).0 == Ok(JobDetail(SeedJobs[0]))
    ensures SeedJobs[0].budgetMin == 5000 && SeedJobs[0].budgetMax == 8000
    ensures var (r, st) := PlaceBid(Initial, Some(1), Some("c1"), Some(6000), None, env);
            && r.Ok?
            && r.body.bid.jobId == 1
            && r.body.bid.status == "pending"
            && r.body.bid.message == ""
            && ListBidsForContractor(st, "c1").0.body.bids == [r.body.bid]
  {
    var (r, st) := PlaceBid(Initial, Some(1), Some("c1"), Some(6000), None, env);
    assert FindJob(SeedJobs, Some(1)).Some? by {
      assert SeedJobs[0].id == 1;
    }
    PlaceBidThenList(Initial, Some(1), Some("c1"), Some(6000), None, env, "c1");
    assert BidsOf([], "c1") == [];
  }
}
