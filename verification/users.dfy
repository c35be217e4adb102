/** The contractor registry: an ordered sequence of contractor records with
    add, find-by-email, get-by-id, list and remove-by-id. Each operation is a
    pure function of the current store; the ones that change it also return
    the new store. */
module Users {
  import opened Wrappers
  import opened Truthiness
  import Seqs

  /** A stored contractor. `password` is absent when the caller supplied none. */
  datatype Contractor = Contractor(
    id: string,
    businessName: string,
    email: string,
    password: Option<string>,
    createdAt: string)

  /** The object handed to `add`. Every property is optional; a supplied
      `id`, `businessName` or `createdAt` wins over the generated default. */
  datatype ContractorInput = ContractorInput(
    id: Option<string>,
    businessName: Option<string>,
    email: Option<string>,
    password: Option<string>,
    createdAt: Option<string>)

  /** The two errors `add` throws. */
  datatype AddError = MissingEmail | DuplicateEmail

  type Store = seq<Contractor>

  /** The registry invariant: no two records share an email. */
  ghost predicate EmailsUnique(s: Store) {
    forall i, j :: 0 <= i < j < |s| ==> s[i].email != s[j].email
  }

  /** No two records share an id. */
  ghost predicate IdsUnique(s: Store) {
    forall i, j :: 0 <= i < j < |s| ==> s[i].id != s[j].id
  }

  ghost predicate HasEmail(s: Store, email: string) {
    exists i :: 0 <= i < |s| && s[i].email == email
  }

  ghost predicate HasId(s: Store, id: string) {
    exists i :: 0 <= i < |s| && s[i].id == id
  }

  /** The guard of `add`: an input object whose email is truthy. */
  predicate SuppliesEmail(input: Option<ContractorInput>) {
    input.Some? && Truthy(input.value.email)
  }

  /** The record `add` builds: generated id and timestamp, `businessName`
      defaulted to the empty string, then every supplied field spread over
      those defaults. */
  function NewRecord(input: ContractorInput, uuid: string, now: string): Contractor
    requires Truthy(input.email)
  {
    Contractor(
      id := input.id.GetOr(uuid),
      // `businessName || ''` is overridden by the spread whenever the field
      // is present, so the fallback matters only for an absent field.
      businessName := input.businessName.GetOr(""),
      email := input.email.value,
      password := input.password,
      createdAt := input.createdAt.GetOr(now))
  }

  /** `findContractorByEmail`: the first record with this email, if any. */
  function FindByEmail(s: Store, email: string): (r: Option<Contractor>)
    ensures r.None? <==> !HasEmail(s, email)
    ensures r.Some? ==> r.value.email == email
    ensures r.Some? ==> exists i :: 0 <= i < |s| && s[i] == r.value
                                   && forall j :: 0 <= j < i ==> s[j].email != email
  {
    Seqs.Find(s, (c: Contractor) => c.email == email)
  }

  /** Index of the first record with this id. */
  function IndexOfId(s: Store, id: string): (r: Option<nat>)
    ensures r.None? <==> !HasId(s, id)
    ensures r.Some? ==> r.value < |s| && s[r.value].id == id
    ensures r.Some? ==> forall j :: 0 <= j < r.value ==> s[j].id != id
  {
    Seqs.FindIndex(s, (c: Contractor) => c.id == id)
  }

  /** `getContractorById`: the first record with this id, if any. */
  function GetById(s: Store, id: string): (r: Option<Contractor>)
    ensures r.None? <==> !HasId(s, id)
    ensures r.Some? ==> r.value.id == id
    ensures r.Some? ==> exists i :: 0 <= i < |s| && s[i] == r.value
                                   && forall j :: 0 <= j < i ==> s[j].id != id
  {
    match IndexOfId(s, id)
    case None => None
    case Some(i) => Some(s[i])
  }

  /** `listContractors`: a copy of the store, the same records in the same
      order. Records are values here, so the sharing of record objects
      between the shallow copy and the store is not modelled. */
  function List(s: Store): (r: seq<Contractor>)
    ensures |r| == |s|
    ensures forall i :: 0 <= i < |s| ==> r[i] == s[i]
  {
    s[..]
  }

  /** `addContractor`: reject a missing or empty email, then a duplicate
      email; otherwise append the new record. A failure leaves the store as
      it was. */
  function Add(s: Store, input: Option<ContractorInput>, uuid: string, now: string)
    : (res: (Result<Contractor, AddError>, Store))
    ensures res.0 == Failure(MissingEmail) <==> !SuppliesEmail(input)
    ensures res.0 == Failure(DuplicateEmail)
            <==> SuppliesEmail(input) && HasEmail(s, input.value.email.value)
    ensures res.0.Failure? ==> res.1 == s
    ensures res.0.Success? ==>
              && |res.1| == |s| + 1
              && res.1[..|s|] == s
              && res.1[|s|] == res.0.value
    ensures res.0.Success? ==>
              var c := res.0.value;
              && c.email == input.value.email.value
              && c.password == input.value.password
              && c.id == input.value.id.GetOr(uuid)
              && c.businessName == input.value.businessName.GetOr("")
              && c.createdAt == input.value.createdAt.GetOr(now)
  {
    if !SuppliesEmail(input) then
      (Failure(MissingEmail), s)
    else if FindByEmail(s, input.value.email.value).Some? then
      (Failure(DuplicateEmail), s)
    else
      var record := NewRecord(input.value, uuid, now);
      (Success(record), s + [record])
  }

  /** `removeContractorById`: remove the first record with this id and return
      it; on an absent id return nothing and keep the store. */
  function RemoveById(s: Store, id: string): (res: (Option<Contractor>, Store))
    ensures res.0 == GetById(s, id)
    ensures res.0.None? ==> res.1 == s
    ensures res.0.Some? ==>
              && |res.1| == |s| - 1
              && multiset(res.1) + multiset{res.0.value} == multiset(s)
    ensures res.0.Some? ==>
              exists k :: 0 <= k < |s| && s[k] == res.0.value
                          && (forall j :: 0 <= j < k ==> s[j].id != id)
                          && (forall j :: 0 <= j < k ==> res.1[j] == s[j])
                          && (forall j :: k <= j < |res.1| ==> res.1[j] == s[j + 1])
  {
    match IndexOfId(s, id)
    case None => (None, s)
    case Some(k) => (Some(s[k]), Seqs.RemoveAt(s, k))
  }

  /** `add` keeps the registry invariant: it appends only an email that no
      record has. */
  lemma AddPreservesEmailsUnique(s: Store, input: Option<ContractorInput>, uuid: string, now: string)
    requires EmailsUnique(s)
    ensures EmailsUnique(Add(s, input, uuid, now).1)
  {
    var (r, s') := Add(s, input, uuid, now);
    if r.Success? {
      forall i, j | 0 <= i < j < |s'|
        ensures s'[i].email != s'[j].email
      {
        if j == |s| {
          assert s[i] == s'[i];
          assert !HasEmail(s, input.value.email.value);
        } else {
          assert s[i] == s'[i] && s[j] == s'[j];
        }
      }
    }
  }

  /** `removeById` keeps the registry invariant: what remains is the old
      store with one position taken out. */
  lemma RemovePreservesEmailsUnique(s: Store, id: string)
    requires EmailsUnique(s)
    ensures EmailsUnique(RemoveById(s, id).1)
  {
    var (r, s') := RemoveById(s, id);
    if r.Some? {
      var k :| 0 <= k < |s| && s[k] == r.value
               && (forall j :: 0 <= j < k ==> s'[j] == s[j])
               && (forall j :: k <= j < |s'| ==> s'[j] == s[j + 1]);
      forall i, j | 0 <= i < j < |s'|
        ensures s'[i].email != s'[j].email
      {
        var i' := if i < k then i else i + 1;
        var j' := if j < k then j else j + 1;
        assert s'[i] == s[i'] && s'[j] == s[j'];
      }
    }
  }

  /** With a fresh generated id and no caller-supplied id, `add` keeps ids
      unique as well. */
  lemma AddPreservesIdsUnique(s: Store, input: Option<ContractorInput>, uuid: string, now: string)
    requires IdsUnique(s)
    requires !HasId(s, uuid)
    requires input.Some? ==> input.value.id.None?
    ensures IdsUnique(Add(s, input, uuid, now).1)
  {
    var (r, s') := Add(s, input, uuid, now);
    if r.Success? {
      forall i, j | 0 <= i < j < |s'|
        ensures s'[i].id != s'[j].id
      {
        assert s[i] == s'[i];
        if j < |s| {
          assert s[j] == s'[j];
        }
      }
    }
  }

  /** After a successful `add`, looking up its email finds the new record,
      and every other email finds what it found before. */
  lemma FindAfterAdd(s: Store, input: Option<ContractorInput>, uuid: string, now: string, email: string)
    requires Add(s, input, uuid, now).0.Success?
    ensures var (r, s') := Add(s, input, uuid, now);
            FindByEmail(s', email)
            == if email == r.value.email then Some(r.value) else FindByEmail(s, email)
  {
    var (r, s') := Add(s, input, uuid, now);
    assert s' == s + [r.value];
    Seqs.FindIndexSnoc(s, r.value, (c: Contractor) => c.email == email);
  }

  /** Looking up by id after a successful `add` finds the new record when its
      id was fresh. */
  lemma GetByIdAfterAdd(s: Store, input: Option<ContractorInput>, uuid: string, now: string)
    requires Add(s, input, uuid, now).0.Success?
    requires !HasId(s, Add(s, input, uuid, now).0.value.id)
    ensures var (r, s') := Add(s, input, uuid, now);
            GetById(s', r.value.id) == Some(r.value)
  {
    var (r, s') := Add(s, input, uuid, now);
    assert s' == s + [r.value];
    Seqs.FindIndexSnoc(s, r.value, (c: Contractor) => c.id == r.value.id);
  }

  /** `removeById` undoes a successful `add` that generated a fresh id. */
  lemma RemoveAfterAdd(s: Store, input: Option<ContractorInput>, uuid: string, now: string)
    requires Add(s, input, uuid, now).0.Success?
    requires !HasId(s, uuid)
    requires input.Some? ==> input.value.id.None?
    ensures var (r, s') := Add(s, input, uuid, now);
            RemoveById(s', uuid) == (Some(r.value), s)
  {
    var (r, s') := Add(s, input, uuid, now);
    assert s' == s + [r.value];
    Seqs.FindIndexSnoc(s, r.value, (c: Contractor) => c.id == uuid);
    assert Seqs.RemoveAt(s', |s|) == s;
  }

  /** When emails are unique, looking up a stored record's email finds that
      very record. */
  lemma FindByEmailUnique(s: Store, i: nat)
    requires EmailsUnique(s)
    requires i < |s|
    ensures FindByEmail(s, s[i].email) == Some(s[i])
  {
  }

  /** The listing after a successful `add` is the old listing plus the new
      record. */
  lemma ListAfterAdd(s: Store, input: Option<ContractorInput>, uuid: string, now: string)
    requires Add(s, input, uuid, now).0.Success?
    ensures List(Add(s, input, uuid, now).1) == List(s) + [Add(s, input, uuid, now).0.value]
  {
    var (r, s') := Add(s, input, uuid, now);
    assert s' == s + [r.value];
  }
}
