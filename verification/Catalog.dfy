/** The desired-state catalog: the five kinds of document, schema-shaped, and the index by kind
    and name that every tool builds first. */
module Catalog {
  import opened Json
  import opened Ordering
  import opened Text

  // ---- documents ---------------------------------------------------------------------------

  datatype CustomerLifecycle = CustomerActive | Suspended | Offboarding | Offboarded

  datatype Customer = Customer(name: string, customerId: string, lifecycle: CustomerLifecycle)

  /** A mapping entry that may be missing, null, or a string. */
  datatype Selector = Absent | NullValue | Named(network: string)

  datatype Adapter = Adapter(mode: string, network: Selector, signingQualified: bool)

  datatype ArtifactBundle = ArtifactBundle(url: string, sha256: string, files: map<string, string>)

  datatype Checkpoint = Checkpoint(primaryUrl: string, verificationUrls: seq<string>)

  datatype ResetPolicy = Persistent | ReplaceData

  datatype NetworkProfile = NetworkProfile(
    name: string,
    family: string,
    generation: string,
    resetPolicy: ResetPolicy,
    identity: Json,
    clients: map<string, Adapter>,
    signer: Adapter,
    artifactBundle: Option<ArtifactBundle>,
    checkpointSync: Option<Checkpoint>)

  datatype ServiceProfile = ServiceProfile(
    name: string, executionClient: string, consensusClient: string, signingAllowed: bool)

  datatype IdentityLifecycle = Draft | Registered | Retired

  datatype ValidatorIdentity = ValidatorIdentity(
    name: string,
    customerRef: string,
    networkProfileRef: string,
    lifecycle: IdentityLifecycle,
    synthetic: bool,
    publicKey: Option<string>,
    signingSecretRef: Option<string>)

  datatype Lifecycle =
    Activating | Active | FailedSafe | Stopping | Stopped | Archiving | Archived | Switching

  datatype Safety = Safety(slashingProtectionConfirmed: bool, doppelgangerProtectionConfirmed: bool)

  datatype ValidatorAssignment = ValidatorAssignment(
    name: string,
    validatorRef: string,
    networkProfileRef: string,
    serviceProfileRef: string,
    lifecycle: Lifecycle,
    nodePairRef: Option<string>,
    signingEnabled: bool,
    feeRecipient: Option<string>,
    safety: Safety,
    maintenanceReason: Option<string>)

  datatype Document =
    | CustomerDocument(customer: Customer)
    | NetworkDocument(network: NetworkProfile)
    | ServiceDocument(service: ServiceProfile)
    | IdentityDocument(identity: ValidatorIdentity)
    | AssignmentDocument(assignment: ValidatorAssignment)
  {
    function Name(): string {
      match this
      case CustomerDocument(c) => c.name
      case NetworkDocument(n) => n.name
      case ServiceDocument(s) => s.name
      case IdentityDocument(i) => i.name
      case AssignmentDocument(a) => a.name
    }

    function Kind(): Kind {
      match this
      case CustomerDocument(_) => CustomerKind
      case NetworkDocument(_) => NetworkProfileKind
      case ServiceDocument(_) => ServiceProfileKind
      case IdentityDocument(_) => ValidatorIdentityKind
      case AssignmentDocument(_) => ValidatorAssignmentKind
    }
  }

  datatype Kind =
    CustomerKind | NetworkProfileKind | ServiceProfileKind | ValidatorIdentityKind | ValidatorAssignmentKind

  /** A string that is present and not empty: what Python's `if value:` asks of an optional string. */
  predicate Given(s: Option<string>) {
    s.Some? && s.value != ""
  }

  // ---- the index ---------------------------------------------------------------------------

  datatype Index = Index(
    customers: map<string, Customer>,
    networks: map<string, NetworkProfile>,
    services: map<string, ServiceProfile>,
    identities: map<string, ValidatorIdentity>,
    assignments: map<string, ValidatorAssignment>)
  {
    predicate Has(kind: Kind, name: string) {
      match kind
      case CustomerKind => name in customers
      case NetworkProfileKind => name in networks
      case ServiceProfileKind => name in services
      case ValidatorIdentityKind => name in identities
      case ValidatorAssignmentKind => name in assignments
    }

    function With(d: Document): Index {
      match d
      case CustomerDocument(c) => this.(customers := customers[c.name := c])
      case NetworkDocument(n) => this.(networks := networks[n.name := n])
      case ServiceDocument(s) => this.(services := services[s.name := s])
      case IdentityDocument(i) => this.(identities := identities[i.name := i])
      case AssignmentDocument(a) => this.(assignments := assignments[a.name := a])
    }

    /** d is what the index holds under d's kind and name. */
    ghost predicate Holds(d: Document) {
      match d
      case CustomerDocument(c) => c.name in customers && customers[c.name] == c
      case NetworkDocument(n) => n.name in networks && networks[n.name] == n
      case ServiceDocument(s) => s.name in services && services[s.name] == s
      case IdentityDocument(i) => i.name in identities && identities[i.name] == i
      case AssignmentDocument(a) => a.name in assignments && assignments[a.name] == a
    }

    /** Every entry is filed under its own name. */
    ghost predicate Filed() {
      && (forall n | n in customers :: customers[n].name == n)
      && (forall n | n in networks :: networks[n].name == n)
      && (forall n | n in services :: services[n].name == n)
      && (forall n | n in identities :: identities[n].name == n)
      && (forall n | n in assignments :: assignments[n].name == n)
    }
  }

  const EMPTY_INDEX := Index(map[], map[], map[], map[], map[])

  lemma WithFiled(index: Index, d: Document)
    requires index.Filed()
    ensures index.With(d).Filed()
  {
  }

  predicate SameId(d: Document, e: Document) {
    d.Kind() == e.Kind() && d.Name() == e.Name()
  }

  lemma WithHas(index: Index, d: Document, kind: Kind, name: string)
    ensures index.With(d).Has(kind, name) <==> index.Has(kind, name) || (kind == d.Kind() && name == d.Name())
  {
  }

  lemma WithHolds(index: Index, d: Document, e: Document)
    ensures index.With(d).Holds(e) <==> if SameId(d, e) then d == e else index.Holds(e)
  {
  }

  function Push(index: Index, d: Document): Index {
    if index.Has(d.Kind(), d.Name()) then index else index.With(d)
  }

  /** The first document of each kind and name, as the loops that skip later duplicates leave it. */
  function IndexOf(documents: seq<Document>): Index {
    if documents == [] then EMPTY_INDEX
    else Push(IndexOf(documents[..|documents| - 1]), documents[|documents| - 1])
  }

  lemma {:induction false} IndexFiled(documents: seq<Document>)
    ensures IndexOf(documents).Filed()
  {
    if documents == [] {
    } else {
      var before := documents[..|documents| - 1];
      IndexFiled(before);
      WithFiled(IndexOf(before), documents[|documents| - 1]);
    }
  }

  /** Some document of this kind and name is among the documents. */
  ghost predicate Present(documents: seq<Document>, kind: Kind, name: string) {
    exists d :: d in documents && d.Kind() == kind && d.Name() == name
  }

  /** No two documents share both kind and name. */
  ghost predicate UniqueNames(documents: seq<Document>) {
    forall i, j | 0 <= i < j < |documents| :: !SameId(documents[i], documents[j])
  }

  lemma {:induction false} IndexHas(documents: seq<Document>, kind: Kind, name: string)
    ensures IndexOf(documents).Has(kind, name) <==> Present(documents, kind, name)
  {
    if documents == [] {
    } else {
      var last, before := documents[|documents| - 1], documents[..|documents| - 1];
      IndexHas(before, kind, name);
      WithHas(IndexOf(before), last, kind, name);
      assert forall d :: d in documents <==> d in before || d == last by {
        assert documents == before + [last];
      }
    }
  }

  /** Without duplicates the index holds exactly the documents. */
  lemma {:induction false} IndexHolds(documents: seq<Document>, d: Document)
    requires UniqueNames(documents)
    ensures IndexOf(documents).Holds(d) <==> d in documents
  {
    if documents == [] {
    } else {
      var last, before := documents[|documents| - 1], documents[..|documents| - 1];
      IndexHolds(before, d);
      IndexHas(before, last.Kind(), last.Name());
      WithHolds(IndexOf(before), last, d);
      assert d in documents <==> d in before || d == last by {
        assert documents == before + [last];
      }
    }
  }

  lemma {:induction false} HeldIsListed(documents: seq<Document>, d: Document)
    requires IndexOf(documents).Holds(d)
    ensures d in documents
  {
    if documents == [] {
    } else {
      var last, before := documents[|documents| - 1], documents[..|documents| - 1];
      WithHolds(IndexOf(before), last, d);
      if IndexOf(before).Holds(d) {
        HeldIsListed(before, d);
      }
      assert documents == before + [last];
    }
  }

  /** Of several documents with one kind and name, the index holds the first. */
  lemma {:induction false} FirstIsKept(documents: seq<Document>, d: Document)
    ensures IndexOf(documents).Holds(d)
            <==> exists i :: 0 <= i < |documents| && documents[i] == d && forall j | 0 <= j < i :: !SameId(documents[j], d)
  {
    if documents == [] {
    } else {
      var last, before := documents[|documents| - 1], documents[..|documents| - 1];
      FirstIsKept(before, d);
      IndexHas(before, last.Kind(), last.Name());
      WithHolds(IndexOf(before), last, d);
      assert documents == before + [last];
      assert Present(before, last.Kind(), last.Name())
             <==> exists j :: 0 <= j < |before| && SameId(before[j], last);
    }
  }

  /** An index is known by what it holds. */
  lemma IndexExtensional(a: Index, b: Index)
    requires a.Filed() && b.Filed()
    requires forall d: Document :: a.Holds(d) <==> b.Holds(d)
    ensures a == b
  {
    SameHoldings(a, b);
    SameHoldings(b, a);
    assert a.customers == b.customers;
    assert a.networks == b.networks;
    assert a.services == b.services;
    assert a.identities == b.identities;
    assert a.assignments == b.assignments;
  }

  lemma SameHoldings(a: Index, b: Index)
    requires a.Filed()
    requires forall d: Document :: a.Holds(d) ==> b.Holds(d)
    ensures forall n | n in a.customers :: n in b.customers && a.customers[n] == b.customers[n]
    ensures forall n | n in a.networks :: n in b.networks && a.networks[n] == b.networks[n]
    ensures forall n | n in a.services :: n in b.services && a.services[n] == b.services[n]
    ensures forall n | n in a.identities :: n in b.identities && a.identities[n] == b.identities[n]
    ensures forall n | n in a.assignments :: n in b.assignments && a.assignments[n] == b.assignments[n]
  {
    forall n | n in a.customers ensures b.Holds(CustomerDocument(a.customers[n])) {
      assert a.Holds(CustomerDocument(a.customers[n]));
    }
    forall n | n in a.networks ensures b.Holds(NetworkDocument(a.networks[n])) {
      assert a.Holds(NetworkDocument(a.networks[n]));
    }
    forall n | n in a.services ensures b.Holds(ServiceDocument(a.services[n])) {
      assert a.Holds(ServiceDocument(a.services[n]));
    }
    forall n | n in a.identities ensures b.Holds(IdentityDocument(a.identities[n])) {
      assert a.Holds(IdentityDocument(a.identities[n]));
    }
    forall n | n in a.assignments ensures b.Holds(AssignmentDocument(a.assignments[n])) {
      assert a.Holds(AssignmentDocument(a.assignments[n]));
    }
  }

  /** Whether names repeat does not depend on the order of the documents. */
  lemma UniqueNamesAnyOrder(a: seq<Document>, b: seq<Document>)
    requires multiset(a) == multiset(b) && UniqueNames(a)
    ensures UniqueNames(b)
  {
    forall i, j | 0 <= i < j < |b| ensures !SameId(b[i], b[j]) {
      SameMembers(a, b);
      assert b[i] in a && b[j] in a;
      forall k, l | 0 <= k < l < |a| ensures a[k] != a[l] {
        assert !SameId(a[k], a[l]);
      }
      DistinctAnyOrder(a, b, i, j);
      var k :| 0 <= k < |a| && a[k] == b[i];
      var l :| 0 <= l < |a| && a[l] == b[j];
    }
  }

  /** The index does not depend on the order of the documents when no names repeat. */
  lemma IndexAnyOrder(a: seq<Document>, b: seq<Document>)
    requires multiset(a) == multiset(b) && UniqueNames(a)
    ensures IndexOf(a) == IndexOf(b)
  {
    UniqueNamesAnyOrder(a, b);
    IndexFiled(a);
    IndexFiled(b);
    forall d: Document ensures IndexOf(a).Holds(d) <==> IndexOf(b).Holds(d) {
      IndexHolds(a, d);
      IndexHolds(b, d);
      assert d in a <==> d in multiset(a);
      assert d in b <==> d in multiset(b);
    }
    IndexExtensional(IndexOf(a), IndexOf(b));
  }
}
