/** What the relational checker asks of a catalog, said of its documents: no index, no tables, no findings. */
module CatalogDocuments {
  import opened Catalog
  import opened CatalogRules
  import opened Text

  // ---- the rules ---------------------------------------------------------------------------

  /** No two positions hold documents of one kind and name. */
  ghost predicate NamesDiffer(documents: seq<Document>) {
    forall i, j | 0 <= i < |documents| && 0 <= j < |documents| && i != j ::
      documents[i].Kind() != documents[j].Kind() || documents[i].Name() != documents[j].Name()
  }

  ghost predicate CustomersDiffer(documents: seq<Document>) {
    forall c, d | CustomerDocument(c) in documents && CustomerDocument(d) in documents && c.customerId == d.customerId ::
      c.name == d.name
  }

  ghost predicate KeysDiffer(documents: seq<Document>) {
    forall i, j | IdentityDocument(i) in documents && IdentityDocument(j) in documents :: !KeysDifferInCase(i, j)
  }

  /** The customer and the network of an identity. */
  ghost predicate Belongs(documents: seq<Document>, i: ValidatorIdentity, c: Customer, p: NetworkProfile) {
    && CustomerDocument(c) in documents && c.name == i.customerRef
    && NetworkDocument(p) in documents && p.name == i.networkProfileRef
  }

  ghost predicate IdentitiesBelong(documents: seq<Document>) {
    forall i | IdentityDocument(i) in documents :: exists c, p :: Belongs(documents, i, c, p)
  }

  /** What an assignment refers to; its network is that of its identity. */
  ghost predicate Binds(
    documents: seq<Document>, a: ValidatorAssignment, i: ValidatorIdentity, s: ServiceProfile, c: Customer, p: NetworkProfile)
  {
    && IdentityDocument(i) in documents && i.name == a.validatorRef
    && ServiceDocument(s) in documents && s.name == a.serviceProfileRef
    && Belongs(documents, i, c, p) && p.name == a.networkProfileRef
  }

  /** A signing assignment is of a real, registered identity of an active customer, and its service and signer
      allow it. An assignment that is not stopped or on its way to the archive is of a customer that stays. */
  predicate IsPermitted(a: ValidatorAssignment, i: ValidatorIdentity, s: ServiceProfile, c: Customer, p: NetworkProfile) {
    && (a.signingEnabled ==>
          && !i.synthetic && i.lifecycle == Registered && c.lifecycle == CustomerActive && s.signingAllowed
          && (p.signer.signingQualified || p.signer.mode == "builtin"))
    && (a.lifecycle in {Stopped, Archiving, Archived} || c.lifecycle in {CustomerActive, Suspended})
  }

  ghost predicate AssignmentsPermitted(documents: seq<Document>) {
    forall a | AssignmentDocument(a) in documents ::
      exists i, s, c, p :: Binds(documents, a, i, s, c, p) && IsPermitted(a, i, s, c, p)
  }

  /** Both are live, and they use one validator or one recorded node pair. */
  predicate Collide(a: ValidatorAssignment, b: ValidatorAssignment) {
    && a.lifecycle !in {Stopped, Archiving, Archived} && b.lifecycle !in {Stopped, Archiving, Archived}
    && (a.validatorRef == b.validatorRef
        || (a.nodePairRef.Some? && a.nodePairRef == b.nodePairRef && a.nodePairRef.value != ""))
  }

  ghost predicate NoneCollide(documents: seq<Document>) {
    forall a, b | AssignmentDocument(a) in documents && AssignmentDocument(b) in documents && a.name != b.name :: !Collide(a, b)
  }

  ghost predicate ProfilesAreSound(documents: seq<Document>) {
    forall p | NetworkDocument(p) in documents :: SoundNetwork(p)
  }

  // ---- and the catalogs without findings ---------------------------------------------------

  /** The index holds exactly the documents, each under its name. */
  ghost predicate Indexes(index: Index, documents: seq<Document>) {
    index.Filed() && forall d: Document :: index.Holds(d) <==> d in documents
  }

  lemma NamesIff(documents: seq<Document>)
    ensures UniqueNames(documents) <==> NamesDiffer(documents)
  {
    if UniqueNames(documents) {
      forall i, j | 0 <= i < |documents| && 0 <= j < |documents| && i != j
        ensures documents[i].Kind() != documents[j].Kind() || documents[i].Name() != documents[j].Name()
      {
        if i < j {
          assert !SameId(documents[i], documents[j]);
        } else {
          assert !SameId(documents[j], documents[i]);
        }
      }
    }
  }

  lemma CustomersIff(index: Index, documents: seq<Document>)
    requires Indexes(index, documents)
    ensures DistinctCustomerIds(index) <==> CustomersDiffer(documents)
  {
    if DistinctCustomerIds(index) {
      forall c, d | CustomerDocument(c) in documents && CustomerDocument(d) in documents && c.customerId == d.customerId
        ensures c.name == d.name
      {
        assert index.Holds(CustomerDocument(c)) && index.Holds(CustomerDocument(d));
      }
    }
    if CustomersDiffer(documents) {
      forall m, n | m in index.customers && n in index.customers && m != n
        ensures index.customers[m].customerId != index.customers[n].customerId
      {
        assert index.Holds(CustomerDocument(index.customers[m])) && index.Holds(CustomerDocument(index.customers[n]));
      }
    }
  }

  lemma KeysIff(index: Index, documents: seq<Document>)
    requires Indexes(index, documents)
    ensures DistinctKeys(index) <==> KeysDiffer(documents)
  {
    hide KeysDifferInCase, DistinctKeys;
    DistinctKeysIff(index);
    if DistinctKeys(index) {
      forall i, j | IdentityDocument(i) in documents && IdentityDocument(j) in documents ensures !KeysDifferInCase(i, j) {
        assert index.Holds(IdentityDocument(i)) && index.Holds(IdentityDocument(j));
      }
    }
    if KeysDiffer(documents) {
      forall m, n | m in index.identities && n in index.identities
        ensures !KeysDifferInCase(index.identities[m], index.identities[n])
      {
        assert index.Holds(IdentityDocument(index.identities[m])) && index.Holds(IdentityDocument(index.identities[n]));
      }
    }
  }

  lemma ProfilesIff(index: Index, documents: seq<Document>)
    requires Indexes(index, documents)
    ensures (forall n | n in index.networks :: SoundNetwork(index.networks[n])) <==> ProfilesAreSound(documents)
  {
    hide SoundNetwork;
    if forall n | n in index.networks :: SoundNetwork(index.networks[n]) {
      forall p | NetworkDocument(p) in documents ensures SoundNetwork(p) {
        assert index.Holds(NetworkDocument(p));
      }
    }
    if ProfilesAreSound(documents) {
      forall n | n in index.networks ensures SoundNetwork(index.networks[n]) {
        assert index.Holds(NetworkDocument(index.networks[n]));
      }
    }
  }

  lemma CollisionsIff(index: Index, documents: seq<Document>)
    requires Indexes(index, documents)
    ensures ExclusiveValidators(index) && ExclusiveNodePairs(index) <==> NoneCollide(documents)
  {
    if ExclusiveValidators(index) && ExclusiveNodePairs(index) {
      forall a, b | AssignmentDocument(a) in documents && AssignmentDocument(b) in documents && a.name != b.name
        ensures !Collide(a, b)
      {
        assert index.Holds(AssignmentDocument(a)) && index.Holds(AssignmentDocument(b));
        assert index.assignments[a.name] == a && index.assignments[b.name] == b;
        LiveIff(a);
        LiveIff(b);
      }
    }
    if NoneCollide(documents) {
      forall m, n | m in index.assignments && n in index.assignments && m != n
        ensures !Collide(index.assignments[m], index.assignments[n])
      {
        assert index.Holds(AssignmentDocument(index.assignments[m])) && index.Holds(AssignmentDocument(index.assignments[n]));
      }
      forall n | n in index.assignments
        ensures IsLive(index.assignments[n]) <==> index.assignments[n].lifecycle !in {Stopped, Archiving, Archived}
      {
        LiveIff(index.assignments[n]);
      }
    }
  }

  lemma LiveIff(a: ValidatorAssignment)
    ensures IsLive(a) <==> a.lifecycle !in {Stopped, Archiving, Archived}
  {
    LiveStates(a, Customer("", "", CustomerActive));
  }

  /** Every reference resolves, every signing assignment may sign, and nothing live belongs to a leaving customer. */
  ghost predicate Bound(index: Index)
    requires index.Filed()
  {
    && Resolved(index)
    && (forall n | n in index.assignments && index.assignments[n].signingEnabled :: MaySign(index, index.assignments[n]))
    && NoneLeavingLive(index)
  }

  lemma BoundIsPermitted(index: Index, documents: seq<Document>)
    requires Indexes(index, documents) && Bound(index)
    ensures IdentitiesBelong(documents) && AssignmentsPermitted(documents)
  {
    forall i | IdentityDocument(i) in documents ensures exists c, p :: Belongs(documents, i, c, p) {
      assert index.Holds(IdentityDocument(i));
      IdentityBelongs(index, documents, i);
    }
    forall a | AssignmentDocument(a) in documents
      ensures exists i, s, c, p :: Binds(documents, a, i, s, c, p) && IsPermitted(a, i, s, c, p)
    {
      assert index.Holds(AssignmentDocument(a));
      var i := index.identities[a.validatorRef];
      var s, c, p := index.services[a.serviceProfileRef], index.customers[i.customerRef], index.networks[i.networkProfileRef];
      assert index.Holds(IdentityDocument(i)) && index.Holds(ServiceDocument(s));
      IdentityBelongs(index, documents, i);
      assert a.signingEnabled ==> MaySign(index, a);
      LiveStates(a, c);
      assert Binds(documents, a, i, s, c, p) && IsPermitted(a, i, s, c, p);
    }
  }

  lemma IdentityBelongs(index: Index, documents: seq<Document>, i: ValidatorIdentity)
    requires Indexes(index, documents) && Resolved(index) && index.Holds(IdentityDocument(i))
    ensures Belongs(documents, i, index.customers[i.customerRef], index.networks[i.networkProfileRef])
  {
    assert index.Holds(CustomerDocument(index.customers[i.customerRef]));
    assert index.Holds(NetworkDocument(index.networks[i.networkProfileRef]));
  }

  lemma BelongsIsIndexed(index: Index, documents: seq<Document>, i: ValidatorIdentity, c: Customer, p: NetworkProfile)
    requires Indexes(index, documents) && Belongs(documents, i, c, p)
    ensures i.customerRef in index.customers && index.customers[i.customerRef] == c
    ensures i.networkProfileRef in index.networks && index.networks[i.networkProfileRef] == p
  {
    assert index.Holds(CustomerDocument(c)) && index.Holds(NetworkDocument(p));
  }

  lemma BindsIsIndexed(
    index: Index, documents: seq<Document>, a: ValidatorAssignment, i: ValidatorIdentity, s: ServiceProfile, c: Customer,
    p: NetworkProfile)
    requires Indexes(index, documents) && Binds(documents, a, i, s, c, p)
    ensures a.validatorRef in index.identities && index.identities[a.validatorRef] == i
    ensures a.serviceProfileRef in index.services && index.services[a.serviceProfileRef] == s
    ensures a.networkProfileRef in index.networks && index.networks[a.networkProfileRef] == p
    ensures i.customerRef in index.customers && index.customers[i.customerRef] == c && i.networkProfileRef == a.networkProfileRef
  {
    assert index.Holds(IdentityDocument(i)) && index.Holds(ServiceDocument(s));
    BelongsIsIndexed(index, documents, i, c, p);
  }

  lemma PermittedResolves(index: Index, documents: seq<Document>)
    requires Indexes(index, documents) && IdentitiesBelong(documents) && AssignmentsPermitted(documents)
    ensures Resolved(index)
  {
    forall n | n in index.identities
      ensures index.identities[n].customerRef in index.customers && index.identities[n].networkProfileRef in index.networks
    {
      assert index.Holds(IdentityDocument(index.identities[n]));
      var c, p :| Belongs(documents, index.identities[n], c, p);
      BelongsIsIndexed(index, documents, index.identities[n], c, p);
    }
    forall n | n in index.assignments
      ensures var a := index.assignments[n];
              && a.validatorRef in index.identities && a.serviceProfileRef in index.services
              && a.networkProfileRef in index.networks
              && index.identities[a.validatorRef].networkProfileRef == a.networkProfileRef
    {
      var a := index.assignments[n];
      assert index.Holds(AssignmentDocument(a));
      var i, s, c, p :| Binds(documents, a, i, s, c, p) && IsPermitted(a, i, s, c, p);
      BindsIsIndexed(index, documents, a, i, s, c, p);
    }
  }

  lemma PermittedIsBound(index: Index, documents: seq<Document>)
    requires Indexes(index, documents) && IdentitiesBelong(documents) && AssignmentsPermitted(documents)
    ensures Bound(index)
  {
    PermittedResolves(index, documents);
    forall n | n in index.assignments
      ensures index.assignments[n].signingEnabled ==> MaySign(index, index.assignments[n])
      ensures IsLive(index.assignments[n]) ==>
                !Leaving(index.customers[index.identities[index.assignments[n].validatorRef].customerRef])
    {
      var a := index.assignments[n];
      assert index.Holds(AssignmentDocument(a));
      var i, s, c, p :| Binds(documents, a, i, s, c, p) && IsPermitted(a, i, s, c, p);
      BindsIsIndexed(index, documents, a, i, s, c, p);
      LiveStates(a, c);
    }
  }

  /** A catalog has no findings exactly when its documents keep these rules. */
  lemma ConsistentMeans(documents: seq<Document>)
    ensures Consistent(documents) <==>
            && NamesDiffer(documents) && CustomersDiffer(documents) && KeysDiffer(documents) && ProfilesAreSound(documents)
            && IdentitiesBelong(documents) && AssignmentsPermitted(documents) && NoneCollide(documents)
  {
    hide NamesDiffer, CustomersDiffer, KeysDiffer, ProfilesAreSound, IdentitiesBelong, AssignmentsPermitted, NoneCollide,
      DistinctCustomerIds, DistinctKeys, SoundNetwork, ExclusiveValidators, ExclusiveNodePairs, Resolved, MaySign,
      NoneLeavingLive, UniqueNames, IndexOf, Index.Holds, Index.Filed;
    NamesIff(documents);
    if UniqueNames(documents) {
      var index := IndexOf(documents);
      IndexFiled(documents);
      forall d: Document ensures index.Holds(d) <==> d in documents {
        IndexHolds(documents, d);
      }
      CustomersIff(index, documents);
      KeysIff(index, documents);
      ProfilesIff(index, documents);
      CollisionsIff(index, documents);
      if Bound(index) {
        BoundIsPermitted(index, documents);
      }
      if IdentitiesBelong(documents) && AssignmentsPermitted(documents) {
        PermittedIsBound(index, documents);
      }
    }
  }
}
