/** Resource access declarations and fetching (src/resource_bundle.rs):
    which resource types a system borrows, and how its effectors fetch them. */
module ResourceBundle {
  import opened Types

  /** The mutability tag of an effector: `Immutable` or `Mutable`. */
  datatype Mutability = Immutable | Mutable

  /** One resource element: `&R` or `&mut R`. */
  datatype ResourceSingle = Ref(resource: TypeId) | RefMut(resource: TypeId)

  /** A resource bundle: the unit bundle `()`, or any single element through
      the blanket implementation. Tuples are not part of this model. */
  datatype Resources = Unit | Single(element: ResourceSingle)

  /** `ResourceEffector<M, R>`: a tag carrying its mutability and resource type. */
  datatype ResourceEffector = ResourceEffector(mutability: Mutability, resource: TypeId)

  /** `ResourceBundle::Effectors`: `()` for the unit bundle, else one effector. */
  datatype ResourceEffectors = UnitEffectors | SingleEffector(effector: ResourceEffector)

  /** The two resource sets of a `SystemBorrows` record. */
  datatype ResourceSets = ResourceSets(immutable: set<TypeId>, mutable: set<TypeId>)

  /** The part of `SystemBorrows` that `write_borrows` updates in place. */
  class SystemBorrows {
    var resourcesImmutable: set<TypeId>
    var resourcesMutable: set<TypeId>

    function Sets(): ResourceSets
      reads this
    {
      ResourceSets(resourcesImmutable, resourcesMutable)
    }
  }

  /** `ResourceSingle::effector`: the tag follows the reference's mutability. */
  function Effector(r: ResourceSingle): (e: ResourceEffector)
    ensures e.resource == r.resource
    ensures e.mutability == Mutable <==> r.RefMut?
  {
    match r
    case Ref(id) => ResourceEffector(Immutable, id)
    case RefMut(id) => ResourceEffector(Mutable, id)
  }

  /** `ResourceBundle::effectors`. */
  function Effectors(b: Resources): ResourceEffectors
  {
    match b
    case Unit => UnitEffectors
    case Single(r) => SingleEffector(Effector(r))
  }

  /** The sets that `ResourceSingle::write_borrows` leaves behind. */
  function Borrowed(r: ResourceSingle, s: ResourceSets): ResourceSets
  {
    match r
    case Ref(id) => s.(immutable := s.immutable + {id})
    case RefMut(id) => s.(mutable := s.mutable + {id})
  }

  /** The sets that `ResourceBundle::write_borrows` leaves behind. */
  function BundleBorrowed(b: Resources, s: ResourceSets): ResourceSets
  {
    match b
    case Unit => s
    case Single(r) => Borrowed(r, s)
  }

  /** `ResourceSingle::write_borrows`: a single insert. */
  method WriteBorrows(r: ResourceSingle, borrows: SystemBorrows)
    modifies borrows
    ensures borrows.Sets() == Borrowed(r, old(borrows.Sets()))
  {
    match r
    case Ref(id) =>
      borrows.resourcesImmutable := borrows.resourcesImmutable + {id};
    case RefMut(id) =>
      borrows.resourcesMutable := borrows.resourcesMutable + {id};
  }

  /** `ResourceBundle::write_borrows`: nothing for `()`, else the element's own. */
  method BundleWriteBorrows(b: Resources, borrows: SystemBorrows)
    modifies borrows
    ensures borrows.Sets() == BundleBorrowed(b, old(borrows.Sets()))
  {
    match b
    case Unit =>
    case Single(r) =>
      WriteBorrows(r, borrows);
  }

  /** What `Fetch::fetch` hands to a system body: unit, a shared reference
      (`ResourceRef`) or an exclusive one (`ResourceRefMut`). */
  datatype Refs = NoRefs | SharedRef(resource: TypeId) | ExclusiveRef(resource: TypeId)

  /** A fetch either returns its references or aborts the program because the
      named resource cannot be fetched. */
  datatype Fetched = Fetched(refs: Refs) | Aborted(missing: TypeId)

  /** `Fetch::fetch` against a resource store holding the resource types in
      `present`: `()` fetches nothing, an `Immutable` effector asks the store
      for shared access, a `Mutable` one for exclusive access, and a resource
      the store does not hold is fatal. */
  function Fetch(e: ResourceEffectors, present: set<TypeId>): (f: Fetched)
    ensures e.UnitEffectors? ==> f == Fetched(NoRefs)
    ensures e.SingleEffector? ==>
      (f.Aborted? <==> e.effector.resource !in present)
    ensures f.Aborted? ==> e.SingleEffector? && f.missing == e.effector.resource
    ensures f.Fetched? && f.refs.SharedRef? ==>
      e.SingleEffector? && e.effector.mutability == Immutable && f.refs.resource == e.effector.resource
    ensures f.Fetched? && f.refs.ExclusiveRef? ==>
      e.SingleEffector? && e.effector.mutability == Mutable && f.refs.resource == e.effector.resource
    ensures e.SingleEffector? && e.effector.resource in present ==>
      f == Fetched(if e.effector.mutability == Immutable then SharedRef(e.effector.resource)
                   else ExclusiveRef(e.effector.resource))
  {
    match e
    case UnitEffectors => Fetched(NoRefs)
    case SingleEffector(ResourceEffector(m, id)) =>
      if id !in present then Aborted(id)
      else match m
        case Immutable => Fetched(SharedRef(id))
        case Mutable => Fetched(ExclusiveRef(id))
  }

  /** `&R` borrows R immutably only, and its effector is tagged `Immutable`. */
  lemma RefBorrowsImmutable(id: TypeId, s: ResourceSets)
    ensures Borrowed(Ref(id), s) == ResourceSets(s.immutable + {id}, s.mutable)
    ensures Effector(Ref(id)) == ResourceEffector(Immutable, id)
  {
  }

  /** `&mut R` borrows R mutably only, and its effector is tagged `Mutable`. */
  lemma RefMutBorrowsMutable(id: TypeId, s: ResourceSets)
    ensures Borrowed(RefMut(id), s) == ResourceSets(s.immutable, s.mutable + {id})
    ensures Effector(RefMut(id)) == ResourceEffector(Mutable, id)
  {
  }

  /** The unit bundle borrows nothing, has unit effectors, and fetching
      through them yields unit whatever the store holds. */
  lemma UnitBundleBorrowsNothing(s: ResourceSets, present: set<TypeId>)
    ensures BundleBorrowed(Unit, s) == s
    ensures Effectors(Unit) == UnitEffectors
    ensures Fetch(Effectors(Unit), present) == Fetched(NoRefs)
  {
  }

  /** Every single element is a bundle with the same effector and borrows. */
  lemma SingleBundleAgrees(r: ResourceSingle, s: ResourceSets)
    ensures BundleBorrowed(Single(r), s) == Borrowed(r, s)
    ensures Effectors(Single(r)) == SingleEffector(Effector(r))
  {
  }

  /** `write_borrows` only inserts, and writing twice is writing once. */
  lemma BorrowedInsertsOnly(b: Resources, s: ResourceSets)
    ensures s.immutable <= BundleBorrowed(b, s).immutable
    ensures s.mutable <= BundleBorrowed(b, s).mutable
    ensures BundleBorrowed(b, BundleBorrowed(b, s)) == BundleBorrowed(b, s)
    ensures b.Single? && b.element.Ref? ==> BundleBorrowed(b, s).mutable == s.mutable
    ensures b.Single? && b.element.RefMut? ==> BundleBorrowed(b, s).immutable == s.immutable
  {
  }

  /** What a bundle's effectors fetch stays within what its `write_borrows`
      declared, with the same mutability: a shared reference only to a
      resource declared immutable, an exclusive one only to a resource
      declared mutable. A present resource is always fetched, shared for `&R`
      and exclusive for `&mut R`; a resource the store lacks aborts the fetch. */
  lemma FetchWithinDeclaredBorrows(b: Resources, present: set<TypeId>)
    ensures var f := Fetch(Effectors(b), present);
      var declared := BundleBorrowed(b, ResourceSets({}, {}));
      && (f.Fetched? && f.refs.SharedRef? ==> declared.immutable == {f.refs.resource} && declared.mutable == {})
      && (f.Fetched? && f.refs.ExclusiveRef? ==> declared.mutable == {f.refs.resource} && declared.immutable == {})
      && (f.Aborted? <==> b.Single? && b.element.resource !in present)
      && (b.Unit? ==> f == Fetched(NoRefs) && declared == ResourceSets({}, {}))
      && (b.Single? && b.element.resource in present ==>
            f == Fetched(if b.element.Ref? then SharedRef(b.element.resource)
                         else ExclusiveRef(b.element.resource)))
  {
  }
}
