/** Component access declarations (src/query_bundle.rs): which component
    types a system's query reads or writes, as recorded in its metadata. */
module QueryBundle {
  import opened Types

  /** One query element: `&C`, `&mut C` or `Option<Q>` over another element. */
  datatype QuerySingle =
    | Ref(component: TypeId)
    | RefMut(component: TypeId)
    | Optional(inner: QuerySingle)

  /** A query bundle: the unit bundle `()` or a bundle made of one element.
      Tuples of elements are not part of this model. */
  datatype Query = Unit | Single(element: QuerySingle)

  /** `QueryEffector<Q>`: a tag that carries only the query type it issues. */
  datatype QueryEffector = QueryEffector(query: QuerySingle)

  /** `QueryBundle::Effectors`: `()` for the unit bundle, else one effector. */
  datatype QueryEffectors = UnitEffectors | SingleEffector(effector: QueryEffector)

  /** The two component sets of a `SystemMetadata` record. */
  datatype ComponentSets = ComponentSets(immutable: set<TypeId>, mutable: set<TypeId>)

  /** The part of `SystemMetadata` that `write_metadata` updates in place. */
  class SystemMetadata {
    var componentsImmutable: set<TypeId>
    var componentsMutable: set<TypeId>

    function Sets(): ComponentSets
      reads this
    {
      ComponentSets(componentsImmutable, componentsMutable)
    }
  }

  /** The `&C` or `&mut C` element at the bottom of a nest of `Option`s. */
  function Base(q: QuerySingle): (b: QuerySingle)
    ensures !b.Optional?
  {
    match q
    case Optional(inner) => Base(inner)
    case _ => q
  }

  /** The sets that `QuerySingle::write_metadata` leaves behind, following the
      source's own forwarding from `Option<Q>` to `Q`. */
  function Written(q: QuerySingle, s: ComponentSets): ComponentSets
  {
    match q
    case Ref(c) => s.(immutable := s.immutable + {c})
    case RefMut(c) => s.(mutable := s.mutable + {c})
    case Optional(inner) => Written(inner, s)
  }

  /** `QueryBundle::write_metadata`. */
  function BundleWritten(b: Query, s: ComponentSets): ComponentSets
  {
    match b
    case Unit => s
    case Single(q) => Written(q, s)
  }

  /** `QuerySingle::effector`. */
  function Effector(q: QuerySingle): QueryEffector
  {
    QueryEffector(q)
  }

  /** `QueryBundle::effectors`. */
  function Effectors(b: Query): QueryEffectors
  {
    match b
    case Unit => UnitEffectors
    case Single(q) => SingleEffector(Effector(q))
  }

  /** `QuerySingle::write_metadata`: one insert, or forwarding for `Option<Q>`. */
  method WriteMetadata(q: QuerySingle, metadata: SystemMetadata)
    modifies metadata
    ensures metadata.Sets() == Written(q, old(metadata.Sets()))
  {
    match q
    case Ref(c) =>
      metadata.componentsImmutable := metadata.componentsImmutable + {c};
    case RefMut(c) =>
      metadata.componentsMutable := metadata.componentsMutable + {c};
    case Optional(inner) =>
      WriteMetadata(inner, metadata);
  }

  /** `QueryBundle::write_metadata`: nothing for `()`, else the element's own. */
  method BundleWriteMetadata(b: Query, metadata: SystemMetadata)
    modifies metadata
    ensures metadata.Sets() == BundleWritten(b, old(metadata.Sets()))
  {
    match b
    case Unit =>
    case Single(q) =>
      WriteMetadata(q, metadata);
  }

  /** `&C` records C as read and touches nothing else. */
  lemma RefWritesImmutable(c: TypeId, s: ComponentSets)
    ensures Written(Ref(c), s).immutable == s.immutable + {c}
    ensures Written(Ref(c), s).mutable == s.mutable
  {
  }

  /** `&mut C` records C as written and touches nothing else. */
  lemma RefMutWritesMutable(c: TypeId, s: ComponentSets)
    ensures Written(RefMut(c), s).mutable == s.mutable + {c}
    ensures Written(RefMut(c), s).immutable == s.immutable
  {
  }

  /** Whatever the nesting of `Option`s, an element writes exactly what its
      base element writes: optionality never changes the footprint. */
  lemma {:induction false} WrittenIsBaseWritten(q: QuerySingle, s: ComponentSets)
    ensures Written(q, s) == Written(Base(q), s)
  {
    match q
    case Optional(inner) => WrittenIsBaseWritten(inner, s);
    case _ =>
  }

  /** `Option<Q>` writes what `Q` writes. */
  lemma OptionalWritesInner(q: QuerySingle, s: ComponentSets)
    ensures Written(Optional(q), s) == Written(q, s)
  {
  }

  /** `write_metadata` only inserts: the new immutable set is the old one plus
      the base component when the base element is `&C` and the old one
      otherwise, and symmetrically for the mutable set. */
  lemma {:induction false} WrittenInsertsOnly(q: QuerySingle, s: ComponentSets)
    ensures var c := Base(q).component;
      Written(q, s) ==
        if Base(q).Ref? then ComponentSets(s.immutable + {c}, s.mutable)
        else ComponentSets(s.immutable, s.mutable + {c})
  {
    WrittenIsBaseWritten(q, s);
  }

  /** Writing an element's metadata twice is the same as writing it once. */
  lemma {:induction false} WrittenIdempotent(q: QuerySingle, s: ComponentSets)
    ensures Written(q, Written(q, s)) == Written(q, s)
  {
    WrittenInsertsOnly(q, s);
    WrittenInsertsOnly(q, Written(q, s));
  }

  /** The unit bundle writes nothing and has unit effectors. */
  lemma UnitBundleWritesNothing(s: ComponentSets)
    ensures BundleWritten(Unit, s) == s
    ensures Effectors(Unit) == UnitEffectors
  {
  }

  /** A bundle of one element writes the element's metadata and yields the
      element's own effector, for `&C`, `&mut C` and `Option<Q>` alike. */
  lemma SingleBundleAgrees(q: QuerySingle, s: ComponentSets)
    ensures BundleWritten(Single(q), s) == Written(q, s)
    ensures Effectors(Single(q)) == SingleEffector(Effector(q))
    ensures Effector(q).query == q
  {
  }
}
