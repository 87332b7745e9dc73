/** The tag half of a file's metadata: per-service Current, Deleted, Pending
    and Petitioned tag sets, the typed updates that move tags between them,
    and the memoised combined view over all tag services. */
module Tags {
  import opened Common
  import opened Ordering

  type ServiceTags = map<ServiceKey, StatusSets<Tag>>

  /** The sibling manager's CollapseStatusesToTags for one service. */
  type Collapse = (ServiceKey, StatusSets<Tag>) -> StatusSets<Tag>

  /** HydrusTags.SplitTag: a tag's (namespace, subtag); "" is no namespace. */
  type Splitter = Tag -> (string, string)

  /** The sets of a service; an absent service has no tags. */
  function Lookup(m: ServiceTags, k: ServiceKey): StatusSets<Tag> {
    if k in m then m[k] else StatusSets.Empty()
  }

  /** The consistency a single tag service keeps. */
  ghost predicate WellFormed(s: StatusSets<Tag>) {
    s.current * s.deleted == {} && s.pending * s.current == {} && s.petitioned <= s.current
  }

  /** What one tag update does to the sets of its service. */
  function ApplyTagAction(s: StatusSets<Tag>, action: Action, tag: Tag): (r: StatusSets<Tag>)
    // no other tag moves
    ensures forall t :: t != tag ==>
      (t in r.current <==> t in s.current) && (t in r.deleted <==> t in s.deleted) &&
      (t in r.pending <==> t in s.pending) && (t in r.petitioned <==> t in s.petitioned)
    ensures action == Add ==>
      tag in r.current && tag !in r.deleted && tag !in r.pending && r.petitioned == s.petitioned
    ensures action == Delete ==>
      tag in r.deleted && tag !in r.current && tag !in r.petitioned && r.pending == s.pending
    ensures action == Pend ==>
      r.current == s.current && r.deleted == s.deleted && r.petitioned == s.petitioned &&
      (tag in r.pending <==> tag in s.pending || tag !in s.current)
    ensures action == Petition ==>
      r.current == s.current && r.deleted == s.deleted && r.pending == s.pending &&
      (tag in r.petitioned <==> tag in s.petitioned || tag in s.current)
    ensures action == RescindPend ==> r == s.(pending := s.pending - {tag})
    ensures action == RescindPetition ==> r == s.(petitioned := s.petitioned - {tag})
    ensures action !in {Add, Delete, Pend, Petition, RescindPend, RescindPetition} ==> r == s
    // the consistency of a service is kept
    ensures WellFormed(s) ==> WellFormed(r)
  {
    match action
    case Add => s.(current := s.current + {tag}, deleted := s.deleted - {tag}, pending := s.pending - {tag})
    case Delete => s.(deleted := s.deleted + {tag}, current := s.current - {tag}, petitioned := s.petitioned - {tag})
    case Pend => if tag !in s.current then s.(pending := s.pending + {tag}) else s
    case RescindPend => s.(pending := s.pending - {tag})
    case Petition => if tag in s.current then s.(petitioned := s.petitioned + {tag}) else s
    case RescindPetition => s.(petitioned := s.petitioned - {tag})
    case _ => s
  }

  lemma TagActionIdempotent(s: StatusSets<Tag>, action: Action, tag: Tag)
    ensures ApplyTagAction(ApplyTagAction(s, action, tag), action, tag) == ApplyTagAction(s, action, tag)
  {
  }

  /** The tag of a content update whose row has the shape its action needs:
      a (tag, hashes, reason) triple for a petition, a (tag, hashes) pair
      otherwise. */
  function UpdateTag(u: ContentUpdate): (r: Option<Tag>)
    ensures r.Some? <==> (if u.action == Petition then u.row.PetitionRow? else u.row.TagRow?)
    ensures r.Some? ==> r.value == u.row.tag
  {
    if u.action == Petition then
      (if u.row.PetitionRow? then Some(u.row.tag) else None)
    else if u.row.TagRow? then Some(u.row.tag)
    else None
  }

  /** The services after a tag update on service k, or None when the row
      cannot be unpacked. */
  function ProcessTagUpdate(m: ServiceTags, k: ServiceKey, u: ContentUpdate): (r: Option<ServiceTags>)
    ensures r.Some? <==> UpdateTag(u).Some?
    ensures r.Some? ==> r.value.Keys == m.Keys + {k}
    ensures r.Some? ==> forall j :: j in m && j != k ==> r.value[j] == m[j]
    ensures r.Some? ==> r.value[k] == ApplyTagAction(Lookup(m, k), u.action, UpdateTag(u).value)
  {
    match UpdateTag(u)
    case None => None
    case Some(tag) => Some(m[k := ApplyTagAction(Lookup(m, k), u.action, tag)])
  }

  /** Every non-combined service is consistent. */
  ghost predicate AllWellFormed(m: ServiceTags) {
    forall k :: k in m && k != CombinedTagServiceKey ==> WellFormed(m[k])
  }

  lemma ProcessTagUpdateKeepsWellFormed(m: ServiceTags, k: ServiceKey, u: ContentUpdate)
    requires AllWellFormed(m)
    requires ProcessTagUpdate(m, k, u).Some?
    ensures AllWellFormed(ProcessTagUpdate(m, k, u).value)
  {
    var r := ProcessTagUpdate(m, k, u).value;
    forall j | j in r && j != CombinedTagServiceKey ensures WellFormed(r[j]) {
      if j == k {
        assert k !in m ==> Lookup(m, k) == StatusSets.Empty();
      }
    }
  }

  /** The combined view over the services in keys: per status, the union of
      their sibling-collapsed sets. */
  function UnionOver(m: ServiceTags, collapse: Collapse, keys: set<ServiceKey>): StatusSets<Tag> {
    StatusSets(
      set k, t | k in keys && k in m && t in collapse(k, m[k]).current :: t,
      set k, t | k in keys && k in m && t in collapse(k, m[k]).deleted :: t,
      set k, t | k in keys && k in m && t in collapse(k, m[k]).pending :: t,
      set k, t | k in keys && k in m && t in collapse(k, m[k]).petitioned :: t)
  }

  function Union(a: StatusSets<Tag>, b: StatusSets<Tag>): StatusSets<Tag> {
    StatusSets(a.current + b.current, a.deleted + b.deleted, a.pending + b.pending, a.petitioned + b.petitioned)
  }

  /** The combined view: all services except the combined one itself. */
  function Combined(m: ServiceTags, collapse: Collapse): (r: StatusSets<Tag>)
    ensures forall t :: t in r.current <==>
      exists k :: k in m && k != CombinedTagServiceKey && t in collapse(k, m[k]).current
    ensures forall t :: t in r.pending <==>
      exists k :: k in m && k != CombinedTagServiceKey && t in collapse(k, m[k]).pending
  {
    UnionOver(m, collapse, m.Keys - {CombinedTagServiceKey})
  }

  lemma UnionOverStep(m: ServiceTags, collapse: Collapse, keys: set<ServiceKey>, k: ServiceKey)
    requires k in m
    ensures UnionOver(m, collapse, keys + {k}) == Union(UnionOver(m, collapse, keys), collapse(k, m[k]))
  {
  }

  /** The combined view does not depend on what is stored under the combined
      key, so recomputing it is idempotent. */
  lemma CombinedIgnoresCombined(m: ServiceTags, collapse: Collapse, x: StatusSets<Tag>)
    ensures Combined(m[CombinedTagServiceKey := x], collapse) == Combined(m, collapse)
  {
    var m' := m[CombinedTagServiceKey := x];
    assert m'.Keys - {CombinedTagServiceKey} == m.Keys - {CombinedTagServiceKey};
    assert forall k :: k in m && k != CombinedTagServiceKey ==> m'[k] == m[k];
  }

  /** BuildKeyToSetDict over the namespaced tags: namespace to subtags. */
  function NamespaceIndex(tags: set<Tag>, split: Splitter): (r: map<string, set<string>>)
    ensures forall ns :: ns in r ==> ns != ""
    ensures forall ns, sub :: ns in r && sub in r[ns] <==>
      ns != "" && exists t :: t in tags && split(t) == (ns, sub)
  {
    var namespaces := set t | t in tags && split(t).0 != "" :: split(t).0;
    map ns | ns in namespaces :: set t | t in tags && split(t).0 == ns :: split(t).1
  }

  /** The tags in the given namespaces, by their "namespace:" prefix. */
  function NamespaceSlice(tags: set<Tag>, namespaces: set<string>): (r: set<Tag>)
    ensures r <= tags
    ensures forall t :: t in tags ==> (t in r <==> exists ns :: ns in namespaces && ns + ":" <= t)
  {
    set t | t in tags && exists ns :: ns in namespaces && ns + ":" <= t
  }

  /** The tags of one namespace. */
  function InNamespace(tags: set<Tag>, split: Splitter, ns: string): set<Tag> {
    set t | t in tags && split(t).0 == ns
  }

  /** The sortable forms of the subtags of one namespace. */
  function SortableSubtags(tags: set<Tag>, split: Splitter, sortable: string -> string, ns: string): (r: set<string>)
    ensures forall x :: x in r <==> exists t :: t in tags && split(t).0 == ns && sortable(split(t).1) == x
  {
    set t | t in tags && split(t).0 == ns :: sortable(split(t).1)
  }

  /** The tags of one namespace whose subtag has the sortable form x. */
  function WithSortable(tags: set<Tag>, split: Splitter, sortable: string -> string, ns: string, x: string): set<Tag> {
    set t | t in tags && split(t).0 == ns && sortable(split(t).1) == x
  }

  /** s holds the sortable subtag of every tag of the namespace, once per
      tag: each form as often as there are tags that give it. */
  ghost predicate CountsSortable(s: seq<string>, tags: set<Tag>, split: Splitter, sortable: string -> string, ns: string) {
    forall x :: multiset(s)[x] == |WithSortable(tags, split, sortable, ns, x)|
  }

  /** Two sorted lists of the same sortable subtags are the same list. */
  lemma CountsSortableUnique(a: seq<string>, b: seq<string>, tags: set<Tag>, split: Splitter, sortable: string -> string, ns: string)
    requires SortedBy(StrLess, (x: string) => x, false, a) && CountsSortable(a, tags, split, sortable, ns)
    requires SortedBy(StrLess, (x: string) => x, false, b) && CountsSortable(b, tags, split, sortable, ns)
    ensures a == b
  {
    assert forall x :: multiset(a)[x] == multiset(b)[x];
    assert multiset(a) == multiset(b);
    StrLessOrder();
    SortedUnique(StrLess, (x: string) => x, a, b);
  }

  /** The loop invariant of CollectSubtags. */
  ghost predicate CollectedFrom(picked: seq<string>, taken: set<Tag>, split: Splitter, sortable: string -> string, ns: string) {
    (forall x :: x in picked <==> x in SortableSubtags(taken, split, sortable, ns)) &&
    |picked| == |InNamespace(taken, split, ns)| &&
    CountsSortable(picked, taken, split, sortable, ns)
  }

  lemma CollectStep(picked: seq<string>, taken: set<Tag>, t: Tag, split: Splitter, sortable: string -> string, ns: string)
    requires t !in taken
    requires CollectedFrom(picked, taken, split, sortable, ns)
    ensures split(t).0 == ns ==> CollectedFrom(picked + [sortable(split(t).1)], taken + {t}, split, sortable, ns)
    ensures split(t).0 != ns ==> CollectedFrom(picked, taken + {t}, split, sortable, ns)
  {
    if split(t).0 == ns {
      assert InNamespace(taken + {t}, split, ns) == InNamespace(taken, split, ns) + {t};
      assert t !in InNamespace(taken, split, ns);
      CountStep(picked, taken, t, split, sortable, ns);
    } else {
      assert InNamespace(taken + {t}, split, ns) == InNamespace(taken, split, ns);
      forall x ensures WithSortable(taken + {t}, split, sortable, ns, x) == WithSortable(taken, split, sortable, ns, x) {
      }
    }
  }

  lemma CountStep(picked: seq<string>, taken: set<Tag>, t: Tag, split: Splitter, sortable: string -> string, ns: string)
    requires t !in taken && split(t).0 == ns
    requires CountsSortable(picked, taken, split, sortable, ns)
    ensures CountsSortable(picked + [sortable(split(t).1)], taken + {t}, split, sortable, ns)
  {
    var y := sortable(split(t).1);
    forall x ensures multiset(picked + [y])[x] == |WithSortable(taken + {t}, split, sortable, ns, x)| {
      if x == y {
        assert WithSortable(taken + {t}, split, sortable, ns, x) == WithSortable(taken, split, sortable, ns, x) + {t};
      } else {
        assert WithSortable(taken + {t}, split, sortable, ns, x) == WithSortable(taken, split, sortable, ns, x);
      }
    }
  }

  /** The list comprehension over the tag set: one sortable subtag per tag
      of the namespace, duplicates kept, in the set's iteration order. */
  method CollectSubtags(tags: set<Tag>, split: Splitter, sortable: string -> string, ns: string)
    returns (picked: seq<string>)
    ensures forall x :: x in picked <==> x in SortableSubtags(tags, split, sortable, ns)
    ensures |picked| == |InNamespace(tags, split, ns)|
    ensures CountsSortable(picked, tags, split, sortable, ns)
  {
    picked := [];
    var left := tags;
    assert tags - left == {};
    assert InNamespace({}, split, ns) == {};
    assert forall x :: WithSortable({}, split, sortable, ns, x) == {};
    while left != {}
      invariant left <= tags
      invariant CollectedFrom(picked, tags - left, split, sortable, ns)
      decreases |left|
    {
      var t :| t in left;
      CollectStep(picked, tags - left, t, split, sortable, ns);
      assert (tags - left) + {t} == tags - (left - {t});
      if split(t).0 == ns {
        picked := picked + [sortable(split(t).1)];
      }
      left := left - {t};
    }
    assert tags - left == tags;
  }

  /** The sortable subtags of the tags in one namespace, sorted. */
  method NamespaceSubtags(tags: set<Tag>, split: Splitter, sortable: string -> string, ns: string)
    returns (r: seq<string>)
    ensures SortedBy(StrLess, (x: string) => x, false, r)
    ensures CountsSortable(r, tags, split, sortable, ns)
    ensures forall x :: x in r <==> x in SortableSubtags(tags, split, sortable, ns)
    ensures |r| == |InNamespace(tags, split, ns)|
  {
    var picked := CollectSubtags(tags, split, sortable, ns);
    StrLessOrder();
    StableSortSorted(StrLess, (x: string) => x, false, picked);
    r := StableSort(StrLess, (x: string) => x, false, picked);
    assert forall x :: x in r <==> x in multiset(picked);
  }

  /** GetComparableNamespaceSlice over given combined tags. */
  method ComparableNamespaceSlice(combined: set<Tag>, namespaces: seq<string>, split: Splitter, sortable: string -> string)
    returns (r: seq<seq<string>>)
    ensures |r| == |namespaces|
    ensures forall i :: 0 <= i < |r| ==> SortedBy(StrLess, (x: string) => x, false, r[i])
    ensures forall i :: 0 <= i < |r| ==> CountsSortable(r[i], combined, split, sortable, namespaces[i])
    ensures forall i :: 0 <= i < |r| ==> forall x :: x in r[i] <==> x in SortableSubtags(combined, split, sortable, namespaces[i])
    ensures forall i :: 0 <= i < |r| ==> |r[i]| == |InNamespace(combined, split, namespaces[i])|
  {
    r := [];
    var i := 0;
    while i < |namespaces|
      invariant 0 <= i <= |namespaces| && |r| == i
      invariant forall j :: 0 <= j < i ==> SortedBy(StrLess, (x: string) => x, false, r[j])
      invariant forall j :: 0 <= j < i ==> CountsSortable(r[j], combined, split, sortable, namespaces[j])
      invariant forall j :: 0 <= j < i ==> forall x :: x in r[j] <==> x in SortableSubtags(combined, split, sortable, namespaces[j])
      invariant forall j :: 0 <= j < i ==> |r[j]| == |InNamespace(combined, split, namespaces[j])|
    {
      var subtags := NamespaceSubtags(combined, split, sortable, namespaces[i]);
      r := r + [subtags];
      i := i + 1;
    }
  }

  /** The loop of _RecalcCombinedIfNeeded: unions the collapsed sets of
      every service but the combined one. */
  method CombineServices(m: ServiceTags, collapse: Collapse) returns (acc: StatusSets<Tag>)
    ensures acc == Combined(m, collapse)
  {
    acc := StatusSets.Empty();
    var left := m.Keys;
    ghost var done: set<ServiceKey> := {};
    assert UnionOver(m, collapse, {}) == acc;
    while left != {}
      invariant left <= m.Keys && done <= m.Keys && CombinedTagServiceKey !in done
      invariant forall k :: k in m.Keys && k != CombinedTagServiceKey ==> (k in done <==> k !in left)
      invariant acc == UnionOver(m, collapse, done)
      decreases |left|
    {
      var k :| k in left;
      if k != CombinedTagServiceKey {
        UnionOverStep(m, collapse, done, k);
        acc := Union(acc, collapse(k, m[k]));
        done := done + {k};
      }
      left := left - {k};
    }
    assert done == m.Keys - {CombinedTagServiceKey};
  }

  class TagsManager {
    /** True for a TagsManagerSimple, whose stored combined entry is final:
        it never recomputes it and has none of the update operations. */
    const simple: bool
    const splitTag: Splitter
    var services: ServiceTags
    var combinedIsCalculated: bool
    var combinedNamespacesCache: Option<map<string, set<string>>>
    /** The sibling collapse the combined entry was last computed with. */
    ghost var lastCollapse: Collapse

    /** A calculated combined entry is the combined view of the services,
        and a namespace cache, when the combined entry is final, indexes it. */
    ghost predicate Valid()
      reads this
    {
      (!simple && combinedIsCalculated ==>
        Lookup(services, CombinedTagServiceKey) == Combined(services, lastCollapse)) &&
      ((simple || combinedIsCalculated) && combinedNamespacesCache.Some? ==>
        combinedNamespacesCache.value == NamespaceIndex(CombinedCurrentPending(), splitTag))
    }

    function CombinedCurrentPending(): set<Tag>
      reads this
    {
      Lookup(services, CombinedTagServiceKey).current + Lookup(services, CombinedTagServiceKey).pending
    }

    constructor(simple: bool, splitTag: Splitter, services: ServiceTags)
      ensures Valid()
      ensures this.simple == simple && this.splitTag == splitTag && this.services == services
      ensures !combinedIsCalculated && combinedNamespacesCache == None
    {
      this.simple := simple;
      this.splitTag := splitTag;
      this.services := services;
      combinedIsCalculated := false;
      combinedNamespacesCache := None;
    }

    /** Recomputes the combined entry with the current sibling collapse when
        it is stale, dropping the namespace cache. */
    method RecalcCombinedIfNeeded(collapse: Collapse)
      requires Valid()
      modifies this
      ensures Valid()
      ensures old(simple || combinedIsCalculated) ==>
        services == old(services) && combinedIsCalculated == old(combinedIsCalculated) &&
        combinedNamespacesCache == old(combinedNamespacesCache) && lastCollapse == old(lastCollapse)
      ensures !old(simple || combinedIsCalculated) ==>
        services == old(services)[CombinedTagServiceKey := Combined(old(services), collapse)] &&
        combinedIsCalculated && combinedNamespacesCache == None && lastCollapse == collapse
    {
      if !simple && !combinedIsCalculated {
        var acc := CombineServices(services, collapse);
        CombinedIgnoresCombined(services, collapse, acc);
        services := services[CombinedTagServiceKey := acc];
        combinedNamespacesCache := None;
        combinedIsCalculated := true;
        lastCollapse := collapse;
      }
    }

    /** Applies one tag content update to a service, marking the combined
        entry stale; a row of the wrong shape raises and changes nothing. */
    method ProcessContentUpdate(serviceKey: ServiceKey, u: ContentUpdate) returns (r: Outcome)
      requires Valid() && !simple
      modifies this
      ensures Valid()
      ensures r == Pass <==> UpdateTag(u).Some?
      ensures r.Fail? ==> (r.error == MalformedRow && services == old(services) &&
        combinedIsCalculated == old(combinedIsCalculated))
      ensures r == Pass ==> services == ProcessTagUpdate(old(services), serviceKey, u).value && !combinedIsCalculated
      ensures combinedNamespacesCache == old(combinedNamespacesCache)
    {
      var updated := ProcessTagUpdate(services, serviceKey, u);
      if updated.None? {
        return Fail(MalformedRow);
      }
      services := updated.value;
      combinedIsCalculated := false;
      r := Pass;
    }

    /** Clears a service's pending and petitioned tags; the combined entry is
        marked stale only when there was something to clear. */
    method DeletePending(serviceKey: ServiceKey)
      requires Valid() && !simple
      modifies this`services, this`combinedIsCalculated
      ensures Valid()
      ensures var s := Lookup(old(services), serviceKey);
        if |s.pending| + |s.petitioned| > 0 then
          services == old(services)[serviceKey := s.(pending := {}, petitioned := {})] && !combinedIsCalculated
        else
          services == old(services) && combinedIsCalculated == old(combinedIsCalculated)
    {
      var s := Lookup(services, serviceKey);
      if |s.pending| + |s.petitioned| > 0 {
        services := services[serviceKey := s.(pending := {}, petitioned := {})];
        combinedIsCalculated := false;
      }
    }

    /** Forgets a service; only a service that was present marks the
        combined entry stale. */
    method ResetService(serviceKey: ServiceKey)
      requires Valid() && !simple
      modifies this`services, this`combinedIsCalculated
      ensures Valid()
      ensures serviceKey in old(services) ==> services == old(services) - {serviceKey} && !combinedIsCalculated
      ensures serviceKey !in old(services) ==> services == old(services) && combinedIsCalculated == old(combinedIsCalculated)
    {
      if serviceKey in services {
        services := services - {serviceKey};
        combinedIsCalculated := false;
      }
    }

    /** The sibling data changed: the combined entry is stale. */
    method NewSiblings()
      requires Valid() && !simple
      modifies this`combinedIsCalculated
      ensures Valid() && !combinedIsCalculated
    {
      combinedIsCalculated := false;
    }

    /** A manager of the same kind over copies of the same sets. */
    method Duplicate() returns (d: TagsManager)
      ensures fresh(d) && d.Valid()
      ensures d.simple == simple && d.splitTag == splitTag && d.services == services
      ensures !d.combinedIsCalculated && d.combinedNamespacesCache == None
    {
      d := new TagsManager(simple, splitTag, services);
    }

    /** The sets of a service, recomputing the combined entry first when it
        is the one asked for. */
    method GetStatusesToTags(serviceKey: ServiceKey, collapse: Collapse) returns (s: StatusSets<Tag>)
      requires Valid()
      modifies this
      ensures Valid()
      ensures serviceKey == CombinedTagServiceKey && !old(simple || combinedIsCalculated) ==>
        s == Combined(old(services), collapse)
      ensures serviceKey != CombinedTagServiceKey || old(simple || combinedIsCalculated) ==>
        s == Lookup(old(services), serviceKey) && services == old(services)
      ensures s == Lookup(services, serviceKey)
    {
      if serviceKey == CombinedTagServiceKey {
        RecalcCombinedIfNeeded(collapse);
      }
      s := Lookup(services, serviceKey);
    }

    method GetCurrent(serviceKey: ServiceKey, collapse: Collapse) returns (r: set<Tag>)
      requires Valid()
      modifies this
      ensures Valid()
      ensures r == Lookup(services, serviceKey).current
    {
      var s := GetStatusesToTags(serviceKey, collapse);
      r := s.current;
    }

    method GetDeleted(serviceKey: ServiceKey, collapse: Collapse) returns (r: set<Tag>)
      requires Valid()
      modifies this
      ensures Valid()
      ensures r == Lookup(services, serviceKey).deleted
    {
      var s := GetStatusesToTags(serviceKey, collapse);
      r := s.deleted;
    }

    method GetPending(serviceKey: ServiceKey, collapse: Collapse) returns (r: set<Tag>)
      requires Valid()
      modifies this
      ensures Valid()
      ensures r == Lookup(services, serviceKey).pending
    {
      var s := GetStatusesToTags(serviceKey, collapse);
      r := s.pending;
    }

    method GetPetitioned(serviceKey: ServiceKey, collapse: Collapse) returns (r: set<Tag>)
      requires Valid()
      modifies this
      ensures Valid()
      ensures r == Lookup(services, serviceKey).petitioned
    {
      var s := GetStatusesToTags(serviceKey, collapse);
      r := s.petitioned;
    }

    method GetServiceKeysToStatusesToTags(collapse: Collapse) returns (m: ServiceTags)
      requires Valid()
      modifies this
      ensures Valid() && m == services
      ensures !old(simple || combinedIsCalculated) ==>
        m == old(services)[CombinedTagServiceKey := Combined(old(services), collapse)]
    {
      RecalcCombinedIfNeeded(collapse);
      m := services;
    }

    /** The count of a service's current and/or pending tags. */
    method GetNumTags(serviceKey: ServiceKey, includeCurrent: bool, includePending: bool, collapse: Collapse)
      returns (n: nat)
      requires Valid() && !simple
      modifies this
      ensures Valid()
      ensures var s := Lookup(services, serviceKey);
        n == (if includeCurrent then |s.current| else 0) + (if includePending then |s.pending| else 0)
    {
      var s := GetStatusesToTags(serviceKey, collapse);
      n := 0;
      if includeCurrent {
        n := n + |s.current|;
      }
      if includePending {
        n := n + |s.pending|;
      }
    }

    /** Whether some tag service has the tag current or pending, after
        sibling collapse. */
    method HasTag(tag: Tag, collapse: Collapse) returns (b: bool)
      requires Valid() && !simple
      modifies this
      ensures Valid()
      ensures b <==> tag in CombinedCurrentPending()
      ensures b <==> exists k :: (k in services && k != CombinedTagServiceKey &&
        (tag in lastCollapse(k, services[k]).current || tag in lastCollapse(k, services[k]).pending))
    {
      RecalcCombinedIfNeeded(collapse);
      var c := Lookup(services, CombinedTagServiceKey);
      b := tag in c.current || tag in c.pending;
    }

    /** The namespaced subtags of the combined current and pending tags,
        one entry per asked namespace; a namespace without tags maps to the
        empty set. */
    method GetCombinedNamespaces(namespaces: set<string>, collapse: Collapse)
      returns (r: map<string, set<string>>)
      requires Valid()
      modifies this
      ensures Valid() && combinedNamespacesCache.Some?
      ensures r.Keys == namespaces
      ensures forall ns, sub :: ns in r && sub in r[ns] <==>
        ns in namespaces && ns != "" && exists t :: t in CombinedCurrentPending() && splitTag(t) == (ns, sub)
    {
      RecalcCombinedIfNeeded(collapse);
      if combinedNamespacesCache.None? {
        combinedNamespacesCache := Some(NamespaceIndex(CombinedCurrentPending(), splitTag));
      }
      var cache := combinedNamespacesCache.value;
      r := map ns | ns in namespaces :: if ns in cache then cache[ns] else {};
    }

    method GetNamespaceSlice(namespaces: set<string>, collapse: Collapse) returns (r: set<Tag>)
      requires Valid()
      modifies this
      ensures Valid()
      ensures r == NamespaceSlice(CombinedCurrentPending(), namespaces)
    {
      RecalcCombinedIfNeeded(collapse);
      r := NamespaceSlice(CombinedCurrentPending(), namespaces);
    }

    /** The sort key of the namespace sorts: per asked namespace, the sorted
        sortable forms of the combined current and pending subtags. */
    method GetComparableNamespaceSlice(namespaces: seq<string>, sortable: string -> string, collapse: Collapse)
      returns (r: seq<seq<string>>)
      requires Valid()
      modifies this
      ensures Valid()
      ensures |r| == |namespaces|
      ensures forall i :: 0 <= i < |r| ==> SortedBy(StrLess, (x: string) => x, false, r[i])
      ensures forall i :: 0 <= i < |r| ==> CountsSortable(r[i], CombinedCurrentPending(), splitTag, sortable, namespaces[i])
      ensures forall i :: 0 <= i < |r| ==> forall x :: x in r[i] <==> x in SortableSubtags(CombinedCurrentPending(), splitTag, sortable, namespaces[i])
      ensures forall i :: 0 <= i < |r| ==> |r[i]| == |InNamespace(CombinedCurrentPending(), splitTag, namespaces[i])|
    {
      RecalcCombinedIfNeeded(collapse);
      r := ComparableNamespaceSlice(CombinedCurrentPending(), namespaces, splitTag, sortable);
    }
  }
}
