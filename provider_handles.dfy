/** The kinds of configuration object, the datastore's errors and the resolution
    of a (kind, provider type) pair to the handler class that builds its objects
    (`get_provider_handle`), over a static registry instead of `__import__`. */
module ProviderHandles {
  import opened Results

  /** The keys of HANDLE_MAPPING. */
  datatype Kind = Provider | Controller | WorkerGroup

  function KindName(k: Kind): string
  {
    match k
    case Provider => "Provider"
    case Controller => "Controller"
    case WorkerGroup => "WorkerGroup"
  }

  /** `kind in HANDLE_MAPPING`, giving the kind the string names. */
  function ParseKind(s: string): (r: Option<Kind>)
    ensures r.Some? ==> KindName(r.value) == s
    ensures r.None? ==> forall k: Kind :: KindName(k) != s
  {
    if s == "Provider" then Some(Provider)
    else if s == "Controller" then Some(Controller)
    else if s == "WorkerGroup" then Some(WorkerGroup)
    else None
  }

  /** The keys of REMOTE_EXECUTION. */
  const RemoteKinds: seq<string> := ["RemoteHost", "RemoteJob"]

  /** VALID_PROVIDER_TYPES. */
  const ValidProviderTypes: seq<string> := ["OpenStack", "EC2", "Eucalyptus", "Docker"]

  /** DatastoreException, by the condition that raises it; InstanceNotPersisted is
      the session's refusal to delete an instance it does not hold. */
  datatype DatastoreError =
    | UnknownKind(kind: string)
    | UnknownProviderType(kind: string, ptype: string)
    | MissingHandler(package: string, className: string)
    | AlreadyExists(kind: string, name: string)
    | NameNotFound(kind: string, name: string)
    | IdNotFound(kind: string, id: int)
    | RemoteExecutionKind(kind: string)
    | InstanceNotPersisted(id: int)

  /** A handler class, named by its package and class name. */
  datatype Handle = Handle(package: string, className: string)

  /** The handler classes the provider packages expose. */
  type Registry = set<Handle>

  /** `get_provider_handle(kind, ptype)`. */
  function GetProviderHandle(registry: Registry, kind: string, ptype: string): (r: Result<Handle, DatastoreError>)
    ensures ParseKind(kind).None? ==> r == Err(UnknownKind(kind))
    ensures ParseKind(kind).Some? && ptype !in ValidProviderTypes ==> r == Err(UnknownProviderType(kind, ptype))
    ensures r.Ok? <==> ParseKind(kind).Some? && ptype in ValidProviderTypes
                       && Handle("MolnsLib." + ptype + "Provider", ptype + kind) in registry
    ensures r.Ok? ==> r.value in registry
                      && r.value.className == ptype + kind
                      && r.value.package == "MolnsLib." + ptype + "Provider"
  {
    if ParseKind(kind).None? then Err(UnknownKind(kind))
    else if ptype !in ValidProviderTypes then Err(UnknownProviderType(kind, ptype))
    else
      var h := Handle("MolnsLib." + ptype + "Provider", ptype + kind);
      if h in registry then Ok(h) else Err(MissingHandler(h.package, h.className))
  }

  /** Equal strings with the same frame have the same middle. */
  lemma MiddleOfFrame(a: string, x: string, y: string, b: string)
    requires a + x + b == a + y + b
    ensures x == y
  {
    assert x == (a + x + b)[|a|..|a| + |x|];
    assert y == (a + y + b)[|a|..|a| + |y|];
  }

  /** Distinct (kind, provider type) pairs resolve to distinct handler classes. */
  lemma HandlesAreDistinct(registry: Registry, k1: string, p1: string, k2: string, p2: string)
    requires GetProviderHandle(registry, k1, p1).Ok? && GetProviderHandle(registry, k2, p2).Ok?
    requires GetProviderHandle(registry, k1, p1).value == GetProviderHandle(registry, k2, p2).value
    ensures k1 == k2 && p1 == p2
  {
    MiddleOfFrame("MolnsLib.", p1, p2, "Provider");
    MiddleOfFrame(p1, k1, k2, "");
    assert p1 + k1 + "" == p1 + k1;
    assert p1 + k2 + "" == p1 + k2;
  }
}
