/** What the session asks of the library about event objects (esptool/src/esp/EspRefs.cpp,
    esptool/src/esp/EspRefAbi.h): the calls of one notification's query, in order, on paper. */
module EspRequests {
  import opened Wrappers
  import opened StrHelpers
  import opened RuleDocument
  import opened EspRuleAbi
  import opened EspRuleInstall

  /** What a reference is made for. */
  datatype RefTarget =
    | ByPid(api: string, pid: uint32)
    | ByPath(api: string, path: string)
    | Desktop(name: string)
    | Volume(volume: nat)
    | FileById(volume: nat, file: nat)
    | StreamById(volume: nat, file: nat, stream: string)
    | EventObject(id: uint64)

  /** The check in front of the call: a path and a name must not be empty, a volume and an identifier
      not null. */
  predicate Creatable(target: RefTarget) {
    match target
    case ByPid(_, _) => true
    case ByPath(_, path) => path != ""
    case Desktop(name) => name != ""
    case Volume(volume) => volume != 0
    case FileById(volume, _) => volume != 0
    case StreamById(volume, _, _) => volume != 0
    case EventObject(id) => id != 0
  }

  /** A call, with its answer where the session uses it. Properties are asked of a reference, or of
      the client. */
  datatype Request =
    | Create(target: RefTarget, made: Handle)
    | Duplicate(ref: Handle, made: Handle)
    | Unwrap(ref: Handle, ok: bool)
    | GetType(ref: Handle)
    | GetId(ref: Handle, id: uint64)
    | QueryProperties(api: string, about: Handle, properties: seq<uint32>)
    | IsSupported(api: string, property: uint32)
    | SetContextKey(ref: Handle)
    | EnumerateContextKeys(ref: Handle)

  // ---------------------------------------------------------------- exports

  function CanonicalKind(kind: string): string {
    if kind == "process-token" || kind == "thread-token" then "token" else if kind == "stream" then "filestream" else kind
  }

  /** The part of an export's name that stands for a kind of object, by the kind's canonical name. */
  const SUBJECTS: map<string, string> := map[
    "client" := "Client", "desktop" := "Desktop", "disk" := "Disk", "fileobject" := "FileObject", "file" := "File",
    "filestream" := "FileStream", "ktm" := "KtmTransaction", "mailslot" := "Mailslot", "pipe" := "Pipe",
    "process" := "Process", "registry-key-object" := "RegistryKeyObject", "registry" := "RegistryKey",
    "thread" := "Thread", "token" := "Token", "volume" := "Volume"
  ]

  const EVENT_KIND := "event"
  const CLIENT_KIND := "client"

  function QueryExport(kind: string): Option<string> {
    var name := CanonicalKind(kind);
    if name in SUBJECTS then Some("EspQuery" + SUBJECTS[name] + "Properties") else None
  }

  function SupportExport(kind: string): Option<string> {
    var name := CanonicalKind(kind);
    if name == EVENT_KIND then Some("EspIsEventPropertySupported")
    else if name in SUBJECTS then Some("EspIs" + SUBJECTS[name] + "PropertySupported")
    else None
  }

  // ---------------------------------------------------------------- recipes

  /** A recipe of a rule, with the rule's event type. */
  datatype NotifyQuery = NotifyQuery(eventType: uint32, recipe: QueryRecipe)

  /** The queries of a document: rule by rule, recipe by recipe. */
  function QueriesOf(rules: seq<RuleSpec>): seq<NotifyQuery> {
    if rules == [] then []
    else
      var last := rules[|rules| - 1];
      QueriesOf(rules[..|rules| - 1]) + Tagged(last.eventType, last.queries)
  }

  function Tagged(eventType: uint32, recipes: seq<QueryRecipe>): seq<NotifyQuery> {
    seq(|recipes|, k requires 0 <= k < |recipes| => NotifyQuery(eventType, recipes[k]))
  }

  /** The properties of a kind, asked of an object: of the client if the kind is that of the client.
      Events have no such export. */
  function KindRequests(kind: string, ref: Handle, client: Handle, properties: seq<uint32>): seq<Request> {
    if kind == EVENT_KIND || QueryExport(kind).None? || properties == [] then []
    else [QueryProperties(QueryExport(kind).value, if kind == CLIENT_KIND then client else ref, properties)]
  }

  function SupportRequest(kind: string, property: uint32): seq<Request> {
    if SupportExport(kind).None? then [] else [IsSupported(SupportExport(kind).value, property)]
  }

  function SupportRequests(kind: string, properties: seq<uint32>): seq<Request> {
    if properties == [] then []
    else SupportRequests(kind, properties[..|properties| - 1]) + SupportRequest(kind, properties[|properties| - 1])
  }

  function KindOfRecipe(r: QueryRecipe, ref: Handle, client: Handle): seq<Request> {
    if r.kind == "" then [] else KindRequests(r.kind, ref, client, r.properties)
  }

  /** Whether the properties of a recipe are supported; for events without any, the first one. */
  function SupportOfRecipe(r: QueryRecipe): seq<Request> {
    if r.kind == EVENT_KIND && r.properties == [] then SupportRequest(EVENT_KIND, 1)
    else if r.kind != "" then SupportRequests(r.kind, r.properties)
    else []
  }

  function ContextRequests(r: QueryRecipe, ref: Handle): seq<Request> {
    (if r.contextSet then [SetContextKey(ref)] else []) + (if r.contextEnum then [EnumerateContextKeys(ref)] else [])
  }

  /** What one recipe asks. */
  function RecipeRequests(r: QueryRecipe, ref: Handle, client: Handle): seq<Request> {
    KindOfRecipe(r, ref, client) + SupportOfRecipe(r) + ContextRequests(r, ref)
  }

  /** A query is for the notifications of its event type; zero, on either side, is for all. */
  predicate Concerns(q: NotifyQuery, eventType: uint32) {
    q.eventType == 0 || eventType == 0 || q.eventType == eventType
  }

  function RecipesRequests(queries: seq<NotifyQuery>, eventType: uint32, ref: Handle, client: Handle): seq<Request> {
    if queries == [] then []
    else
      var last := queries[|queries| - 1];
      RecipesRequests(queries[..|queries| - 1], eventType, ref, client) + QueryRequests(last, eventType, ref, client)
  }

  function QueryRequests(q: NotifyQuery, eventType: uint32, ref: Handle, client: Handle): seq<Request> {
    if Concerns(q, eventType) then RecipeRequests(q.recipe, ref, client) else []
  }

  lemma OneMoreQuery(queries: seq<NotifyQuery>, k: nat, eventType: uint32, ref: Handle, client: Handle)
    requires k < |queries|
    ensures RecipesRequests(queries[..k + 1], eventType, ref, client)
      == RecipesRequests(queries[..k], eventType, ref, client) + QueryRequests(queries[k], eventType, ref, client)
  {
    assert queries[..k + 1][..k] == queries[..k];
  }

  // ---------------------------------------------------------------- notifications

  datatype NotificationKeys = NotificationKeys(eventType: uint32, pid: uint32, path: string)

  /** What the session has for a query besides the keys. */
  datatype QuerySetup = QuerySetup(client: Handle, queries: seq<NotifyQuery>, fallbackPath: string, fallbackPid: uint32)

  /** The answers of the library during one query: the reference by the path or the process, the one by
      the fallback path, the identifier of the object and the reference by it, and whether the two
      references that are read through could be unwrapped. */
  datatype Answers = Answers(first: Handle, second: Handle, unwrapped: bool, id: uint64, byId: Handle, byIdUnwrapped: bool)

  const NO_ANSWERS := Answers(NULL, NULL, false, 0, NULL, false)

  const FILE_EXPORT := "EspCreateFileReferenceByPath"
  const PROCESS_EXPORT := "EspCreateProcessReference"

  predicate FallsBack(keys: NotificationKeys, setup: QuerySetup, a: Answers) {
    IsFoIoEvent(keys.eventType) && (keys.path == "" || a.first == NULL) && setup.fallbackPath != ""
  }

  function PidOf(keys: NotificationKeys, setup: QuerySetup): uint32 {
    if keys.pid == 0 then setup.fallbackPid else keys.pid
  }

  /** The tries for the natural reference: the path of a file, then the fallback; or the process. */
  function NaturalRequests(keys: NotificationKeys, setup: QuerySetup, a: Answers): seq<Request> {
    if IsFoIoEvent(keys.eventType) then
      (if keys.path != "" then [Create(ByPath(FILE_EXPORT, keys.path), a.first)] else [])
      + (if FallsBack(keys, setup, a) then [Create(ByPath(FILE_EXPORT, setup.fallbackPath), a.second)] else [])
    else if PidOf(keys, setup) == 0 then []
    else [Create(ByPid(PROCESS_EXPORT, PidOf(keys, setup)), a.first)]
  }

  function NaturalOf(keys: NotificationKeys, setup: QuerySetup, a: Answers): Handle {
    if IsFoIoEvent(keys.eventType) then
      if FallsBack(keys, setup, a) then a.second else if keys.path != "" then a.first else NULL
    else if PidOf(keys, setup) == 0 then NULL
    else a.first
  }

  /** The reference by identifier, if the object has an identifier. */
  function ByIdRequests(a: Answers): seq<Request> {
    if a.id == 0 then []
    else [Create(EventObject(a.id), a.byId)] + (if a.byId != NULL then [Unwrap(a.byId, a.byIdUnwrapped)] else [])
  }

  /** The reference that the recipes read through. */
  function ContextOf(natural: Handle, a: Answers): Handle {
    if a.id != 0 && a.byId != NULL && a.byIdUnwrapped then a.byId else natural
  }

  /** The reference by identifier that was made, or NULL. */
  function ById(a: Answers): Handle {
    if !a.unwrapped || a.id == 0 then NULL else a.byId
  }

  function ThroughRequests(natural: Handle, eventType: uint32, setup: QuerySetup, a: Answers): seq<Request> {
    [Unwrap(natural, a.unwrapped)] + if a.unwrapped then ViewRequests(natural, eventType, setup, a) else []
  }

  /** Those once it is unwrapped. */
  function ViewRequests(natural: Handle, eventType: uint32, setup: QuerySetup, a: Answers): seq<Request> {
    [GetType(natural), GetId(natural, a.id)] + ByIdRequests(a)
    + RecipesRequests(setup.queries, eventType, ContextOf(natural, a), setup.client)
  }

  function NotificationRequests(keys: Option<NotificationKeys>, setup: QuerySetup, a: Answers): seq<Request> {
    if setup.client == NULL || keys.None? then []
    else
      var natural := NaturalOf(keys.value, setup, a);
      NaturalRequests(keys.value, setup, a)
      + (if natural == NULL then [] else ThroughRequests(natural, keys.value.eventType, setup, a))
  }

  // ---------------------------------------------------------------- what is asked

  lemma {:induction false} SupportedInOrder(kind: string, properties: seq<uint32>)
    requires SupportExport(kind).Some?
    ensures |SupportRequests(kind, properties)| == |properties|
    ensures forall k :: 0 <= k < |properties| ==>
      SupportRequests(kind, properties)[k] == IsSupported(SupportExport(kind).value, properties[k])
  {
    if properties != [] {
      var n := |properties| - 1;
      SupportedInOrder(kind, properties[..n]);
      SupportedNext(SupportRequests(kind, properties[..n]), SupportExport(kind).value, properties, SupportRequests(kind, properties));
    }
  }

  lemma SupportedNext(front: seq<Request>, api: string, properties: seq<uint32>, all: seq<Request>)
    requires |front| == |properties| - 1 && all == front + [IsSupported(api, properties[|properties| - 1])]
    requires forall k :: 0 <= k < |front| ==> front[k] == IsSupported(api, properties[..|properties| - 1][k])
    ensures forall k :: 0 <= k < |properties| ==> all[k] == IsSupported(api, properties[k])
  {}

  lemma {:induction false} NoSupportAsked(kind: string, properties: seq<uint32>)
    requires SupportExport(kind).None?
    ensures SupportRequests(kind, properties) == []
  {
    if properties != [] {
      NoSupportAsked(kind, properties[..|properties| - 1]);
    }
  }

  /** One recipe queries all its properties in one call, of the reference, or of the client if it is
      about the client; not without properties, and never about events. */
  lemma KindSays(kind: string, ref: Handle, client: Handle, properties: seq<uint32>)
    ensures KindRequests(kind, ref, client, properties) ==
      if kind != "event" && properties != [] && QueryExport(kind).Some? then
        [QueryProperties(QueryExport(kind).value, if kind == "client" then client else ref, properties)]
      else []
  {}

  /** It asks of each property, in order, whether it is supported, and of events at least that of the
      property 1. */
  lemma SupportSays(r: QueryRecipe)
    ensures var asked, e := SupportOfRecipe(r), SupportExport(r.kind);
      if r.kind == "" || e.None? then asked == []
      else if r.kind == "event" && r.properties == [] then asked == [IsSupported("EspIsEventPropertySupported", 1)]
      else |asked| == |r.properties| && forall k :: 0 <= k < |asked| ==> asked[k] == IsSupported(e.value, r.properties[k])
  {
    if SupportExport(r.kind).Some? {
      SupportedInOrder(r.kind, r.properties);
    } else {
      NoSupportAsked(r.kind, r.properties);
    }
  }

  /** It sets the context key and enumerates the keys through the reference, each exactly if it says so. */
  lemma ContextSays(r: QueryRecipe, ref: Handle)
    ensures var asked := ContextRequests(r, ref);
      && (forall h :: SetContextKey(h) in asked <==> r.contextSet && h == ref)
      && (forall h :: EnumerateContextKeys(h) in asked <==> r.contextEnum && h == ref)
      && |asked| == (if r.contextSet then 1 else 0) + (if r.contextEnum then 1 else 0)
  {}

  /** These three, in this order, are all that it asks. */
  lemma RecipeSays(r: QueryRecipe, ref: Handle, client: Handle)
    ensures r.kind != "" ==>
      RecipeRequests(r, ref, client) == KindRequests(r.kind, ref, client, r.properties) + SupportOfRecipe(r) + ContextRequests(r, ref)
    ensures r.kind == "" ==> RecipeRequests(r, ref, client) == ContextRequests(r, ref)
  {
    SupportSays(r);
  }

  /** All recipes: those that concern the event type, in order, each as if it were alone. */
  lemma RecipesSay(queries: seq<NotifyQuery>, q: NotifyQuery, eventType: uint32, ref: Handle, client: Handle)
    ensures RecipesRequests([], eventType, ref, client) == []
    ensures RecipesRequests(queries + [q], eventType, ref, client)
      == RecipesRequests(queries, eventType, ref, client)
         + (if q.eventType == 0 || eventType == 0 || q.eventType == eventType then RecipeRequests(q.recipe, ref, client) else [])
  {
    assert (queries + [q])[..|queries|] == queries;
  }

  /** For example: a file, process or other query of one property that also sets the context key. */
  lemma OneRecipeAsks(kind: string, property: uint32, ref: Handle, client: Handle)
    requires kind != "" && kind != "event" && kind != "client" && QueryExport(kind).Some? && SupportExport(kind).Some?
    ensures RecipeRequests(QueryRecipe(kind, [property], true, false), ref, client)
      == [QueryProperties(QueryExport(kind).value, ref, [property]), IsSupported(SupportExport(kind).value, property),
          SetContextKey(ref)]
  {
    SupportedInOrder(kind, [property]);
  }

  /** The export of a kind, for its query and for its support. */
  lemma ExportsSay(kind: string)
    requires kind in {"client", "desktop", "disk", "fileobject", "file", "filestream", "ktm", "mailslot", "pipe", "process",
                      "registry-key-object", "registry", "thread", "token", "volume"}
    ensures var subject :=
        if kind == "client" then "Client" else if kind == "desktop" then "Desktop" else if kind == "disk" then "Disk"
        else if kind == "fileobject" then "FileObject" else if kind == "file" then "File"
        else if kind == "filestream" then "FileStream" else if kind == "ktm" then "KtmTransaction"
        else if kind == "mailslot" then "Mailslot" else if kind == "pipe" then "Pipe" else if kind == "process" then "Process"
        else if kind == "registry-key-object" then "RegistryKeyObject" else if kind == "registry" then "RegistryKey"
        else if kind == "thread" then "Thread" else if kind == "token" then "Token" else "Volume";
      QueryExport(kind) == Some("EspQuery" + subject + "Properties") && SupportExport(kind) == Some("EspIs" + subject + "PropertySupported")
  {}

  /** A file's notification tries its path and then the fallback, a process's its number or the
      fallback's; without either nothing is asked. */
  lemma NaturalSays(keys: NotificationKeys, setup: QuerySetup, a: Answers)
    ensures var asked, natural := NaturalRequests(keys, setup, a), NaturalOf(keys, setup, a);
      if 2000 <= keys.eventType <= 2004 then
        var file := "EspCreateFileReferenceByPath";
        if keys.path != "" && (a.first != NULL || setup.fallbackPath == "") then
          asked == [Create(ByPath(file, keys.path), a.first)] && natural == a.first
        else if keys.path != "" then
          asked == [Create(ByPath(file, keys.path), NULL), Create(ByPath(file, setup.fallbackPath), a.second)] && natural == a.second
        else if setup.fallbackPath != "" then asked == [Create(ByPath(file, setup.fallbackPath), a.second)] && natural == a.second
        else asked == [] && natural == NULL
      else
        var pid := if keys.pid != 0 then keys.pid else setup.fallbackPid;
        if pid != 0 then asked == [Create(ByPid("EspCreateProcessReference", pid), a.first)] && natural == a.first
        else asked == [] && natural == NULL
  {}

  /** The rest: the object is unwrapped and identified; a reference by its identifier, if it has one and
      that reference can be unwrapped, takes the place of the natural one for the recipes. */
  lemma ThroughSays(natural: Handle, eventType: uint32, setup: QuerySetup, a: Answers)
    ensures var asked := ThroughRequests(natural, eventType, setup, a);
      if !a.unwrapped then asked == [Unwrap(natural, false)]
      else if a.id == 0 then
        asked == [Unwrap(natural, true), GetType(natural), GetId(natural, 0)]
                 + RecipesRequests(setup.queries, eventType, natural, setup.client)
      else if a.byId == NULL then
        asked == [Unwrap(natural, true), GetType(natural), GetId(natural, a.id), Create(EventObject(a.id), NULL)]
                 + RecipesRequests(setup.queries, eventType, natural, setup.client)
      else
        asked == [Unwrap(natural, true), GetType(natural), GetId(natural, a.id), Create(EventObject(a.id), a.byId),
                  Unwrap(a.byId, a.byIdUnwrapped)]
                 + RecipesRequests(setup.queries, eventType, if a.byIdUnwrapped then a.byId else natural, setup.client)
  {
    if a.unwrapped {
      var recipes := RecipesRequests(setup.queries, eventType, ContextOf(natural, a), setup.client);
      ViewFollows(natural, a, recipes);
    }
  }

  lemma ViewFollows(natural: Handle, a: Answers, recipes: seq<Request>)
    ensures [Unwrap(natural, true)] + ([GetType(natural), GetId(natural, a.id)] + ByIdRequests(a) + recipes)
      == (if a.id == 0 then [Unwrap(natural, true), GetType(natural), GetId(natural, 0)]
          else if a.byId == NULL then
            [Unwrap(natural, true), GetType(natural), GetId(natural, a.id), Create(EventObject(a.id), NULL)]
          else
            [Unwrap(natural, true), GetType(natural), GetId(natural, a.id), Create(EventObject(a.id), a.byId),
             Unwrap(a.byId, a.byIdUnwrapped)]) + recipes
  {
    var view := [GetType(natural), GetId(natural, a.id)] + ByIdRequests(a);
    JoinRequests([Unwrap(natural, true)], view, recipes, []);
  }

  lemma {:induction false} QueryIsAsked(queries: seq<NotifyQuery>, k: nat, eventType: uint32, ref: Handle, client: Handle, r: Request)
    requires k < |queries| && Concerns(queries[k], eventType) && r in RecipeRequests(queries[k].recipe, ref, client)
    ensures r in RecipesRequests(queries, eventType, ref, client)
  {
    if k < |queries| - 1 {
      QueryIsAsked(queries[..|queries| - 1], k, eventType, ref, client, r);
    }
  }

  lemma {:induction false} RecipeIsConfigured(rules: seq<RuleSpec>, k: nat, j: nat)
    requires k < |rules| && j < |rules[k].queries|
    ensures NotifyQuery(rules[k].eventType, rules[k].queries[j]) in QueriesOf(rules)
  {
    var n := |rules| - 1;
    if k < n {
      RecipeIsConfigured(rules[..n], k, j);
    } else {
      assert Tagged(rules[n].eventType, rules[n].queries)[j] == NotifyQuery(rules[k].eventType, rules[k].queries[j]);
    }
  }

  /** Whatever a recipe of an installed rule asks for, every notification of the rule's event type asks,
      through the reference by identifier if there is one, once its object could be unwrapped. */
  lemma RecipeOfRuleIsAsked(
    rules: seq<RuleSpec>, k: nat, j: nat, keys: NotificationKeys, setup: QuerySetup, a: Answers, r: Request)
    requires k < |rules| && j < |rules[k].queries| && setup.queries == QueriesOf(rules)
    requires setup.client != NULL && NaturalOf(keys, setup, a) != NULL && a.unwrapped
    requires rules[k].eventType == 0 || keys.eventType == 0 || rules[k].eventType == keys.eventType
    requires var ref := if a.id != 0 && a.byId != NULL && a.byIdUnwrapped then a.byId else NaturalOf(keys, setup, a);
      r in RecipeRequests(rules[k].queries[j], ref, setup.client)
    ensures r in NotificationRequests(Some(keys), setup, a)
  {
    RecipeIsConfigured(rules, k, j);
    var i :| 0 <= i < |setup.queries| && setup.queries[i] == NotifyQuery(rules[k].eventType, rules[k].queries[j]);
    var natural := NaturalOf(keys, setup, a);
    QueryIsAsked(setup.queries, i, keys.eventType, ContextOf(natural, a), setup.client, r);
    assert r in ViewRequests(natural, keys.eventType, setup, a);
    assert r in ThroughRequests(natural, keys.eventType, setup, a);
  }

  /** Creatable targets, one by one. */
  lemma CreatableSays(api: string, path: string, pid: uint32, volume: nat, file: nat, id: uint64)
    ensures Creatable(ByPid(api, pid)) && (Creatable(ByPath(api, path)) <==> path != "") && (Creatable(Desktop(path)) <==> path != "")
    ensures Creatable(Volume(volume)) <==> volume != 0
    ensures Creatable(FileById(volume, file)) <==> volume != 0
    ensures Creatable(StreamById(volume, file, path)) <==> volume != 0
    ensures Creatable(EventObject(id)) <==> id != 0
  {}

  /** The tries for the natural reference look at its two answers only. */
  lemma NaturalComesFirst(keys: NotificationKeys, setup: QuerySetup, a: Answers, b: Answers)
    requires a.first == b.first && a.second == b.second
    ensures NaturalRequests(keys, setup, a) == NaturalRequests(keys, setup, b) && NaturalOf(keys, setup, a) == NaturalOf(keys, setup, b)
  {}

  lemma ViewInOrder(before: seq<Request>, natural: Handle, eventType: uint32, setup: QuerySetup, a: Answers)
    ensures before + [GetType(natural)] + ([GetId(natural, a.id)] + ByIdRequests(a))
            + RecipesRequests(setup.queries, eventType, ContextOf(natural, a), setup.client)
      == before + ViewRequests(natural, eventType, setup, a)
  {
    var recipes := RecipesRequests(setup.queries, eventType, ContextOf(natural, a), setup.client);
    assert [GetType(natural)] + ([GetId(natural, a.id)] + ByIdRequests(a)) == [GetType(natural), GetId(natural, a.id)] + ByIdRequests(a);
    JoinRequests(before, [GetType(natural)], [GetId(natural, a.id)] + ByIdRequests(a), recipes);
  }

  lemma JoinRequests(a: seq<Request>, b: seq<Request>, c: seq<Request>, d: seq<Request>)
    ensures a + b + c + d == a + (b + c + d)
    ensures a + b + c == a + (b + c)
  {}
}
