/** The client library as the session sees it: every call may be refused, and a call that succeeds
    returns a handle that is not open at that moment. A closed handle's number may come back.

    The preconditions are what the library asks of its callers; closing asks for an open handle,
    so a verified caller never closes anything twice. */
module EspDriver {
  import opened Wrappers
  import opened StrHelpers
  import opened RuleDocument
  import opened EspFilterBuild
  import opened EspRuleInstall
  import opened EspHandles
  import opened HandleLog
  import opened EspRequests

  class Driver {
    /** The log of every kind of handle. */
    var filterLog: seq<HandleEvent>
    var ruleLog: seq<HandleEvent>
    var refLog: seq<HandleEvent>
    /** Open filters, and the constructor calls each filter handle stands for. */
    var filters: set<Handle>
    var built: map<Handle, DriverFilter>
    /** Open rules, the armed ones among them, and what each was created from. */
    var rules: set<Handle>
    var armed: set<Handle>
    var asked: map<Handle, Descriptor>
    /** Open object references. */
    var refs: set<Handle>
    /** Every call about references and their objects, in order. */
    var requests: seq<Request>
    /** How many calls for a filter or a reference were refused. */
    var refusals: nat
    /** Every rule asked for and every submission, with the answer. */
    var creations: seq<Creation>
    var updates: seq<Update>

    predicate Valid()
      reads this
    {
      && NULL !in filters && NULL !in rules && NULL !in refs
      && filters <= built.Keys && rules <= asked.Keys && armed <= rules
    }

    predicate FiltersLogged()
      reads this`filters, this`filterLog
    {
      Replay(filterLog) == Some(filters)
    }

    constructor ()
      ensures Valid() && filters == {} && rules == {} && refs == {} && requests == []
      ensures filterLog == [] && ruleLog == [] && refLog == []
    {
      filterLog, ruleLog := [], [];
      filters, rules, armed, refs := {}, {}, {}, {};
      built, asked, refLog := map[], map[], [];
      refusals, creations, updates, requests := 0, [], [], [];
    }

    method AddFilter(what: DriverFilter) returns (ok: bool, h: Handle)
      requires Valid() && FiltersLogged()
      modifies this`filters, this`built, this`filterLog, this`refusals
      ensures Valid() && FiltersLogged()
      ensures ok ==> h != NULL && h !in old(filters) && filters == old(filters) + {h} && built == old(built)[h := what]
      ensures !ok ==> h == NULL && filters == old(filters) && built == old(built)
      ensures refusals == old(refusals) + (if ok then 0 else 1)
    {
      ok, h := *, *;
      if !ok || h == NULL || h in filters {
        refusals := refusals + 1;
        return false, NULL;
      }
      ReplayOpens(filterLog, filters, h);
      filters, filterLog := filters + {h}, filterLog + [Opened(h)];
      built := built[h := what];
    }

    /** Whether a leaf's comparand payload is one the library takes. */
    method TakesPayload(fields: LeafFields) returns (ok: bool)
      modifies this`refusals
      ensures refusals == old(refusals) + (if ok then 0 else 1)
    {
      ok := *;
      refusals := refusals + (if ok then 0 else 1);
    }

    method CreateTypedFilter(call: LeafCall) returns (ok: bool, h: Handle)
      requires Valid() && FiltersLogged()
      modifies this`filters, this`built, this`filterLog, this`refusals
      ensures Valid() && FiltersLogged()
      ensures ok ==> h != NULL && h !in old(filters) && filters == old(filters) + {h} && built == old(built)[h := Typed(call)]
      ensures !ok ==> h == NULL && filters == old(filters) && built == old(built)
      ensures refusals == old(refusals) + (if ok then 0 else 1)
    {
      ok, h := AddFilter(Typed(call));
    }

    method CreateBinaryFilter(kind: FilterKind, left: Handle, right: Handle) returns (ok: bool, h: Handle)
      requires Valid() && FiltersLogged() && left in filters && right in filters
      modifies this`filters, this`built, this`filterLog, this`refusals
      ensures Valid() && FiltersLogged()
      ensures ok ==> h != NULL && h !in old(filters) && filters == old(filters) + {h}
                     && built == old(built)[h := Both(kind, old(built)[left], old(built)[right])]
      ensures !ok ==> h == NULL && filters == old(filters) && built == old(built)
      ensures refusals == old(refusals) + (if ok then 0 else 1)
    {
      ok, h := AddFilter(Both(kind, built[left], built[right]));
    }

    method CreateNotFilter(child: Handle) returns (ok: bool, h: Handle)
      requires Valid() && FiltersLogged() && child in filters
      modifies this`filters, this`built, this`filterLog, this`refusals
      ensures Valid() && FiltersLogged()
      ensures ok ==> h != NULL && h !in old(filters) && filters == old(filters) + {h}
                     && built == old(built)[h := Negated(old(built)[child])]
      ensures !ok ==> h == NULL && filters == old(filters) && built == old(built)
      ensures refusals == old(refusals) + (if ok then 0 else 1)
    {
      ok, h := AddFilter(Negated(built[child]));
    }

    method CloseFilter(h: Handle)
      requires Valid() && FiltersLogged() && h in filters
      modifies this`filters, this`filterLog
      ensures filterLog == old(filterLog) + [Closed(h)]
      ensures Valid() && FiltersLogged() && filters == old(filters) - {h}
    {
      ReplayCloses(filterLog, filters, h);
      filters, filterLog := filters - {h}, filterLog + [Closed(h)];
    }

    /** Creates a rule, or returns NULL. A predecessor named by the descriptor must be open. */
    method CreateRule(d: Descriptor) returns (h: Handle)
      requires Valid() && (d.subrules.Predecessor? ==> d.subrules.handle in rules)
      modifies this`rules, this`asked, this`creations, this`ruleLog
      ensures ruleLog == old(ruleLog) + OpeningOf(h)
      ensures Valid() && creations == old(creations) + [Creation(d, h)]
      ensures h != NULL ==> h !in old(rules) && rules == old(rules) + {h} && asked == old(asked)[h := d]
      ensures h == NULL ==> rules == old(rules) && asked == old(asked)
    {
      h := *;
      if h in rules {
        h := NULL;
      }
      if h != NULL {
        rules, asked, ruleLog := rules + {h}, asked[h := d], ruleLog + [Opened(h)];
      }
      creations := creations + [Creation(d, h)];
    }

    /** Arms one rule, or refuses. The rule must be open, and so must the armed predecessor that
        its subrule array names. */
    method UpdateRules(h: Handle) returns (accepted: bool)
      requires Valid() && h in rules
      requires asked[h].subrules.Predecessor? ==> asked[h].subrules.handle in armed
      modifies this`armed, this`updates
      ensures Valid() && armed == if accepted then old(armed) + {h} else old(armed)
      ensures updates == old(updates) + [Update(h, accepted)]
    {
      accepted := *;
      updates := updates + [Update(h, accepted)];
      if accepted {
        armed := armed + {h};
      }
    }

    method CloseRule(h: Handle)
      requires Valid() && h in rules
      modifies this`rules, this`armed, this`ruleLog
      ensures ruleLog == old(ruleLog) + [Closed(h)]
      ensures Valid() && rules == old(rules) - {h} && armed == old(armed) - {h}
    {
      rules, armed, ruleLog := rules - {h}, armed - {h}, ruleLog + [Closed(h)];
    }

    /** A new reference, or NULL. */
    method AddReference() returns (h: Handle)
      requires Valid()
      modifies this`refs, this`refLog, this`refusals
      ensures Valid() && (h != NULL ==> h !in old(refs)) && refusals == old(refusals) + (if h == NULL then 1 else 0)
      ensures refs == if h == NULL then old(refs) else old(refs) + {h}
      ensures refLog == if h == NULL then old(refLog) else old(refLog) + [Opened(h)]
    {
      h := *;
      if h in refs {
        h := NULL;
      }
      if h != NULL {
        refs, refLog := refs + {h}, refLog + [Opened(h)];
      } else {
        refusals := refusals + 1;
      }
    }

    /** Creates an object reference, or returns NULL. */
    method CreateReference(target: RefTarget) returns (h: Handle)
      requires Valid()
      modifies this`refs, this`refLog, this`refusals, this`requests
      ensures Valid() && (h != NULL ==> h !in old(refs)) && refusals == old(refusals) + (if h == NULL then 1 else 0)
      ensures refs == if h == NULL then old(refs) else old(refs) + {h}
      ensures refLog == if h == NULL then old(refLog) else old(refLog) + [Opened(h)]
      ensures requests == old(requests) + [Create(target, h)]
    {
      h := AddReference();
      requests := requests + [Create(target, h)];
    }

    /** Duplicates an open reference, or returns NULL. */
    method DuplicateReference(ref: Handle) returns (h: Handle)
      requires Valid() && ref in refs
      modifies this`refs, this`refLog, this`refusals, this`requests
      ensures Valid() && (h != NULL ==> h !in old(refs)) && refusals == old(refusals) + (if h == NULL then 1 else 0)
      ensures refs == if h == NULL then old(refs) else old(refs) + {h}
      ensures refLog == if h == NULL then old(refLog) else old(refLog) + [Opened(h)]
      ensures requests == old(requests) + [Duplicate(ref, h)]
    {
      h := AddReference();
      requests := requests + [Duplicate(ref, h)];
    }

    /** The object behind an open reference. */
    method UnwrapReference(ref: Handle) returns (ok: bool)
      requires ref in refs
      modifies this`requests
      ensures requests == old(requests) + [Unwrap(ref, ok)]
    {
      ok := *;
      requests := requests + [Unwrap(ref, ok)];
    }

    /** Its identifier; zero stands for none, also if the call fails. */
    method GetEventObjectId(ref: Handle) returns (id: uint64)
      requires ref in refs
      modifies this`requests
      ensures requests == old(requests) + [GetId(ref, id)]
    {
      id := *;
      requests := requests + [GetId(ref, id)];
    }

    /** A call whose answer nobody uses. What it is about must be open, or be the client. */
    method Ask(what: Request, client: Handle)
      requires match what
               case GetType(ref) => ref in refs
               case QueryProperties(_, about, _) => about in refs || about == client != NULL
               case IsSupported(_, _) => client != NULL
               case SetContextKey(ref) => ref in refs
               case EnumerateContextKeys(ref) => ref in refs
               case _ => false
      modifies this`requests
      ensures requests == old(requests) + [what]
    {
      requests := requests + [what];
    }

    method CloseReference(h: Handle)
      requires Valid() && h in refs
      modifies this`refs, this`refLog
      ensures Valid() && refs == old(refs) - {h} && refLog == old(refLog) + [Closed(h)]
    {
      refs, refLog := refs - {h}, refLog + [Closed(h)];
    }
  }
}
