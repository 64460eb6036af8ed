/** Selectors, event types and the enforce sets (esptool/src/esp/EspRuleAbi.h,
    esptool/src/esp/EspEventIds.h, esptool/src/esp/EspEventConfigAbi.h,
    esptool/src/esp/EspEnforceCompat.h). */
module EspRuleAbi {
  import opened Wrappers
  import opened StrHelpers

  const ACTION_QUEUE_BACKED: uint32 := 1
  const ACTION_NOTIFY_SUPPRESS: uint32 := 4
  const ACTION_REWRITE: uint32 := 5
  const ACTION_MATCH_SUBRULES: uint32 := 7

  const LIFETIME_TRANSIENT: uint32 := 1
  const LIFETIME_PERSIST: uint32 := 3

  const MODIFY_KIND_FO_CREATE: uint32 := 3
  const MODIFY_ACCESS_MASK_BYTES: uint32 := 16

  const EVENT_THREAD_CREATE: uint32 := 1
  const EVENT_THREAD_TERMINATE: uint32 := 3
  const EVENT_PROCESS_CREATE: uint32 := 1000
  const EVENT_PROCESS_TERMINATE: uint32 := 1001
  const EVENT_PROCESS_LOAD_IMAGE: uint32 := 1002
  const EVENT_FO_CREATE: uint32 := 2000
  const EVENT_FO_OPEN: uint32 := 2001
  const EVENT_FO_WRITE: uint32 := 2003
  const EVENT_FO_CLEANUP: uint32 := 2004
  const EVENT_FS_MIN: uint32 := 3000
  const EVENT_FS_QUERY_OPEN: uint32 := 3007
  const EVENT_FS_LOCK_FILE: uint32 := 3008
  const EVENT_VOLUME_MOUNT: uint32 := 4000
  const EVENT_VOLUME_FSCTL: uint32 := 4002
  const EVENT_PIPE_CREATE: uint32 := 5000
  const EVENT_MAILSLOT_CREATE: uint32 := 6000
  const EVENT_REG_CREATE_KEY: uint32 := 7000
  const EVENT_REG_MAX: uint32 := 7014
  const EVENT_OB_CREATE_HANDLE: uint32 := 8000
  const EVENT_OB_DUPLICATE_HANDLE: uint32 := 8001
  const EVENT_BOOT_LOAD_DRIVER: uint32 := 9000

  predicate IsThreadEvent(eventType: uint32) {
    EVENT_THREAD_CREATE <= eventType <= EVENT_THREAD_TERMINATE
  }

  predicate IsRegistryEvent(eventType: uint32) {
    EVENT_REG_CREATE_KEY <= eventType <= EVENT_REG_MAX
  }

  predicate IsFoIoEvent(eventType: uint32) {
    EVENT_FO_CREATE <= eventType <= EVENT_FO_CLEANUP
  }

  predicate NeedsTypedIoConfig(eventType: uint32) {
    IsFoIoEvent(eventType) || eventType == EVENT_PIPE_CREATE
  }

  /** The selector an action means: zero is queue-backed, and the cast keeps 32 bits. */
  function RawSelector(action: uint64): uint32 {
    if action != 0 then (action as int % 0x1_0000_0000) as uint32 else ACTION_QUEUE_BACKED
  }

  function SelectorForName(actionName: string, fallback: uint32): uint32 {
    if actionName == "deny" then ACTION_REWRITE
    else if actionName == "suppress" then ACTION_NOTIFY_SUPPRESS
    else fallback
  }

  function NamedSelector(action: uint64, actionName: string): uint32 {
    SelectorForName(actionName, RawSelector(action))
  }

  function ResolvedSelector(action: uint64, actionName: string, override_: Option<uint32>): uint32 {
    if override_.Some? then override_.value else NamedSelector(action, actionName)
  }

  predicate ResolvedActionNeedsQueue(action: uint64, actionName: string, override_: Option<uint32>) {
    ResolvedSelector(action, actionName, override_) == ACTION_QUEUE_BACKED
  }

  function EventModifyKind(eventType: uint32): uint32 {
    if eventType == EVENT_FO_CREATE then MODIFY_KIND_FO_CREATE
    else if eventType == EVENT_OB_CREATE_HANDLE then 1
    else if eventType == EVENT_OB_DUPLICATE_HANDLE then 2
    else if eventType == EVENT_FS_QUERY_OPEN then 4
    else 0
  }

  /** The driver's capability record of an event type; 0 when there is none. */
  function CapabilityMask(t: uint32): nat {
    if t == EVENT_PROCESS_CREATE || t == EVENT_FO_OPEN then 0x03
    else if t == EVENT_FO_CREATE || t == EVENT_REG_CREATE_KEY || t == EVENT_REG_CREATE_KEY + 1 then 0x1B
    else if EVENT_FO_OPEN < t <= EVENT_FO_WRITE
         || (EVENT_FS_MIN <= t <= EVENT_FS_LOCK_FILE && t != EVENT_FS_QUERY_OPEN)
         || t == EVENT_VOLUME_MOUNT || t == EVENT_VOLUME_FSCTL
         || t == EVENT_PIPE_CREATE || t == EVENT_MAILSLOT_CREATE
         || (EVENT_REG_CREATE_KEY + 2 <= t <= EVENT_REG_MAX) then 0x0B
    else if t == EVENT_FO_CLEANUP || t == EVENT_FS_LOCK_FILE + 1 then 0x09
    else if t == EVENT_FS_QUERY_OPEN || t == EVENT_OB_CREATE_HANDLE || t == EVENT_OB_DUPLICATE_HANDLE then 0x19
    else if t == EVENT_BOOT_LOAD_DRIVER then 0x07
    else 0
  }

  predicate EnforceCapable(t: uint32) {
    (CapabilityMask(t) / 2) % 2 == 1
  }

  predicate WritesDisposition(t: uint32) {
    t == EVENT_PROCESS_CREATE
    || EVENT_FO_OPEN <= t <= EVENT_FO_WRITE
    || (EVENT_FS_MIN <= t <= EVENT_FS_LOCK_FILE && t != EVENT_FS_QUERY_OPEN)
    || t == EVENT_VOLUME_MOUNT || t == EVENT_VOLUME_FSCTL
  }

  predicate IsEnforceCompatEvent(t: uint32) {
    EnforceCapable(t) && WritesDisposition(t)
  }

  predicate SupportsEnforcePayload(t: uint32) {
    t == EVENT_FO_CREATE || IsEnforceCompatEvent(t)
  }

  /** Every disposition-writing event type has the capability bit on this build, and the enforce
      set is disjoint from every type that carries a modify kind of its own. */
  lemma EnforceCompatSet(t: uint32)
    ensures IsEnforceCompatEvent(t) <==> WritesDisposition(t)
    ensures IsEnforceCompatEvent(t) ==> EventModifyKind(t) == 0
    ensures SupportsEnforcePayload(t) && !IsEnforceCompatEvent(t) ==> EventModifyKind(t) == MODIFY_KIND_FO_CREATE
  {}

  /** The enforce sets, type by type: process creation, opening, reading and writing a file, the file
      system without query-open, volume mount and control; and file creation as it is. */
  lemma EnforceableEvents(t: uint32)
    ensures IsEnforceCompatEvent(t)
      <==> t == 1000 || 2001 <= t <= 2003 || 3000 <= t <= 3006 || t == 3008 || t == 4000 || t == 4002
    ensures SupportsEnforcePayload(t) <==> t == 2000 || IsEnforceCompatEvent(t)
  {}
}
