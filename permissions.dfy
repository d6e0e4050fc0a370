/**
 * The permission hook `useSMSPermissions` of src/hooks/useSMS.ts: its
 * `checkPermissions` asks the native module when there is one, and otherwise
 * falls back to react-native-permissions' `check` for RECEIVE_SMS and
 * READ_SMS.
 */
module Permissions {
  import opened Optional

  /** The result values of react-native-permissions' `check`. */
  datatype CheckResult = Unavailable | Denied | Limited | Granted | Blocked

  /** The permission state the hook holds. */
  datatype PermissionStatus = PermissionStatus(receiveSMS: bool, readSMS: bool, hasAllPermissions: bool)

  /** The state before any check. */
  const NoPermissions: PermissionStatus := PermissionStatus(false, false, false)

  /** Where `checkPermissions` gets its answer from; `None` is a promise that rejects. */
  datatype PermissionSource =
    | NotAndroid
    | NativeModule(reported: Option<PermissionStatus>)
    | Fallback(receive: Option<CheckResult>, read: Option<CheckResult>)

  /** The fallback's status: only GRANTED counts as holding a permission. */
  function FallbackStatus(receive: CheckResult, read: CheckResult): (s: PermissionStatus)
    ensures s.receiveSMS <==> receive == Granted
    ensures s.readSMS <==> read == Granted
    ensures s.hasAllPermissions <==> receive == Granted && read == Granted
  {
    var hasReceiveSMS := receive == Granted;
    var hasReadSMS := read == Granted;
    PermissionStatus(hasReceiveSMS, hasReadSMS, hasReceiveSMS && hasReadSMS)
  }

  /** The status after `checkPermissions`; a rejected promise leaves it as it was. */
  function CheckedStatus(current: PermissionStatus, source: PermissionSource): PermissionStatus {
    match source
    case NotAndroid => current
    case NativeModule(reported) => if reported.Some? then reported.value else current
    case Fallback(receive, read) =>
      if receive.Some? && read.Some? then FallbackStatus(receive.value, read.value) else current
  }

  /** A status whose summary flag agrees with its two permissions. */
  predicate Consistent(s: PermissionStatus) {
    s.hasAllPermissions <==> s.receiveSMS && s.readSMS
  }

  /**
   * The fallback always yields a consistent status, so a check that falls
   * back keeps the status consistent; the native module's report is taken
   * as it is.
   */
  lemma FallbackKeepsConsistent(current: PermissionStatus, source: PermissionSource)
    requires Consistent(current)
    requires !source.NativeModule?
    ensures Consistent(CheckedStatus(current, source))
  {
  }

  /** All permissions are reported by the fallback only when both checks return GRANTED. */
  lemma FallbackAllOnlyIfGranted(current: PermissionStatus, receive: CheckResult, read: CheckResult)
    ensures CheckedStatus(current, Fallback(Some(receive), Some(read))).hasAllPermissions
        <==> receive == Granted && read == Granted
  {
  }

  class PermissionsHook {
    /** The `permissionStatus` state. */
    var status: PermissionStatus
    /** The `isLoading` state. */
    var isLoading: bool

    constructor ()
      ensures status == NoPermissions && !isLoading
    {
      status := NoPermissions;
      isLoading := false;
    }

    /**
     * `checkPermissions`: off Android it returns at once; otherwise it sets
     * the status from its source and always ends with `isLoading` false.
     */
    method CheckPermissions(source: PermissionSource)
      modifies this
      ensures status == CheckedStatus(old(status), source)
      ensures isLoading == if source.NotAndroid? then old(isLoading) else false
    {
      if source.NotAndroid? {
        return;
      }
      isLoading := true;
      match source {
        case NativeModule(reported) =>
          if reported.Some? {
            status := reported.value;
          }
        case Fallback(receive, read) =>
          if receive.Some? && read.Some? {
            var hasReceiveSMS := receive.value == Granted;
            var hasReadSMS := read.value == Granted;
            status := PermissionStatus(hasReceiveSMS, hasReadSMS, hasReceiveSMS && hasReadSMS);
          }
      }
      isLoading := false;
    }
  }
}
