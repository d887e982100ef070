/**
 * The protocol constants agreed with the Beepiz application: the package it is
 * installed under, the permission that guards it, the intent actions and the
 * integer codes carried in `Message.what` and `Message.arg1`.
 */
module BeepizBindingConstants {
  import opened Messages

  const PackageName: string := "net.suivideflotte.dati"
  const PermissionSuffix: string := ".permission.CONTROL_MONITORING"
  const Permission: string := PackageName + PermissionSuffix

  const BindAction: string := "bind_monitoring_state"
  const StartAction: string := "start_monitoring"
  const StopAction: string := "stop_monitoring"

  // Codes sent by the client in `what`.
  const REGISTER_CLIENT: int32 := 1
  const UNREGISTER_CLIENT: int32 := 0

  // Codes sent by Beepiz in `what`.
  const CURRENTLY_MONITORING: int32 := 1
  const CURRENTLY_NOT_MONITORING: int32 := 0

  // Codes sent by Beepiz in `arg1`.
  const ARG1_REQUIRES_CONFIG: int32 := 1
  const ARG1_CONFIG_OK: int32 := 0

  /** The permission lives in the Beepiz package's namespace: the package name, then a dot. */
  lemma PermissionIsScopedToPackage()
    ensures |Permission| > |PackageName|
    ensures Permission[..|PackageName|] == PackageName
    ensures Permission[|PackageName|] == '.'
    ensures Permission[|PackageName| + 1..] == "permission.CONTROL_MONITORING"
  {
    var rest := "permission.CONTROL_MONITORING";
    assert PermissionSuffix == ['.'] + rest;
    assert Permission == PackageName + ['.'] + rest;
  }

  /** Each message code has a single meaning within its direction and field. */
  lemma CodesAreDistinct()
    ensures REGISTER_CLIENT != UNREGISTER_CLIENT
    ensures CURRENTLY_MONITORING != CURRENTLY_NOT_MONITORING
    ensures ARG1_REQUIRES_CONFIG != ARG1_CONFIG_OK
  {
  }

  /** The three intent actions cannot be confused with one another. */
  lemma ActionsAreDistinct()
    ensures BindAction != StartAction
    ensures BindAction != StopAction
    ensures StartAction != StopAction
  {
  }
}
